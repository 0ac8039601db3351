/** The proposal and report queries of the persistence layer, as operations
    on the abstract store: inserts that fill column defaults and respect
    keys and uniqueness, targeted updates that touch only their columns, and
    ordered listings. */
module Db {
  import opened Wrappers
  import opened JsonValue
  import opened Schema
  import Seqs

  /** A statement the storage engine refuses. */
  datatype DbError = NotNullViolation(column: string) | UniqueViolation(column: string)

  /** A row written by an insert and the key it received. */
  datatype Inserted = Inserted(store: Store, key: int)

  // ---------------------------------------------------------------------
  // proposalQueries

  /** The object handed to `proposalQueries.insert`; `raw` is the whole
      object, stored as `proposal_data`. */
  datatype ProposalInput = ProposalInput(referendumIndex: Option<int>, title: Option<string>, info: ProposalInfo, raw: Json)

  /** Key an INTEGER PRIMARY KEY column receives when the insert leaves it
      null: one past the largest key in use, or 1 in an empty table. */
  function NextRowid(keys: set<int>): (k: int)
    ensures k !in keys
    ensures keys == {} ==> k == 1
  {
    if keys == {} then 1 else Seqs.MaxOf(keys) + 1
  }

  function InsertProposal(s: Store, p: ProposalInput): (r: Result<Inserted, DbError>)
    ensures r.Err? <==> p.title.None? || (p.referendumIndex.Some? && p.referendumIndex.value in s.proposals)
    ensures r.Ok? ==>
      var k := r.value.key;
      var t := r.value.store;
      && k !in s.proposals
      && (p.referendumIndex.Some? ==> k == p.referendumIndex.value)
      && t.proposals.Keys == s.proposals.Keys + {k}
      && k in t.proposals
      && t.proposals[k].index == k
      && Some(t.proposals[k].title) == p.title
      && t.proposals[k].info == p.info
      && t.proposals[k].data == p.raw
      && t.proposals[k].dkg.ual.None?
      && t.proposals[k].dkg.status == Some("not_published")
      && (forall j :: j in s.proposals ==> t.proposals[j] == s.proposals[j])
      && t.(proposals := s.proposals) == s
    ensures r.Ok? && Wf(s) ==> Wf(r.value.store)
    ensures r.Ok? && Consistent(s) ==> Consistent(r.value.store)
  {
    if p.title.None? then Err(NotNullViolation("title"))
    else if p.referendumIndex.Some? && p.referendumIndex.value in s.proposals then Err(UniqueViolation("referendum_index"))
    else
      var k := if p.referendumIndex.Some? then p.referendumIndex.value else NextRowid(s.proposals.Keys);
      var row := Proposal(k, p.title.value, p.info, UnpublishedProposal, p.raw);
      Ok(Inserted(s.(proposals := s.proposals[k := row]), k))
  }

  function ProposalByIndex(s: Store, index: int): (r: Option<Proposal>)
    ensures r.Some? <==> index in s.proposals
    ensures r.Some? ==> r.value == s.proposals[index]
  {
    if index in s.proposals then Some(s.proposals[index]) else None
  }

  /** Strictly decreasing `referendum_index` from first to last. */
  ghost predicate IndexDescending(ps: seq<Proposal>)
  {
    forall i, j :: 0 <= i < j < |ps| ==> ps[i].index > ps[j].index
  }

  /** `getAll`: every proposal, `ORDER BY referendum_index DESC`. */
  function AllProposals(s: Store): (r: seq<Proposal>)
    ensures |r| == |s.proposals|
    ensures forall i :: 0 <= i < |r| ==> r[i] in s.proposals.Values
    ensures forall k :: k in s.proposals ==> s.proposals[k] in r
    ensures Wf(s) ==> IndexDescending(r)
  {
    var keys := Seqs.DescendingKeys(s.proposals.Keys);
    var r := seq(|keys|, i requires 0 <= i < |keys| => s.proposals[keys[i]]);
    ProposalListingFacts(s, keys, r);
    r
  }

  lemma ProposalListingFacts(s: Store, keys: seq<int>, r: seq<Proposal>)
    requires forall i :: 0 <= i < |keys| ==> keys[i] in s.proposals
    requires forall k :: k in s.proposals ==> k in keys
    requires forall i, j :: 0 <= i < j < |keys| ==> keys[i] > keys[j]
    requires |r| == |keys| && forall i :: 0 <= i < |r| ==> r[i] == s.proposals[keys[i]]
    ensures forall i :: 0 <= i < |r| ==> r[i] in s.proposals.Values
    ensures forall k :: k in s.proposals ==> s.proposals[k] in r
    ensures Wf(s) ==> IndexDescending(r)
  {
    forall k | k in s.proposals ensures s.proposals[k] in r {
      var i :| 0 <= i < |keys| && keys[i] == k;
      assert r[i] == s.proposals[k];
    }
    if Wf(s) {
      forall i, j | 0 <= i < j < |r| ensures r[i].index > r[j].index {
        assert r[i].index == keys[i] && r[j].index == keys[j];
      }
    }
  }

  predicate HasUal(p: Proposal)
  {
    p.dkg.ual.Some?
  }

  /** `getPublished`: the proposals whose `ual` is not null, in the same
      descending order. */
  function PublishedProposals(s: Store): (r: seq<Proposal>)
  {
    Seqs.Filter(AllProposals(s), HasUal)
  }

  /** `getPublished` lists exactly the proposals with a UAL, highest
      referendum index first. */
  lemma PublishedProposalsSpec(s: Store)
    requires Wf(s)
    ensures forall i :: 0 <= i < |PublishedProposals(s)| ==>
      PublishedProposals(s)[i].dkg.ual.Some? && PublishedProposals(s)[i] in s.proposals.Values
    ensures forall k :: k in s.proposals && s.proposals[k].dkg.ual.Some? ==> s.proposals[k] in PublishedProposals(s)
    ensures IndexDescending(PublishedProposals(s))
  {
    var all := AllProposals(s);
    FilterPublished(all);
    PublishedFromAll(s, all, Seqs.Filter(all, HasUal));
  }

  lemma PublishedFromAll(s: Store, all: seq<Proposal>, pub: seq<Proposal>)
    requires forall i :: 0 <= i < |all| ==> all[i] in s.proposals.Values
    requires forall k :: k in s.proposals ==> s.proposals[k] in all
    requires forall i :: 0 <= i < |pub| ==> pub[i].dkg.ual.Some? && pub[i] in all
    requires forall i :: 0 <= i < |all| && all[i].dkg.ual.Some? ==> all[i] in pub
    ensures forall i :: 0 <= i < |pub| ==> pub[i].dkg.ual.Some? && pub[i] in s.proposals.Values
    ensures forall k :: k in s.proposals && s.proposals[k].dkg.ual.Some? ==> s.proposals[k] in pub
  {
    forall k | k in s.proposals && s.proposals[k].dkg.ual.Some? ensures s.proposals[k] in pub {
      var i :| 0 <= i < |all| && all[i] == s.proposals[k];
    }
  }

  lemma FilterPublished(all: seq<Proposal>)
    requires IndexDescending(all)
    ensures forall i :: 0 <= i < |Seqs.Filter(all, HasUal)| ==>
      Seqs.Filter(all, HasUal)[i].dkg.ual.Some? && Seqs.Filter(all, HasUal)[i] in all
    ensures forall i :: 0 <= i < |all| && all[i].dkg.ual.Some? ==> all[i] in Seqs.Filter(all, HasUal)
    ensures IndexDescending(Seqs.Filter(all, HasUal))
  {
    var r := Seqs.Filter(all, HasUal);
    var before := (a: Proposal, b: Proposal) => a.index > b.index;
    assert Seqs.PairwiseOrdered(all, before) by {
      forall i, j | 0 <= i < j < |all| ensures before(all[i], all[j]) {
        assert all[i].index > all[j].index;
      }
    }
    Seqs.FilterKeepsOrder(all, HasUal, before);
    forall i, j | 0 <= i < j < |r| ensures r[i].index > r[j].index {
      assert before(r[i], r[j]);
    }
    forall i | 0 <= i < |all| && all[i].dkg.ual.Some? ensures all[i] in r {
      assert HasUal(all[i]);
    }
  }

  /** `updateDKGStatus`: sets the six DKG columns of one proposal. */
  function UpdateDkgStatus(s: Store, index: int, ual: Option<string>, assetId: Option<string>, txHash: Option<string>,
                           status: Option<string>, explorerUrl: Option<string>, now: Timestamp): (r: Result<Store, DbError>)
    ensures r.Err? <==> (index in s.proposals && ual.Some? &&
                         exists j :: j in s.proposals && j != index && s.proposals[j].dkg.ual == ual)
    ensures r.Ok? && index !in s.proposals ==> r.value == s
    ensures r.Ok? && index in s.proposals ==>
      var t := r.value;
      var p := s.proposals[index];
      && t.proposals.Keys == s.proposals.Keys
      && var q := t.proposals[index];
      && q.index == p.index && q.title == p.title && q.info == p.info && q.data == p.data
      && q.dkg.ual == ual && q.dkg.assetId == assetId && q.dkg.txHash == txHash
      && q.dkg.status == status && q.dkg.explorerUrl == explorerUrl && q.dkg.publishedAt == Some(now)
      && (forall j :: j in s.proposals && j != index ==> t.proposals[j] == s.proposals[j])
      && t.(proposals := s.proposals) == s
    ensures r.Ok? && Wf(s) ==> Wf(r.value)
    ensures r.Ok? && Consistent(s) ==> Consistent(r.value)
  {
    if index !in s.proposals then Ok(s)
    else if ual.Some? && exists j :: j in s.proposals && j != index && s.proposals[j].dkg.ual == ual then
      Err(UniqueViolation("ual"))
    else
      var p := s.proposals[index];
      var p' := p.(dkg := ProposalDkg(ual, assetId, txHash, status, explorerUrl, Some(now)));
      Ok(s.(proposals := s.proposals[index := p']))
  }

  // ---------------------------------------------------------------------
  // reportQueries

  /** The object callers hand to `reportQueries.insert`, including the
      premium and private fields the submit route passes along. */
  datatype ReportInput = ReportInput(
    referendumIndex: Option<int>,
    submitter: Option<string>,
    name: Option<string>,
    jsonld: Option<Json>,
    sizeBytes: Option<nat>,
    requiredPayment: Option<int>,
    paymentAddress: Option<string>,
    premium: PremiumTerms,
    priv: PrivatePart)

  /** The NOT NULL columns `referendum_index`, `submitter_wallet`, `jsonld_data`. */
  predicate RequiredColumnsSet(input: ReportInput)
  {
    input.referendumIndex.Some? && input.submitter.Some? && input.jsonld.Some?
  }

  function FirstMissingColumn(input: ReportInput): (c: string)
    requires !RequiredColumnsSet(input)
  {
    if input.referendumIndex.None? then "referendum_index"
    else if input.submitter.None? then "submitter_wallet"
    else "jsonld_data"
  }

  /** `reportQueries.insert`: writes only its seven listed columns; every
      other column, the premium and private ones included, takes its
      default. */
  function InsertReport(s: Store, input: ReportInput, now: Timestamp): (r: Result<Inserted, DbError>)
    ensures r.Err? <==> !RequiredColumnsSet(input)
    ensures r.Ok? ==>
      var id := r.value.key;
      var t := r.value.store;
      && id == s.nextReportId
      && (Wf(s) ==> id !in s.reports)
      && t.nextReportId == s.nextReportId + 1
      && t.reports.Keys == s.reports.Keys + {id}
      && id in t.reports
      && (Wf(s) ==> forall j :: j in s.reports ==> t.reports[j] == s.reports[j])
  ensures r.Ok? ==>
      var id := r.value.key;
      var t := r.value.store;
      id in t.reports &&
      var row := t.reports[id];
      && row.id == id
      && Some(row.referendumIndex) == input.referendumIndex
      && Some(row.submitter) == input.submitter
      && row.name == input.name
      && Some(row.content.jsonld) == input.jsonld
      && row.content.sizeBytes == input.sizeBytes
      && row.legacy.requiredPayment == input.requiredPayment
      && row.legacy.paymentAddress == input.paymentAddress
      && !row.legacy.confirmed
      && row.premium == NotPremium
      && row.priv == NoPrivatePart
      && row.verification.status == Pending && row.verification == Unverified
      && row.publication == Unpublished
      && row.submittedAt == now
      && t.proposals == s.proposals && t.access == s.access && t.mappings == s.mappings
    ensures r.Ok? && Wf(s) ==> Wf(r.value.store)
    ensures r.Ok? && Consistent(s) && input.referendumIndex.value in s.proposals ==> Consistent(r.value.store)
  {
    if !RequiredColumnsSet(input) then Err(NotNullViolation(FirstMissingColumn(input)))
    else
      var id := s.nextReportId;
      var row := Report(id, input.referendumIndex.value, input.submitter.value, input.name,
                        Content(input.jsonld.value, input.sizeBytes),
                        LegacyPayment(input.requiredPayment, input.paymentAddress, false),
                        NotPremium, NoPrivatePart, Unverified, Unpublished, now);
      Ok(Inserted(s.(reports := s.reports[id := row], nextReportId := id + 1), id))
  }

  /** Strictly decreasing report id from first to last. */
  ghost predicate IdDescending(rs: seq<Report>)
  {
    forall i, j :: 0 <= i < j < |rs| ==> rs[i].id > rs[j].id
  }

  /** `reportQueries.getAll`: every report, newest first. */
  function AllReports(s: Store): (r: seq<Report>)
    ensures |r| == |s.reports|
    ensures forall i :: 0 <= i < |r| ==> r[i] in s.reports.Values
    ensures forall k :: k in s.reports ==> s.reports[k] in r
    ensures Wf(s) ==> IdDescending(r)
  {
    var keys := Seqs.DescendingKeys(s.reports.Keys);
    var r := seq(|keys|, i requires 0 <= i < |keys| => s.reports[keys[i]]);
    ReportListingFacts(s, keys, r);
    r
  }

  lemma ReportListingFacts(s: Store, keys: seq<int>, r: seq<Report>)
    requires forall i :: 0 <= i < |keys| ==> keys[i] in s.reports
    requires forall k :: k in s.reports ==> k in keys
    requires forall i, j :: 0 <= i < j < |keys| ==> keys[i] > keys[j]
    requires |r| == |keys| && forall i :: 0 <= i < |r| ==> r[i] == s.reports[keys[i]]
    ensures forall i :: 0 <= i < |r| ==> r[i] in s.reports.Values
    ensures forall k :: k in s.reports ==> s.reports[k] in r
    ensures Wf(s) ==> IdDescending(r)
  {
    forall k | k in s.reports ensures s.reports[k] in r {
      var i :| 0 <= i < |keys| && keys[i] == k;
      assert r[i] == s.reports[k];
    }
    if Wf(s) {
      forall i, j | 0 <= i < j < |r| ensures r[i].id > r[j].id {
        assert r[i].id == keys[i] && r[j].id == keys[j];
      }
    }
  }

  /** `getByProposal`: the reports of one proposal, newest first. */
  function ReportsByProposal(s: Store, index: int): (r: seq<Report>)
    ensures forall i :: 0 <= i < |r| ==> r[i].referendumIndex == index && r[i] in s.reports.Values
    ensures forall k :: k in s.reports && s.reports[k].referendumIndex == index ==> s.reports[k] in r
    ensures Wf(s) ==> IdDescending(r)
  {
    var all := AllReports(s);
    var r := Seqs.Filter(all, (rep: Report) => rep.referendumIndex == index);
    assert Wf(s) ==> IdDescending(r) by {
      if Wf(s) {
        FilterKeepsIdOrder(all, (rep: Report) => rep.referendumIndex == index);
      }
    }
    r
  }

  /** A filtered listing keeps decreasing ids. */
  lemma FilterKeepsIdOrder(all: seq<Report>, keep: Report -> bool)
    requires IdDescending(all)
    ensures IdDescending(Seqs.Filter(all, keep))
  {
    var r := Seqs.Filter(all, keep);
    var before := (a: Report, b: Report) => a.id > b.id;
    assert Seqs.PairwiseOrdered(all, before) by {
      forall i, j | 0 <= i < j < |all| ensures before(all[i], all[j]) {
        assert all[i].id > all[j].id;
      }
    }
    Seqs.FilterKeepsOrder(all, keep, before);
    forall i, j | 0 <= i < j < |r| ensures r[i].id > r[j].id {
      assert before(r[i], r[j]);
    }
  }

  /** Every column of `b` other than the verification ones equals `a`'s. */
  predicate SameExceptVerification(a: Report, b: Report)
  {
    && a.id == b.id && a.referendumIndex == b.referendumIndex && a.submitter == b.submitter
    && a.name == b.name && a.content == b.content && a.legacy == b.legacy && a.premium == b.premium
    && a.priv == b.priv && a.publication == b.publication && a.submittedAt == b.submittedAt
  }

  /** `updateVerification`: status, confidence, reasoning, the issue list
      (an absent list stored as `[]`) and the verification time of one
      report. */
  function UpdateVerification(s: Store, id: int, status: VerificationStatus, confidence: Option<real>,
                              reasoning: Option<string>, issues: Option<seq<string>>, now: Timestamp): (t: Store)
    ensures id !in s.reports ==> t == s
    ensures id in s.reports ==>
      && t.reports.Keys == s.reports.Keys
      && var v := t.reports[id].verification;
      && SameExceptVerification(s.reports[id], t.reports[id])
      && v.status == status && v.confidence == confidence && v.reasoning == reasoning
      && v.issues == Some(if issues.Some? then issues.value else [])
      && v.verifiedAt == Some(now)
      && (forall j :: j in s.reports && j != id ==> t.reports[j] == s.reports[j])
      && t.(reports := s.reports) == s
    ensures Wf(s) ==> Wf(t)
    ensures Consistent(s) ==> Consistent(t)
  {
    if id !in s.reports then s
    else
      var v := VerificationRecord(status, confidence, reasoning, Some(issues.GetOr([])), Some(now));
      s.(reports := s.reports[id := s.reports[id].(verification := v)])
  }

  /** Every column of `b` other than the publication ones equals `a`'s. */
  predicate SameExceptPublication(a: Report, b: Report)
  {
    && a.id == b.id && a.referendumIndex == b.referendumIndex && a.submitter == b.submitter
    && a.name == b.name && a.content == b.content && a.legacy == b.legacy && a.premium == b.premium
    && a.priv == b.priv && a.verification == b.verification && a.submittedAt == b.submittedAt
  }

  /** Another report already carries `ual` as its `report_ual`. */
  predicate ReportUalTaken(s: Store, id: int, ual: Option<string>)
  {
    ual.Some? && exists j :: j in s.reports && j != id && s.reports[j].publication.ual == ual
  }

  /** `updateDKGPublication`: the UAL, asset id, transaction hash, explorer
      URL and publication time of one report; refused when the UAL belongs
      to another report. */
  function UpdateDkgPublication(s: Store, id: int, ual: Option<string>, assetId: Option<string>,
                                txHash: Option<string>, explorerUrl: Option<string>, now: Timestamp): (r: Result<Store, DbError>)
    ensures r.Err? <==> id in s.reports && ReportUalTaken(s, id, ual)
    ensures r.Ok? && id !in s.reports ==> r.value == s
    ensures r.Ok? && id in s.reports ==>
      var t := r.value;
      && t.reports.Keys == s.reports.Keys
      && var pub := t.reports[id].publication;
      && SameExceptPublication(s.reports[id], t.reports[id])
      && pub.ual == ual && pub.assetId == assetId && pub.txHash == txHash
      && pub.explorerUrl == explorerUrl && pub.publishedAt == Some(now)
      && (forall j :: j in s.reports && j != id ==> t.reports[j] == s.reports[j])
      && t.(reports := s.reports) == s
    ensures r.Ok? && Wf(s) ==> Wf(r.value)
    ensures r.Ok? && Consistent(s) ==> Consistent(r.value)
  {
    if id !in s.reports then Ok(s)
    else if ReportUalTaken(s, id, ual) then Err(UniqueViolation("report_ual"))
    else
      var pub := Publication(ual, assetId, txHash, explorerUrl, Some(now));
      Ok(s.(reports := s.reports[id := s.reports[id].(publication := pub)]))
  }
}
