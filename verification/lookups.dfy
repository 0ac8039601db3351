/** The storage helpers the report routes call beyond the proposal and report
    queries of the persistence layer: report by id, the fuller report
    insert the submit route performs, the premium-access table
    (look up, request, grant, check), the UAL-mapping table and the
    per-proposal and per-user listings. Their SQL is not part of this model;
    each is stated as the obvious operation on the store. */
module Lookups {
  import opened Wrappers
  import opened JsonValue
  import opened Schema
  import Seqs
  import Db

  /** `reportQueries.getById(parseInt(param))`: a `NaN` id finds nothing. */
  function ReportById(s: Store, id: Option<int>): (r: Option<Report>)
    ensures r.Some? <==> id.Some? && id.value in s.reports
    ensures r.Some? ==> r.value == s.reports[id.value]
  {
    if id.Some? && id.value in s.reports then Some(s.reports[id.value]) else None
  }

  // ---------------------------------------------------------------------
  // The report insert of the submit route

  /** The columns the submit route writes. */
  datatype Submission = Submission(
    referendumIndex: int,
    submitter: string,
    name: string,
    jsonld: Json,
    sizeBytes: nat,
    priv: PrivatePart,
    premium: PremiumTerms)

  /** Inserts a submitted report under the next AUTOINCREMENT id, with the
      legacy fee set to 0 and no payment address, status `pending` and
      nothing published. */
  function InsertSubmitted(s: Store, sub: Submission, now: Timestamp): (r: Db.Inserted)
    ensures r.key == s.nextReportId && r.store.nextReportId == s.nextReportId + 1
    ensures Wf(s) ==> r.key !in s.reports
    ensures r.store.reports.Keys == s.reports.Keys + {r.key}
    ensures r.key in r.store.reports
    ensures Wf(s) ==> forall j :: j in s.reports ==> r.store.reports[j] == s.reports[j]
    ensures r.store.proposals == s.proposals && r.store.access == s.access && r.store.mappings == s.mappings
    ensures r.store.nextAccessId == s.nextAccessId
    ensures r.key in r.store.reports &&
      var row := r.store.reports[r.key];
      && row.id == r.key && row.referendumIndex == sub.referendumIndex && row.submitter == sub.submitter
      && row.name == Some(sub.name) && row.content == Content(sub.jsonld, Some(sub.sizeBytes))
      && row.legacy == LegacyPayment(Some(0), None, false)
      && row.premium == sub.premium && row.priv == sub.priv
      && row.verification == Unverified && row.publication == Unpublished
      && row.submittedAt == now
    ensures Wf(s) ==> Wf(r.store)
    ensures Consistent(s) && sub.referendumIndex in s.proposals ==> Consistent(r.store)
  {
    var id := s.nextReportId;
    var row := Report(id, sub.referendumIndex, sub.submitter, Some(sub.name), Content(sub.jsonld, Some(sub.sizeBytes)),
                      LegacyPayment(Some(0), None, false), sub.premium, sub.priv, Unverified, Unpublished, now);
    Db.Inserted(s.(reports := s.reports[id := row], nextReportId := id + 1), id)
  }

  // ---------------------------------------------------------------------
  // premium_access

  predicate Matches(a: AccessRecord, reportId: int, wallet: string)
  {
    a.reportId == reportId && a.wallet == wallet
  }

  /** `checkUserAccess`: some access record of this (report, wallet) pair is granted. */
  predicate HasAccess(s: Store, reportId: int, wallet: string)
  {
    exists k :: k in s.access && Matches(s.access[k], reportId, wallet) && s.access[k].granted
  }

  /** Key of the first (lowest id) access record of a (report, wallet) pair,
      the row `getAccessRecord` returns. */
  function AccessKeyFor(s: Store, reportId: int, wallet: string): (r: Option<int>)
    ensures r.None? <==> forall k :: k in s.access ==> !Matches(s.access[k], reportId, wallet)
    ensures r.Some? ==> r.value in s.access && Matches(s.access[r.value], reportId, wallet)
    ensures r.Some? ==> forall k :: k in s.access && Matches(s.access[k], reportId, wallet) ==> r.value <= k
  {
    var keys := set k | k in s.access && Matches(s.access[k], reportId, wallet);
    var r := Seqs.LowestKey(keys);
    assert r.None? ==> forall k :: k in s.access ==> !Matches(s.access[k], reportId, wallet) by {
      if r.None? {
        forall k | k in s.access ensures !Matches(s.access[k], reportId, wallet) {
          assert k !in keys;
        }
      }
    }
    assert r.Some? ==> forall k :: k in s.access && Matches(s.access[k], reportId, wallet) ==> r.value <= k by {
      if r.Some? {
        forall k | k in s.access && Matches(s.access[k], reportId, wallet) ensures r.value <= k {
          assert k in keys;
        }
      }
    }
    r
  }

  /** `premiumAccessQueries.getAccessRecord`. */
  function AccessRecordFor(s: Store, reportId: int, wallet: string): (r: Option<AccessRecord>)
    ensures r.None? <==> forall k :: k in s.access ==> !Matches(s.access[k], reportId, wallet)
    ensures r.Some? ==> r.value in s.access.Values && Matches(r.value, reportId, wallet)
  {
    var key := AccessKeyFor(s, reportId, wallet);
    if key.Some? then Some(s.access[key.value]) else None
  }

  /** Under the one-record-per-pair invariant, checking access is reading
      the grant flag of the record `getAccessRecord` returns. */
  lemma HasAccessIsRecordGranted(s: Store, reportId: int, wallet: string)
    requires Consistent(s)
    ensures HasAccess(s, reportId, wallet) <==>
      AccessRecordFor(s, reportId, wallet).Some? && AccessRecordFor(s, reportId, wallet).value.granted
  {
    var key := AccessKeyFor(s, reportId, wallet);
    if HasAccess(s, reportId, wallet) {
      var k :| k in s.access && Matches(s.access[k], reportId, wallet) && s.access[k].granted;
      assert key.Some?;
      if key.value != k {
        assert false;
      }
    }
  }

  /** `premiumAccessQueries.requestAccess`: a new, not yet granted record
      under the next id. */
  function InsertAccess(s: Store, reportId: int, wallet: string, signature: Option<string>, message: Option<string>,
                        paidCents: Option<int>, txHash: Option<string>): (r: Db.Inserted)
    ensures r.key == s.nextAccessId && r.store.nextAccessId == s.nextAccessId + 1
    ensures Wf(s) ==> r.key !in s.access
    ensures r.store.access.Keys == s.access.Keys + {r.key}
    ensures r.key in r.store.access &&
      r.store.access[r.key] == AccessRecord(r.key, reportId, wallet, signature, message, paidCents, txHash, false)
    ensures forall j :: j in s.access && j != r.key ==> r.store.access[j] == s.access[j]
    ensures Wf(s) ==> forall j :: j in s.access ==> r.store.access[j] == s.access[j]
    ensures r.store.(access := s.access, nextAccessId := s.nextAccessId) == s
    ensures Wf(s) ==> Wf(r.store)
    ensures Consistent(s) && AccessKeyFor(s, reportId, wallet).None? ==> Consistent(r.store)
  {
    var id := s.nextAccessId;
    var rec := AccessRecord(id, reportId, wallet, signature, message, paidCents, txHash, false);
    Db.Inserted(s.(access := s.access[id := rec], nextAccessId := id + 1), id)
  }

  /** `premiumAccessQueries.grantAccess`: sets the grant flag of one record;
      an unknown id changes nothing. */
  function GrantAccess(s: Store, accessId: int): (t: Store)
    ensures accessId !in s.access ==> t == s
    ensures accessId in s.access ==>
      && t.access.Keys == s.access.Keys
      && t.access[accessId] == s.access[accessId].(granted := true)
      && (forall j :: j in s.access && j != accessId ==> t.access[j] == s.access[j])
      && t.(access := s.access) == s
    ensures Wf(s) ==> Wf(t)
    ensures Consistent(s) ==> Consistent(t)
  {
    if accessId in s.access then s.(access := s.access[accessId := s.access[accessId].(granted := true)]) else s
  }

  /** Granting the record of a pair gives the pair access. */
  lemma GrantGivesAccess(s: Store, accessId: int)
    requires accessId in s.access
    ensures HasAccess(GrantAccess(s, accessId), s.access[accessId].reportId, s.access[accessId].wallet)
  {
    var t := GrantAccess(s, accessId);
    assert Matches(t.access[accessId], s.access[accessId].reportId, s.access[accessId].wallet);
  }

  /** The report whose private part carries `hash`: the first such row,
      which is what the private-data route's `SELECT ... .get()` returns. */
  function ReportByPrivateHash(s: Store, hash: string): (r: Option<Report>)
    ensures r.None? <==> forall k :: k in s.reports ==> s.reports[k].priv.hash != Some(hash)
    ensures r.Some? ==> r.value in s.reports.Values && r.value.priv.hash == Some(hash)
  {
    var keys := set k | k in s.reports && s.reports[k].priv.hash == Some(hash);
    var r := Seqs.LowestKey(keys);
    if r.None? then
      assert forall k :: k in s.reports ==> s.reports[k].priv.hash != Some(hash) by {
        forall k | k in s.reports ensures s.reports[k].priv.hash != Some(hash) {
          assert k !in keys;
        }
      }
      None
    else Some(s.reports[r.value])
  }

  /** `premiumAccessQueries.getAccessByUser`: the records bought by one wallet, newest first. */
  function AccessByUser(s: Store, wallet: string): (r: seq<AccessRecord>)
    ensures forall i :: 0 <= i < |r| ==> r[i].wallet == wallet && r[i] in s.access.Values
    ensures forall k :: k in s.access && s.access[k].wallet == wallet ==> s.access[k] in r
  {
    var owned := set k | k in s.access && s.access[k].wallet == wallet;
    var keys := Seqs.DescendingKeys(owned);
    var r := seq(|keys|, i requires 0 <= i < |keys| => s.access[keys[i]]);
    AccessListingFacts(s, wallet, owned, keys, r);
    r
  }

  lemma AccessListingFacts(s: Store, wallet: string, owned: set<int>, keys: seq<int>, r: seq<AccessRecord>)
    requires owned == set k | k in s.access && s.access[k].wallet == wallet
    requires forall i :: 0 <= i < |keys| ==> keys[i] in owned
    requires forall k :: k in owned ==> k in keys
    requires |r| == |keys| && forall i :: 0 <= i < |keys| ==> r[i] == s.access[keys[i]]
    ensures forall i :: 0 <= i < |r| ==> r[i].wallet == wallet && r[i] in s.access.Values
    ensures forall k :: k in s.access && s.access[k].wallet == wallet ==> s.access[k] in r
  {
    forall i | 0 <= i < |r| ensures r[i].wallet == wallet && r[i] in s.access.Values {
      assert keys[i] in owned;
    }
    forall k | k in s.access && s.access[k].wallet == wallet ensures s.access[k] in r {
      assert k in owned;
      var i :| 0 <= i < |keys| && keys[i] == k;
      assert r[i] == s.access[k];
    }
  }

  // ---------------------------------------------------------------------
  // Report listings and UAL mappings

  predicate PremiumOf(index: int, rep: Report)
  {
    rep.premium.isPremium && rep.referendumIndex == index
  }

  /** `reportQueries.getPremiumByProposal`: the premium reports of one proposal, newest first. */
  function PremiumByProposal(s: Store, index: int): (r: seq<Report>)
    ensures forall i :: 0 <= i < |r| ==> PremiumOf(index, r[i]) && r[i] in s.reports.Values
    ensures forall k :: k in s.reports && PremiumOf(index, s.reports[k]) ==> s.reports[k] in r
  {
    var all := Db.AllReports(s);
    var keep := (rep: Report) => PremiumOf(index, rep);
    var r := Seqs.Filter(all, keep);
    PremiumListingFacts(s, all, keep, r, index);
    r
  }

  lemma PremiumListingFacts(s: Store, all: seq<Report>, keep: Report -> bool, r: seq<Report>, index: int)
    requires forall rep :: keep(rep) == PremiumOf(index, rep)
    requires forall i :: 0 <= i < |all| ==> all[i] in s.reports.Values
    requires forall k :: k in s.reports ==> s.reports[k] in all
    requires r == Seqs.Filter(all, keep)
    ensures forall i :: 0 <= i < |r| ==> PremiumOf(index, r[i]) && r[i] in s.reports.Values
    ensures forall k :: k in s.reports && PremiumOf(index, s.reports[k]) ==> s.reports[k] in r
  {
    forall i | 0 <= i < |r| ensures PremiumOf(index, r[i]) && r[i] in s.reports.Values {
      assert r[i] in all && keep(r[i]);
      var j :| 0 <= j < |all| && all[j] == r[i];
    }
    forall k | k in s.reports && PremiumOf(index, s.reports[k]) ensures s.reports[k] in r {
      var i :| 0 <= i < |all| && all[i] == s.reports[k];
      assert keep(all[i]);
    }
  }

  /** `ualMappingQueries.createMapping`: appends one link. */
  function CreateMapping(s: Store, proposalUal: string, reportId: int, reportUal: Option<string>): (t: Store)
    ensures t.mappings == s.mappings + [UalMapping(proposalUal, reportId, reportUal)]
    ensures t.(mappings := s.mappings) == s
    ensures Wf(s) ==> Wf(t)
    ensures Consistent(s) ==> Consistent(t)
  {
    s.(mappings := s.mappings + [UalMapping(proposalUal, reportId, reportUal)])
  }

  /** `ualMappingQueries.getByProposalUAL`: the reports linked to a proposal
      UAL, in the order the links were made; links to a report no longer in
      the table are skipped. */
  function LinkedReports(s: Store, ms: seq<UalMapping>, proposalUal: string): (r: seq<Report>)
    ensures |r| <= |ms|
    ensures forall i :: 0 <= i < |r| ==> r[i] in s.reports.Values
    ensures forall i :: 0 <= i < |ms| && ms[i].proposalUal == proposalUal && ms[i].reportId in s.reports ==>
      s.reports[ms[i].reportId] in r
  {
    if |ms| == 0 then []
    else
      var rest := LinkedReports(s, ms[1..], proposalUal);
      var m := ms[0];
      var r := if m.proposalUal == proposalUal && m.reportId in s.reports then [s.reports[m.reportId]] + rest else rest;
      assert forall i :: 1 <= i < |ms| ==> ms[i] == ms[1..][i - 1];
      r
  }

  /** Link `j` of `ms` ties `proposalUal` to a stored report. */
  predicate LinkedAt(s: Store, ms: seq<UalMapping>, proposalUal: string, j: int)
  {
    0 <= j < |ms| && ms[j].proposalUal == proposalUal && ms[j].reportId in s.reports
  }

  /** Every report listed for a proposal UAL is the stored report of one of
      its links. */
  lemma {:induction false} LinkedReportsAreLinked(s: Store, ms: seq<UalMapping>, proposalUal: string, i: int)
    requires 0 <= i < |LinkedReports(s, ms, proposalUal)|
    ensures exists j :: LinkedAt(s, ms, proposalUal, j) && s.reports[ms[j].reportId] == LinkedReports(s, ms, proposalUal)[i]
  {
    var rest := LinkedReports(s, ms[1..], proposalUal);
    var r := LinkedReports(s, ms, proposalUal);
    if ms[0].proposalUal == proposalUal && ms[0].reportId in s.reports {
      if i == 0 {
        assert LinkedAt(s, ms, proposalUal, 0) && s.reports[ms[0].reportId] == r[0];
      } else {
        assert r[i] == rest[i - 1];
        LinkedReportsAreLinked(s, ms[1..], proposalUal, i - 1);
        var j :| LinkedAt(s, ms[1..], proposalUal, j) && s.reports[ms[1..][j].reportId] == rest[i - 1];
        assert ms[j + 1] == ms[1..][j];
        assert LinkedAt(s, ms, proposalUal, j + 1);
      }
    } else {
      assert r[i] == rest[i];
      LinkedReportsAreLinked(s, ms[1..], proposalUal, i);
      var j :| LinkedAt(s, ms[1..], proposalUal, j) && s.reports[ms[1..][j].reportId] == rest[i];
      assert ms[j + 1] == ms[1..][j];
      assert LinkedAt(s, ms, proposalUal, j + 1);
    }
  }
}
