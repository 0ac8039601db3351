/** The read-only routes of the premium reports API: the premium reports of
    a proposal, the reports linked to a proposal UAL, a wallet's access
    records, and the private data of a report looked up by its hash. The
    listings show a report in full only to a wallet that has access to it,
    and a redacted summary otherwise. The wallet is what the optional (or,
    for the access records, mandatory) wallet authentication put on the
    request; that middleware is not part of this model. */
module ReadRoutes {
  import opened Wrappers
  import opened Text
  import opened JsonValue
  import opened Schema
  import opened Config
  import Lookups
  import AccessControl
  import AccessRoutes

  /** A report as a listing shows it: its summary, or all of it. */
  datatype View<M> = Redacted(meta: M) | Full(report: Report)

  /** The caller's wallet is set and has been granted access to the report. */
  predicate Unlocked(s: Store, rep: Report, wallet: Option<string>)
  {
    Present(wallet) && Lookups.HasAccess(s, rep.id, wallet.value)
  }

  /** One report as a listing shows it to `wallet`. */
  function ViewOf<M>(s: Store, rep: Report, wallet: Option<string>, meta: Report -> M): (v: View<M>)
    ensures v.Full? <==> Unlocked(s, rep, wallet)
    ensures v.Full? ==> v.report == rep
    ensures v.Redacted? ==> v.meta == meta(rep)
  {
    if Unlocked(s, rep, wallet) then Full(rep) else Redacted(meta(rep))
  }

  /** Each report of `reps`, in order, as shown to `wallet`. */
  function Views<M>(s: Store, reps: seq<Report>, wallet: Option<string>, meta: Report -> M): (r: seq<View<M>>)
    ensures |r| == |reps|
    ensures forall i :: 0 <= i < |r| ==> r[i] == ViewOf(s, reps[i], wallet, meta)
  {
    seq(|reps|, i requires 0 <= i < |reps| => ViewOf(s, reps[i], wallet, meta))
  }

  lemma ViewsShow<M>(s: Store, reps: seq<Report>, wallet: Option<string>, meta: Report -> M, rep: Report)
    requires rep in reps
    ensures ViewOf(s, rep, wallet, meta) in Views(s, reps, wallet, meta)
  {
    var i :| 0 <= i < |reps| && reps[i] == rep;
    assert Views(s, reps, wallet, meta)[i] == ViewOf(s, rep, wallet, meta);
  }

  // ---------------------------------------------------------------------
  // GET /proposal/:index

  /** The metadata a proposal listing shows without access. */
  datatype ListingMeta = ListingMeta(
    id: int,
    name: Option<string>,
    referendumIndex: int,
    authorType: Option<AuthorType>,
    priceCents: Option<int>,
    sizeBytes: Option<nat>,
    status: VerificationStatus,
    ual: Option<string>,
    submittedAt: Timestamp)

  function ListingMetaOf(rep: Report): ListingMeta
  {
    ListingMeta(rep.id, rep.name, rep.referendumIndex, rep.premium.authorType, rep.premium.priceCents,
                rep.content.sizeBytes, rep.verification.status, rep.publication.ual, rep.submittedAt)
  }

  /** The premium reports of the proposal `parseInt(indexParam)`, newest
      first; an index that does not parse (`NaN`) matches no row. */
  function ProposalListing(s: Store, indexParam: string, wallet: Option<string>): (r: seq<View<ListingMeta>>)
    ensures ParseInt(indexParam).None? ==> r == []
    ensures ParseInt(indexParam).Some? ==>
      && var index := ParseInt(indexParam).value;
      && (forall i :: 0 <= i < |r| && r[i].Full? ==>
            r[i].report in s.reports.Values && Lookups.PremiumOf(index, r[i].report) && Unlocked(s, r[i].report, wallet))
      && (forall k :: k in s.reports && Lookups.PremiumOf(index, s.reports[k]) ==>
            ViewOf(s, s.reports[k], wallet, ListingMetaOf) in r)
      && (forall i :: 0 <= i < |r| ==> ListedEntry(s, index, wallet, r[i]))
  {
    match ParseInt(indexParam)
    case None => []
    case Some(index) =>
      var reps := Lookups.PremiumByProposal(s, index);
      var r := Views(s, reps, wallet, ListingMetaOf);
      ListingEntries(s, index, wallet, reps, r);
      r
  }

  /** The views of the premium reports of proposal `index` are those
      reports' views and nothing else. */
  lemma ListingEntries(s: Store, index: int, wallet: Option<string>, reps: seq<Report>, r: seq<View<ListingMeta>>)
    requires forall i :: 0 <= i < |reps| ==> Lookups.PremiumOf(index, reps[i]) && reps[i] in s.reports.Values
    requires forall k :: k in s.reports && Lookups.PremiumOf(index, s.reports[k]) ==> s.reports[k] in reps
    requires r == Views(s, reps, wallet, ListingMetaOf)
    ensures forall i :: 0 <= i < |r| && r[i].Full? ==>
      r[i].report in s.reports.Values && Lookups.PremiumOf(index, r[i].report) && Unlocked(s, r[i].report, wallet)
    ensures forall k :: k in s.reports && Lookups.PremiumOf(index, s.reports[k]) ==>
      ViewOf(s, s.reports[k], wallet, ListingMetaOf) in r
    ensures forall i :: 0 <= i < |r| ==> ListedEntry(s, index, wallet, r[i])
  {
    forall k | k in s.reports && Lookups.PremiumOf(index, s.reports[k])
      ensures ViewOf(s, s.reports[k], wallet, ListingMetaOf) in r
    {
      ViewsShow(s, reps, wallet, ListingMetaOf, s.reports[k]);
    }
    forall i | 0 <= i < |r| ensures ListedEntry(s, index, wallet, r[i]) {
      assert ListedAs(s, index, reps[i], wallet, r[i]);
    }
  }

  /** `v` is how the listing of proposal `index` shows one of its stored
      premium reports to `wallet`. */
  ghost predicate ListedEntry(s: Store, index: int, wallet: Option<string>, v: View<ListingMeta>)
  {
    exists rep :: ListedAs(s, index, rep, wallet, v)
  }

  /** `v` is how the listing of proposal `index` shows its stored premium
      report `rep` to `wallet`. */
  predicate ListedAs(s: Store, index: int, rep: Report, wallet: Option<string>, v: View<ListingMeta>)
  {
    rep in s.reports.Values && Lookups.PremiumOf(index, rep) && v == ViewOf(s, rep, wallet, ListingMetaOf)
  }

  /** A paid GET unlocks the report in its proposal's listing for the same
      wallet. */
  lemma GrantUnlocksListing(s: Store, idParam: string, wallet: Option<string>, payment: Option<string>, indexParam: string)
    requires Wf(s)
    requires AccessRoutes.GetReport(s, idParam, wallet, payment).outcome.GrantedNow?
    requires ParseInt(indexParam) == Some(AccessRoutes.GetReport(s, idParam, wallet, payment).outcome.report.referendumIndex)
    ensures var g := AccessRoutes.GetReport(s, idParam, wallet, payment);
      Full(g.outcome.report) in ProposalListing(g.store, indexParam, wallet)
  {
    var g := AccessRoutes.GetReport(s, idParam, wallet, payment);
    var rid := ParseInt(idParam).value;
    var rep := s.reports[rid];
    assert g.outcome.report == rep && g.store.reports == s.reports;
    assert rid in g.store.reports && Lookups.PremiumOf(rep.referendumIndex, g.store.reports[rid]);
    assert ViewOf(g.store, rep, wallet, ListingMetaOf) == Full(rep);
  }

  // ---------------------------------------------------------------------
  // GET /ual/:ual/linked-reports

  /** The metadata the linked-reports listing shows without access. */
  datatype LinkedMeta = LinkedMeta(id: int, name: Option<string>, ual: Option<string>, priceCents: Option<int>,
                                   authorType: Option<AuthorType>)

  function LinkedMetaOf(rep: Report): LinkedMeta
  {
    LinkedMeta(rep.id, rep.name, rep.publication.ual, rep.premium.priceCents, rep.premium.authorType)
  }

  /** The reports linked to `proposalUal` (the decoded path segment), in
      link order. Access is checked whether or not the report is premium. */
  function LinkedListing(s: Store, proposalUal: string, wallet: Option<string>): (r: seq<View<LinkedMeta>>)
    ensures |r| <= |s.mappings|
    ensures forall i :: 0 <= i < |r| && r[i].Full? ==> r[i].report in s.reports.Values && Unlocked(s, r[i].report, wallet)
    ensures forall j :: 0 <= j < |s.mappings| && s.mappings[j].proposalUal == proposalUal && s.mappings[j].reportId in s.reports ==>
      ViewOf(s, s.reports[s.mappings[j].reportId], wallet, LinkedMetaOf) in r
    ensures forall i :: 0 <= i < |r| ==> LinkedEntry(s, proposalUal, wallet, r[i])
  {
    var reps := Lookups.LinkedReports(s, s.mappings, proposalUal);
    var r := Views(s, reps, wallet, LinkedMetaOf);
    forall j | 0 <= j < |s.mappings| && s.mappings[j].proposalUal == proposalUal && s.mappings[j].reportId in s.reports
      ensures ViewOf(s, s.reports[s.mappings[j].reportId], wallet, LinkedMetaOf) in r
    {
      ViewsShow(s, reps, wallet, LinkedMetaOf, s.reports[s.mappings[j].reportId]);
    }
    LinkedEntriesLinked(s, proposalUal, wallet, reps, r);
    r
  }

  lemma LinkedEntriesLinked(s: Store, proposalUal: string, wallet: Option<string>, reps: seq<Report>, r: seq<View<LinkedMeta>>)
    requires reps == Lookups.LinkedReports(s, s.mappings, proposalUal)
    requires |r| == |reps| && forall i :: 0 <= i < |r| ==> r[i] == ViewOf(s, reps[i], wallet, LinkedMetaOf)
    ensures forall i :: 0 <= i < |r| ==> LinkedEntry(s, proposalUal, wallet, r[i])
  {
    forall i | 0 <= i < |r| ensures LinkedEntry(s, proposalUal, wallet, r[i]) {
      Lookups.LinkedReportsAreLinked(s, s.mappings, proposalUal, i);
      var j :| Lookups.LinkedAt(s, s.mappings, proposalUal, j) && s.reports[s.mappings[j].reportId] == reps[i];
      assert LinkedAs(s, proposalUal, j, wallet, r[i]);
    }
  }

  /** `v` is how the linked-reports listing shows the report of one of the
      links of `proposalUal` to `wallet`. */
  ghost predicate LinkedEntry(s: Store, proposalUal: string, wallet: Option<string>, v: View<LinkedMeta>)
  {
    exists j :: LinkedAs(s, proposalUal, j, wallet, v)
  }

  /** `v` is how the linked-reports listing shows the report of link `j`
      of `proposalUal` to `wallet`. */
  predicate LinkedAs(s: Store, proposalUal: string, j: int, wallet: Option<string>, v: View<LinkedMeta>)
  {
    Lookups.LinkedAt(s, s.mappings, proposalUal, j) && v == ViewOf(s, s.reports[s.mappings[j].reportId], wallet, LinkedMetaOf)
  }

  // ---------------------------------------------------------------------
  // GET /user/my-access

  /** The summary of the report an access record is for. */
  datatype AccessReport = AccessReport(id: int, name: Option<string>, referendumIndex: int, ual: Option<string>,
                                       authorType: Option<AuthorType>)

  /** An access record with its report's summary, `null` when the report
      is gone. */
  datatype Enriched = Enriched(record: AccessRecord, report: Option<AccessReport>)

  function Enrich(s: Store, a: AccessRecord): (e: Enriched)
    ensures e.record == a
    ensures e.report.Some? <==> a.reportId in s.reports
    ensures e.report.Some? ==>
      var rep := s.reports[a.reportId];
      e.report.value == AccessReport(rep.id, rep.name, rep.referendumIndex, rep.publication.ual, rep.premium.authorType)
  {
    match Lookups.ReportById(s, Some(a.reportId))
    case None => Enriched(a, None)
    case Some(rep) => Enriched(a, Some(AccessReport(rep.id, rep.name, rep.referendumIndex, rep.publication.ual, rep.premium.authorType)))
  }

  /** The authenticated wallet's access records, newest first, each with its
      report's summary. */
  function MyAccess(s: Store, wallet: string): (r: seq<Enriched>)
    ensures forall i :: 0 <= i < |r| ==>
      r[i].record.wallet == wallet && r[i].record in s.access.Values && r[i] == Enrich(s, r[i].record)
    ensures forall k :: k in s.access && s.access[k].wallet == wallet ==> Enrich(s, s.access[k]) in r
  {
    var recs := Lookups.AccessByUser(s, wallet);
    var r := EnrichAll(s, recs);
    EnrichedRecords(s, wallet, recs, r);
    r
  }

  function EnrichAll(s: Store, recs: seq<AccessRecord>): (r: seq<Enriched>)
    ensures |r| == |recs|
    ensures forall i :: 0 <= i < |r| ==> r[i] == Enrich(s, recs[i])
  {
    seq(|recs|, i requires 0 <= i < |recs| => Enrich(s, recs[i]))
  }

  lemma EnrichedRecords(s: Store, wallet: string, recs: seq<AccessRecord>, r: seq<Enriched>)
    requires forall i :: 0 <= i < |recs| ==> recs[i].wallet == wallet && recs[i] in s.access.Values
    requires forall k :: k in s.access && s.access[k].wallet == wallet ==> s.access[k] in recs
    requires |r| == |recs| && forall i :: 0 <= i < |r| ==> r[i] == Enrich(s, recs[i])
    ensures forall i :: 0 <= i < |r| ==>
      r[i].record.wallet == wallet && r[i].record in s.access.Values && r[i] == Enrich(s, r[i].record)
    ensures forall k :: k in s.access && s.access[k].wallet == wallet ==> Enrich(s, s.access[k]) in r
  {
    forall k | k in s.access && s.access[k].wallet == wallet
      ensures Enrich(s, s.access[k]) in r
    {
      var i :| 0 <= i < |recs| && recs[i] == s.access[k];
      assert r[i] == Enrich(s, s.access[k]);
    }
  }

  /** Access granted through the request-access route shows up among the
      wallet's records, granted and with its report's summary. */
  lemma GrantShowsInMyAccess(s: Store, idParam: string, wallet: string, payment: Option<string>)
    requires AccessRoutes.RequestAccess(s, idParam, Some(wallet), payment).outcome.AccessGranted?
    ensures var t := AccessRoutes.RequestAccess(s, idParam, Some(wallet), payment).store;
      exists e :: e in MyAccess(t, wallet) && e.record.reportId == ParseInt(idParam).value && e.record.granted && e.report.Some?
  {
    var t := AccessRoutes.RequestAccess(s, idParam, Some(wallet), payment).store;
    var rid := ParseInt(idParam).value;
    assert Lookups.HasAccess(t, rid, wallet);
    var k :| k in t.access && Lookups.Matches(t.access[k], rid, wallet) && t.access[k].granted;
    assert rid in t.reports;
    var e := Enrich(t, t.access[k]);
    assert e in MyAccess(t, wallet);
  }

  // ---------------------------------------------------------------------
  // GET /private/:hash

  datatype PrivateOutcome =
    | HashNotFound
    | NoPrivateData
    | AuthenticationRequired(reportId: int, priceCents: Option<int>)
    | AccessDenied(reportId: int, priceCents: Option<int>, payee: Option<string>)
    | PrivateData(data: Json, reportId: int, hash: string, submittedAt: Timestamp)
    | ServerError

  function PrivateStatus(o: PrivateOutcome): int
  {
    match o
    case HashNotFound => 404
    case NoPrivateData => 404
    case AuthenticationRequired(_, _) => 401
    case AccessDenied(_, _, _) => 403
    case PrivateData(_, _, _, _) => 200
    case ServerError => 500
  }

  /** Who may read a premium report's private data: its submitter (compared
      case-insensitively), a wallet with access, or an administrator. */
  predicate MayReadPrivate(env: Env, s: Store, rep: Report, wallet: string)
  {
    AccessControl.SameWallet(rep.submitter, wallet) || Lookups.HasAccess(s, rep.id, wallet)
    || AccessControl.IsAdmin(env.adminAddresses, wallet)
  }

  /** The stored private text, parsed, or the text itself when it does not parse. */
  function ParseOrKeep(env: Env, text: string): (j: Json)
    ensures env.parse(text).Some? ==> j == env.parse(text).value
    ensures env.parse(text).None? ==> j == JStr(text)
  {
    match env.parse(text)
    case Some(p) => p
    case None => JStr(text)
  }

  /** The handler with its database handle obtained the module's way. It
      reads nothing but the store. */
  function GetPrivate(env: Env, s: Store, hash: string, wallet: Option<string>): (r: PrivateOutcome)
    ensures !r.ServerError?
    ensures r.HashNotFound? <==> Lookups.ReportByPrivateHash(s, hash).None?
    ensures r.PrivateData? <==>
      && var found := Lookups.ReportByPrivateHash(s, hash);
      && found.Some? && Present(found.value.priv.data)
      && (!found.value.premium.isPremium || (Present(wallet) && MayReadPrivate(env, s, found.value, wallet.value)))
    ensures r.PrivateData? ==>
      var rep := Lookups.ReportByPrivateHash(s, hash).value;
      r.reportId == rep.id && r.hash == hash && r.data == ParseOrKeep(env, rep.priv.data.value)
    ensures r.AuthenticationRequired? || r.AccessDenied? ==> Lookups.ReportByPrivateHash(s, hash).value.premium.isPremium
    ensures r.NoPrivateData? <==>
      var found := Lookups.ReportByPrivateHash(s, hash);
      found.Some? && !Present(found.value.priv.data)
    ensures r.AuthenticationRequired? <==>
      var found := Lookups.ReportByPrivateHash(s, hash);
      found.Some? && Present(found.value.priv.data) && found.value.premium.isPremium && !Present(wallet)
    ensures r.AccessDenied? <==>
      var found := Lookups.ReportByPrivateHash(s, hash);
      && found.Some? && Present(found.value.priv.data) && found.value.premium.isPremium && Present(wallet)
      && !MayReadPrivate(env, s, found.value, wallet.value)
    ensures r.AuthenticationRequired? ==>
      var rep := Lookups.ReportByPrivateHash(s, hash).value;
      r == AuthenticationRequired(rep.id, rep.premium.priceCents)
    ensures r.AccessDenied? ==>
      var rep := Lookups.ReportByPrivateHash(s, hash).value;
      r == AccessDenied(rep.id, rep.premium.priceCents, rep.premium.payee)
  {
    match Lookups.ReportByPrivateHash(s, hash)
    case None => HashNotFound
    case Some(rep) =>
      if !Present(rep.priv.data) then NoPrivateData
      else if rep.premium.isPremium && !Present(wallet) then AuthenticationRequired(rep.id, rep.premium.priceCents)
      else if rep.premium.isPremium && !MayReadPrivate(env, s, rep, wallet.value) then
        AccessDenied(rep.id, rep.premium.priceCents, rep.premium.payee)
      else PrivateData(ParseOrKeep(env, rep.priv.data.value), rep.id, hash, rep.submittedAt)
  }

  /** How the server loads this module. The route file uses `import` and
      `export`, so it is an ES module, where `require` is not defined. */
  datatype ModuleFormat = EsModule | CommonJs

  const RoutesFormat := EsModule

  /** The handler as written: its first statement obtains the database with
      `require(...)`, which throws a `ReferenceError` in an ES module, and
      the catch answers 500. */
  function GetPrivateAsWritten(format: ModuleFormat, env: Env, s: Store, hash: string, wallet: Option<string>): (r: PrivateOutcome)
    ensures format.CommonJs? ==> r == GetPrivate(env, s, hash, wallet)
    ensures r.ServerError? <==> format.EsModule?
  {
    match format
    case EsModule => ServerError
    case CommonJs => GetPrivate(env, s, hash, wallet)
  }

  /** As loaded, the route never serves private data, not even to the
      report's submitter, who may read it by the route's own rules. */
  lemma PrivateRouteAsWrittenNeverServes(env: Env, s: Store, hash: string, wallet: Option<string>)
    requires Lookups.ReportByPrivateHash(s, hash).Some?
    requires Present(Lookups.ReportByPrivateHash(s, hash).value.priv.data)
    requires wallet == Some(Lookups.ReportByPrivateHash(s, hash).value.submitter) && Present(wallet)
    ensures GetPrivate(env, s, hash, wallet).PrivateData?
    ensures GetPrivateAsWritten(RoutesFormat, env, s, hash, wallet) == ServerError
  {
  }

  /** A paid GET also opens the report's private data to the paying wallet. */
  lemma GrantOpensPrivateData(env: Env, s: Store, idParam: string, wallet: Option<string>, payment: Option<string>, hash: string)
    requires AccessRoutes.GetReport(s, idParam, wallet, payment).outcome.GrantedNow?
    requires Lookups.ReportByPrivateHash(s, hash).Some?
    requires Lookups.ReportByPrivateHash(s, hash).value.id == ParseInt(idParam).value
    requires Present(Lookups.ReportByPrivateHash(s, hash).value.priv.data)
    ensures GetPrivate(env, AccessRoutes.GetReport(s, idParam, wallet, payment).store, hash, wallet).PrivateData?
  {
    var t := AccessRoutes.GetReport(s, idParam, wallet, payment).store;
    assert t.reports == s.reports;
    assert Lookups.ReportByPrivateHash(t, hash) == Lookups.ReportByPrivateHash(s, hash);
  }
}
