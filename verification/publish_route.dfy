/** `POST /api/premium-reports/:id/publish`: publishes a verified, not yet
    published report to the DKG under its proposal's UAL, stores the
    publication and records the UAL mapping, whose failure is only logged.
    The DKG publisher, the explorer URL builder and the mapping insert's
    success are parameters. */
module PublishRoute {
  import opened Wrappers
  import opened JsonValue
  import opened Schema
  import opened Config
  import Db
  import Lookups
  import Documents

  /** What the DKG publisher returns for a document. */
  datatype PublishResult = PublishResult(
    success: bool,
    ual: Option<string>,
    assetId: Option<string>,
    status: Option<string>,
    error: Option<string>)

  datatype PublishOutcome =
    | ReportNotFound
    | AlreadyPublished
    | NotVerified
    | ProposalNotPublished
    | DocumentFault
    | PublishFailed
    | StoreFault
    | Published(ual: Option<string>, explorerUrl: Option<string>)

  function PublishStatus(o: PublishOutcome): int
  {
    match o
    case ReportNotFound => 404
    case AlreadyPublished => 400
    case NotVerified => 400
    case ProposalNotPublished => 400
    case DocumentFault => 500
    case PublishFailed => 500
    case StoreFault => 500
    case Published(_, _) => 200
  }

  /** The explorer link of a publication, when it has a UAL. */
  function ExplorerUrlOf(env: Env, ual: Option<string>): (r: Option<string>)
    ensures r.Some? <==> Present(ual)
    ensures r.Some? ==> r.value == env.explorerUrl(ual.value)
  {
    if Present(ual) then Some(env.explorerUrl(ual.value)) else None
  }

  /** The report passes the route's checks: it exists, has no UAL yet, is
      verified, and its proposal carries a UAL. */
  predicate Publishable(s: Store, id: Option<int>)
  {
    && id.Some? && id.value in s.reports
    && !Present(s.reports[id.value].publication.ual)
    && s.reports[id.value].verification.status == Verified
    && s.reports[id.value].referendumIndex in s.proposals
    && Present(s.proposals[s.reports[id.value].referendumIndex].dkg.ual)
  }

  /** The stored document of a publishable report is not `null`, so the
      route can build the document it sends. */
  predicate HasDocument(s: Store, id: Option<int>)
  {
    Publishable(s, id) && !s.reports[id.value].content.jsonld.JNull?
  }

  /** What the DKG publisher answers for the document of a report that has
      one. */
  function PublisherReply(s: Store, id: Option<int>, publish: Json -> PublishResult, isoNow: string): PublishResult
    requires HasDocument(s, id)
  {
    var rep := s.reports[id.value];
    publish(Documents.PublishDocument(rep, rep.content.jsonld, s.proposals[rep.referendumIndex].dkg.ual.value, isoNow).value)
  }

  /** The handler. Every refusal and failure answers without writing; the
      mapping insert's failure is swallowed. */
  function Publish(env: Env, s: Store, id: Option<int>, publish: Json -> PublishResult, mappingOk: bool,
                   isoNow: string, now: Timestamp): (r: Step<PublishOutcome>)
    ensures !r.outcome.Published? ==> r.store == s
    ensures r.outcome.ReportNotFound? <==> !(id.Some? && id.value in s.reports)
    ensures r.outcome.AlreadyPublished? <==> id.Some? && id.value in s.reports && Present(s.reports[id.value].publication.ual)
    ensures r.outcome.NotVerified? <==>
      id.Some? && id.value in s.reports && !Present(s.reports[id.value].publication.ual)
      && s.reports[id.value].verification.status != Verified
    ensures r.outcome.ProposalNotPublished? <==>
      id.Some? && id.value in s.reports && !Present(s.reports[id.value].publication.ual)
      && s.reports[id.value].verification.status == Verified
      && !(s.reports[id.value].referendumIndex in s.proposals && Present(s.proposals[s.reports[id.value].referendumIndex].dkg.ual))
    ensures r.outcome.DocumentFault? <==> Publishable(s, id) && !HasDocument(s, id)
    ensures r.outcome.PublishFailed? <==> HasDocument(s, id) && !PublisherReply(s, id, publish, isoNow).success
    ensures r.outcome.StoreFault? <==>
      HasDocument(s, id) && PublisherReply(s, id, publish, isoNow).success
      && Db.ReportUalTaken(s, id.value, PublisherReply(s, id, publish, isoNow).ual)
    ensures r.outcome.Published? <==>
      HasDocument(s, id) && PublisherReply(s, id, publish, isoNow).success
      && !Db.ReportUalTaken(s, id.value, PublisherReply(s, id, publish, isoNow).ual)
    ensures r.outcome.Published? ==> Publishable(s, id) && Stores(env, s, id, publish, mappingOk, isoNow, now, r)
  {
    if !(id.Some? && id.value in s.reports) then Step(s, ReportNotFound)
    else
      var rep := s.reports[id.value];
      if Present(rep.publication.ual) then Step(s, AlreadyPublished)
      else if rep.verification.status != Verified then Step(s, NotVerified)
      else if rep.referendumIndex !in s.proposals || !Present(s.proposals[rep.referendumIndex].dkg.ual) then Step(s, ProposalNotPublished)
      else PublishChecked(env, s, id, publish, mappingOk, isoNow, now)
  }

  /** What a successful publication leaves behind: the publisher's UAL and
      its explorer link stored on the report and answered, no other column
      or report changed, and the mapping appended when its insert succeeds. */
  predicate Stores(env: Env, s: Store, id: Option<int>, publish: Json -> PublishResult, mappingOk: bool,
                   isoNow: string, now: Timestamp, r: Step<PublishOutcome>)
    requires Publishable(s, id) && r.outcome.Published?
  {
    var before := s.reports[id.value];
    && HasDocument(s, id)
    && r.outcome.ual == PublisherReply(s, id, publish, isoNow).ual
    && r.outcome.explorerUrl == ExplorerUrlOf(env, r.outcome.ual)
    && id.value in r.store.reports
    && r.store.reports.Keys == s.reports.Keys
    && r.store.reports[id.value].publication.ual == r.outcome.ual
    && r.store.reports[id.value].publication.explorerUrl == r.outcome.explorerUrl
    && Db.SameExceptPublication(before, r.store.reports[id.value])
    && (forall j :: j in s.reports && j != id.value ==> r.store.reports[j] == s.reports[j])
    && r.store.proposals == s.proposals && r.store.access == s.access
    && r.store.mappings == s.mappings +
         (if mappingOk then [UalMapping(s.proposals[before.referendumIndex].dkg.ual.value, id.value, r.outcome.ual)] else [])
  }

  /** The handler past its checks: build the document and publish it. */
  function PublishChecked(env: Env, s: Store, id: Option<int>, publish: Json -> PublishResult, mappingOk: bool,
                          isoNow: string, now: Timestamp): (r: Step<PublishOutcome>)
    requires Publishable(s, id)
    ensures !r.outcome.Published? ==> r.store == s
    ensures r.outcome.DocumentFault? || r.outcome.PublishFailed? || r.outcome.StoreFault? || r.outcome.Published?
    ensures r.outcome.DocumentFault? <==> !HasDocument(s, id)
    ensures r.outcome.PublishFailed? <==> HasDocument(s, id) && !PublisherReply(s, id, publish, isoNow).success
    ensures r.outcome.StoreFault? <==>
      HasDocument(s, id) && PublisherReply(s, id, publish, isoNow).success
      && Db.ReportUalTaken(s, id.value, PublisherReply(s, id, publish, isoNow).ual)
    ensures r.outcome.Published? ==> Stores(env, s, id, publish, mappingOk, isoNow, now, r)
  {
    if !HasDocument(s, id) then Step(s, DocumentFault)
    else
      var res := PublisherReply(s, id, publish, isoNow);
      if !res.success then Step(s, PublishFailed)
      else
        var r := StoreReply(env, s, id.value, res, mappingOk, now);
        assert r.outcome.Published? ==> Stores(env, s, id, publish, mappingOk, isoNow, now, r);
        r
  }

  /** Stores a successful publication of report `rid` and records its
      mapping under the proposal's UAL. */
  function StoreReply(env: Env, s: Store, rid: int, res: PublishResult, mappingOk: bool, now: Timestamp): (r: Step<PublishOutcome>)
    requires Publishable(s, Some(rid))
    ensures r.outcome.StoreFault? || r.outcome.Published?
    ensures r.outcome.StoreFault? <==> Db.ReportUalTaken(s, rid, res.ual)
    ensures r.outcome.StoreFault? ==> r.store == s
    ensures r.outcome.Published? ==>
      var before := s.reports[rid];
      && r.outcome.ual == res.ual
      && r.outcome.explorerUrl == ExplorerUrlOf(env, r.outcome.ual)
      && rid in r.store.reports
      && r.store.reports.Keys == s.reports.Keys
      && r.store.reports[rid].publication.ual == r.outcome.ual
      && r.store.reports[rid].publication.explorerUrl == r.outcome.explorerUrl
      && Db.SameExceptPublication(before, r.store.reports[rid])
      && (forall j :: j in s.reports && j != rid ==> r.store.reports[j] == s.reports[j])
      && r.store.proposals == s.proposals && r.store.access == s.access
      && r.store.mappings == s.mappings +
           (if mappingOk then [UalMapping(s.proposals[before.referendumIndex].dkg.ual.value, rid, r.outcome.ual)] else [])
    ensures Wf(s) && Consistent(s) && PremiumComplete(s) ==> Wf(r.store) && Consistent(r.store) && PremiumComplete(r.store)
  {
    var parent := s.proposals[s.reports[rid].referendumIndex].dkg.ual.value;
    var explorer := ExplorerUrlOf(env, res.ual);
    match Db.UpdateDkgPublication(s, rid, res.ual, res.assetId, None, explorer, now)
    case Err(_) => Step(s, StoreFault)
    case Ok(s2) =>
      assert PremiumComplete(s) ==> PremiumComplete(s2) by {
        if PremiumComplete(s) {
          forall j | j in s2.reports && s2.reports[j].premium.isPremium
            ensures NonZero(s2.reports[j].premium.priceCents) && Present(s2.reports[j].premium.payee)
          {
            assert s2.reports[j].premium == s.reports[j].premium;
          }
        }
      }
      var s3 := if mappingOk then Lookups.CreateMapping(s2, parent, rid, res.ual) else s2;
      Step(s3, Published(res.ual, explorer))
  }

  /** Publication is a one-way door: a report with a UAL is refused and
      nothing changes. */
  lemma PublishedStaysPublished(env: Env, s: Store, rid: int, publish: Json -> PublishResult, mappingOk: bool,
                                isoNow: string, now: Timestamp)
    requires rid in s.reports && Present(s.reports[rid].publication.ual)
    ensures var r := Publish(env, s, Some(rid), publish, mappingOk, isoNow, now);
      r.outcome == AlreadyPublished && r.store == s
  {
  }

  /** The answer does not depend on whether the mapping insert succeeds;
      only the mapping table does. */
  lemma MappingFailureIsSilent(env: Env, s: Store, id: Option<int>, publish: Json -> PublishResult,
                               isoNow: string, now: Timestamp)
    ensures var a := Publish(env, s, id, publish, true, isoNow, now);
      var b := Publish(env, s, id, publish, false, isoNow, now);
      a.outcome == b.outcome && a.store.(mappings := b.store.mappings) == b.store
  {
    if id.Some? && id.value in s.reports {
      var rid := id.value;
      var rep := s.reports[rid];
      if !Present(rep.publication.ual) && rep.verification.status == Verified
         && rep.referendumIndex in s.proposals && Present(s.proposals[rep.referendumIndex].dkg.ual) {
        var parent := s.proposals[rep.referendumIndex].dkg.ual.value;
        var doc := Documents.PublishDocument(rep, rep.content.jsonld, parent, isoNow);
        if doc.Some? && publish(doc.value).success {
          var res := publish(doc.value);
          var u := Db.UpdateDkgPublication(s, rid, res.ual, res.assetId, None, ExplorerUrlOf(env, res.ual), now);
          if u.Ok? {
            assert Publish(env, s, id, publish, false, isoNow, now).store == u.value;
            assert Publish(env, s, id, publish, true, isoNow, now).store == Lookups.CreateMapping(u.value, parent, rid, res.ual);
          }
        }
      }
    }
  }

  /** The route keeps every invariant. */
  lemma PublishKeepsInvariants(env: Env, s: Store, id: Option<int>, publish: Json -> PublishResult, mappingOk: bool,
                               isoNow: string, now: Timestamp)
    requires Wf(s) && Consistent(s) && PremiumComplete(s)
    ensures var t := Publish(env, s, id, publish, mappingOk, isoNow, now).store;
      Wf(t) && Consistent(t) && PremiumComplete(t)
  {
  }
}
