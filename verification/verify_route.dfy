/** `POST /api/premium-reports/:id/verify` and
    `POST /api/premium-reports/:id/verify-and-publish`. The first asks the
    AI verifier and records `verified` when the reply is valid and its
    confidence reaches the configured threshold. The second, open to the
    submitter and administrators, records the verifier's verdict, and on a
    valid reply publishes the report to the DKG and links it to its
    proposal's UAL. The verifier and the DKG publisher are parameters. */
module VerifyRoute {
  import opened Wrappers
  import opened Text
  import opened JsonValue
  import opened Schema
  import opened Config
  import AccessControl
  import Db
  import Lookups
  import Documents

  /** The AI verifier's answer. */
  datatype VerifierReply = VerifierReply(valid: bool, confidence: Option<real>, reasoning: Option<string>, issues: Option<seq<string>>)

  // ---------------------------------------------------------------------
  // POST /:id/verify

  datatype VerifyOutcome = ReportNotFound | ProposalNotFound | VerifierFailed | Decided(status: VerificationStatus)

  function VerifyStatus(o: VerifyOutcome): int
  {
    match o
    case ReportNotFound => 404
    case ProposalNotFound => 404
    case VerifierFailed => 500
    case Decided(_) => 200
  }

  /** The confidence reaches the threshold; a missing confidence and a
      `NaN` threshold reach nothing. */
  predicate Confident(confidence: Option<real>, setting: ThresholdSetting)
  {
    var t := EffectiveThreshold(setting);
    confidence.Some? && t.Some? && confidence.value >= t.value
  }

  /** `valid && confidence >= threshold ? "verified" : "rejected"`. */
  function DecideStatus(reply: VerifierReply, setting: ThresholdSetting): (st: VerificationStatus)
    ensures st != Pending
    ensures st == Verified <==>
      reply.valid && reply.confidence.Some? && EffectiveThreshold(setting).Some?
      && reply.confidence.value >= EffectiveThreshold(setting).value
  {
    if reply.valid && Confident(reply.confidence, setting) then Verified else Rejected
  }

  /** With the threshold unset, a reply is verified exactly when it is
      valid and its confidence is at least 0.7; every other reply is
      rejected. */
  lemma DefaultThresholdDecisions(reply: VerifierReply)
    ensures DecideStatus(reply, ThresholdUnset) == Verified <==>
      reply.valid && reply.confidence.Some? && reply.confidence.value >= 0.7
    ensures DecideStatus(reply, ThresholdUnset) == Rejected <==>
      !reply.valid || reply.confidence.None? || reply.confidence.value < 0.7
  {
  }

  /** A numeric threshold is used as it is: a reply is verified exactly when
      it is valid and its confidence reaches that number. */
  lemma NumericThresholdDecisions(reply: VerifierReply, t: real)
    ensures DecideStatus(reply, ThresholdNumber(t)) == Verified <==>
      reply.valid && reply.confidence.Some? && reply.confidence.value >= t
  {
  }

  /** Lowering the threshold never turns a verified report into a rejected one. */
  lemma DecideStatusMonotone(reply: VerifierReply, t: real, u: real)
    requires u <= t
    requires DecideStatus(reply, ThresholdNumber(t)) == Verified
    ensures DecideStatus(reply, ThresholdNumber(u)) == Verified
  {
  }

  /** A threshold that reads as `NaN` rejects every report. */
  lemma NaNThresholdRejectsAll(reply: VerifierReply)
    ensures DecideStatus(reply, ThresholdNaN) == Rejected
  {
  }

  /** The handler; `reply` is `None` when the verifier call throws. */
  function Verify(env: Env, s: Store, id: Option<int>, reply: Option<VerifierReply>, now: Timestamp): (r: Step<VerifyOutcome>)
    ensures r.outcome.Decided? <==>
      id.Some? && id.value in s.reports && s.reports[id.value].referendumIndex in s.proposals && reply.Some?
    ensures !r.outcome.Decided? ==> r.store == s
    ensures r.outcome.Decided? ==>
      && r.store.reports.Keys == s.reports.Keys
      && var v := r.store.reports[id.value].verification;
      && Db.SameExceptVerification(s.reports[id.value], r.store.reports[id.value])
      && v.status == r.outcome.status
      && (v.status == Verified <==> reply.value.valid && Confident(reply.value.confidence, env.threshold))
      && v.confidence == reply.value.confidence && v.reasoning == reply.value.reasoning
      && v.issues == Some(reply.value.issues.GetOr([])) && v.verifiedAt == Some(now)
      && (forall j :: j in s.reports && j != id.value ==> r.store.reports[j] == s.reports[j])
      && r.store.(reports := s.reports) == s
  {
    if !(id.Some? && id.value in s.reports) then Step(s, ReportNotFound)
    else if s.reports[id.value].referendumIndex !in s.proposals then Step(s, ProposalNotFound)
    else if reply.None? then Step(s, VerifierFailed)
    else
      var st := DecideStatus(reply.value, env.threshold);
      var v := reply.value;
      Step(Db.UpdateVerification(s, id.value, st, v.confidence, v.reasoning, v.issues, now), Decided(st))
  }

  /** Rewriting the verification columns keeps every invariant. */
  lemma VerificationUpdateKeepsInvariants(s: Store, id: int, st: VerificationStatus, c: Option<real>,
                                          reasoning: Option<string>, issues: Option<seq<string>>, now: Timestamp)
    requires Wf(s) && Consistent(s) && PremiumComplete(s)
    ensures var t := Db.UpdateVerification(s, id, st, c, reasoning, issues, now);
      Wf(t) && Consistent(t) && PremiumComplete(t)
  {
    var t := Db.UpdateVerification(s, id, st, c, reasoning, issues, now);
    if id in s.reports {
      forall j | j in t.reports && t.reports[j].premium.isPremium
        ensures NonZero(t.reports[j].premium.priceCents) && Present(t.reports[j].premium.payee)
      {
        assert t.reports[j].premium == s.reports[j].premium;
      }
    }
  }

  // ---------------------------------------------------------------------
  // POST /:id/verify-and-publish

  /** What the DKG publisher returns for a document. */
  datatype DkgResult = DkgResult(
    success: bool,
    ual: Option<string>,
    assetId: Option<string>,
    txHash: Option<string>,
    explorerUrl: Option<string>,
    error: Option<string>)

  datatype VapOutcome =
    | NotFound
    | Forbidden
    | NoProposal
    | AlreadyPublished
    | VerifierFault
    | DocumentFault
    | PublishFailed
    | StoreFault
    | PublishedToDkg(ual: string)
    | FailedVerification

  function VapStatus(o: VapOutcome): int
  {
    match o
    case NotFound => 404
    case Forbidden => 403
    case NoProposal => 404
    case AlreadyPublished => 400
    case VerifierFault => 500
    case DocumentFault => 500
    case PublishFailed => 500
    case StoreFault => 500
    case PublishedToDkg(_) => 200
    case FailedVerification => 400
  }

  /** The submitter (in any letter case) or an administrator. */
  predicate MayVerify(env: Env, rep: Report, wallet: string)
  {
    AccessControl.SameWallet(rep.submitter, wallet) || AccessControl.IsAdmin(env.adminAddresses, wallet)
  }

  const RejectionReasoning := "Report did not meet quality standards"

  /** The DKG publisher's answer for the document built from `rep`. */
  function PublisherReply(rep: Report, publish: Json -> DkgResult, isoNow: string): DkgResult
    requires !rep.content.jsonld.JNull?
  {
    publish(Documents.VerifyPublishDocument(rep, rep.content.jsonld, isoNow).value)
  }

  /** The publisher reports success and hands back a UAL. */
  predicate Delivered(dkg: DkgResult)
  {
    dkg.success && Present(dkg.ual)
  }

  /** A delivered publication can be stored for `rid`: no other report
      holds its UAL, and the mapping insert, attempted when the proposal
      has a UAL, succeeds. */
  predicate Stored(s: Store, rid: int, dkg: DkgResult, proposal: Proposal, mappingOk: bool)
  {
    !Db.ReportUalTaken(s, rid, dkg.ual) && (Present(proposal.dkg.ual) ==> mappingOk)
  }

  /** Recording the verdict touches only `rid`, so whether a publication can
      be stored afterwards is decided by the store before it. */
  lemma StoredAfterVerdict(s: Store, s1: Store, rid: int, dkg: DkgResult, proposal: Proposal, mappingOk: bool)
    requires rid in s.reports && s1.reports.Keys == s.reports.Keys
    requires forall j :: j in s.reports && j != rid ==> s1.reports[j] == s.reports[j]
    ensures Stored(s1, rid, dkg, proposal, mappingOk) <==> Stored(s, rid, dkg, proposal, mappingOk)
  {
    if Db.ReportUalTaken(s, rid, dkg.ual) {
      var j :| j in s.reports && j != rid && s.reports[j].publication.ual == dkg.ual;
      assert s1.reports[j] == s.reports[j];
    }
    if Db.ReportUalTaken(s1, rid, dkg.ual) {
      var j :| j in s1.reports && j != rid && s1.reports[j].publication.ual == dkg.ual;
      assert s1.reports[j] == s.reports[j];
    }
  }

  /** What follows the checks: record the verdict, and on a valid reply
      build the document, publish it, store the publication and link it to
      the proposal's UAL. `mappingOk` says whether the mapping insert
      succeeds. Each failure after the first write keeps what was written
      before it. The threshold is not consulted. */
  function VerifyThenPublish(s: Store, rid: int, proposal: Proposal, reply: VerifierReply, publish: Json -> DkgResult,
                             mappingOk: bool, isoNow: string, now: Timestamp): (r: Step<VapOutcome>)
    requires rid in s.reports
    ensures r.outcome.PublishedToDkg? || r.outcome.PublishFailed? || r.outcome.DocumentFault? || r.outcome.StoreFault? || r.outcome.FailedVerification?
    ensures rid in r.store.reports && r.store.reports.Keys == s.reports.Keys
    ensures r.store.reports[rid].verification.status == (if reply.valid then Verified else Rejected)
    ensures reply.valid ==>
      var v := r.store.reports[rid].verification;
      && v.confidence == reply.confidence && v.reasoning == reply.reasoning
      && v.issues == Some(reply.issues.GetOr([]))
    ensures r.outcome.DocumentFault? <==> reply.valid && s.reports[rid].content.jsonld.JNull?
    ensures r.outcome.PublishFailed? <==>
      reply.valid && !s.reports[rid].content.jsonld.JNull? && !Delivered(PublisherReply(s.reports[rid], publish, isoNow))
    ensures r.outcome.PublishedToDkg? <==>
      reply.valid && !s.reports[rid].content.jsonld.JNull? && Delivered(PublisherReply(s.reports[rid], publish, isoNow))
      && Stored(s, rid, PublisherReply(s.reports[rid], publish, isoNow), proposal, mappingOk)
    ensures r.outcome.PublishedToDkg? ==> Some(r.outcome.ual) == PublisherReply(s.reports[rid], publish, isoNow).ual
    ensures !reply.valid ==>
      var v := r.store.reports[rid].verification;
      && r.outcome == FailedVerification
      && v.issues == Some(reply.issues.GetOr([]))
      && v.confidence == Some(reply.confidence.GetOr(0.0))
      && v.reasoning == (if Present(reply.reasoning) then reply.reasoning else Some(RejectionReasoning))
      && r.store.reports[rid].publication == s.reports[rid].publication
    ensures r.outcome.PublishedToDkg? ==>
      && r.store.reports[rid].publication.ual == Some(r.outcome.ual)
      && |r.outcome.ual| > 0
      && r.store.mappings == s.mappings +
           (if Present(proposal.dkg.ual) then [UalMapping(proposal.dkg.ual.value, rid, Some(r.outcome.ual))] else [])
    ensures !r.outcome.PublishedToDkg? && !r.outcome.StoreFault? ==> r.store.reports[rid].publication == s.reports[rid].publication
    ensures r.store.proposals == s.proposals && r.store.access == s.access
    ensures forall j :: j in s.reports && j != rid ==> r.store.reports[j] == s.reports[j]
  {
    if reply.valid then
      var s1 := Db.UpdateVerification(s, rid, Verified, reply.confidence, reply.reasoning, reply.issues, now);
      assert !s.reports[rid].content.jsonld.JNull? ==>
        (Stored(s1, rid, PublisherReply(s.reports[rid], publish, isoNow), proposal, mappingOk)
         <==> Stored(s, rid, PublisherReply(s.reports[rid], publish, isoNow), proposal, mappingOk)) by {
        if !s.reports[rid].content.jsonld.JNull? {
          StoredAfterVerdict(s, s1, rid, PublisherReply(s.reports[rid], publish, isoNow), proposal, mappingOk);
        }
      }
      PublishVerified(s1, rid, s.reports[rid], proposal, publish, mappingOk, isoNow)
    else
      var reasoning := if Present(reply.reasoning) then reply.reasoning else Some(RejectionReasoning);
      Step(Db.UpdateVerification(s, rid, Rejected, Some(reply.confidence.GetOr(0.0)), reasoning, reply.issues, now), FailedVerification)
  }

  /** The publishing half for a report `rep` whose verdict is already
      stored: the only write is the publication and the mapping. */
  function PublishVerified(s1: Store, rid: int, rep: Report, proposal: Proposal, publish: Json -> DkgResult,
                           mappingOk: bool, isoNow: string): (r: Step<VapOutcome>)
    requires rid in s1.reports
    ensures r.outcome.PublishedToDkg? || r.outcome.PublishFailed? || r.outcome.DocumentFault? || r.outcome.StoreFault?
    ensures !r.outcome.PublishedToDkg? && !r.outcome.StoreFault? ==> r.store == s1
    ensures r.outcome.DocumentFault? <==> rep.content.jsonld.JNull?
    ensures r.outcome.PublishFailed? <==> !rep.content.jsonld.JNull? && !Delivered(PublisherReply(rep, publish, isoNow))
    ensures r.outcome.PublishedToDkg? <==>
      !rep.content.jsonld.JNull? && Delivered(PublisherReply(rep, publish, isoNow))
      && Stored(s1, rid, PublisherReply(rep, publish, isoNow), proposal, mappingOk)
    ensures r.outcome.PublishedToDkg? ==> Some(r.outcome.ual) == PublisherReply(rep, publish, isoNow).ual
    ensures rid in r.store.reports && r.store.reports.Keys == s1.reports.Keys
    ensures r.store.reports[rid].verification == s1.reports[rid].verification
    ensures r.outcome.PublishedToDkg? ==>
      && r.store.reports[rid].publication.ual == Some(r.outcome.ual)
      && |r.outcome.ual| > 0
      && r.store.mappings == s1.mappings +
           (if Present(proposal.dkg.ual) then [UalMapping(proposal.dkg.ual.value, rid, Some(r.outcome.ual))] else [])
    ensures r.store.proposals == s1.proposals && r.store.access == s1.access
    ensures forall j :: j in s1.reports && j != rid ==> r.store.reports[j] == s1.reports[j]
    ensures Wf(s1) && Consistent(s1) && PremiumComplete(s1) ==> Wf(r.store) && Consistent(r.store) && PremiumComplete(r.store)
  {
    match Documents.VerifyPublishDocument(rep, rep.content.jsonld, isoNow)
    case None => Step(s1, DocumentFault)
    case Some(doc) =>
      var dkg := publish(doc);
      if dkg.success && Present(dkg.ual) then StorePublication(s1, rid, dkg, proposal, mappingOk, isoNow)
      else Step(s1, PublishFailed)
  }

  /** Stores a successful publication and links it to the proposal's UAL
      when the proposal has one. */
  function StorePublication(s1: Store, rid: int, dkg: DkgResult, proposal: Proposal, mappingOk: bool, isoNow: string): (r: Step<VapOutcome>)
    requires rid in s1.reports && dkg.success && Present(dkg.ual)
    ensures r.outcome.PublishedToDkg? || r.outcome.StoreFault?
    ensures r.outcome.PublishedToDkg? <==> Stored(s1, rid, dkg, proposal, mappingOk)
    ensures rid in r.store.reports && r.store.reports.Keys == s1.reports.Keys
    ensures r.store.reports[rid].verification == s1.reports[rid].verification
    ensures r.outcome.PublishedToDkg? ==>
      && r.store.reports[rid].publication.ual == Some(r.outcome.ual) && dkg.ual == Some(r.outcome.ual)
      && |r.outcome.ual| > 0
      && r.store.mappings == s1.mappings +
           (if Present(proposal.dkg.ual) then [UalMapping(proposal.dkg.ual.value, rid, Some(r.outcome.ual))] else [])
    ensures r.store.proposals == s1.proposals && r.store.access == s1.access
    ensures forall j :: j in s1.reports && j != rid ==> r.store.reports[j] == s1.reports[j]
    ensures Wf(s1) && Consistent(s1) && PremiumComplete(s1) ==> Wf(r.store) && Consistent(r.store) && PremiumComplete(r.store)
  {
    var asset := if Present(dkg.assetId) then dkg.assetId else Some("pending");
    match Db.UpdateDkgPublication(s1, rid, dkg.ual, asset, dkg.txHash, dkg.explorerUrl, isoNow)
    case Err(_) => Step(s1, StoreFault)
    case Ok(s2) =>
      assert PremiumComplete(s1) ==> PremiumComplete(s2) by {
        if PremiumComplete(s1) { PublicationUpdateKeepsComplete(s1, s2, rid); }
      }
      if Present(proposal.dkg.ual) then
        if mappingOk then Step(Lookups.CreateMapping(s2, proposal.dkg.ual.value, rid, dkg.ual), PublishedToDkg(dkg.ual.value))
        else Step(s2, StoreFault)
      else Step(s2, PublishedToDkg(dkg.ual.value))
  }

  /** The route as written: it publishes again a report that already has a
      UAL, replacing that UAL. */
  function VerifyAndPublishAsWritten(env: Env, s: Store, id: Option<int>, wallet: string, reply: Option<VerifierReply>,
                                     publish: Json -> DkgResult, mappingOk: bool, isoNow: string, now: Timestamp): (r: Step<VapOutcome>)
    ensures !r.outcome.AlreadyPublished?
    ensures r.store.reports.Keys == s.reports.Keys
    ensures r.outcome.NotFound? <==> !(id.Some? && id.value in s.reports)
    ensures r.outcome.Forbidden? <==> id.Some? && id.value in s.reports && !MayVerify(env, s.reports[id.value], wallet)
    ensures r.store != s ==> id.Some? && id.value in s.reports && MayVerify(env, s.reports[id.value], wallet)
  {
    if !(id.Some? && id.value in s.reports) then Step(s, NotFound)
    else
      var rep := s.reports[id.value];
      if !MayVerify(env, rep, wallet) then Step(s, Forbidden)
      else if rep.referendumIndex !in s.proposals then Step(s, NoProposal)
      else if reply.None? then Step(s, VerifierFault)
      else VerifyThenPublish(s, id.value, s.proposals[rep.referendumIndex], reply.value, publish, mappingOk, isoNow, now)
  }

  /** The route with the already-published check the publish route makes:
      a report with a UAL is refused before the verifier is called. */
  function VerifyAndPublish(env: Env, s: Store, id: Option<int>, wallet: string, reply: Option<VerifierReply>,
                            publish: Json -> DkgResult, mappingOk: bool, isoNow: string, now: Timestamp): (r: Step<VapOutcome>)
    ensures r.outcome.NotFound? <==> !(id.Some? && id.value in s.reports)
    ensures r.outcome.Forbidden? <==> id.Some? && id.value in s.reports && !MayVerify(env, s.reports[id.value], wallet)
    ensures r.store != s ==> id.Some? && id.value in s.reports && MayVerify(env, s.reports[id.value], wallet)
    ensures r.outcome.AlreadyPublished? <==>
      id.Some? && id.value in s.reports && MayVerify(env, s.reports[id.value], wallet) && Present(s.reports[id.value].publication.ual)
    ensures r.outcome.AlreadyPublished? ==> r.store == s
  {
    if !(id.Some? && id.value in s.reports) then Step(s, NotFound)
    else
      var rep := s.reports[id.value];
      if !MayVerify(env, rep, wallet) then Step(s, Forbidden)
      else if Present(rep.publication.ual) then Step(s, AlreadyPublished)
      else if rep.referendumIndex !in s.proposals then Step(s, NoProposal)
      else if reply.None? then Step(s, VerifierFault)
      else VerifyThenPublish(s, id.value, s.proposals[rep.referendumIndex], reply.value, publish, mappingOk, isoNow, now)
  }

  /** The as-written route replaces the UAL of a report that is already
      published: an authorized call with a valid reply whose publication
      yields a fresh UAL overwrites the stored one. */
  lemma AsWrittenOverwritesPublishedUal(env: Env, s: Store, rid: int, wallet: string, reply: VerifierReply,
                                        publish: Json -> DkgResult, isoNow: string, now: Timestamp)
    requires rid in s.reports && Present(s.reports[rid].publication.ual)
    requires MayVerify(env, s.reports[rid], wallet)
    requires s.reports[rid].referendumIndex in s.proposals
    requires reply.valid && !s.reports[rid].content.jsonld.JNull?
    requires var d := publish(Documents.VerifyPublishDocument(s.reports[rid], s.reports[rid].content.jsonld, isoNow).value);
      d.success && Present(d.ual) && d.ual != s.reports[rid].publication.ual
      && forall j :: j in s.reports ==> s.reports[j].publication.ual != d.ual
    ensures var r := VerifyAndPublishAsWritten(env, s, Some(rid), wallet, Some(reply), publish, true, isoNow, now);
      && r.outcome.PublishedToDkg?
      && r.store.reports[rid].publication.ual != s.reports[rid].publication.ual
  {
    var rep := s.reports[rid];
    var doc := Documents.VerifyPublishDocument(rep, rep.content.jsonld, isoNow).value;
    var d := publish(doc);
    var proposal := s.proposals[rep.referendumIndex];
    var s1 := Db.UpdateVerification(s, rid, Verified, reply.confidence, reply.reasoning, reply.issues, now);
    UalStaysFresh(s, s1, rid, d.ual);
    PublishVerifiedFresh(s1, rid, rep, proposal, publish, isoNow);
    var r := PublishVerified(s1, rid, rep, proposal, publish, true, isoNow);
    assert VerifyThenPublish(s, rid, proposal, reply, publish, true, isoNow, now) == r;
    AsWrittenGoesOnToPublish(env, s, rid, wallet, reply, publish, true, isoNow, now);
  }

  /** Past its checks the as-written route goes straight on to the verdict
      and the publication, whatever the report's UAL. */
  lemma AsWrittenGoesOnToPublish(env: Env, s: Store, rid: int, wallet: string, reply: VerifierReply,
                                 publish: Json -> DkgResult, mappingOk: bool, isoNow: string, now: Timestamp)
    requires rid in s.reports && MayVerify(env, s.reports[rid], wallet)
    requires s.reports[rid].referendumIndex in s.proposals
    ensures VerifyAndPublishAsWritten(env, s, Some(rid), wallet, Some(reply), publish, mappingOk, isoNow, now)
         == VerifyThenPublish(s, rid, s.proposals[s.reports[rid].referendumIndex], reply, publish, mappingOk, isoNow, now)
  {
  }

  /** A UAL no report holds is still free for `rid` after a write that
      touches no other report. */
  lemma UalStaysFresh(s: Store, s1: Store, rid: int, ual: Option<string>)
    requires forall j :: j in s.reports ==> s.reports[j].publication.ual != ual
    requires s1.reports.Keys == s.reports.Keys
    requires forall j :: j in s.reports && j != rid ==> s1.reports[j] == s.reports[j]
    ensures !Db.ReportUalTaken(s1, rid, ual)
  {
    forall j | j in s1.reports && j != rid ensures s1.reports[j].publication.ual != ual {
      assert s1.reports[j] == s.reports[j];
    }
  }

  /** Publishing a verified report whose new UAL no other report holds
      stores that UAL, when the mapping insert succeeds. */
  lemma PublishVerifiedFresh(s1: Store, rid: int, rep: Report, proposal: Proposal, publish: Json -> DkgResult, isoNow: string)
    requires rid in s1.reports && !rep.content.jsonld.JNull?
    requires var d := publish(Documents.VerifyPublishDocument(rep, rep.content.jsonld, isoNow).value);
      d.success && Present(d.ual) && !Db.ReportUalTaken(s1, rid, d.ual)
    ensures var d := publish(Documents.VerifyPublishDocument(rep, rep.content.jsonld, isoNow).value);
      var r := PublishVerified(s1, rid, rep, proposal, publish, true, isoNow);
      r.outcome == PublishedToDkg(d.ual.value) && r.store.reports[rid].publication.ual == d.ual
  {
    var d := publish(Documents.VerifyPublishDocument(rep, rep.content.jsonld, isoNow).value);
    StoreFreshPublication(s1, rid, d, proposal, isoNow);
  }

  /** A successful publication whose UAL no other report holds is stored,
      under that UAL, when the mapping insert succeeds. */
  lemma StoreFreshPublication(s1: Store, rid: int, dkg: DkgResult, proposal: Proposal, isoNow: string)
    requires rid in s1.reports && dkg.success && Present(dkg.ual)
    requires !Db.ReportUalTaken(s1, rid, dkg.ual)
    ensures var r := StorePublication(s1, rid, dkg, proposal, true, isoNow);
      r.outcome == PublishedToDkg(dkg.ual.value)
  {
    var asset := if Present(dkg.assetId) then dkg.assetId else Some("pending");
    assert Db.UpdateDkgPublication(s1, rid, dkg.ual, asset, dkg.txHash, dkg.explorerUrl, isoNow).Ok?;
  }

  /** The corrected route never touches a published report: once a report
      has a UAL, every call leaves the store as it is. */
  lemma PublishedReportIsFinal(env: Env, s: Store, rid: int, wallet: string, reply: Option<VerifierReply>,
                               publish: Json -> DkgResult, mappingOk: bool, isoNow: string, now: Timestamp)
    requires rid in s.reports && Present(s.reports[rid].publication.ual)
    ensures VerifyAndPublish(env, s, Some(rid), wallet, reply, publish, mappingOk, isoNow, now).store == s
  {
  }

  /** The corrected route keeps every invariant. */
  lemma VerifyAndPublishKeepsInvariants(env: Env, s: Store, id: Option<int>, wallet: string, reply: Option<VerifierReply>,
                                        publish: Json -> DkgResult, mappingOk: bool, isoNow: string, now: Timestamp)
    requires Wf(s) && Consistent(s) && PremiumComplete(s)
    ensures var t := VerifyAndPublish(env, s, id, wallet, reply, publish, mappingOk, isoNow, now).store;
      Wf(t) && Consistent(t) && PremiumComplete(t)
  {
    var r := VerifyAndPublish(env, s, id, wallet, reply, publish, mappingOk, isoNow, now);
    if r.store != s {
      var rid := id.value;
      var rep := s.reports[rid];
      VerifyThenPublishKeepsInvariants(s, rid, s.proposals[rep.referendumIndex], reply.value, publish, mappingOk, isoNow, now);
    }
  }

  lemma VerifyThenPublishKeepsInvariants(s: Store, rid: int, proposal: Proposal, reply: VerifierReply, publish: Json -> DkgResult,
                                         mappingOk: bool, isoNow: string, now: Timestamp)
    requires rid in s.reports
    requires Wf(s) && Consistent(s) && PremiumComplete(s)
    ensures var t := VerifyThenPublish(s, rid, proposal, reply, publish, mappingOk, isoNow, now).store;
      Wf(t) && Consistent(t) && PremiumComplete(t)
  {
    if reply.valid {
      VerificationUpdateKeepsInvariants(s, rid, Verified, reply.confidence, reply.reasoning, reply.issues, now);
    } else {
      var reasoning := if Present(reply.reasoning) then reply.reasoning else Some(RejectionReasoning);
      VerificationUpdateKeepsInvariants(s, rid, Rejected, Some(reply.confidence.GetOr(0.0)), reasoning, reply.issues, now);
    }
  }

  /** A store that differs from `s` only in the publication columns of `rid`
      keeps the completeness of premium terms. */
  lemma PublicationUpdateKeepsComplete(s: Store, t: Store, rid: int)
    requires PremiumComplete(s) && rid in s.reports
    requires t.reports.Keys == s.reports.Keys
    requires Db.SameExceptPublication(s.reports[rid], t.reports[rid])
    requires forall j :: j in s.reports && j != rid ==> t.reports[j] == s.reports[j]
    ensures PremiumComplete(t)
  {
    forall j | j in t.reports && t.reports[j].premium.isPremium
      ensures NonZero(t.reports[j].premium.priceCents) && Present(t.reports[j].premium.payee)
    {
      assert t.reports[j].premium == s.reports[j].premium;
    }
  }
}
