/** `GET /api/premium-reports/:id` and `POST /api/premium-reports/:id/request-access`,
    and the request pipeline that puts the dynamic GET payment middleware in
    front of the first. The GET handler serves non-premium reports freely,
    and premium ones to a wallet that already has access or that presents an
    `x-payment` header, which it takes as proof that the middleware verified
    a payment, recording and granting access on the spot. */
module AccessRoutes {
  import opened Wrappers
  import opened Text
  import opened Schema
  import Lookups
  import PaymentConfig

  // ---------------------------------------------------------------------
  // GET /:id

  datatype GetOutcome =
    | NotFound
    | Open(report: Report)
    | WalletRequired
    | AlreadyGranted(report: Report)
    | GrantedNow(report: Report, accessId: int)
    | PaymentRequired(reportId: int, priceCents: Option<int>)

  function GetStatus(o: GetOutcome): int
  {
    match o
    case NotFound => 404
    case Open(_) => 200
    case WalletRequired => 400
    case AlreadyGranted(_) => 200
    case GrantedNow(_, _) => 200
    case PaymentRequired(_, _) => 402
  }

  /** The outcomes that send the report's content. */
  predicate ServesContent(o: GetOutcome)
  {
    o.Open? || o.AlreadyGranted? || o.GrantedNow?
  }

  /** The store after a grant and the id of the granted record. */
  datatype Granted = Granted(store: Store, accessId: int)

  /** The record a payment creates for a pair that has none: signed with
      the payment proof and the fixed message, the report's price as the
      amount paid, no transaction hash, and already granted. */
  function PaidRecord(id: int, reportId: int, wallet: string, signature: string, paidCents: Option<int>): AccessRecord
  {
    AccessRecord(id, reportId, wallet, Some(signature), Some(PaymentMessage), paidCents, None, true)
  }

  /** The access record of a (report, wallet) pair, reused when it exists
      and requested otherwise, and then granted. Afterwards that record is
      the pair's first one and it is granted. */
  function RecordAndGrant(s: Store, reportId: int, wallet: string, signature: string, paidCents: Option<int>): (r: Granted)
    ensures r.accessId in s.access || r.accessId == s.nextAccessId
    ensures Lookups.AccessKeyFor(r.store, reportId, wallet) == Some(r.accessId)
    ensures r.accessId in r.store.access && r.store.access[r.accessId].granted
    ensures Lookups.HasAccess(r.store, reportId, wallet)
    ensures GrantedAs(s, reportId, wallet, signature, paidCents, r)
    ensures Wf(s) ==> Wf(r.store)
    ensures Consistent(s) ==> Consistent(r.store)
    ensures r.store.reports == s.reports && r.store.proposals == s.proposals && r.store.mappings == s.mappings
  {
    var existing := Lookups.AccessKeyFor(s, reportId, wallet);
    if existing.Some? then
      var id := existing.value;
      var t := Lookups.GrantAccess(s, id);
      Lookups.GrantGivesAccess(s, id);
      assert forall k :: k in t.access ==> (Lookups.Matches(t.access[k], reportId, wallet) <==> Lookups.Matches(s.access[k], reportId, wallet));
      var first := Lookups.AccessKeyFor(t, reportId, wallet);
      assert first.value <= id && id <= first.value;
      Granted(t, id)
    else
      var ins := Lookups.InsertAccess(s, reportId, wallet, Some(signature), Some(PaymentMessage), paidCents, None);
      var t := Lookups.GrantAccess(ins.store, ins.key);
      PaidInsertGranted(s, reportId, wallet, signature, paidCents);
      Lookups.GrantGivesAccess(ins.store, ins.key);
      assert forall k :: k in t.access && k != ins.key ==> !Lookups.Matches(t.access[k], reportId, wallet);
      var first := Lookups.AccessKeyFor(t, reportId, wallet);
      assert first.value == ins.key;
      Granted(t, ins.key)
  }

  const PaymentMessage := "x402 payment protocol"

  /** Inserting a paid record and granting it adds the granted record under
      the next access id and changes nothing else. */
  lemma PaidInsertGranted(s: Store, reportId: int, wallet: string, signature: string, paidCents: Option<int>)
    ensures var ins := Lookups.InsertAccess(s, reportId, wallet, Some(signature), Some(PaymentMessage), paidCents, None);
      && ins.key == s.nextAccessId
      && Lookups.GrantAccess(ins.store, ins.key)
         == s.(access := s.access[s.nextAccessId := PaidRecord(s.nextAccessId, reportId, wallet, signature, paidCents)],
               nextAccessId := s.nextAccessId + 1)
  {
    var id := s.nextAccessId;
    var ins := Lookups.InsertAccess(s, reportId, wallet, Some(signature), Some(PaymentMessage), paidCents, None);
    var rec := AccessRecord(id, reportId, wallet, Some(signature), Some(PaymentMessage), paidCents, None, false);
    assert ins.store == s.(access := s.access[id := rec], nextAccessId := id + 1);
    assert s.access[id := rec][id := rec.(granted := true)] == s.access[id := PaidRecord(id, reportId, wallet, signature, paidCents)];
  }

  /** How a grant for a pair changes the store: the pair's existing record
      is granted, or a paid record is added under the next access id. */
  predicate GrantedAs(s: Store, reportId: int, wallet: string, signature: string, paidCents: Option<int>, g: Granted)
  {
    && (Lookups.AccessKeyFor(s, reportId, wallet).Some? ==>
          g.accessId == Lookups.AccessKeyFor(s, reportId, wallet).value && g.store == Lookups.GrantAccess(s, g.accessId))
    && (Lookups.AccessKeyFor(s, reportId, wallet).None? ==>
          && g.accessId == s.nextAccessId
          && g.store == s.(access := s.access[s.nextAccessId := PaidRecord(s.nextAccessId, reportId, wallet, signature, paidCents)],
                           nextAccessId := s.nextAccessId + 1))
  }

  /** Whether the report a path segment names is premium; `None` when no
      report has that id. */
  function FoundPremium(s: Store, idParam: string): (r: Option<bool>)
    ensures r.None? <==> Lookups.ReportById(s, ParseInt(idParam)).None?
  {
    var found := Lookups.ReportById(s, ParseInt(idParam));
    if found.Some? then Some(found.value.premium.isPremium) else None
  }

  /** The GET handler. `idParam` is the raw path segment; `wallet` the
      `wallet` query or body field; `payment` the `x-payment` header. */
  function GetReport(s: Store, idParam: string, wallet: Option<string>, payment: Option<string>): (r: Step<GetOutcome>)
    ensures !r.outcome.GrantedNow? ==> r.store == s
    ensures r.outcome.NotFound? <==> Lookups.ReportById(s, ParseInt(idParam)).None?
    ensures ServesContent(r.outcome) <==>
      var rep := Lookups.ReportById(s, ParseInt(idParam));
      rep.Some? && (!rep.value.premium.isPremium ||
        (Present(wallet) && (Lookups.HasAccess(s, ParseInt(idParam).value, wallet.value) || Present(payment))))
    ensures ServesContent(r.outcome) ==> r.outcome.report == Lookups.ReportById(s, ParseInt(idParam)).value
    ensures r.outcome.Open? <==> FoundPremium(s, idParam) == Some(false)
    ensures r.outcome.WalletRequired? <==> FoundPremium(s, idParam) == Some(true) && !Present(wallet)
    ensures r.outcome.AlreadyGranted? <==>
      FoundPremium(s, idParam) == Some(true) && Present(wallet) && Lookups.HasAccess(s, ParseInt(idParam).value, wallet.value)
    ensures r.outcome.GrantedNow? <==>
      FoundPremium(s, idParam) == Some(true) && Present(wallet) && !Lookups.HasAccess(s, ParseInt(idParam).value, wallet.value)
      && Present(payment)
    ensures r.outcome.PaymentRequired? <==>
      FoundPremium(s, idParam) == Some(true) && Present(wallet) && !Lookups.HasAccess(s, ParseInt(idParam).value, wallet.value)
      && !Present(payment)
    ensures r.outcome.PaymentRequired? ==>
      r.outcome == PaymentRequired(ParseInt(idParam).value, Lookups.ReportById(s, ParseInt(idParam)).value.premium.priceCents)
    ensures r.outcome.GrantedNow? ==>
      && Present(payment) && Present(wallet) && ParseInt(idParam).Some?
      && var rid := ParseInt(idParam).value;
      && Lookups.HasAccess(r.store, rid, wallet.value)
      && r.store.reports == s.reports
      && GrantedAs(s, rid, wallet.value, payment.value, Lookups.ReportById(s, ParseInt(idParam)).value.premium.priceCents,
                   Granted(r.store, r.outcome.accessId))
  {
    var found := Lookups.ReportById(s, ParseInt(idParam));
    if found.None? then Step(s, NotFound)
    else
      var rep := found.value;
      var rid := ParseInt(idParam).value;
      if !rep.premium.isPremium then Step(s, Open(rep))
      else if !Present(wallet) then Step(s, WalletRequired)
      else if Lookups.HasAccess(s, rid, wallet.value) then Step(s, AlreadyGranted(rep))
      else if Present(payment) then
        var g := RecordAndGrant(s, rid, wallet.value, payment.value, rep.premium.priceCents);
        Step(g.store, GrantedNow(rep, g.accessId))
      else Step(s, PaymentRequired(rid, rep.premium.priceCents))
  }

  /** A grant sticks: the same wallet asking again is served from its
      existing access, without a payment header and without another write. */
  lemma GetReportGrantIsRemembered(s: Store, idParam: string, wallet: Option<string>, payment: Option<string>)
    requires GetReport(s, idParam, wallet, payment).outcome.GrantedNow?
    ensures var t := GetReport(s, idParam, wallet, payment).store;
      var again := GetReport(t, idParam, wallet, None);
      again.outcome.AlreadyGranted? && again.store == t
  {
    var t := GetReport(s, idParam, wallet, payment).store;
    assert Lookups.ReportById(t, ParseInt(idParam)) == Lookups.ReportById(s, ParseInt(idParam));
  }

  /** The GET handler keeps every invariant. */
  lemma GetReportKeepsInvariants(s: Store, idParam: string, wallet: Option<string>, payment: Option<string>)
    requires Wf(s) && Consistent(s) && PremiumComplete(s)
    ensures var t := GetReport(s, idParam, wallet, payment).store;
      Wf(t) && Consistent(t) && PremiumComplete(t)
  {
  }

  // ---------------------------------------------------------------------
  // POST /:id/request-access

  datatype RequestOutcome =
    | MissingWallet
    | ReportNotFound
    | NotPremium
    | NotPublished
    | AlreadyHadAccess(accessId: int)
    | AccessGranted(accessId: int, reportUal: string)
    | ServerError

  function RequestStatus(o: RequestOutcome): int
  {
    match o
    case MissingWallet => 400
    case ReportNotFound => 404
    case NotPremium => 400
    case NotPublished => 400
    case AlreadyHadAccess(_) => 200
    case AccessGranted(_, _) => 200
    case ServerError => 500
  }

  /** The wallet's record for the report named by the path segment exists
      and is granted. */
  predicate GrantedRecord(s: Store, idParam: string, wallet: string)
    requires Lookups.ReportById(s, ParseInt(idParam)).Some?
  {
    var k := Lookups.AccessKeyFor(s, ParseInt(idParam).value, wallet);
    k.Some? && s.access[k.value].granted
  }

  /** The checks both versions of the handler make before granting; `None`
      when they all pass. */
  function RequestChecks(s: Store, idParam: string, wallet: Option<string>): (r: Option<RequestOutcome>)
    ensures r.None? <==>
      && Present(wallet)
      && var rep := Lookups.ReportById(s, ParseInt(idParam));
      && rep.Some? && rep.value.premium.isPremium && Present(rep.value.publication.ual)
      && !GrantedRecord(s, idParam, wallet.value)
    ensures r == Some(MissingWallet) <==> !Present(wallet)
    ensures r == Some(ReportNotFound) <==> Present(wallet) && FoundPremium(s, idParam).None?
    ensures r == Some(NotPremium) <==> Present(wallet) && FoundPremium(s, idParam) == Some(false)
    ensures r == Some(NotPublished) <==>
      Present(wallet) && FoundPremium(s, idParam) == Some(true)
      && !Present(Lookups.ReportById(s, ParseInt(idParam)).value.publication.ual)
    ensures r.Some? && r.value.AlreadyHadAccess? <==>
      Present(wallet) && FoundPremium(s, idParam) == Some(true)
      && Present(Lookups.ReportById(s, ParseInt(idParam)).value.publication.ual)
      && GrantedRecord(s, idParam, wallet.value)
    ensures r.Some? && r.value.AlreadyHadAccess? ==>
      r.value.accessId == Lookups.AccessKeyFor(s, ParseInt(idParam).value, wallet.value).value
    ensures r.Some? ==> !r.value.AccessGranted? && !r.value.ServerError?
  {
    if !Present(wallet) then Some(MissingWallet)
    else
      var found := Lookups.ReportById(s, ParseInt(idParam));
      if found.None? then Some(ReportNotFound)
      else if !found.value.premium.isPremium then Some(NotPremium)
      else if !Present(found.value.publication.ual) then Some(NotPublished)
      else
        var k := Lookups.AccessKeyFor(s, ParseInt(idParam).value, wallet.value);
        if k.Some? && s.access[k.value].granted then Some(AlreadyHadAccess(k.value)) else None
  }

  /** The handler as written: once the checks pass it answers with
      `accessId`, a variable whose declaration is commented out together
      with the grant, so the response throws and the route answers 500. */
  function RequestAccessAsWritten(s: Store, idParam: string, wallet: Option<string>, payment: Option<string>): (r: Step<RequestOutcome>)
    ensures r.store == s
    ensures !r.outcome.AccessGranted?
    ensures r.outcome.ServerError? <==> RequestChecks(s, idParam, wallet).None?
  {
    var checked := RequestChecks(s, idParam, wallet);
    if checked.Some? then Step(s, checked.value) else Step(s, ServerError)
  }

  /** The as-written handler never grants access: a premium, published
      report that the wallet has no granted record for stays unreadable to
      it, whatever payment header came along. */
  lemma RequestAccessAsWrittenNeverGrants(s: Store, reportId: nat, wallet: string, payment: Option<string>)
    requires Wf(s) && Consistent(s)
    requires reportId in s.reports && s.reports[reportId].premium.isPremium
    requires Present(s.reports[reportId].publication.ual)
    requires |wallet| > 0 && !Lookups.HasAccess(s, reportId, wallet)
    ensures var r := RequestAccessAsWritten(s, NatToString(reportId), Some(wallet), payment);
      r.outcome == ServerError && !Lookups.HasAccess(r.store, reportId, wallet)
  {
    ParseIntOfNatToString(reportId);
  }

  /** The handler with the grant restored: reuse or request the record,
      with the payment header (or `x402-verified`) as its signature, and
      grant it. */
  function RequestAccess(s: Store, idParam: string, wallet: Option<string>, payment: Option<string>): (r: Step<RequestOutcome>)
    ensures !r.outcome.ServerError?
    ensures !r.outcome.AccessGranted? ==> r.store == s
    ensures r.outcome.AccessGranted? <==> RequestChecks(s, idParam, wallet).None?
    ensures r.outcome.AccessGranted? ==>
      && Lookups.HasAccess(r.store, ParseInt(idParam).value, wallet.value)
      && Some(r.outcome.reportUal) == s.reports[ParseInt(idParam).value].publication.ual
      && r.store.reports == s.reports
  {
    var checked := RequestChecks(s, idParam, wallet);
    if checked.Some? then Step(s, checked.value)
    else
      var rid := ParseInt(idParam).value;
      var rep := s.reports[rid];
      var proof := if Present(payment) then payment.value else "x402-verified";
      var g := RecordAndGrant(s, rid, wallet.value, proof, rep.premium.priceCents);
      Step(g.store, AccessGranted(g.accessId, rep.publication.ual.value))
  }

  /** Asking twice is harmless: the second request finds the grant and
      changes nothing. */
  lemma RequestAccessIdempotent(s: Store, idParam: string, wallet: Option<string>, payment: Option<string>)
    requires RequestAccess(s, idParam, wallet, payment).outcome.AccessGranted?
    ensures var t := RequestAccess(s, idParam, wallet, payment).store;
      var again := RequestAccess(t, idParam, wallet, payment);
      again.outcome.AlreadyHadAccess? && again.store == t
  {
    var r := RequestAccess(s, idParam, wallet, payment);
    var t := r.store;
    var rid := ParseInt(idParam).value;
    var w := wallet.value;
    assert Lookups.ReportById(t, ParseInt(idParam)) == Lookups.ReportById(s, ParseInt(idParam));
    assert Lookups.HasAccess(t, rid, w);
    var k := Lookups.AccessKeyFor(t, rid, w);
  }

  /** The corrected handler keeps every invariant. */
  lemma RequestAccessKeepsInvariants(s: Store, idParam: string, wallet: Option<string>, payment: Option<string>)
    requires Wf(s) && Consistent(s) && PremiumComplete(s)
    ensures var t := RequestAccess(s, idParam, wallet, payment).store;
      Wf(t) && Consistent(t) && PremiumComplete(t)
  {
  }
}
