/** The request pipeline in front of `GET /api/premium-reports/:id`: the
    dynamic payment middleware decides whether to demand payment, and the
    router hands what passes to the GET handler. The router matches the
    `:id` segment loosely (one trailing slash allowed, any text in the
    segment, `HEAD` served by the GET handler), while the middleware only
    recognises GET requests whose path ends in digits, so some requests
    reach the handler, and its trust in the `x-payment` header, without a
    payment demand. Whether the payment library accepts a presented header
    is a parameter. */
module Pipeline {
  import opened Wrappers
  import opened Text
  import opened Schema
  import Lookups
  import PaymentConfig
  import AccessRoutes

  const ReportsPath := PaymentConfig.ReportsPath

  /** The router's match of `/api/premium-reports/:id`: one non-empty
      segment without `/`, optionally followed by a single `/`. */
  function RouteParam(path: string): (r: Option<string>)
    ensures r.Some? ==> |r.value| > 0 && '/' !in r.value
    ensures r.Some? ==> path == ReportsPath + r.value || path == ReportsPath + r.value + "/"
  {
    if |path| <= |ReportsPath| || path[..|ReportsPath|] != ReportsPath then None
    else
      var rest := path[|ReportsPath|..];
      var seg := if rest[|rest| - 1] == '/' then rest[..|rest| - 1] else rest;
      assert path == ReportsPath + rest;
      assert rest[|rest| - 1] == '/' ==> rest == seg + "/";
      if |seg| > 0 && '/' !in seg then Some(seg) else None
  }

  /** The router finds the segment of both spellings of the path. */
  lemma RouteParamOf(seg: string, slash: bool)
    requires |seg| > 0 && '/' !in seg
    ensures RouteParam(ReportsPath + seg + (if slash then "/" else "")) == Some(seg)
  {
    var path := ReportsPath + seg + (if slash then "/" else "");
    assert path[..|ReportsPath|] == ReportsPath;
    var rest := path[|ReportsPath|..];
    assert rest == seg + (if slash then "/" else "");
    if !slash {
      assert rest == seg;
      assert rest[|rest| - 1] == seg[|seg| - 1];
      assert rest[|rest| - 1] in seg;
      assert rest[|rest| - 1] != '/';
    } else {
      assert rest[..|rest| - 1] == seg;
    }
  }

  /** Express routes `HEAD` requests to GET handlers. */
  predicate ServedByGet(verb: string)
  {
    verb == "GET" || verb == "HEAD"
  }

  datatype PipelineOutcome =
    | PaymentDemanded(requirement: PaymentConfig.PaymentRequirement)
    | Handled(outcome: AccessRoutes.GetOutcome)
    | NotRouted

  /** The header is present and the payment library accepts it for the requirement. */
  predicate Paid(payment: Option<string>, accepts: (PaymentConfig.PaymentRequirement, string) -> bool,
                 req: PaymentConfig.PaymentRequirement)
  {
    Present(payment) && accepts(req, payment.value)
  }

  /** The router after the middleware. */
  function Route(s: Store, verb: string, path: string, wallet: Option<string>, payment: Option<string>): (r: Step<PipelineOutcome>)
    ensures !r.outcome.PaymentDemanded?
    ensures r.outcome.Handled? <==> ServedByGet(verb) && RouteParam(path).Some?
    ensures r.outcome.Handled? ==> r == (var g := AccessRoutes.GetReport(s, RouteParam(path).value, wallet, payment); Step(g.store, Handled(g.outcome)))
    ensures r.outcome.NotRouted? ==> r.store == s
  {
    if ServedByGet(verb) && RouteParam(path).Some? then
      var g := AccessRoutes.GetReport(s, RouteParam(path).value, wallet, payment);
      Step(g.store, Handled(g.outcome))
    else Step(s, NotRouted)
  }

  /** The payment library charges only a request that matches its route
      configuration, whose one key is the request line `<METHOD> <path>`;
      any other request is passed on to the router. */
  predicate Covers(req: PaymentConfig.PaymentRequirement, verb: string, path: string)
  {
    req.routeKey == verb + " " + path
  }

  /** A middleware's decision applied: an unmet demand on a request the
      requirement covers answers 402 without reaching the router. */
  function Apply(d: PaymentConfig.Decision, s: Store, verb: string, path: string, wallet: Option<string>, payment: Option<string>,
                 accepts: (PaymentConfig.PaymentRequirement, string) -> bool): (r: Step<PipelineOutcome>)
    requires !d.Fault?
    ensures r.outcome.PaymentDemanded? <==>
      d.RequirePayment? && Covers(d.requirement, verb, path) && !Paid(payment, accepts, d.requirement)
    ensures r.outcome.PaymentDemanded? ==> r.store == s && r.outcome.requirement == d.requirement
    ensures !r.outcome.PaymentDemanded? ==> r == Route(s, verb, path, wallet, payment)
  {
    if d.RequirePayment? && Covers(d.requirement, verb, path) && !Paid(payment, accepts, d.requirement) then
      Step(s, PaymentDemanded(d.requirement))
    else Route(s, verb, path, wallet, payment)
  }

  // ---------------------------------------------------------------------
  // As written

  function PipelineAsWritten(s: Store, verb: string, path: string, wallet: Option<string>, payment: Option<string>,
                             accepts: (PaymentConfig.PaymentRequirement, string) -> bool): (r: Step<PipelineOutcome>)
    ensures r.outcome.PaymentDemanded? ==> verb == "GET" && r.store == s
  {
    Apply(PaymentConfig.DynamicGet(s, verb, path), s, verb, path, wallet, payment, accepts)
  }

  /** A path that ends in `/` is never matched by the middleware. */
  lemma SlashPathNotMatched(path: string)
    requires |path| > 0 && path[|path| - 1] == '/'
    ensures PaymentConfig.MatchReportPath(path).None?
  {
    MatchedPathEndsInDigit(path);
    assert DigitIn('/', 10).None?;
  }

  lemma MatchedPathEndsInDigit(path: string)
    requires |path| > 0
    ensures PaymentConfig.MatchReportPath(path).Some? ==> DigitIn(path[|path| - 1], 10).Some?
  {
    var m := PaymentConfig.MatchReportPath(path);
    if m.Some? {
      var d := m.value;
      var suffix := ReportsPath + d;
      assert path[|path| - 1] == suffix[|suffix| - 1] == d[|d| - 1];
    }
  }

  /** A GET of `/api/premium-reports/<id>/` for a premium report is served,
      and access granted, on any `x-payment` header, whatever the payment
      library would have said of it: the middleware does not match the
      trailing slash and the router does. */
  lemma TrailingSlashSkipsPayment(s: Store, id: nat, wallet: string, proof: string,
                                  accepts: (PaymentConfig.PaymentRequirement, string) -> bool)
    requires id in s.reports && s.reports[id].premium.isPremium
    requires |wallet| > 0 && |proof| > 0 && !Lookups.HasAccess(s, id, wallet)
    ensures var r := PipelineAsWritten(s, "GET", ReportsPath + NatToString(id) + "/", Some(wallet), Some(proof), accepts);
      r.outcome.Handled? && r.outcome.outcome.GrantedNow? && r.outcome.outcome.report == s.reports[id]
      && Lookups.HasAccess(r.store, id, wallet)
  {
    var path := ReportsPath + NatToString(id) + "/";
    SlashPathNotMatched(path);
    NoSlashInDigits(NatToString(id));
    RouteParamOf(NatToString(id), true);
    ParseIntOfNatToString(id);
    UnchargedRequestIsGranted(s, "GET", path, NatToString(id), id, wallet, proof, accepts);
  }

  /** A request the middleware lets through and the router sends to the GET
      handler, naming a premium report the wallet has no access to, with an
      `x-payment` header, is granted access. */
  lemma UnchargedRequestIsGranted(s: Store, verb: string, path: string, seg: string, id: nat, wallet: string, proof: string,
                                  accepts: (PaymentConfig.PaymentRequirement, string) -> bool)
    requires var d := PaymentConfig.DynamicGet(s, verb, path); !(d.RequirePayment? && Covers(d.requirement, verb, path))
    requires ServedByGet(verb) && RouteParam(path) == Some(seg) && ParseInt(seg) == Some(id)
    requires id in s.reports && s.reports[id].premium.isPremium
    requires |wallet| > 0 && |proof| > 0 && !Lookups.HasAccess(s, id, wallet)
    ensures var r := PipelineAsWritten(s, verb, path, Some(wallet), Some(proof), accepts);
      r.outcome.Handled? && r.outcome.outcome.GrantedNow? && r.outcome.outcome.report == s.reports[id]
      && Lookups.HasAccess(r.store, id, wallet)
  {
    var r := PipelineAsWritten(s, verb, path, Some(wallet), Some(proof), accepts);
    assert r == Route(s, verb, path, Some(wallet), Some(proof));
  }

  /** A `HEAD` request for a premium report records and grants access on
      any `x-payment` header: the middleware only looks at GET. */
  lemma HeadRequestSkipsPayment(s: Store, id: nat, wallet: string, proof: string,
                                accepts: (PaymentConfig.PaymentRequirement, string) -> bool)
    requires id in s.reports && s.reports[id].premium.isPremium
    requires |wallet| > 0 && |proof| > 0 && !Lookups.HasAccess(s, id, wallet)
    ensures var r := PipelineAsWritten(s, "HEAD", ReportsPath + NatToString(id), Some(wallet), Some(proof), accepts);
      r.outcome.Handled? && r.outcome.outcome.GrantedNow? && r.outcome.outcome.report == s.reports[id]
      && Lookups.HasAccess(r.store, id, wallet)
  {
    var path := ReportsPath + NatToString(id);
    NoSlashInDigits(NatToString(id));
    RouteParamOf(NatToString(id), false);
    assert path + "" == path;
    ParseIntOfNatToString(id);
    assert !PaymentConfig.DynamicGet(s, "HEAD", path).RequirePayment?;
    UnchargedRequestIsGranted(s, "HEAD", path, NatToString(id), id, wallet, proof, accepts);
  }

  /** A GET of `/api/premium-reports/<id>a` for a premium report records
      and grants access to report `<id>` on any `x-payment` header: the
      middleware wants the path to end in digits, while the handler's
      `parseInt` stops at the first non-digit. */
  lemma TrailingTextSkipsPayment(s: Store, id: nat, wallet: string, proof: string,
                                 accepts: (PaymentConfig.PaymentRequirement, string) -> bool)
    requires id in s.reports && s.reports[id].premium.isPremium
    requires |wallet| > 0 && |proof| > 0 && !Lookups.HasAccess(s, id, wallet)
    ensures var r := PipelineAsWritten(s, "GET", ReportsPath + (NatToString(id) + "a"), Some(wallet), Some(proof), accepts);
      r.outcome.Handled? && r.outcome.outcome.GrantedNow? && r.outcome.outcome.report == s.reports[id]
      && Lookups.HasAccess(r.store, id, wallet)
  {
    var seg := NatToString(id) + "a";
    var path := ReportsPath + seg;
    MatchedPathEndsInDigit(path);
    assert path[|path| - 1] == 'a' && DigitIn('a', 10).None?;
    NoSlashInDigits(NatToString(id));
    assert '/' !in seg by {
      forall i | 0 <= i < |seg| ensures seg[i] != '/' {
        if i < |NatToString(id)| {
          assert seg[i] == NatToString(id)[i];
        }
      }
    }
    RouteParamOf(seg, false);
    assert path + "" == path;
    ParseIntDigitsThenRest(NatToString(id), "a");
    ParseIntOfNatToString(id);
    UnchargedRequestIsGranted(s, "GET", path, seg, id, wallet, proof, accepts);
  }

  /** A GET of `/api/premium-reports/0<id>` for a premium report records
      and grants access to report `<id>` on any `x-payment` header: the
      middleware builds the requirement for `GET /api/premium-reports/<id>`,
      which does not cover the request line, while the handler's `parseInt`
      ignores the leading zero. */
  lemma LeadingZeroSkipsPayment(s: Store, id: nat, wallet: string, proof: string,
                                accepts: (PaymentConfig.PaymentRequirement, string) -> bool)
    requires id in s.reports && s.reports[id].premium.isPremium
    requires |wallet| > 0 && |proof| > 0 && !Lookups.HasAccess(s, id, wallet)
    ensures var r := PipelineAsWritten(s, "GET", ReportsPath + ("0" + NatToString(id)), Some(wallet), Some(proof), accepts);
      r.outcome.Handled? && r.outcome.outcome.GrantedNow? && r.outcome.outcome.report == s.reports[id]
      && Lookups.HasAccess(r.store, id, wallet)
  {
    var seg := "0" + NatToString(id);
    var path := ReportsPath + seg;
    LeadingZeroValue(NatToString(id));
    NoSlashInDigits(seg);
    RouteParamOf(seg, false);
    assert path + "" == path;
    ParseIntDigits(seg);
    PaymentConfig.MatchReportPathComplete("", seg);
    assert "" + ReportsPath + seg == path;
    var d := PaymentConfig.DynamicGet(s, "GET", path);
    if d.RequirePayment? {
      assert d.requirement.routeKey == PaymentConfig.GetRouteKey(id);
      assert |d.requirement.routeKey| < |"GET " + path|;
    }
    UnchargedRequestIsGranted(s, "GET", path, seg, id, wallet, proof, accepts);
  }

  /** The request line of a GET. */
  lemma GetRequestLine(path: string)
    ensures "GET" + " " + path == "GET " + path
  {
    assert "GET" + " " == "GET ";
  }

  lemma ConcatAssoc(a: string, b: string, c: string)
    ensures a + b + c == a + (b + c)
  {
  }

  lemma NoSlashInDigits(d: string)
    requires AllDigits(d)
    ensures '/' !in d
  {
    forall i | 0 <= i < |d|
      ensures d[i] != '/'
    {
      assert DigitIn(d[i], 10).Some?;
    }
  }

  // ---------------------------------------------------------------------
  // Corrected: the middleware matches what the router matches

  /** The middleware keyed on the router's own match: every request the GET
      handler will serve for a payable report demands payment, under a
      requirement keyed by the request line itself. */
  function DynamicGetAligned(s: Store, verb: string, path: string): (d: PaymentConfig.Decision)
    ensures !d.Fault?
    ensures d.RequirePayment? <==>
      ServedByGet(verb) && RouteParam(path).Some? && ParseInt(RouteParam(path).value).Some?
      && PaymentConfig.Payable(s, ParseInt(RouteParam(path).value).value)
    ensures d.RequirePayment? ==>
      && Covers(d.requirement, verb, path)
      && d.requirement == PaymentConfig.ReportMiddlewareForGet(s, ParseInt(RouteParam(path).value).value).value.(routeKey := verb + " " + path)
  {
    var seg := RouteParam(path);
    if !ServedByGet(verb) || seg.None? then PaymentConfig.PassThrough
    else
      var id := ParseInt(seg.value);
      if id.None? || !PaymentConfig.Payable(s, id.value) then PaymentConfig.PassThrough
      else PaymentConfig.RequirePayment(PaymentConfig.ReportMiddlewareForGet(s, id.value).value.(routeKey := verb + " " + path))
  }

  function PipelineAligned(s: Store, verb: string, path: string, wallet: Option<string>, payment: Option<string>,
                           accepts: (PaymentConfig.PaymentRequirement, string) -> bool): (r: Step<PipelineOutcome>)
    ensures r.outcome.PaymentDemanded? ==> r.store == s
  {
    Apply(DynamicGetAligned(s, verb, path), s, verb, path, wallet, payment, accepts)
  }

  /** With premium terms complete, the aligned pipeline sends a premium
      report's content, or grants access to it, only on a payment the
      library accepted for that report's requirement. */
  lemma AlignedPipelineChargesPremium(s: Store, verb: string, path: string, wallet: Option<string>, payment: Option<string>,
                                      accepts: (PaymentConfig.PaymentRequirement, string) -> bool)
    requires PremiumComplete(s)
    ensures var r := PipelineAligned(s, verb, path, wallet, payment, accepts);
      r.outcome.Handled? && AccessRoutes.ServesContent(r.outcome.outcome) && r.outcome.outcome.report.premium.isPremium ==>
        var d := DynamicGetAligned(s, verb, path);
        d.RequirePayment? && Paid(payment, accepts, d.requirement)
    ensures var r := PipelineAligned(s, verb, path, wallet, payment, accepts);
      r.store != s ==>
        var d := DynamicGetAligned(s, verb, path);
        d.RequirePayment? && Paid(payment, accepts, d.requirement)
  {
    var r := PipelineAligned(s, verb, path, wallet, payment, accepts);
    var d := DynamicGetAligned(s, verb, path);
    if r.outcome.Handled? {
      var seg := RouteParam(path).value;
      var g := AccessRoutes.GetReport(s, seg, wallet, payment);
      assert r.outcome.outcome == g.outcome && r.store == g.store;
      if (AccessRoutes.ServesContent(g.outcome) && g.outcome.report.premium.isPremium) || g.store != s {
        var id := ParseInt(seg).value;
        assert id in s.reports && s.reports[id].premium.isPremium;
        assert PaymentConfig.Payable(s, id);
      }
    }
  }

  /** On the canonical request, `GET /api/premium-reports/<id>`, the aligned
      middleware decides exactly as the original one. */
  lemma AlignedAgreesOnCanonicalPath(s: Store, id: nat)
    ensures DynamicGetAligned(s, "GET", ReportsPath + NatToString(id)) == PaymentConfig.DynamicGet(s, "GET", ReportsPath + NatToString(id))
  {
    var path := ReportsPath + NatToString(id);
    NoSlashInDigits(NatToString(id));
    RouteParamOf(NatToString(id), false);
    assert path + "" == path;
    ParseIntOfNatToString(id);
    PaymentConfig.MatchReportPathComplete("", NatToString(id));
    assert "" + ReportsPath + NatToString(id) == path;
    assert PaymentConfig.GetRouteKey(id) == "GET " + path by {
      assert IntToString(id) == NatToString(id);
      ConcatAssoc("GET ", ReportsPath, NatToString(id));
    }
    AlignedAgreesWhenKeyed(s, path, NatToString(id), id);
  }

  /** Where the router's segment and the middleware's digits are the same
      and the original requirement's key is the request line, the two
      middlewares decide alike. */
  lemma AlignedAgreesWhenKeyed(s: Store, path: string, seg: string, id: nat)
    requires RouteParam(path) == Some(seg) && ParseInt(seg) == Some(id)
    requires PaymentConfig.MatchReportPath(path) == Some(seg) && DigitsValue(seg) == id
    requires PaymentConfig.GetRouteKey(id) == "GET " + path
    ensures DynamicGetAligned(s, "GET", path) == PaymentConfig.DynamicGet(s, "GET", path)
  {
    var d1 := PaymentConfig.DynamicGet(s, "GET", path);
    var d2 := DynamicGetAligned(s, "GET", path);
    if PaymentConfig.Payable(s, id) {
      var m := PaymentConfig.ReportMiddlewareForGet(s, id).value;
      var line := "GET" + " " + path;
      GetRequestLine(path);
      assert m.routeKey == line;
      assert d1.RequirePayment? && d1.requirement == m;
      assert d2.RequirePayment? && d2.requirement == m.(routeKey := line);
      assert m.(routeKey := line) == m;
    } else {
      assert !d1.RequirePayment? && !d2.RequirePayment?;
    }
  }
}
