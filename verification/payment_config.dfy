/** Payment-route resolution: the price of a premium report, the payment
    requirement for its GET route, and the per-request decision the
    dynamic payment middleware takes from the request path, the HTTP method
    and the report's premium and payee columns. The payment library itself
    is not modelled: a requirement is the data handed to it. */
module PaymentConfig {
  import opened Wrappers
  import opened Text
  import opened Schema
  import Lookups

  const FacilitatorUrl := "https://x402.org/facilitator"
  const BaseSepoliaUsdc := "0x036CbD53842c5426634e7929541eC2318f3dCF7e"
  const BaseSepoliaChainId := 84532
  const BaseSepolia := "base-sepolia"

  /** Path prefix of the report routes. */
  const ReportsPath := "/api/premium-reports/"

  predicate EndsWith(s: string, suffix: string)
  {
    |suffix| <= |s| && s[|s| - |suffix|..] == suffix
  }

  predicate StartsWith(s: string, prefix: string)
  {
    |prefix| <= |s| && s[..|prefix|] == prefix
  }

  // ---------------------------------------------------------------------
  // Prices

  function TwoDigits(n: nat): (s: string)
    requires n < 100
    ensures |s| == 2 && AllDigits(s) && DigitsValue(s) == n
  {
    var s := [DigitChar(n / 10), DigitChar(n % 10)];
    assert s[..1] == [s[0]] && s[..1][..0] == [];
    assert ValueIn(s[..1], 10) == n / 10;
    assert ValueIn(s, 10) == ValueIn(s[..1], 10) * 10 + n % 10;
    s
  }

  /** `"$" + amount.toFixed(2)` for an amount of `cents` hundredths. */
  function FormatPrice(cents: int): (s: string)
    ensures |s| >= 5 && s[0] == '$' && s[|s| - 3] == '.'
  {
    var m: nat := if cents < 0 then -cents else cents;
    "$" + (if cents < 0 then "-" else "") + NatToString(m / 100) + "." + TwoDigits(m % 100)
  }

  /** Reads a formatted price back into cents. */
  function ParsePrice(s: string): Option<int>
  {
    if |s| < 5 || s[0] != '$' || s[|s| - 3] != '.' then None
    else
      var body := s[1..|s| - 3];
      var frac := s[|s| - 2..];
      var negative := |body| > 0 && body[0] == '-';
      var whole := if negative then body[1..] else body;
      if |whole| == 0 || !AllDigits(whole) || !AllDigits(frac) then None
      else
        var m := DigitsValue(whole) * 100 + DigitsValue(frac);
        Some(if negative then -m else m)
  }

  /** Round trip: the formatted price reads back as the same number of cents,
      so distinct prices are shown differently. */
  lemma ParseFormatPrice(cents: int)
    ensures ParsePrice(FormatPrice(cents)) == Some(cents)
  {
    var m: nat := if cents < 0 then -cents else cents;
    var q, rem := m / 100, m % 100;
    var whole := NatToString(q);
    var frac := TwoDigits(rem);
    var text := "$" + ((if cents < 0 then "-" else "") + whole) + ("." + frac);
    var v := DigitsValue(whole) * 100 + DigitsValue(frac);
    assert v == m by {
      assert DigitsValue(whole) == q && DigitsValue(frac) == rem;
      assert q * 100 + rem == m;
    }
    assert FormatPrice(cents) == text by {
      FormatPriceShape(cents);
    }
    assert ParsePrice(text) == Some(if cents < 0 then -v else v) by {
      ParsePriceParts(cents < 0, whole, frac);
    }
  }

  lemma FormatPriceShape(cents: int)
    ensures var m: nat := if cents < 0 then -cents else cents;
      FormatPrice(cents) == "$" + ((if cents < 0 then "-" else "") + NatToString(m / 100)) + ("." + TwoDigits(m % 100))
  {
  }

  /** Reading back a price text assembled from its sign, whole part and
      two fraction digits. */
  lemma ParsePriceParts(negative: bool, whole: string, frac: string)
    requires |whole| > 0 && AllDigits(whole) && whole[0] != '-'
    requires |frac| == 2 && AllDigits(frac)
    ensures var m := DigitsValue(whole) * 100 + DigitsValue(frac);
      ParsePrice("$" + ((if negative then "-" else "") + whole) + ("." + frac)) == Some(if negative then -m else m)
  {
    var sign := if negative then "-" else "";
    var tail := "." + frac;
    var s := "$" + (sign + whole) + tail;
    Slices("$", sign + whole, tail);
    assert s[1..|s| - 3] == sign + whole;
    assert tail[1..] == frac;
    assert s[|s| - 2..] == frac;
    if negative {
      assert (sign + whole)[1..] == whole;
    } else {
      assert sign + whole == whole;
    }
  }

  /** The middle and the end of a three-part concatenation. */
  lemma Slices(a: string, b: string, c: string)
    ensures (a + b + c)[|a|..|a| + |b|] == b
    ensures (a + b + c)[|a| + |b|..] == c
  {
    var s := a + b + c;
    assert forall i :: 0 <= i < |b| ==> s[|a| + i] == b[i];
    assert forall i :: 0 <= i < |c| ==> s[|a| + |b| + i] == c[i];
  }

  lemma FormatPriceInjective(a: int, b: int)
    requires FormatPrice(a) == FormatPrice(b)
    ensures a == b
  {
    ParseFormatPrice(a);
    ParseFormatPrice(b);
  }

  /** `getReportPrice`: no price for a missing or non-premium report;
      otherwise the premium price, a missing price counting as zero. */
  function GetReportPrice(s: Store, reportId: int): (r: Option<string>)
    ensures r.None? <==> reportId !in s.reports || !s.reports[reportId].premium.isPremium
    ensures r.Some? ==> ParsePrice(r.value) == Some(s.reports[reportId].premium.priceCents.GetOr(0))
  {
    if reportId !in s.reports || !s.reports[reportId].premium.isPremium then None
    else
      var cents := s.reports[reportId].premium.priceCents.GetOr(0);
      ParseFormatPrice(cents);
      Some(FormatPrice(cents))
  }

  // ---------------------------------------------------------------------
  // Payment requirements

  datatype TokenMetadata = TokenMetadata(name: string, version: string, chainId: int, verifyingContract: string)

  /** One entry of the route configuration handed to the payment library. */
  datatype RouteConfig = RouteConfig(
    price: string,
    network: string,
    token: string,
    description: string,
    tokenMetadata: Option<TokenMetadata>,
    skipSettlement: bool)

  /** What the payment middleware is built from: who is paid, for which
      route key, on which terms, through which facilitator. */
  datatype PaymentRequirement = PaymentRequirement(payTo: string, routeKey: string, config: RouteConfig, facilitator: string)

  /** A report has everything a payment requirement needs. */
  predicate Payable(s: Store, reportId: int)
  {
    reportId in s.reports && s.reports[reportId].premium.isPremium && Present(s.reports[reportId].premium.payee)
  }

  /** The report's display name, or `Report #<id>` when it has none. */
  function DisplayName(rep: Report, reportId: int): string
  {
    if Present(rep.name) then rep.name.value else "Report #" + IntToString(reportId)
  }

  const DescriptionPrefix := "Access to premium report: "

  function GetRouteKey(reportId: int): string
  {
    "GET " + ReportsPath + IntToString(reportId)
  }

  /** `createReportX402MiddlewareForGet`: nothing for a missing, non-premium
      or payee-less report; otherwise a requirement keyed by the report's
      GET route, paying the report's payee its formatted price in Base
      Sepolia USDC, with on-chain settlement skipped. */
  function ReportMiddlewareForGet(s: Store, reportId: int): (r: Option<PaymentRequirement>)
    ensures r.None? <==> !Payable(s, reportId)
    ensures r.Some? ==>
      var rep := s.reports[reportId];
      && r.value.payTo == rep.premium.payee.value
      && r.value.routeKey == GetRouteKey(reportId)
      && Some(r.value.config.price) == GetReportPrice(s, reportId)
      && ParsePrice(r.value.config.price) == Some(rep.premium.priceCents.GetOr(0))
      && r.value.config.network == BaseSepolia
      && r.value.config.token == BaseSepoliaUsdc
      && StartsWith(r.value.config.description, DescriptionPrefix)
      && (Present(rep.name) ==> EndsWith(r.value.config.description, rep.name.value))
      && r.value.config.tokenMetadata == Some(TokenMetadata("USDC", "2", BaseSepoliaChainId, BaseSepoliaUsdc))
      && r.value.config.skipSettlement
      && r.value.facilitator == FacilitatorUrl
  {
    if !Payable(s, reportId) then None
    else
      var rep := s.reports[reportId];
      var description := DescriptionPrefix + DisplayName(rep, reportId);
      assert description[..|DescriptionPrefix|] == DescriptionPrefix;
      var config := RouteConfig(GetReportPrice(s, reportId).value, BaseSepolia, BaseSepoliaUsdc, description,
                                Some(TokenMetadata("USDC", "2", BaseSepoliaChainId, BaseSepoliaUsdc)), true);
      Some(PaymentRequirement(rep.premium.payee.value, GetRouteKey(reportId), config, FacilitatorUrl))
  }

  // ---------------------------------------------------------------------
  // Matching `/\/api\/premium-reports\/(\d+)$/`

  /** Length of the longest all-digit suffix of `s`. */
  function TrailingDigits(s: string): (k: nat)
    ensures k <= |s| && AllDigits(s[|s| - k..])
    ensures k < |s| ==> !IsDigit(s[|s| - k - 1])
  {
    if |s| == 0 || !IsDigit(s[|s| - 1]) then 0
    else
      var p := s[..|s| - 1];
      var j := TrailingDigits(p);
      assert s[|s| - (j + 1)..] == p[|p| - j..] + [s[|s| - 1]];
      AllDigitsSnoc(p[|p| - j..], s[|s| - 1]);
      assert j + 1 < |s| ==> s[|s| - (j + 1) - 1] == p[|p| - j - 1];
      j + 1
  }

  /** The captured id of a path that ends in `/api/premium-reports/<digits>`. */
  function MatchReportPath(path: string): (r: Option<string>)
    ensures r.Some? ==> |r.value| > 0 && AllDigits(r.value) && EndsWith(path, ReportsPath + r.value)
  {
    var k := TrailingDigits(path);
    var head := path[..|path| - k];
    if k > 0 && EndsWith(head, ReportsPath) then
      var d := path[|path| - k..];
      assert path == head + d;
      assert path[|path| - |ReportsPath + d|..] == head[|head| - |ReportsPath|..] + d;
      Some(d)
    else None
  }

  /** Completeness: every path ending in the prefix and a digit run is matched,
      and the captured group is exactly that run. */
  lemma MatchReportPathComplete(x: string, d: string)
    requires |d| > 0 && AllDigits(d)
    ensures MatchReportPath(x + ReportsPath + d) == Some(d)
  {
    var path := x + ReportsPath + d;
    var k := TrailingDigits(path);
    assert forall i :: 0 <= i < |d| ==> path[|x| + |ReportsPath| + i] == d[i];
    assert path[|path| - |d| - 1] == '/';
    TrailingDigitsOfRun(path, |d|);
    assert path[..|path| - k] == x + ReportsPath;
    assert path[|path| - k..] == d;
  }

  lemma {:induction false} TrailingDigitsOfRun(s: string, n: nat)
    requires n <= |s|
    requires forall i :: |s| - n <= i < |s| ==> IsDigit(s[i])
    requires n == |s| || !IsDigit(s[|s| - n - 1])
    ensures TrailingDigits(s) == n
  {
    if n > 0 {
      var t := s[..|s| - 1];
      assert forall i :: |t| - (n - 1) <= i < |t| ==> t[i] == s[i];
      TrailingDigitsOfRun(t, n - 1);
    }
  }

  /** A non-negative id renders as a path the matcher resolves back to the id. */
  lemma MatchReportPathOfId(x: string, reportId: nat)
    ensures MatchReportPath(x + ReportsPath + IntToString(reportId)).Some?
    ensures ParseInt(MatchReportPath(x + ReportsPath + IntToString(reportId)).value) == Some(reportId)
  {
    MatchReportPathComplete(x, NatToString(reportId));
    ParseIntOfNatToString(reportId);
  }

  // ---------------------------------------------------------------------
  // The dynamic GET middleware

  /** What a payment middleware does with one request: hand it on, demand
      payment on the given terms, or fail with an exception. */
  datatype Decision = PassThrough | RequirePayment(requirement: PaymentRequirement) | Fault

  /** `createDynamicX402MiddlewareForGet`: demands payment exactly for GET
      requests whose path ends in `/api/premium-reports/<digits>` naming a
      premium report that has a payee; everything else passes through. */
  function DynamicGet(s: Store, verb: string, path: string): (d: Decision)
    ensures !d.Fault?
    ensures d.RequirePayment? <==>
      verb == "GET" && MatchReportPath(path).Some? && Payable(s, DigitsValue(MatchReportPath(path).value))
    ensures d.RequirePayment? ==> Some(d.requirement) == ReportMiddlewareForGet(s, DigitsValue(MatchReportPath(path).value))
  {
    var m := MatchReportPath(path);
    if m.None? || verb != "GET" then PassThrough
    else
      ParseIntDigits(m.value);
      var reportId := ParseInt(m.value);
      var report := Lookups.ReportById(s, reportId);
      if report.None? || !report.value.premium.isPremium || !Present(report.value.premium.payee) then PassThrough
      else
        var mw := ReportMiddlewareForGet(s, reportId.value);
        if mw.None? then PassThrough else RequirePayment(mw.value)
  }

  /** The requirement built for a GET of `/api/premium-reports/<id>` is keyed
      by exactly that request line. */
  lemma DynamicGetKeyIsRequestLine(s: Store, reportId: nat)
    requires Payable(s, reportId)
    ensures DynamicGet(s, "GET", ReportsPath + IntToString(reportId)).RequirePayment?
    ensures DynamicGet(s, "GET", ReportsPath + IntToString(reportId)).requirement.routeKey == "GET " + ReportsPath + IntToString(reportId)
  {
    MatchReportPathComplete("", NatToString(reportId));
    assert "" + ReportsPath + NatToString(reportId) == ReportsPath + IntToString(reportId);
  }

  // ---------------------------------------------------------------------
  // The legacy POST middleware: `/\/api\/premium-reports\/(\d+)\/request-access/`

  const RequestAccessSuffix := "/request-access"

  /** The legacy pattern matches starting at position `i`. */
  predicate LegacyMatchAt(path: string, i: int)
  {
    && OccursAt(path, ReportsPath, i)
    && var rest := path[i + |ReportsPath|..];
    && var k := LeadingDigits(rest, 10);
    && k > 0 && OccursAt(rest, RequestAccessSuffix, k)
  }

  /** The leftmost match position at or after `from`. */
  function FirstLegacyMatch(path: string, from: nat): (r: Option<nat>)
    ensures r.None? ==> forall i :: from <= i <= |path| ==> !LegacyMatchAt(path, i)
    ensures r.Some? ==> from <= r.value <= |path| && LegacyMatchAt(path, r.value)
    ensures r.Some? ==> forall i :: from <= i < r.value ==> !LegacyMatchAt(path, i)
    decreases |path| - from
  {
    if from > |path| then None
    else if LegacyMatchAt(path, from) then Some(from)
    else FirstLegacyMatch(path, from + 1)
  }

  /** The digit group captured by the legacy pattern, at its leftmost match. */
  function LegacyMatch(path: string): (r: Option<string>)
    ensures r.None? <==> forall i :: 0 <= i <= |path| ==> !LegacyMatchAt(path, i)
    ensures r.Some? ==> |r.value| > 0 && AllDigits(r.value)
  {
    var i := FirstLegacyMatch(path, 0);
    if i.None? then None
    else
      var rest := path[i.value + |ReportsPath|..];
      Some(rest[..LeadingDigits(rest, 10)])
  }

  function RequestAccessRouteKey(reportId: int): string
  {
    "POST " + ReportsPath + IntToString(reportId) + RequestAccessSuffix
  }

  /** The per-report requirement of the request-access route (the
      definition the legacy middleware refers to, which is commented out in
      the source): keyed by the report's request-access route, paying the
      payee its formatted price, settled on chain. */
  function ReportMiddlewareForRequestAccess(s: Store, reportId: int): (r: Option<PaymentRequirement>)
    ensures r.None? <==> !Payable(s, reportId)
    ensures r.Some? ==>
      && r.value.payTo == s.reports[reportId].premium.payee.value
      && r.value.routeKey == RequestAccessRouteKey(reportId)
      && Some(r.value.config.price) == GetReportPrice(s, reportId)
      && StartsWith(r.value.config.description, DescriptionPrefix)
      && r.value.config.network == BaseSepolia && r.value.config.token == BaseSepoliaUsdc
      && !r.value.config.skipSettlement
  {
    if !Payable(s, reportId) then None
    else
      var rep := s.reports[reportId];
      var description := DescriptionPrefix + DisplayName(rep, reportId);
      assert description[..|DescriptionPrefix|] == DescriptionPrefix;
      var config := RouteConfig(GetReportPrice(s, reportId).value, BaseSepolia, BaseSepoliaUsdc, description, None, false);
      Some(PaymentRequirement(rep.premium.payee.value, RequestAccessRouteKey(reportId), config, FacilitatorUrl))
  }

  /** `createDynamicX402Middleware` as written: for a matched path naming a
      payable report it calls a function that is not defined (its
      definition is commented out), so the request fails. */
  function LegacyPostAsWritten(s: Store, path: string): (d: Decision)
    ensures d.Fault? <==> LegacyMatch(path).Some? && Payable(s, DigitsValue(LegacyMatch(path).value))
    ensures !d.RequirePayment?
  {
    var m := LegacyMatch(path);
    if m.None? then PassThrough
    else
      ParseIntDigits(m.value);
      var reportId := ParseInt(m.value);
      var report := Lookups.ReportById(s, reportId);
      if report.None? || !report.value.premium.isPremium || !Present(report.value.premium.payee) then PassThrough
      else Fault
  }

  /** `createDynamicX402Middleware` with the per-report middleware it
      calls restored: payment is demanded exactly where the as-written
      version fails. */
  function LegacyPost(s: Store, path: string): (d: Decision)
    ensures !d.Fault?
    ensures d.RequirePayment? <==> LegacyMatch(path).Some? && Payable(s, DigitsValue(LegacyMatch(path).value))
    ensures d.RequirePayment? ==> Some(d.requirement) == ReportMiddlewareForRequestAccess(s, DigitsValue(LegacyMatch(path).value))
  {
    var m := LegacyMatch(path);
    if m.None? then PassThrough
    else
      ParseIntDigits(m.value);
      var reportId := ParseInt(m.value);
      var report := Lookups.ReportById(s, reportId);
      if report.None? || !report.value.premium.isPremium || !Present(report.value.premium.payee) then PassThrough
      else
        var mw := ReportMiddlewareForRequestAccess(s, reportId.value);
        if mw.None? then PassThrough else RequirePayment(mw.value)
  }

  /** The restored middleware differs from the as-written one exactly on the
      requests the latter fails on. */
  lemma LegacyPostRepairsFault(s: Store, path: string)
    ensures LegacyPostAsWritten(s, path).Fault? <==> LegacyPost(s, path).RequirePayment?
    ensures !LegacyPostAsWritten(s, path).Fault? ==> LegacyPostAsWritten(s, path) == LegacyPost(s, path)
  {
  }

  /** A request-access path of a payable report makes the as-written legacy
      middleware fail. */
  lemma LegacyPostFaultsOnRequestAccess(s: Store, reportId: nat)
    requires Payable(s, reportId)
    ensures LegacyPostAsWritten(s, ReportsPath + IntToString(reportId) + RequestAccessSuffix).Fault?
  {
    LegacyMatchOfRequestAccess(NatToString(reportId));
  }

  /** The legacy pattern captures the digits of a request-access path. */
  lemma LegacyMatchOfRequestAccess(d: string)
    requires |d| > 0 && AllDigits(d)
    ensures LegacyMatch(ReportsPath + d + RequestAccessSuffix) == Some(d)
  {
    var path := ReportsPath + d + RequestAccessSuffix;
    var rest := path[|ReportsPath|..];
    assert rest == d + RequestAccessSuffix;
    assert rest[|d|..] == RequestAccessSuffix;
    assert LeadingDigits(rest, 10) == |d| by {
      assert forall i :: 0 <= i < |d| ==> rest[i] == d[i];
      assert rest[|d|] == RequestAccessSuffix[0];
      Text.LeadingDigitsOfRun(rest, |d|);
    }
    assert rest[..|d|] == d;
    assert OccursAt(rest, RequestAccessSuffix, |d|) by {
      assert rest[|d|..|d| + |RequestAccessSuffix|] == rest[|d|..];
    }
    assert OccursAt(path, ReportsPath, 0) by {
      assert path[..|ReportsPath|] == ReportsPath;
    }
    assert LegacyMatchAt(path, 0);
    assert FirstLegacyMatch(path, 0) == Some(0);
  }
}
