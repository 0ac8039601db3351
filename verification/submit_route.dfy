/** `POST /api/premium-reports/submit`: validates a report submission against
    its proposal, parses the public and private JSON-LD, decides the author
    type and stores the report as `pending`. Verification and publication
    are separate routes. */
module SubmitRoute {
  import opened Wrappers
  import opened Text
  import opened JsonValue
  import opened Schema
  import opened Config
  import AccessControl
  import Lookups

  /** The request body fields the route reads. The index and the price are
      whatever JSON value the client sent: the route only tests their
      truthiness and hands them to the storage driver as they are. */
  datatype SubmitRequest = SubmitRequest(
    referendumIndex: Json,
    reportName: Option<string>,
    publicData: Json,
    privateData: Json,
    isPremium: Json,
    price: Json,
    payee: Option<string>)

  // ---------------------------------------------------------------------
  // How a body value reaches a numeric column

  /** An SQLite integer literal: an optional sign and at least one decimal
      digit. Text of this form is read as that integer by a column or a
      comparison with numeric affinity. */
  function IntegerText(t: string): (r: Option<int>)
    ensures r.Some? <==> |t| > 0 && (AllDigits(t) || ((t[0] == '-' || t[0] == '+') && |t| > 1 && AllDigits(t[1..])))
    ensures r.Some? && AllDigits(t) ==> r.value == DigitsValue(t)
  {
    if |t| > 1 && (t[0] == '-' || t[0] == '+') && AllDigits(t[1..]) then
      var m: int := DigitsValue(t[1..]);
      Some(if t[0] == '-' then -m else m)
    else if |t| > 0 && AllDigits(t) then Some(DigitsValue(t))
    else None
  }

  /** The decimal rendering of an integer reads back as that integer. */
  lemma IntegerTextOfIntToString(i: int)
    ensures IntegerText(IntToString(i)) == Some(i)
  {
    var t := IntToString(i);
    if i < 0 {
      assert t[0] == '-' && |t| > 1 && AllDigits(t[1..]);
    } else {
      assert DigitIn(t[0], 10).Some?;
    }
  }

  /** A body value as the storage driver binds it to a parameter compared
      with, or stored in, a numeric column: numbers stay numbers, integer
      text becomes that integer, other text stays text (equal to no
      number), `null` stays null, and booleans and objects are refused, so
      the statement throws. An array is taken as a list of parameter
      values: one number, text or `null` binds as that value, and any other
      array leaves too few or too many values, or an unbindable one, and is
      refused. */
  datatype Bound = BoundNumber(n: real) | BoundText | BoundNull | Refused

  /** A value the driver binds directly. */
  predicate Scalar(v: Json)
  {
    v.JNull? || v.JNum? || v.JStr?
  }

  /** A one-element array holding a directly bindable value. */
  predicate SingleScalar(v: Json)
  {
    v.JArr? && |v.items| == 1 && Scalar(v.items[0])
  }

  function Bind(v: Json): (b: Bound)
    ensures b.Refused? <==> v.JBool? || v.JObj? || (v.JArr? && !SingleScalar(v))
    ensures SingleScalar(v) ==> b == Bind(v.items[0])
    ensures b.BoundNumber? <==>
      v.JNum? || (v.JStr? && IntegerText(v.s).Some?)
      || (SingleScalar(v) && (v.items[0].JNum? || (v.items[0].JStr? && IntegerText(v.items[0].s).Some?)))
  {
    match v
    case JNull => BoundNull
    case JNum(n) => BoundNumber(n)
    case JStr(t) => if IntegerText(t).Some? then BoundNumber(IntegerText(t).value as real) else BoundText
    case JArr(items) => if |items| == 1 && Scalar(items[0]) then Bind(items[0]) else Refused
    case _ => Refused
  }

  /** The integer key `referendum_index = ?` can match: a bound whole
      number. */
  function IndexKey(v: Json): (k: Option<int>)
    ensures k.Some? ==> Bind(v) == BoundNumber(k.value as real)
    ensures Bind(v).BoundNumber? && Bind(v).n == Bind(v).n.Floor as real ==> k.Some?
  {
    var b := Bind(v);
    if b.BoundNumber? && b.n == b.n.Floor as real then Some(b.n.Floor) else None
  }

  /** The proposal `getByIndex` returns for a body value, by its key. */
  function MatchedProposal(s: Store, v: Json): (k: Option<int>)
    ensures k.Some? <==> IndexKey(v).Some? && IndexKey(v).value in s.proposals
    ensures k.Some? ==> k == IndexKey(v)
  {
    var key := IndexKey(v);
    if key.Some? && key.value in s.proposals then key else None
  }

  /** The proposal matched and carries a UAL. */
  predicate Published(s: Store, v: Json)
  {
    MatchedProposal(s, v).Some? && Present(s.proposals[MatchedProposal(s, v).value].dkg.ual)
  }

  /** The stored price of a premium request, the dollar amount sent rounded
      down to whole cents; text that is not an integer is not kept. */
  function PriceCents(v: Json): (c: Option<int>)
    ensures c.Some? <==> Bind(v).BoundNumber?
    ensures c.Some? ==> c.value as real <= Bind(v).n * 100.0 < c.value as real + 1.0
  {
    var b := Bind(v);
    if b.BoundNumber? then Some((b.n * 100.0).Floor) else None
  }

  /** A referendum index wrapped in a one-element array finds the same
      proposal as the index itself. */
  lemma WrappedIndexActsAsElement(s: Store, x: Json)
    requires Scalar(x)
    ensures Bind(JArr([x])) == Bind(x)
    ensures MatchedProposal(s, JArr([x])) == MatchedProposal(s, x)
  {
    assert SingleScalar(JArr([x]));
  }

  /** A price given as a whole number of dollars, as a number or as its
      decimal text, is stored as the same number of cents either way. */
  lemma PriceOfWholeDollars(d: int)
    ensures PriceCents(JNum(d as real)) == Some(d * 100)
    ensures PriceCents(JStr(IntToString(d))) == Some(d * 100)
  {
    IntegerTextOfIntToString(d);
  }

  /** What the request carries besides its body: the authenticated wallet,
      `Date.now()` (used in the default name), the current `CURRENT_TIMESTAMP`
      and the digest the hash service returns for the private text. */
  datatype SubmitContext = SubmitContext(wallet: string, nowMillis: nat, now: Timestamp, privateHash: string)

  datatype SubmitOutcome =
    | MissingFields
    | ProposalNotFound
    | ProposalNotPublished
    | PriceRequired
    | PayeeRequired
    | InvalidPublicFormat
    | PublicMissingContextOrType
    | InvalidPrivateFormat
    | ServerError
    | Submitted(reportId: int, authorType: AuthorType, privateHash: Option<string>)

  function SubmitStatus(o: SubmitOutcome): int
  {
    match o
    case MissingFields => 400
    case ProposalNotFound => 404
    case ProposalNotPublished => 400
    case PriceRequired => 400
    case PayeeRequired => 400
    case InvalidPublicFormat => 400
    case PublicMissingContextOrType => 400
    case InvalidPrivateFormat => 400
    case ServerError => 500
    case Submitted(_, _, _) => 201
  }

  /** The public document: a string body is parsed (`None` when parsing
      throws), any other value is taken as it is. */
  function ParsePublic(env: Env, v: Json): (r: Option<Json>)
    ensures !v.JStr? ==> r == Some(v)
    ensures v.JStr? ==> r == env.parse(v.s)
  {
    if v.JStr? then env.parse(v.s) else Some(v)
  }

  /** How the private field is read. */
  datatype PrivateRead =
    | NoPrivate               // absent, falsy, or only whitespace
    | PrivateText(text: string) // the re-serialized private document
    | PrivateInvalid          // the text does not parse
    | PrivateFault            // a truthy non-string: `.trim` is not a function

  function ReadPrivate(env: Env, v: Json): (r: PrivateRead)
    ensures r.NoPrivate? <==> !Truthy(v) || (v.JStr? && |Trim(v.s)| == 0)
    ensures r.PrivateFault? <==> Truthy(v) && !v.JStr?
    ensures r.PrivateInvalid? <==> v.JStr? && |Trim(v.s)| > 0 && env.parse(v.s).None?
    ensures r.PrivateText? ==> v.JStr? && env.parse(v.s).Some? && r.text == env.stringify(env.parse(v.s).value)
  {
    if !Truthy(v) then NoPrivate
    else if !v.JStr? then PrivateFault
    else if |Trim(v.s)| == 0 then NoPrivate
    else
      match env.parse(v.s)
      case None => PrivateInvalid
      case Some(p) => PrivateText(env.stringify(p))
  }

  /** The stored private columns: text, digest and byte size when the
      re-serialized text is non-empty, nothing otherwise. */
  function PrivateColumns(read: PrivateRead, hash: string): (p: PrivatePart)
    ensures p.data.Some? <==> read.PrivateText? && |read.text| > 0
    ensures p.data.Some? ==> p == PrivatePart(Some(read.text), Some(hash), Some(Utf8Length(read.text)))
    ensures p.data.None? ==> p == NoPrivatePart
  {
    if read.PrivateText? && |read.text| > 0 then
      PrivatePart(Some(read.text), Some(hash), Some(Utf8Length(read.text)))
    else NoPrivatePart
  }

  function AuthorOf(env: Env, wallet: string): (a: AuthorType)
    ensures a == AdminAuthor <==> AccessControl.IsAdmin(env.adminAddresses, wallet)
  {
    if AccessControl.IsAdmin(env.adminAddresses, wallet) then AdminAuthor else CommunityAuthor
  }

  /** The stored paywall terms: price and payee only for a premium report. */
  function TermsOf(req: SubmitRequest, author: AuthorType): (t: PremiumTerms)
    ensures t.isPremium == Truthy(req.isPremium)
    ensures t.isPremium ==> t.priceCents == PriceCents(req.price) && t.payee == req.payee
    ensures !t.isPremium ==> t.priceCents.None? && t.payee.None?
    ensures t.authorType == Some(author)
  {
    if Truthy(req.isPremium) then PremiumTerms(true, PriceCents(req.price), req.payee, Some(author))
    else PremiumTerms(false, None, None, Some(author))
  }

  /** `report_name || "Premium Report <Date.now()>"`. */
  function NameOf(req: SubmitRequest, nowMillis: nat): (n: string)
    ensures Present(req.reportName) ==> n == req.reportName.value
    ensures !Present(req.reportName) ==> n == "Premium Report " + NatToString(nowMillis)
  {
    if Present(req.reportName) then req.reportName.value else "Premium Report " + NatToString(nowMillis)
  }

  /** The handler. Every rejection answers before anything is written; the
      guards answer in the order the route tests them. */
  function Submit(env: Env, s: Store, req: SubmitRequest, ctx: SubmitContext): (r: Step<SubmitOutcome>)
    ensures !r.outcome.Submitted? ==> r.store == s
    ensures r.outcome == MissingFields <==> !Truthy(req.referendumIndex) || !Truthy(req.publicData)
    ensures Truthy(req.referendumIndex) && Truthy(req.publicData) && Bind(req.referendumIndex).Refused? ==>
      r.outcome == ServerError
    ensures r.outcome == ProposalNotFound <==>
      Truthy(req.referendumIndex) && Truthy(req.publicData) && !Bind(req.referendumIndex).Refused?
      && MatchedProposal(s, req.referendumIndex).None?
    ensures r.outcome == ProposalNotPublished <==>
      Truthy(req.referendumIndex) && Truthy(req.publicData) && MatchedProposal(s, req.referendumIndex).Some?
      && !Published(s, req.referendumIndex)
    ensures r.outcome == PriceRequired <==>
      Truthy(req.referendumIndex) && Truthy(req.publicData) && Published(s, req.referendumIndex)
      && Truthy(req.isPremium) && !Truthy(req.price)
    ensures r.outcome == PayeeRequired <==>
      Truthy(req.referendumIndex) && Truthy(req.publicData) && Published(s, req.referendumIndex)
      && Truthy(req.isPremium) && Truthy(req.price) && !Present(req.payee)
    ensures r.outcome == ServerError ==>
      Bind(req.referendumIndex).Refused? || ReadPrivate(env, req.privateData).PrivateFault?
      || (Truthy(req.isPremium) && Bind(req.price).Refused?)
  {
    if !Truthy(req.referendumIndex) || !Truthy(req.publicData) then Step(s, MissingFields)
    else if Bind(req.referendumIndex).Refused? then Step(s, ServerError)
    else if MatchedProposal(s, req.referendumIndex).None? then Step(s, ProposalNotFound)
    else
      var index := MatchedProposal(s, req.referendumIndex).value;
      if !Present(s.proposals[index].dkg.ual) then Step(s, ProposalNotPublished)
      else if Truthy(req.isPremium) && !Truthy(req.price) then Step(s, PriceRequired)
      else if Truthy(req.isPremium) && !Present(req.payee) then Step(s, PayeeRequired)
      else
        match ParsePublic(env, req.publicData)
        case None => Step(s, InvalidPublicFormat)
        case Some(doc) =>
          if Get(doc, "@context").Throws? then Step(s, InvalidPublicFormat)
          else if !HasTruthy(doc, "@context") || !HasTruthy(doc, "@type") then Step(s, PublicMissingContextOrType)
          else
            var read := ReadPrivate(env, req.privateData);
            if read.PrivateFault? then Step(s, ServerError)
            else if read.PrivateInvalid? then Step(s, InvalidPrivateFormat)
            else if Truthy(req.isPremium) && Bind(req.price).Refused? then Step(s, ServerError)
            else
              var author := AuthorOf(env, ctx.wallet);
              var priv := PrivateColumns(read, ctx.privateHash);
              var sub := Lookups.Submission(index, ctx.wallet, NameOf(req, ctx.nowMillis), doc,
                                            Utf8Length(env.stringify(doc)), priv, TermsOf(req, author));
              var ins := Lookups.InsertSubmitted(s, sub, ctx.now);
              Step(ins.store, Submitted(ins.key, author, priv.hash))
  }

  /** An index sent as the decimal text of a non-zero integer passes the
      presence test and keys the same proposal as the number itself. */
  lemma TextIndexActsAsNumber(s: Store, k: int)
    requires k != 0
    ensures Truthy(JStr(IntToString(k))) && Truthy(JNum(k as real))
    ensures Bind(JStr(IntToString(k))) == Bind(JNum(k as real)) == BoundNumber(k as real)
    ensures IndexKey(JStr(IntToString(k))) == IndexKey(JNum(k as real)) == Some(k)
    ensures MatchedProposal(s, JStr(IntToString(k))) == MatchedProposal(s, JNum(k as real))
  {
    IntegerTextOfIntToString(k);
  }

  // ---------------------------------------------------------------------
  // What an accepted submission is

  /** The public document of a request, when it parses. */
  predicate PublicDocumentOk(env: Env, req: SubmitRequest)
  {
    var doc := ParsePublic(env, req.publicData);
    doc.Some? && !doc.value.JNull? && HasTruthy(doc.value, "@context") && HasTruthy(doc.value, "@type")
  }

  /** The private field is absent, blank, or a string that parses. */
  predicate PrivateFieldOk(env: Env, req: SubmitRequest)
  {
    var v := req.privateData;
    !Truthy(v) || (v.JStr? && (|Trim(v.s)| == 0 || env.parse(v.s).Some?))
  }

  /** The conditions under which the route stores a report, stated field by
      field. */
  predicate Acceptable(env: Env, s: Store, req: SubmitRequest)
  {
    && Truthy(req.referendumIndex) && Truthy(req.publicData)
    && Published(s, req.referendumIndex)
    && (Truthy(req.isPremium) ==> Truthy(req.price) && !Bind(req.price).Refused? && Present(req.payee))
    && PublicDocumentOk(env, req)
    && PrivateFieldOk(env, req)
  }

  /** A report is stored exactly when the submission is acceptable. */
  lemma SubmitAcceptsExactly(env: Env, s: Store, req: SubmitRequest, ctx: SubmitContext)
    ensures Submit(env, s, req, ctx).outcome.Submitted? <==> Acceptable(env, s, req)
  {
  }

  /** The stored row of an accepted submission: the referenced proposal, the
      caller as submitter, the parsed public document, the premium terms as
      requested, the author type from the administrator list, the private
      digest exactly when there is private text, and status `pending`. */
  lemma SubmitStoresRequest(env: Env, s: Store, req: SubmitRequest, ctx: SubmitContext)
    requires Wf(s)
    requires Submit(env, s, req, ctx).outcome.Submitted?
    ensures var r := Submit(env, s, req, ctx);
      var id := r.outcome.reportId;
      && id !in s.reports && id in r.store.reports
      && r.store.reports.Keys == s.reports.Keys + {id}
      && (forall j :: j in s.reports ==> r.store.reports[j] == s.reports[j])
      && var row := r.store.reports[id];
      && Some(row.referendumIndex) == IndexKey(req.referendumIndex)
      && row.submitter == ctx.wallet
      && row.content.jsonld == ParsePublic(env, req.publicData).value
      && row.premium.isPremium == Truthy(req.isPremium)
      && (row.premium.isPremium ==> row.premium.priceCents == PriceCents(req.price) && row.premium.payee == req.payee)
      && (!row.premium.isPremium ==> row.premium.priceCents.None? && row.premium.payee.None?)
      && (row.premium.authorType == Some(AdminAuthor) <==> AccessControl.IsAdmin(env.adminAddresses, ctx.wallet))
      && (row.priv.hash.Some? <==> ReadPrivate(env, req.privateData).PrivateText? && |ReadPrivate(env, req.privateData).text| > 0)
      && row.verification.status == Pending
      && row.publication.ual.None?
  {
  }

  /** The route keeps the engine's guarantees and the foreign key to
      proposals. It keeps the completeness of premium terms when a premium
      request's price is stored as a non-zero number of cents: the truthiness
      guard alone lets through text such as "0" or "abc" and amounts under a
      cent. */
  lemma SubmitKeepsInvariants(env: Env, s: Store, req: SubmitRequest, ctx: SubmitContext)
    requires Wf(s) && Consistent(s) && PremiumComplete(s)
    ensures var t := Submit(env, s, req, ctx).store;
      Wf(t) && Consistent(t)
    ensures (Truthy(req.isPremium) ==> NonZero(PriceCents(req.price))) ==>
      PremiumComplete(Submit(env, s, req, ctx).store)
  {
    var r := Submit(env, s, req, ctx);
    if r.outcome.Submitted? && (Truthy(req.isPremium) ==> NonZero(PriceCents(req.price))) {
      var t := r.store;
      var id := r.outcome.reportId;
      assert id !in s.reports;
      forall j | j in t.reports && t.reports[j].premium.isPremium
        ensures NonZero(t.reports[j].premium.priceCents) && Present(t.reports[j].premium.payee)
      {
        if j != id {
          assert t.reports[j] == s.reports[j];
        }
      }
    }
  }

  /** An administrator's submission is recorded as authored by an
      administrator, whatever the letter case of the wallet. */
  lemma AdminAuthorIgnoresCase(env: Env, wallet: string)
    ensures AuthorOf(env, wallet) == AuthorOf(env, Lower(wallet))
  {
    AccessControl.IsAdminIgnoresCase(env.adminAddresses, wallet);
  }
}
