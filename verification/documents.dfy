/** The JSON-LD documents the two publishing routes send to the DKG. The
    verify-and-publish route spreads the user's document first and then
    overrides it with the required fields; the publish route writes the
    required fields first and lets every field of the user's document win.
    Both merge the user's `@context` into a default one; in the publish
    route the user's own `@context`, spread last, then replaces the merge,
    so only the default prefixes are ever published from it. */
module Documents {
  import opened Wrappers
  import opened Text
  import opened JsonValue
  import opened Schema

  // ---------------------------------------------------------------------
  // column values as JSON

  function OptText(o: Option<string>): (j: Json)
    ensures o.Some? <==> j.JStr?
    ensures o.Some? ==> j == JStr(o.value)
  {
    if o.Some? then JStr(o.value) else JNull
  }

  /** A price column as the number of dollars it holds (the model keeps cents). */
  function OptPrice(o: Option<int>): (j: Json)
    ensures o.Some? <==> j.JNum?
    ensures o.Some? ==> j.n * 100.0 == o.value as real
  {
    if o.Some? then JNum(o.value as real / 100.0) else JNull
  }

  function OptReal(o: Option<real>): (j: Json)
    ensures o.Some? <==> j.JNum?
    ensures o.Some? ==> j.n == o.value
  {
    if o.Some? then JNum(o.value) else JNull
  }

  /** The `verification_status` column text. */
  function StatusName(st: VerificationStatus): (t: string)
    ensures |t| > 0
  {
    match st
    case Pending => "pending"
    case Verified => "verified"
    case Rejected => "rejected"
  }

  // ---------------------------------------------------------------------
  // shared pieces

  const DefaultContext: map<string, Json> := map[
    "schema" := JStr("https://schema.org/"),
    "polkadot" := JStr("https://polkadot.network/governance/"),
    "dkg" := JStr("https://dkg.origintrail.io/")]

  /** `polkadot:referendum:<index>`. */
  function ReferendumRef(index: int): string
  {
    "polkadot:referendum:" + IntToString(index)
  }

  /** `polkadot:referendum:<index>:premium-report:<id>`. */
  function ReportRef(index: int, reportId: int): string
  {
    ReferendumRef(index) + ":premium-report:" + IntToString(reportId)
  }

  /** The keys the verify-and-publish document sets over the user's fields. */
  const RequiredKeys: set<string> := {
    "@context", "@type", "@id", "schema:name", "schema:about", "schema:dateCreated",
    "dkg:reportType", "dkg:reportId", "dkg:premiumPrice", "dkg:payeeWallet"}

  // ---------------------------------------------------------------------
  // verify-and-publish: user fields first, required fields override

  /** The fields the verify-and-publish route sets over the user's. */
  function RequiredFields(rep: Report, data: Json, isoNow: string): (m: map<string, Json>)
    ensures m.Keys == RequiredKeys
    ensures m["@type"] == JStr("schema:Report")
    ensures m["schema:about"] == JStr(ReferendumRef(rep.referendumIndex))
    ensures m["dkg:reportType"] == JStr("premium")
    ensures m["dkg:reportId"] == JNum(rep.id as real)
    ensures m["dkg:payeeWallet"] == OptText(rep.premium.payee)
    ensures m["@context"].JObj? && DefaultContext.Keys <= m["@context"].fields.Keys
    ensures HasTruthy(data, "@id") ==> m["@id"] == data.fields["@id"]
    ensures !HasTruthy(data, "@id") ==> m["@id"] == JStr(ReportRef(rep.referendumIndex, rep.id))
    ensures HasTruthy(data, "schema:name") ==> m["schema:name"] == data.fields["schema:name"]
    ensures !HasTruthy(data, "schema:name") && HasTruthy(data, "name") ==> m["schema:name"] == data.fields["name"]
    ensures !HasTruthy(data, "schema:name") && !HasTruthy(data, "name") ==>
      m["schema:name"] == JStr("Premium Report " + IntToString(rep.id))
    ensures HasTruthy(data, "schema:dateCreated") ==> m["schema:dateCreated"] == data.fields["schema:dateCreated"]
    ensures !HasTruthy(data, "schema:dateCreated") ==> m["schema:dateCreated"] == JStr(isoNow)
    ensures m["dkg:premiumPrice"] == OptPrice(rep.premium.priceCents)
  {
    var userContext := SpreadFields(OrElse(Get(data, "@context"), JObj(map[])));
    var context := JObj(DefaultContext + userContext);
    var id := OrElse(Get(data, "@id"), JStr(ReportRef(rep.referendumIndex, rep.id)));
    var name := OrElse(Get(data, "schema:name"), OrElse(Get(data, "name"), JStr("Premium Report " + IntToString(rep.id))));
    var created := OrElse(Get(data, "schema:dateCreated"), JStr(isoNow));
    var price := OptPrice(rep.premium.priceCents);
    var payee := OptText(rep.premium.payee);
    RequiredFieldsLayout(context, id, name, created, rep, price, payee);
    RequiredFieldsTaken(context, id, name, created, rep, price, payee);
    RequiredFieldsFixed(context, id, name, created, rep, price, payee);
    RequiredFieldsKeys(context, id, name, created, JStr(ReferendumRef(rep.referendumIndex)), JNum(rep.id as real), price, payee);
    map[
      "@context" := context,
      "@type" := JStr("schema:Report"),
      "@id" := id,
      "schema:name" := name,
      "schema:about" := JStr(ReferendumRef(rep.referendumIndex)),
      "schema:dateCreated" := created,
      "dkg:reportType" := JStr("premium"),
      "dkg:reportId" := JNum(rep.id as real),
      "dkg:premiumPrice" := price,
      "dkg:payeeWallet" := payee]
  }

  /** The required fields set exactly the required keys. */
  lemma RequiredFieldsKeys(context: Json, id: Json, name: Json, created: Json, about: Json, reportId: Json, price: Json, payee: Json)
    ensures map[
      "@context" := context,
      "@type" := JStr("schema:Report"),
      "@id" := id,
      "schema:name" := name,
      "schema:about" := about,
      "schema:dateCreated" := created,
      "dkg:reportType" := JStr("premium"),
      "dkg:reportId" := reportId,
      "dkg:premiumPrice" := price,
      "dkg:payeeWallet" := payee].Keys == RequiredKeys
  {
  }

  /** Where the required fields keep the context, the `@id` and the type. */
  lemma RequiredFieldsLayout(context: Json, id: Json, name: Json, created: Json, rep: Report, price: Json, payee: Json)
    ensures var m := map[
      "@context" := context,
      "@type" := JStr("schema:Report"),
      "@id" := id,
      "schema:name" := name,
      "schema:about" := JStr(ReferendumRef(rep.referendumIndex)),
      "schema:dateCreated" := created,
      "dkg:reportType" := JStr("premium"),
      "dkg:reportId" := JNum(rep.id as real),
      "dkg:premiumPrice" := price,
      "dkg:payeeWallet" := payee];
      && m["@context"] == context && m["@id"] == id
      && m["@type"] == JStr("schema:Report")
  {
  }

  /** Where the required fields keep the subject, the report type, the
      report id and the payee. */
  lemma RequiredFieldsFixed(context: Json, id: Json, name: Json, created: Json, rep: Report, price: Json, payee: Json)
    ensures var m := map[
      "@context" := context,
      "@type" := JStr("schema:Report"),
      "@id" := id,
      "schema:name" := name,
      "schema:about" := JStr(ReferendumRef(rep.referendumIndex)),
      "schema:dateCreated" := created,
      "dkg:reportType" := JStr("premium"),
      "dkg:reportId" := JNum(rep.id as real),
      "dkg:premiumPrice" := price,
      "dkg:payeeWallet" := payee];
      && m["schema:about"] == JStr(ReferendumRef(rep.referendumIndex))
      && m["dkg:reportType"] == JStr("premium")
      && m["dkg:reportId"] == JNum(rep.id as real)
      && m["dkg:payeeWallet"] == payee
  {
  }

  /** Where the required fields keep the name, the creation date and the
      price taken from the user's document or the report. */
  lemma RequiredFieldsTaken(context: Json, id: Json, name: Json, created: Json, rep: Report, price: Json, payee: Json)
    ensures var m := map[
      "@context" := context,
      "@type" := JStr("schema:Report"),
      "@id" := id,
      "schema:name" := name,
      "schema:about" := JStr(ReferendumRef(rep.referendumIndex)),
      "schema:dateCreated" := created,
      "dkg:reportType" := JStr("premium"),
      "dkg:reportId" := JNum(rep.id as real),
      "dkg:premiumPrice" := price,
      "dkg:payeeWallet" := payee];
      m["schema:name"] == name && m["schema:dateCreated"] == created && m["dkg:premiumPrice"] == price
  {
  }

  /** `{ "dkg:privateDataHash": hash }` when the report has a digest. */
  function HashField(rep: Report): (m: map<string, Json>)
    ensures Present(rep.priv.hash) ==> m == map["dkg:privateDataHash" := JStr(rep.priv.hash.value)]
    ensures !Present(rep.priv.hash) ==> m == map[]
  {
    if Present(rep.priv.hash) then map["dkg:privateDataHash" := JStr(rep.priv.hash.value)] else map[]
  }

  lemma HashFieldKeys(rep: Report)
    ensures HashField(rep).Keys == (if Present(rep.priv.hash) then {"dkg:privateDataHash"} else {})
    ensures HashField(rep).Keys !! RequiredKeys
  {
  }

  /** The document the verify-and-publish route publishes for `rep`, whose
      stored document is `data`; `isoNow` is the ISO time used when the
      document has no creation date. `None` when reading a property of
      `data` throws (a `null` document). */
  function VerifyPublishDocument(rep: Report, data: Json, isoNow: string): (r: Option<Json>)
    ensures r.None? <==> data.JNull?
    ensures r.Some? ==> r.value.JObj?
  {
    if data.JNull? then None
    else Some(JObj(SpreadFields(data) + RequiredFields(rep, data, isoNow) + HashField(rep)))
  }

  /** What the verify-and-publish document promises: the required fields
      take their fixed values whatever the user wrote, the default context
      prefixes are declared, a truthy user `@id` is kept (the report's
      reference replaces any other), every other user field is carried over, and
      the private digest is linked whenever the report has one. */
  lemma VerifyPublishDocumentFields(rep: Report, data: Json, isoNow: string)
    requires !data.JNull?
    ensures var f := VerifyPublishDocument(rep, data, isoNow).value.fields;
      && f.Keys == SpreadFields(data).Keys + RequiredKeys + (if Present(rep.priv.hash) then {"dkg:privateDataHash"} else {})
      && f["@type"] == JStr("schema:Report")
      && f["schema:about"] == JStr(ReferendumRef(rep.referendumIndex))
      && f["dkg:reportType"] == JStr("premium")
      && f["dkg:reportId"] == JNum(rep.id as real)
      && f["dkg:payeeWallet"] == OptText(rep.premium.payee)
      && f["@context"].JObj? && DefaultContext.Keys <= f["@context"].fields.Keys
      && (HasTruthy(data, "@id") ==> f["@id"] == data.fields["@id"])
      && (!HasTruthy(data, "@id") ==> f["@id"] == JStr(ReportRef(rep.referendumIndex, rep.id)))
      && (forall k :: k in SpreadFields(data) && k !in RequiredKeys && k != "dkg:privateDataHash" ==> f[k] == SpreadFields(data)[k])
      && (Present(rep.priv.hash) ==> f["dkg:privateDataHash"] == JStr(rep.priv.hash.value))
  {
    var user := SpreadFields(data);
    var req := RequiredFields(rep, data, isoNow);
    var hash := HashField(rep);
    assert VerifyPublishDocument(rep, data, isoNow).value.fields == user + req + hash;
    HashFieldKeys(rep);
    Overlay(user, req, hash);
  }

  /** Laying `top` and then `extra` over `base`. */
  lemma Overlay(base: map<string, Json>, top: map<string, Json>, extra: map<string, Json>)
    requires top.Keys !! extra.Keys
    ensures (base + top + extra).Keys == base.Keys + top.Keys + extra.Keys
    ensures forall k :: k in top ==> (base + top + extra)[k] == top[k]
    ensures forall k :: k in extra ==> (base + top + extra)[k] == extra[k]
    ensures forall k :: k in base && k !in top && k !in extra ==> (base + top + extra)[k] == base[k]
  {
  }

  // ---------------------------------------------------------------------
  // publish: defaults first, user fields win

  /** The user's `@context` when `typeof` calls it an object (an object, an
      array or `null`), spread; nothing otherwise. */
  function ObjectContext(data: Json): (m: map<string, Json>)
    requires !data.JNull?
    ensures (Get(data, "@context").Found? && Get(data, "@context").value.JObj?) ==> m == data.fields["@context"].fields
    ensures !Get(data, "@context").Found? ==> m == map[]
    ensures Get(data, "@context").Found? && !Get(data, "@context").value.JObj? && !Get(data, "@context").value.JArr? ==>
      m == map[]
    ensures Get(data, "@context").Found? && Get(data, "@context").value.JArr? ==>
      var items := Get(data, "@context").value.items;
      && (forall i :: 0 <= i < |items| ==> NatToString(i) in m && m[NatToString(i)] == items[i])
      && (forall k :: k in m ==> IndexKeyIn(k, 0, |items|))
  {
    var c := Get(data, "@context");
    if c.Found? && (c.value.JObj? || c.value.JArr? || c.value.JNull?) then SpreadFields(c.value) else map[]
  }

  /** The keys the publish route's defaults set. */
  const DefaultKeys: set<string> := {
    "@context", "@type", "@id", "schema:name", "schema:about", "schema:dateCreated",
    "schema:isPartOf", "schema:author", "polkadot:verificationStatus", "polkadot:aiConfidence",
    "dkg:reportType", "dkg:reportId", "dkg:premiumPrice", "dkg:payeeWallet"}

  /** The publish route's default fields, which the user's fields override:
      the user's context merged into the default one, each descriptive
      field from the user's document when truthy and otherwise from the
      report's columns or a fixed fallback, and the parent link, author,
      verification and premium columns as stored. */
  function DefaultFields(rep: Report, data: Json, parentUal: string, isoNow: string): (m: map<string, Json>)
    requires !data.JNull?
    ensures "schema:isPartOf" in m && m["schema:isPartOf"] == JStr(parentUal)
    ensures "dkg:reportType" in m && m["dkg:reportType"] == JStr("premium")
    ensures "schema:author" in m && m["schema:author"].JObj? && "schema:identifier" in m["schema:author"].fields
      && m["schema:author"].fields["schema:identifier"] == JStr(rep.submitter)
    ensures "@context" in m && (!Get(data, "@context").Found? ==> m["@context"] == JObj(DefaultContext))
    ensures DefaultKeys <= m.Keys
    ensures m["@context"] == JObj(DefaultContext + ObjectContext(data))
    ensures HasTruthy(data, "@type") ==> m["@type"] == data.fields["@type"]
    ensures !HasTruthy(data, "@type") ==> m["@type"] == JStr("schema:Report")
    ensures HasTruthy(data, "@id") ==> m["@id"] == data.fields["@id"]
    ensures !HasTruthy(data, "@id") ==> m["@id"] == JStr(ReportRef(rep.referendumIndex, rep.id))
    ensures HasTruthy(data, "schema:name") ==> m["schema:name"] == data.fields["schema:name"]
    ensures !HasTruthy(data, "schema:name") && HasTruthy(data, "name") ==> m["schema:name"] == data.fields["name"]
    ensures !HasTruthy(data, "schema:name") && !HasTruthy(data, "name") ==>
      m["schema:name"] == (if Present(rep.name) then JStr(rep.name.value) else JStr("Premium Report " + IntToString(rep.id)))
    ensures HasTruthy(data, "schema:about") ==> m["schema:about"] == data.fields["schema:about"]
    ensures !HasTruthy(data, "schema:about") ==> m["schema:about"] == JStr(ReferendumRef(rep.referendumIndex))
    ensures HasTruthy(data, "schema:dateCreated") ==> m["schema:dateCreated"] == data.fields["schema:dateCreated"]
    ensures !HasTruthy(data, "schema:dateCreated") ==>
      m["schema:dateCreated"] == JStr(if |rep.submittedAt| > 0 then rep.submittedAt else isoNow)
    ensures m["polkadot:verificationStatus"] == JStr(StatusName(rep.verification.status))
    ensures m["polkadot:aiConfidence"] == OptReal(rep.verification.confidence)
    ensures m["dkg:reportId"] == JNum(rep.id as real)
    ensures m["dkg:premiumPrice"] == OptPrice(rep.premium.priceCents)
    ensures m["dkg:payeeWallet"] == OptText(rep.premium.payee)
  {
    var name :=
      OrElse(Get(data, "schema:name"), OrElse(Get(data, "name"),
        if Present(rep.name) then JStr(rep.name.value) else JStr("Premium Report " + IntToString(rep.id))));
    var created :=
      OrElse(Get(data, "schema:dateCreated"), if |rep.submittedAt| > 0 then JStr(rep.submittedAt) else JStr(isoNow));
    var context := JObj(DefaultContext + ObjectContext(data));
    assert !Get(data, "@context").Found? ==> context == JObj(DefaultContext);
    var typ := OrElse(Get(data, "@type"), JStr("schema:Report"));
    var id := OrElse(Get(data, "@id"), JStr(ReportRef(rep.referendumIndex, rep.id)));
    var about := OrElse(Get(data, "schema:about"), JStr(ReferendumRef(rep.referendumIndex)));
    var author := JObj(map["@type" := JStr("schema:Person"), "schema:identifier" := JStr(rep.submitter)]);
    assert author.fields["schema:identifier"] == JStr(rep.submitter);
    var status := JStr(StatusName(rep.verification.status));
    var confidence := OptReal(rep.verification.confidence);
    var reportId := JNum(rep.id as real);
    var price := OptPrice(rep.premium.priceCents);
    var payee := OptText(rep.premium.payee);
    DefaultFieldsLayout(context, typ, id, name, about, created, JStr(parentUal), author, status, confidence, reportId, price, payee);
    DefaultFieldsNaming(context, typ, id, name, about, created, JStr(parentUal), author, status, confidence, reportId, price, payee);
    DefaultFieldsColumns(context, typ, id, name, about, created, JStr(parentUal), author, status, confidence, reportId, price, payee);
    map[
      "@context" := context,
      "@type" := typ,
      "@id" := id,
      "schema:name" := name,
      "schema:about" := about,
      "schema:dateCreated" := created,
      "schema:isPartOf" := JStr(parentUal),
      "schema:author" := author,
      "polkadot:verificationStatus" := status,
      "polkadot:aiConfidence" := confidence,
      "dkg:reportType" := JStr("premium"),
      "dkg:reportId" := reportId,
      "dkg:premiumPrice" := price,
      "dkg:payeeWallet" := payee]
  }

  /** Where the default fields keep their type, id and context. */
  lemma DefaultFieldsLayout(context: Json, typ: Json, id: Json, name: Json, about: Json, created: Json, parent: Json,
                            author: Json, status: Json, confidence: Json, reportId: Json, price: Json, payee: Json)
    ensures var m := map[
      "@context" := context,
      "@type" := typ,
      "@id" := id,
      "schema:name" := name,
      "schema:about" := about,
      "schema:dateCreated" := created,
      "schema:isPartOf" := parent,
      "schema:author" := author,
      "polkadot:verificationStatus" := status,
      "polkadot:aiConfidence" := confidence,
      "dkg:reportType" := JStr("premium"),
      "dkg:reportId" := reportId,
      "dkg:premiumPrice" := price,
      "dkg:payeeWallet" := payee];
      && m["@context"] == context && m["@type"] == typ && m["@id"] == id
  {
  }

  /** Where the default fields keep the name, subject and creation date. */
  lemma DefaultFieldsNaming(context: Json, typ: Json, id: Json, name: Json, about: Json, created: Json, parent: Json,
                           author: Json, status: Json, confidence: Json, reportId: Json, price: Json, payee: Json)
    ensures var m := map[
      "@context" := context,
      "@type" := typ,
      "@id" := id,
      "schema:name" := name,
      "schema:about" := about,
      "schema:dateCreated" := created,
      "schema:isPartOf" := parent,
      "schema:author" := author,
      "polkadot:verificationStatus" := status,
      "polkadot:aiConfidence" := confidence,
      "dkg:reportType" := JStr("premium"),
      "dkg:reportId" := reportId,
      "dkg:premiumPrice" := price,
      "dkg:payeeWallet" := payee];
      && m["schema:name"] == name && m["schema:about"] == about && m["schema:dateCreated"] == created
  {
  }

  /** Where the default fields keep the parent link, the author and the
      stored columns. */
  lemma DefaultFieldsColumns(context: Json, typ: Json, id: Json, name: Json, about: Json, created: Json, parent: Json,
                             author: Json, status: Json, confidence: Json, reportId: Json, price: Json, payee: Json)
    ensures var m := map[
      "@context" := context,
      "@type" := typ,
      "@id" := id,
      "schema:name" := name,
      "schema:about" := about,
      "schema:dateCreated" := created,
      "schema:isPartOf" := parent,
      "schema:author" := author,
      "polkadot:verificationStatus" := status,
      "polkadot:aiConfidence" := confidence,
      "dkg:reportType" := JStr("premium"),
      "dkg:reportId" := reportId,
      "dkg:premiumPrice" := price,
      "dkg:payeeWallet" := payee];
      && m["schema:isPartOf"] == parent && m["schema:author"] == author
      && m["polkadot:verificationStatus"] == status && m["polkadot:aiConfidence"] == confidence
      && m["dkg:reportType"] == JStr("premium") && m["dkg:reportId"] == reportId
      && m["dkg:premiumPrice"] == price && m["dkg:payeeWallet"] == payee
  {
  }

  /** The document the publish route sends for `rep`, whose stored document
      is `data`, under the proposal's UAL `parentUal`. `None` when reading a
      property of `data` throws. */
  function PublishDocument(rep: Report, data: Json, parentUal: string, isoNow: string): (r: Option<Json>)
    ensures r.None? <==> data.JNull?
    ensures r.Some? ==> r.value.JObj?
  {
    if data.JNull? then None
    else Some(JObj(DefaultFields(rep, data, parentUal, isoNow) + SpreadFields(data)))
  }

  /** Every field of the user's document reaches the publish document
      unchanged, `@context` included (the merged default context survives
      only when the user gave none); a field the user left out takes its
      default, the parent link and author among them. */
  lemma PublishDocumentUserWins(rep: Report, data: Json, parentUal: string, isoNow: string)
    requires !data.JNull?
    ensures var f := PublishDocument(rep, data, parentUal, isoNow).value.fields;
      && (forall k :: k in SpreadFields(data) ==> k in f && f[k] == SpreadFields(data)[k])
      && ("schema:isPartOf" !in SpreadFields(data) ==> f["schema:isPartOf"] == JStr(parentUal))
      && ("dkg:reportType" !in SpreadFields(data) ==> f["dkg:reportType"] == JStr("premium"))
      && ("schema:author" !in SpreadFields(data) ==>
            (f["schema:author"].JObj? && f["schema:author"].fields["schema:identifier"] == JStr(rep.submitter)))
      && ("@context" !in SpreadFields(data) ==> f["@context"] == JObj(DefaultContext))
  {
    var d := DefaultFields(rep, data, parentUal, isoNow);
    var user := SpreadFields(data);
    var f := PublishDocument(rep, data, parentUal, isoNow).value.fields;
    assert f == d + user;
    if "@context" !in user && data.JObj? {
      assert !Get(data, "@context").Found?;
    }
  }
}
