/** The persisted records: the `proposals` and `reports` tables of the
    schema, the premium-access and UAL-mapping tables the routes use, and the
    store that holds them, with the invariants the tables' keys and
    constraints promise. */
module Schema {
  import opened Wrappers
  import opened JsonValue

  /** A timestamp as the storage engine's `CURRENT_TIMESTAMP` text. */
  type Timestamp = string

  /** A nullable text column tested with `!`: set and non-empty. */
  predicate Present(o: Option<string>)
  {
    o.Some? && |o.value| > 0
  }

  /** A nullable number tested with `!`: set and non-zero. */
  predicate NonZero(o: Option<int>)
  {
    o.Some? && o.value != 0
  }

  // ---------------------------------------------------------------------
  // proposals

  /** The nullable governance columns of a proposal row, written once by ingestion. */
  datatype ProposalInfo = ProposalInfo(
    summary: Option<string>,
    status: Option<string>,
    origin: Option<string>,
    proposer: Option<string>,
    beneficiary: Option<string>,
    ayes: Option<string>,
    nays: Option<string>,
    requested: Option<string>,
    treasuryProposalId: Option<int>,
    createdBlock: Option<int>,
    latestBlock: Option<int>,
    createdAt: Option<Timestamp>,
    updatedAt: Option<Timestamp>)

  /** The DKG publication columns of a proposal row. */
  datatype ProposalDkg = ProposalDkg(
    ual: Option<string>,
    assetId: Option<string>,
    txHash: Option<string>,
    status: Option<string>,
    explorerUrl: Option<string>,
    publishedAt: Option<Timestamp>)

  /** Column defaults of a fresh proposal: no UAL, status `not_published`. */
  const UnpublishedProposal := ProposalDkg(None, None, None, Some("not_published"), None, None)

  datatype Proposal = Proposal(index: int, title: string, info: ProposalInfo, dkg: ProposalDkg, data: Json)

  // ---------------------------------------------------------------------
  // reports

  datatype VerificationStatus = Pending | Verified | Rejected

  datatype AuthorType = AdminAuthor | CommunityAuthor

  /** Public content: the JSON-LD document and its serialized size. */
  datatype Content = Content(jsonld: Json, sizeBytes: Option<nat>)

  /** Legacy submission-fee columns. */
  datatype LegacyPayment = LegacyPayment(requiredPayment: Option<int>, paymentAddress: Option<string>, confirmed: bool)

  /** Paywall terms; the price is in cents. */
  datatype PremiumTerms = PremiumTerms(isPremium: bool, priceCents: Option<int>, payee: Option<string>, authorType: Option<AuthorType>)

  const NotPremium := PremiumTerms(false, None, None, None)

  /** Private content, its salted digest and its size. */
  datatype PrivatePart = PrivatePart(data: Option<string>, hash: Option<string>, sizeBytes: Option<nat>)

  const NoPrivatePart := PrivatePart(None, None, None)

  datatype VerificationRecord = VerificationRecord(
    status: VerificationStatus,
    confidence: Option<real>,
    reasoning: Option<string>,
    issues: Option<seq<string>>,
    verifiedAt: Option<Timestamp>)

  /** Column defaults of a fresh report: status `pending`, nothing else set. */
  const Unverified := VerificationRecord(Pending, None, None, None, None)

  datatype Publication = Publication(
    ual: Option<string>,
    assetId: Option<string>,
    txHash: Option<string>,
    explorerUrl: Option<string>,
    publishedAt: Option<Timestamp>)

  const Unpublished := Publication(None, None, None, None, None)

  datatype Report = Report(
    id: int,
    referendumIndex: int,
    submitter: string,
    name: Option<string>,
    content: Content,
    legacy: LegacyPayment,
    premium: PremiumTerms,
    priv: PrivatePart,
    verification: VerificationRecord,
    publication: Publication,
    submittedAt: Timestamp)

  // ---------------------------------------------------------------------
  // premium access and UAL mappings

  /** Grant state of one (report, buyer wallet) pair. */
  datatype AccessRecord = AccessRecord(
    id: int,
    reportId: int,
    wallet: string,
    signature: Option<string>,
    message: Option<string>,
    paidCents: Option<int>,
    txHash: Option<string>,
    granted: bool)

  /** Link from a parent proposal's UAL to a published report's UAL. */
  datatype UalMapping = UalMapping(proposalUal: string, reportId: int, reportUal: Option<string>)

  // ---------------------------------------------------------------------
  // the store

  datatype Store = Store(
    proposals: map<int, Proposal>,
    reports: map<int, Report>,
    nextReportId: int,
    access: map<int, AccessRecord>,
    nextAccessId: int,
    mappings: seq<UalMapping>)

  const EmptyStore := Store(map[], map[], 1, map[], 1, [])

  /** A handler's effect: the store after the request and what it answered. */
  datatype Step<+O> = Step(store: Store, outcome: O)

  ghost predicate ProposalUalsUnique(ps: map<int, Proposal>)
  {
    forall a, b :: a in ps && b in ps && a != b && ps[a].dkg.ual.Some? ==> ps[a].dkg.ual != ps[b].dkg.ual
  }

  ghost predicate ReportUalsUnique(rs: map<int, Report>)
  {
    forall a, b :: a in rs && b in rs && a != b && rs[a].publication.ual.Some? ==> rs[a].publication.ual != rs[b].publication.ual
  }

  /** What the storage engine itself guarantees: primary keys match the row,
      `ual` and `report_ual` are unique, and every AUTOINCREMENT id lies
      below the next id to be handed out. */
  ghost predicate Wf(s: Store)
  {
    && (forall k :: k in s.proposals ==> s.proposals[k].index == k)
    && ProposalUalsUnique(s.proposals)
    && 1 <= s.nextReportId
    && (forall id :: id in s.reports ==> s.reports[id].id == id && 1 <= id < s.nextReportId)
    && ReportUalsUnique(s.reports)
    && 1 <= s.nextAccessId
    && (forall a :: a in s.access ==> s.access[a].id == a && 1 <= a < s.nextAccessId)
  }

  /** What the routes keep by checking before they write: every report
      names an existing proposal (the engine does not enforce the declared
      foreign key, since foreign-key enforcement is never switched on), and
      there is at most one access record per (report, wallet) pair. */
  ghost predicate Consistent(s: Store)
  {
    && (forall id :: id in s.reports ==> s.reports[id].referendumIndex in s.proposals)
    && (forall a, b :: a in s.access && b in s.access && a != b ==>
          (s.access[a].reportId, s.access[a].wallet) != (s.access[b].reportId, s.access[b].wallet))
  }

  /** What the submit route's validation guarantees of every premium report:
      a non-zero price and a payee. */
  ghost predicate PremiumComplete(s: Store)
  {
    forall id :: id in s.reports && s.reports[id].premium.isPremium ==>
      NonZero(s.reports[id].premium.priceCents) && Present(s.reports[id].premium.payee)
  }

  lemma EmptyStoreIsWellFormed()
    ensures Wf(EmptyStore) && Consistent(EmptyStore) && PremiumComplete(EmptyStore)
  {
  }
}
