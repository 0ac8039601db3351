# Governance DKG app: premium reports, paywall and proposal browser

This project models the premium-report backend of the Polkadot governance DKG
application. It covers:

- the SQLite tables for proposals, reports, premium access records and UAL
  mappings;
- the report and proposal queries;
- the Express routes of `/api/premium-reports`: submit, verify,
  verify-and-publish, publish, GET by id, request-access, my-access, listings
  and private data;
- the x402 payment middleware that charges for premium report reads;
- the filtering, statistics and pagination logic of the React proposal list.

The whole database is one immutable `Store` value. Every route is a pure
function from a store and a request to a `Step`, which holds the store
afterwards and the outcome the route answers with. Each outcome maps to the
HTTP status it sends.

Three invariants are kept:

- `Wf` covers what the storage engine guarantees: primary keys, UNIQUE UALs
  and AUTOINCREMENT bounds.
- `Consistent` covers what the routes keep by checking before they write:
  every report names an existing proposal, and there is one access record per
  (report, wallet) pair. The foreign key is declared but SQLite never turns on
  enforcement.
- `PremiumComplete` says every premium report carries a non-zero price and a
  payee.

The following collaborators are parameters of the model:

- `JSON.parse` and `JSON.stringify`;
- the explorer-URL builder, the administrator list and the threshold setting;
- the AI verifier's reply and the DKG publisher;
- whether the mapping insert succeeds;
- the clock and the private-data digest;
- the payment library's verdict on an `x-payment` header.

JavaScript behaviour is written out where it matters:

- `parseInt`: leading blanks, sign, `0x`, and the longest digit prefix. `NaN`
  is `None`.
- `parseFloat` on decimal text: leading blanks, sign, and the longest
  `digits.digits` prefix. It reads the verification threshold's variable, or
  the text "0.7" when the variable is missing or empty.
- Truthiness of JSON values.
- `trim` and an ASCII `toLowerCase`.
- `split` and `includes`.
- `Array.prototype.slice` clamping.

Modules:

- `Wrappers`, `Seqs`, `Text` and `JsonValue` are the generic helpers.
- `Schema`, `Db` and `Lookups` are the tables and queries.
- `AccessControl` and `Config` handle administrators and the verification
  threshold.
- `PaymentConfig` holds prices and the x402 middleware.
- `SubmitRoute`, `VerifyRoute`, `PublishRoute` and `Documents` handle report
  creation, verification and DKG publication.
- `AccessRoutes`, `Pipeline` and `ReadRoutes` handle reading and paying.
- `ProposalList` is the front-end list.

## Model

| member | source | states |
|---|---|---|
| Schema.EmptyStoreIsWellFormed | governance-dkg-app/backend/src/database/schema.js:5-79 | A freshly created database satisfies the key, uniqueness and AUTOINCREMENT guarantees, the foreign-key and one-record-per-pair rules, and premium completeness. |
| Db.NextRowid | governance-dkg-app/backend/src/database/schema.js:8 | The key an INTEGER PRIMARY KEY receives when the insert leaves it null is not in use, and is 1 in an empty table. |
| Db.InsertProposal | governance-dkg-app/backend/src/database/db.js:53-82 | The insert fails exactly when the NOT NULL title is missing or the referendum index is taken. On success it adds one row under the given (or next) index, with the given fields, no UAL and `dkg_status` 'not_published'. Nothing else changes and the invariants are kept. |
| Db.ProposalByIndex | governance-dkg-app/backend/src/database/db.js:91-94 | Finds a proposal exactly when its index is in the table, and returns that row. |
| Db.AllProposals | governance-dkg-app/backend/src/database/db.js:85-88 | Lists every proposal exactly once, by strictly decreasing referendum index. |
| Db.PublishedProposalsSpec | governance-dkg-app/backend/src/database/db.js:109-112 | `getPublished` lists exactly the stored proposals with a UAL, by decreasing referendum index. |
| Db.UpdateDkgStatus | governance-dkg-app/backend/src/database/db.js:97-106 | Rewrites the six DKG columns of one proposal and stamps `published_at`. It is refused only when the UAL belongs to another proposal. Other rows and tables are unchanged and the invariants are kept. |
| Db.InsertReport | governance-dkg-app/backend/src/database/db.js:118-136 | Fails exactly when a NOT NULL column is missing. Otherwise it writes the seven listed columns under the next AUTOINCREMENT id. The premium, private, verification and publication columns keep their defaults, so the row is pending and not premium. |
| Db.AllReports | governance-dkg-app/backend/src/database/db.js:175-178 | Lists every report exactly once, newest first. |
| Db.ReportsByProposal | governance-dkg-app/backend/src/database/db.js:139-142 | Lists exactly the stored reports of the given proposal, newest (highest id) first. |
| Db.UpdateVerification | governance-dkg-app/backend/src/database/db.js:145-160 | Sets status, confidence, reasoning, the issue list (`[]` when absent) and `verified_at` of one report. Every other column, row and table is unchanged. A missing id is a no-op. |
| Db.UpdateDkgPublication | governance-dkg-app/backend/src/database/db.js:163-172 | Sets the publication columns of one report, and is refused exactly when the UAL is another report's (UNIQUE `report_ual`). Nothing else changes and the invariants are kept. |
| Lookups.ReportById | governance-dkg-app/backend/src/routes/premium-reports.js:111-112 | `getById(parseInt(id))` finds a report exactly when the parsed id is a key, so a `NaN` id finds nothing. |
| Lookups.InsertSubmitted | governance-dkg-app/backend/src/routes/premium-reports.js:320-338 | The submit route's insert adds exactly one row under the next id, with every submitted column, pending, unpublished and stamped now. Other rows and tables are unchanged and the invariants are kept. |
| Lookups.AccessKeyFor | governance-dkg-app/backend/src/routes/premium-reports.js:158 | Yields the lowest-keyed access record of a (report, wallet) pair, and nothing exactly when the pair has no record. |
| Lookups.AccessRecordFor | governance-dkg-app/backend/src/routes/premium-reports.js:836 | `getAccessRecord` returns a stored record of the pair, and nothing exactly when there is none. |
| Lookups.HasAccessIsRecordGranted | governance-dkg-app/backend/src/routes/premium-reports.js:140 | Under the one-record-per-pair rule, `checkUserAccess` holds exactly when the pair's record exists and is granted. |
| Lookups.InsertAccess | governance-dkg-app/backend/src/routes/premium-reports.js:164-172 | `requestAccess` adds one ungranted record under the next id with the given payment fields. It changes nothing else, and keeps the invariants when the pair had no record. |
| Lookups.GrantAccess | governance-dkg-app/backend/src/routes/premium-reports.js:175 | Sets only the grant flag of one record. |
| Lookups.GrantGivesAccess | governance-dkg-app/backend/src/routes/premium-reports.js:175 | After granting a record, its (report, wallet) pair has access. |
| Lookups.ReportByPrivateHash | governance-dkg-app/backend/src/routes/premium-reports.js:993-994 | Finds a stored report carrying the digest, and nothing exactly when no report carries it. |
| Lookups.AccessByUser | governance-dkg-app/backend/src/routes/premium-reports.js:898 | Lists exactly the stored access records of the wallet. |
| Lookups.PremiumByProposal | governance-dkg-app/backend/src/routes/premium-reports.js:61 | Lists exactly the stored premium reports of the proposal. |
| Lookups.CreateMapping | governance-dkg-app/backend/src/routes/premium-reports.js:763-769 | Appends one mapping and changes nothing else. |
| Lookups.LinkedReports | governance-dkg-app/backend/src/routes/premium-reports.js:943 | Every mapping of the proposal UAL whose report exists contributes that report, and only stored reports are listed. |
| Lookups.LinkedReportsAreLinked | governance-dkg-app/backend/src/routes/premium-reports.js:943 | Every listed report is the stored report of some mapping of the proposal UAL. |
| AccessControl.Entries | governance-dkg-app/backend/src/routes/premium-reports.js:303-305 | The comma-separated entries of `ADMIN_ADDRESSES`, each trimmed and lower-cased, one per split part. |
| AccessControl.IsAdminSpec | governance-dkg-app/backend/src/routes/premium-reports.js:303-307 | A wallet is an administrator exactly when some comma-separated entry, trimmed and lower-cased, is non-empty and equals the lower-cased wallet. |
| AccessControl.AdminFromList | governance-dkg-app/backend/src/routes/premium-reports.js:303-307 | Every listed administrator comes from a non-empty entry of the setting. |
| AccessControl.AdminFromEntry | governance-dkg-app/backend/src/routes/premium-reports.js:303-307 | Every non-empty normalized entry of the setting is listed. |
| AccessControl.NoAdminsWhenUnset | governance-dkg-app/backend/src/routes/premium-reports.js:303 | With the setting unset, nobody is an administrator. |
| AccessControl.IsAdminIgnoresCase | governance-dkg-app/backend/src/routes/premium-reports.js:307 | The check does not depend on the letter case of the presented wallet. |
| AccessControl.AppendedEntryIsAdmin | governance-dkg-app/backend/src/routes/premium-reports.js:303-307 | Appending `,entry` to the setting makes the trimmed entry an administrator. |
| PaymentConfig.FormatPrice | governance-dkg-app/backend/src/middleware/x402-config.js:28-30 | The price text is `$`, the whole dollars and a point before two cent digits. |
| PaymentConfig.ParseFormatPrice | governance-dkg-app/backend/src/middleware/x402-config.js:30 | Reading the formatted price back gives the same number of cents, negative amounts included. |
| PaymentConfig.FormatPriceInjective | governance-dkg-app/backend/src/middleware/x402-config.js:30 | Different amounts never format to the same price text. |
| PaymentConfig.GetReportPrice | governance-dkg-app/backend/src/middleware/x402-config.js:20-31 | There is no price exactly for a missing or non-premium report. Otherwise the text reads back as the stored price, or 0 when none is stored. |
| PaymentConfig.ReportMiddlewareForGet | governance-dkg-app/backend/src/middleware/x402-config.js:91-141 | There is a requirement exactly for a premium report with a payee. It pays that payee the formatted price, under the route key `GET /api/premium-reports/<id>`. |
| PaymentConfig.TrailingDigits | governance-dkg-app/backend/src/middleware/x402-config.js:150 | The longest all-digit suffix, preceded by a non-digit or the start. |
| PaymentConfig.MatchReportPath | governance-dkg-app/backend/src/middleware/x402-config.js:150 | A match captures a non-empty digit run that the path ends with, right after `/api/premium-reports/`. |
| PaymentConfig.MatchReportPathComplete | governance-dkg-app/backend/src/middleware/x402-config.js:150 | Every path ending in `/api/premium-reports/` and a digit run matches, capturing exactly that run. |
| PaymentConfig.MatchReportPathOfId | governance-dkg-app/backend/src/middleware/x402-config.js:150-156 | The path of a non-negative id matches, and the capture parses back to the id. |
| PaymentConfig.DynamicGet | governance-dkg-app/backend/src/middleware/x402-config.js:147-174 | Payment is demanded exactly for a GET whose path matches and whose report is payable, with that report's requirement. Everything else passes. |
| PaymentConfig.DynamicGetKeyIsRequestLine | governance-dkg-app/backend/src/middleware/x402-config.js:99 | For a payable report, the requirement built for its canonical GET path is keyed by exactly that request line. |
| PaymentConfig.FirstLegacyMatch | governance-dkg-app/backend/src/middleware/x402-config.js:183 | Gives the leftmost position at which the unanchored request-access pattern matches, or none. |
| PaymentConfig.LegacyMatch | governance-dkg-app/backend/src/middleware/x402-config.js:183 | Captures a non-empty digit run exactly when the pattern matches somewhere in the path. |
| PaymentConfig.ReportMiddlewareForRequestAccess | governance-dkg-app/backend/src/middleware/x402-config.js:39-84 | The per-report requirement of the request-access route exists exactly for a payable report and pays its payee its price. |
| PaymentConfig.LegacyPostAsWritten | governance-dkg-app/backend/src/middleware/x402-config.js:180-208 | As written, the legacy middleware faults exactly on a matched path of a payable report, and never demands payment. |
| PaymentConfig.LegacyPost | governance-dkg-app/backend/src/middleware/x402-config.js:180-208 | With the per-report middleware restored, it demands exactly the request-access requirement of a matched payable report, and never faults. |
| PaymentConfig.LegacyPostRepairsFault | governance-dkg-app/backend/src/middleware/x402-config.js:199 | The two versions differ exactly where the as-written one faults, and there the corrected one demands payment. |
| PaymentConfig.LegacyPostFaultsOnRequestAccess | governance-dkg-app/backend/src/middleware/x402-config.js:183-199 | A request-access path of any payable report makes the as-written middleware fault. |
| SubmitRoute.PrivateColumns | governance-dkg-app/backend/src/routes/premium-reports.js:282-317 | Private text, digest and UTF-8 size are stored exactly when the re-serialized private document is non-empty. Otherwise none of them is. |
| SubmitRoute.AuthorOf | governance-dkg-app/backend/src/routes/premium-reports.js:303-308 | The author is an administrator exactly when the wallet is in the administrator list. |
| SubmitRoute.IntegerTextOfIntToString | governance-dkg-app/backend/src/database/db.js:91-94 | The decimal text of an integer is read back as that integer by a numeric column. |
| SubmitRoute.Bind | governance-dkg-app/backend/src/database/db.js:91-94 | Booleans and objects are refused by the driver, so the statement throws. An array is a list of parameter values: one number, text or null binds as that value, and any other array is refused. Numbers, and text that is an integer literal, bind as numbers. |
| SubmitRoute.WrappedIndexActsAsElement | governance-dkg-app/backend/src/database/db.js:91-94 | An index sent as a one-element array binds and finds the same proposal as the element itself. |
| SubmitRoute.IndexKey | governance-dkg-app/backend/src/database/db.js:91-94 | `referendum_index = ?` can match only a whole number the value binds to. |
| SubmitRoute.MatchedProposal | governance-dkg-app/backend/src/routes/premium-reports.js:228-234 | `getByIndex` finds a proposal exactly when the value keys a stored proposal. |
| SubmitRoute.TextIndexActsAsNumber | governance-dkg-app/backend/src/routes/premium-reports.js:224-234 | An index sent as the text `"42"` passes the presence test and finds the same proposal as the number 42. |
| SubmitRoute.PriceCents | governance-dkg-app/backend/src/routes/premium-reports.js:331 | A price is stored exactly when it binds as a number, and it is that dollar amount rounded down to whole cents. |
| SubmitRoute.PriceOfWholeDollars | governance-dkg-app/backend/src/routes/premium-reports.js:331 | A whole-dollar price is stored as the same number of cents, whether sent as a number or as text. |
| SubmitRoute.TermsOf | governance-dkg-app/backend/src/routes/premium-reports.js:331-334 | The premium flag follows the request's truthiness. Price and payee are kept only for a premium report, the price as the driver binds it, and are null otherwise. |
| SubmitRoute.NameOf | governance-dkg-app/backend/src/routes/premium-reports.js:323 | The given name when present, and `Premium Report <millis>` otherwise. |
| SubmitRoute.Submit | governance-dkg-app/backend/src/routes/premium-reports.js:209-379 | Every rejection leaves the store unchanged. Each early answer is given exactly when its test fails and the earlier tests pass: a falsy index or public document (400), an index the driver refuses (500), no matching proposal (404), an unpublished proposal (400), a premium report without a truthy price (400) or without a payee (400). A 500 comes only from a refused index or price or a non-string private field. |
| SubmitRoute.SubmitAcceptsExactly | governance-dkg-app/backend/src/routes/premium-reports.js:221-300 | A report is stored exactly when the submission meets every condition: index and public document truthy, the index keying a stored and published proposal, a premium report with a truthy price the driver accepts and a payee, public document parsed with `@context` and `@type`, and private document blank or parsable. |
| SubmitRoute.SubmitStoresRequest | governance-dkg-app/backend/src/routes/premium-reports.js:303-345 | The stored row is new, and no other row changes. It carries the proposal key the index binds to, the caller as submitter, the parsed document and the requested premium terms. Its author type follows the administrator list, its digest is present exactly when there is private text, and it is pending and unpublished. |
| SubmitRoute.SubmitKeepsInvariants | governance-dkg-app/backend/src/routes/premium-reports.js:209-379 | Submitting keeps the engine guarantees and the foreign key. It keeps premium completeness when a premium price is stored as non-zero cents. |
| SubmitRoute.AdminAuthorIgnoresCase | governance-dkg-app/backend/src/routes/premium-reports.js:307 | The author type does not depend on the wallet's letter case. |
| VerifyRoute.DecideStatus | governance-dkg-app/backend/src/routes/premium-reports.js:420-425 | The verdict is never `pending`. It is `verified` exactly when the reply is valid, has a confidence, and the confidence reaches a threshold that is not `NaN`. |
| Config.ThresholdIsParsedText | governance-dkg-app/backend/src/routes/premium-reports.js:423 | The threshold compared with is `parseFloat` of the variable's text, or of the text "0.7" when the variable is missing or empty. |
| Config.UnsetReadsAsDefault | governance-dkg-app/backend/src/routes/premium-reports.js:423 | A missing variable, an empty one and the text "0.7" all give the threshold 0.7. |
| Config.WordReadsAsNaN | governance-dkg-app/backend/src/routes/premium-reports.js:423 | Text starting with a letter reads as `NaN`, which no confidence clears. |
| Text.ParseFloatDecimal | governance-dkg-app/backend/src/routes/premium-reports.js:423 | `parseFloat` reads text made of digits, a point and digits as the value of the digits before the point plus those after it read as a fraction. |
| VerifyRoute.DefaultThresholdDecisions | governance-dkg-app/backend/src/routes/premium-reports.js:420-425 | With `AI_VERIFICATION_THRESHOLD` unset, a reply is verified exactly when it is valid with confidence at least 0.7, and rejected otherwise. |
| VerifyRoute.NumericThresholdDecisions | governance-dkg-app/backend/src/routes/premium-reports.js:420-425 | A numeric threshold is compared as it is: verified exactly when valid with confidence at least that number. |
| VerifyRoute.DecideStatusMonotone | governance-dkg-app/backend/src/routes/premium-reports.js:420-425 | Lowering the threshold never turns a verified report into a rejected one. |
| VerifyRoute.NaNThresholdRejectsAll | governance-dkg-app/backend/src/routes/premium-reports.js:423 | A non-numeric threshold rejects every report. |
| VerifyRoute.Verify | governance-dkg-app/backend/src/routes/premium-reports.js:385-452 | A verdict is recorded exactly when the report and its proposal exist and the verifier answered. It is `verified` exactly when the reply is valid and confident enough, and the reply's confidence, reasoning and issues (an empty list when it has none) are stored with the current time. Only that report's verification columns change, and every failure leaves the store unchanged. |
| VerifyRoute.VerificationUpdateKeepsInvariants | governance-dkg-app/backend/src/database/db.js:145-160 | Rewriting verification columns keeps every invariant. |
| VerifyRoute.VerifyThenPublish | governance-dkg-app/backend/src/routes/premium-reports.js:514-654 | The recorded status follows only the reply's validity: the threshold is ignored. A valid reply stores its confidence, reasoning and issues (`[]` when absent). A rejection stores the confidence (0 when absent) and a default reasoning. A valid reply answers 500 for a null document exactly, 500 exactly when the publisher fails or returns no UAL, and publishes exactly when the UAL is free and, if the proposal has a UAL, the mapping insert succeeds. A publication stores that UAL and appends the mapping. Other reports, proposals and access records never change. |
| VerifyRoute.VerifyAndPublishAsWritten | governance-dkg-app/backend/src/routes/premium-reports.js:458-655 | Not-found and forbidden are answered exactly in their cases. The store changes only for an existing report and an authorized caller (submitter or administrator). It never answers "already published". |
| VerifyRoute.AsWrittenOverwritesPublishedUal | governance-dkg-app/backend/src/routes/premium-reports.js:458-655 | For a report that already has a UAL, an authorized call with a valid reply and a fresh DKG UAL publishes again and replaces the stored UAL. |
| VerifyRoute.VerifyAndPublish | governance-dkg-app/backend/src/routes/premium-reports.js:458-655 | As the route, plus the publish route's guard: an authorized call on a report with a UAL answers "already published" exactly then, without writing. |
| VerifyRoute.PublishedReportIsFinal | governance-dkg-app/backend/src/routes/premium-reports.js:669-675 | With the guard, any call on a published report leaves the store unchanged. |
| VerifyRoute.VerifyAndPublishKeepsInvariants | governance-dkg-app/backend/src/routes/premium-reports.js:458-655 | The corrected route keeps every invariant. |
| VerifyRoute.VerifyThenPublishKeepsInvariants | governance-dkg-app/backend/src/routes/premium-reports.js:514-654 | The verdict, the publication and the mapping writes keep every invariant. |
| VerifyRoute.PublicationUpdateKeepsComplete | governance-dkg-app/backend/src/database/db.js:163-172 | Touching only publication columns keeps premium completeness. |
| Documents.OptPrice | governance-dkg-app/backend/src/routes/premium-reports.js:561 | A null price stays null, and a price becomes the number of dollars its cents make. |
| Documents.StatusName | governance-dkg-app/backend/src/database/schema.js:53 | Every verification status has a non-empty column text. |
| Documents.RequiredFields | governance-dkg-app/backend/src/routes/premium-reports.js:540-562 | The verify-and-publish overrides are `@type` schema:Report, `schema:about` the referendum, report type premium, the report id, price and payee. `@context` is the three default prefixes plus the user's. `@id` is the user's when truthy and the report reference otherwise. The name is the user's `schema:name`, else `name`, else "Premium Report <id>"; the creation date is the user's, else now. |
| Documents.HashFieldKeys | governance-dkg-app/backend/src/routes/premium-reports.js:563 | The digest field is added exactly when the report has a digest, and never collides with a required field. |
| Documents.VerifyPublishDocument | governance-dkg-app/backend/src/routes/premium-reports.js:536-564 | A document is built exactly when the stored JSON-LD is not null, and it is an object. |
| Documents.VerifyPublishDocumentFields | governance-dkg-app/backend/src/routes/premium-reports.js:536-564 | The document has the user's keys, the required keys and the digest key. Required fields and the digest override the user's, and the user's other fields are kept. |
| Documents.Overlay | governance-dkg-app/backend/src/routes/premium-reports.js:536-564 | Object spread: later layers win, and keys of no later layer keep the base value. |
| Documents.ObjectContext | governance-dkg-app/backend/src/routes/premium-reports.js:711 | The user's `@context` object is merged field by field. An array is merged under its index keys "0", "1", … and nothing else. Any other value, or none, merges nothing. |
| Documents.DefaultFields | governance-dkg-app/backend/src/routes/premium-reports.js:706-729 | The publish defaults link the report to the parent UAL, mark it premium and name the submitter as author. The context is the default prefixes merged with the user's object context. `@type`, `@id` and `schema:about` are the user's when truthy, else schema:Report, the report reference and the referendum. The name falls back from `schema:name` to `name` to the report name to "Premium Report <id>"; the creation date from the user's to `submitted_at` to now. Status, confidence, id, price and payee are the stored columns. |
| Documents.PublishDocument | governance-dkg-app/backend/src/routes/premium-reports.js:702-731 | A document is built exactly when the stored JSON-LD is not null, and it is an object. |
| Documents.PublishDocumentUserWins | governance-dkg-app/backend/src/routes/premium-reports.js:706-731 | Every user field reaches the published document unchanged, and the defaults fill only what the user left out. This includes `@context` of any type, because the user's fields are spread last. The merged context of line 711 is therefore published only when the user sent no context, and then it holds just the three default prefixes. |
| PublishRoute.ExplorerUrlOf | governance-dkg-app/backend/src/routes/premium-reports.js:751 | There is an explorer link exactly when the publication has a UAL. |
| PublishRoute.Publish | governance-dkg-app/backend/src/routes/premium-reports.js:661-792 | Each answer is given exactly in its case: 404 for no report, 400 for a UAL already held, 400 for an unverified report, 400 for a proposal without a UAL, 500 for a null document, 500 when the publisher fails, 500 when another report holds the returned UAL, and success otherwise. Every refusal or failure writes nothing. A publication stores the returned UAL and explorer link, changes no other column or report, and appends the mapping exactly when its insert succeeds. |
| PublishRoute.PublishedStaysPublished | governance-dkg-app/backend/src/routes/premium-reports.js:669-675 | A report with a UAL is refused and nothing changes. |
| PublishRoute.MappingFailureIsSilent | governance-dkg-app/backend/src/routes/premium-reports.js:762-774 | Whether the mapping insert fails changes neither the answer nor anything but the mapping table. |
| PublishRoute.PublishKeepsInvariants | governance-dkg-app/backend/src/routes/premium-reports.js:661-792 | Publishing keeps every invariant. |
| AccessRoutes.RecordAndGrant | governance-dkg-app/backend/src/routes/premium-reports.js:154-176 | Reuses the pair's first record and grants it, changing nothing else. For a pair without a record, it adds exactly one granted record under the next access id, signed with the payment header and the fixed message, paid the report's price, without a transaction hash, and nothing else changes. Afterwards the pair has access through that record, and the invariants are kept. |
| AccessRoutes.PaidInsertGranted | governance-dkg-app/backend/src/routes/premium-reports.js:158-176 | Inserting the paid record and granting it is one added record, already granted, under the next access id. |
| AccessRoutes.GetReport | governance-dkg-app/backend/src/routes/premium-reports.js:109-202 | Not found exactly when the parsed id names no report. Each other answer is given exactly in its case: a non-premium report is open; a premium one answers 400 without a wallet, is served to a wallet that has access, granted with an `x-payment` header, and otherwise answers 402 with the report id and price. Content is served exactly for a non-premium report, or for a premium one to a wallet that has access or sends an `x-payment` header. A grant happens only with a header and a wallet, and afterwards the wallet has access. It either grants the pair's existing record or adds one granted, paid record under the next access id, and changes nothing else. No other outcome writes. |
| AccessRoutes.GetReportGrantIsRemembered | governance-dkg-app/backend/src/routes/premium-reports.js:140-176 | After a grant, the same wallet is served from its access without a header and without a write. |
| AccessRoutes.GetReportKeepsInvariants | governance-dkg-app/backend/src/routes/premium-reports.js:109-202 | The GET handler keeps every invariant. |
| AccessRoutes.RequestChecks | governance-dkg-app/backend/src/routes/premium-reports.js:803-846 | All checks pass exactly for a wallet and an existing, premium, published report that the wallet's record does not already grant. Each refusal is given exactly when the earlier checks pass and its own fails: no wallet, no report, not premium, not published, and an already granted record, answered with that record's id. |
| AccessRoutes.RequestAccessAsWritten | governance-dkg-app/backend/src/routes/premium-reports.js:803-889 | As written, the handler never writes and never grants. Once the checks pass, it answers 500. |
| AccessRoutes.RequestAccessAsWrittenNeverGrants | governance-dkg-app/backend/src/routes/premium-reports.js:854-881 | A wallet without access to a premium published report gets a 500 and still has no access, whatever payment header it sends. |
| AccessRoutes.RequestAccess | governance-dkg-app/backend/src/routes/premium-reports.js:803-889 | With the grant restored, access is granted exactly when the checks pass. The wallet then has access, the answer carries the report's UAL, and reports are unchanged. It never answers 500. |
| AccessRoutes.RequestAccessIdempotent | governance-dkg-app/backend/src/routes/premium-reports.js:836-846 | A second request after a grant answers "already has access" and writes nothing. |
| AccessRoutes.RequestAccessKeepsInvariants | governance-dkg-app/backend/src/routes/premium-reports.js:803-889 | The corrected handler keeps every invariant. |
| Pipeline.RouteParam | governance-dkg-app/backend/src/routes/premium-reports.js:109 | The router's `:id` is a non-empty segment without `/`, after `/api/premium-reports/` with at most one trailing slash. |
| Pipeline.RouteParamOf | governance-dkg-app/backend/src/routes/premium-reports.js:109 | Every such segment, with or without a trailing slash, is routed with exactly that parameter. |
| Pipeline.Route | governance-dkg-app/backend/src/routes/premium-reports.js:109-202 | GET and HEAD on a matching path reach the GET handler with the routed segment. Anything else is not routed and writes nothing. |
| Pipeline.Apply | governance-dkg-app/backend/src/middleware/x402-config.js:98-174 | Payment is demanded exactly when the middleware requires it, the requirement's route key is the request line, and the header is not accepted. Otherwise the request proceeds to the router. |
| Pipeline.PipelineAsWritten | governance-dkg-app/backend/src/middleware/x402-config.js:147-174 | Payment is only ever demanded of a GET, and a demand writes nothing. |
| Pipeline.SlashPathNotMatched | governance-dkg-app/backend/src/middleware/x402-config.js:150 | The anchored pattern never matches a path that ends in `/`. |
| Pipeline.MatchedPathEndsInDigit | governance-dkg-app/backend/src/middleware/x402-config.js:150 | A matched path ends in a digit. |
| Pipeline.TrailingSlashSkipsPayment | governance-dkg-app/backend/src/middleware/x402-config.js:150-153 | GET `/api/premium-reports/<id>/` of an unpaid premium report with any `x-payment` text is not charged and is granted access, whatever the payment library would say. |
| Pipeline.HeadRequestSkipsPayment | governance-dkg-app/backend/src/middleware/x402-config.js:152 | A HEAD of the canonical path is not charged and is granted access. |
| Pipeline.TrailingTextSkipsPayment | governance-dkg-app/backend/src/middleware/x402-config.js:150 | GET `/api/premium-reports/<id>a` is not charged, and the router's `parseInt` still grants access to report `<id>`. |
| Pipeline.LeadingZeroSkipsPayment | governance-dkg-app/backend/src/middleware/x402-config.js:98-153 | GET `/api/premium-reports/0<id>` is not charged, because the requirement is keyed by `GET /api/premium-reports/<id>`, and the router's `parseInt` still grants access to report `<id>`. |
| Pipeline.DynamicGetAligned | governance-dkg-app/backend/src/middleware/x402-config.js:147-174 | The corrected middleware demands payment exactly for the requests the router sends to the GET handler whose parsed id names a payable report. Its requirement is the report's requirement keyed by the request line itself. |
| Pipeline.PipelineAligned | governance-dkg-app/backend/src/middleware/x402-config.js:147-174 | A payment demand writes nothing. |
| Pipeline.AlignedPipelineChargesPremium | governance-dkg-app/backend/src/routes/premium-reports.js:140-176 | With the corrected middleware, premium content is served, or access granted, only after the middleware demanded payment and the library accepted the header. |
| Pipeline.AlignedAgreesOnCanonicalPath | governance-dkg-app/backend/src/middleware/x402-config.js:150-152 | On GET of the canonical path the corrected middleware decides exactly as the original. |
| ReadRoutes.ViewOf | governance-dkg-app/backend/src/routes/premium-reports.js:64-90 | The full report is shown exactly to a wallet that has access. Everyone else gets the metadata view. |
| ReadRoutes.Views | governance-dkg-app/backend/src/routes/premium-reports.js:64-90 | One view per report, in order. |
| ReadRoutes.ProposalListing | governance-dkg-app/backend/src/routes/premium-reports.js:56-102 | A `NaN` index lists nothing. Otherwise every premium report of the proposal is listed in its view, and every entry is the view of a stored premium report of the proposal: in full when the wallet has access, as its summary otherwise. |
| ReadRoutes.GrantUnlocksListing | governance-dkg-app/backend/src/routes/premium-reports.js:56-102 | After a paid GET grants access, the proposal listing shows that report in full to the wallet. |
| ReadRoutes.LinkedListing | governance-dkg-app/backend/src/routes/premium-reports.js:935-980 | Every stored report linked to the proposal UAL is listed in its view, and every entry is the view of the stored report of one of the proposal UAL's links: in full only to wallets with access. |
| ReadRoutes.Enrich | governance-dkg-app/backend/src/routes/premium-reports.js:901-915 | An access record is joined with its report exactly when the report exists. |
| ReadRoutes.MyAccess | governance-dkg-app/backend/src/routes/premium-reports.js:895-929 | Lists exactly the wallet's stored access records, each joined with its report. |
| ReadRoutes.GrantShowsInMyAccess | governance-dkg-app/backend/src/routes/premium-reports.js:895-929 | After request-access grants, the wallet's my-access list holds a granted record of that report, with the report attached. |
| ReadRoutes.ParseOrKeep | governance-dkg-app/backend/src/routes/premium-reports.js:1046-1053 | Stored private text is returned parsed when it parses, and as text otherwise. |
| ReadRoutes.GetPrivate | governance-dkg-app/backend/src/routes/premium-reports.js:987-1070 | Not found exactly when no report carries the digest. A report without private text answers 404. Private data is served exactly when it exists and the report is free, or when the wallet is the submitter (any case), has access, or is an administrator. A premium report with private text answers 401 with its id and price exactly when no wallet is given, and 403 with its id, price and payee exactly when the given wallet may not read it. |
| ReadRoutes.GetPrivateAsWritten | governance-dkg-app/backend/src/routes/premium-reports.js:993 | In the ES module the route file is, `require` throws and every request answers 500. As CommonJS it would behave as the corrected route. |
| ReadRoutes.PrivateRouteAsWrittenNeverServes | governance-dkg-app/backend/src/routes/premium-reports.js:993 | Even the submitter, whom the intended route serves, gets a 500. |
| ReadRoutes.GrantOpensPrivateData | governance-dkg-app/backend/src/routes/premium-reports.js:1011-1045 | After a paid GET grants access to a report, its private data is served to that wallet. |
| ProposalList.FilterIfFuses | governance-dkg-app/frontend/src/components/ProposalList.jsx:64-94 | One conditional filter step after a filter equals a single filter by the conjunction. |
| ProposalList.ApplyFiltersIsOneFilter | governance-dkg-app/frontend/src/components/ProposalList.jsx:64-94 | The four successive filters equal one filter by "passes every active criterion". |
| ProposalList.ApplyFiltersSpec | governance-dkg-app/frontend/src/components/ProposalList.jsx:64-94 | The result keeps the list's order, every kept row passes, and every passing row is kept. |
| ProposalList.NoFiltersShowAll | governance-dkg-app/frontend/src/components/ProposalList.jsx:64-94 | With every field empty, all rows are shown. |
| ProposalList.StatsBounds | governance-dkg-app/frontend/src/components/ProposalList.jsx:48-55 | The statistics count their rows. Rows with a UAL are at most the total, and executed plus rejected are at most the total. |
| ProposalList.TotalPages | governance-dkg-app/frontend/src/components/ProposalList.jsx:127 | The page count is the ceiling of rows over 50: enough pages for all rows and no empty last page. |
| ProposalList.PageItems | governance-dkg-app/frontend/src/components/ProposalList.jsx:128-130 | A page is the clamped slice of 50 rows. It is never longer than 50, and never empty when the page is in range. |
| ProposalList.FirstPagesArePrefix | governance-dkg-app/frontend/src/components/ProposalList.jsx:128-130 | The first k pages laid end to end are the list's prefix of k×50 rows. |
| ProposalList.PagesPartitionList | governance-dkg-app/frontend/src/components/ProposalList.jsx:127-130 | All pages in order reassemble exactly the filtered list. |
| ProposalList.GoToPage | governance-dkg-app/frontend/src/components/ProposalList.jsx:133-135 | The page is clamped into [1, total]. A page in range is kept, and with no pages the result is 1. |
| ProposalList.GoToPageIdempotent | governance-dkg-app/frontend/src/components/ProposalList.jsx:133-135 | Clamping twice is clamping once. |
| ProposalList.PreviousPage | governance-dkg-app/frontend/src/components/ProposalList.jsx:139 | It steps back by one and never goes below 1. |
| ProposalList.NextPage | governance-dkg-app/frontend/src/components/ProposalList.jsx:140 | It steps forward by one and never goes past the last page. |
| ProposalList.StepsStayInRange | governance-dkg-app/frontend/src/components/ProposalList.jsx:139-140 | From a page in range, both steps stay in range. |
| ProposalList.WindowBoundsInRange | governance-dkg-app/frontend/src/components/ProposalList.jsx:335-342 | The window bounds lie within [1, total] and in order. |
| ProposalList.Window | governance-dkg-app/frontend/src/components/ProposalList.jsx:335-342 | The numbered buttons are consecutive pages within [1, total]. There are min(5, total) of them, and they include the current page when it is in range. |
| ProposalList.PageBarSpec | governance-dkg-app/frontend/src/components/ProposalList.jsx:335-386 | The bar starts with page 1 and ends with the last page. An ellipsis stands exactly for skipped pages, neighbours otherwise being consecutive. The current page appears when in range. |

## Left out

- Storage engine and driver. SQL text, prepared statements, connections and the schema migration script are left out. The tables are modelled as maps.
- Queries called by the routes but not defined in `db.js`. These are `getById`, `getPremiumByProposal`, `premiumAccessQueries`, `ualMappingQueries`, `updateDKGInfo` and `checkUserAccess` from the payment service. They are modelled as the obvious lookups and writes in `Lookups`, and `updateDKGInfo` as `Db.UpdateDkgPublication`.
- Db.InsertReport: `reportQueries.insert` writes seven columns, while the submit route hands it the premium and private fields as well. The routes therefore run against a fuller insert, modelled as `Lookups.InsertSubmitted`.
- Db.AllReports: `ORDER BY submitted_at DESC` is modelled as decreasing report id, which agrees while timestamps follow insertion order.
- Lookups.AccessByUser: its "newest first" order is not stated, only its contents.
- Lookups.PremiumByProposal: its order is not stated, only its contents.
- Lookups.ReportByPrivateHash: SQLite returns some matching row. The model picks the lowest id.
- `JSON.parse` and `JSON.stringify` are parameters. Re-serialising a parsed document is assumed to give back the same value, so `jsonld_data` is stored as a JSON value.
- `toLowerCase` is ASCII only. `parseInt` ignores the double-precision limit on long digit runs, and `parseFloat` reads only plain decimal text: an exponent part (`1e-1`) and `Infinity` are not read, so such text gives the digits before them or `NaN`.
- Prices are kept as whole cents. A sent price is rounded down to whole cents, and `toFixed(2)` rounding of fractional cents is not modelled.
- SubmitRoute.SubmitRequest: `report_name` and `payee_wallet` are taken to be strings or absent. A non-string value, which the driver would refuse or store as given, is not modelled.
- SubmitRoute.Bind: only an optionally signed run of decimal digits counts as integer text, and an array is bound only as a list of its top-level values (nested arrays are refused). SQLite's reading of text with surrounding spaces, a decimal point or an exponent, and the 64-bit integer range, are not modelled; such text matches no proposal, and as a price it is stored by the source as given but by the model as no price.
- PaymentConfig.GetReportPrice: a premium report whose price the source stored as text, such as `"abc"`, makes `toFixed` throw there. In the model that price is stored as none, so it reads as `$0.00`, and ReportMiddlewareForGet asks for $0.00 instead of failing.
- SubmitRoute.SubmitKeepsInvariants: premium completeness is not kept for every request. A truthy price that binds to zero cents, such as the text `"0"` or `0.001`, passes the route's check and is stored as is. Truthy text that is not an integer also passes, and the model stores no price for it (see SubmitRoute.Bind).
- `data_size_kb`'s `toFixed` formatting and the log output are left out.
- Pipeline.Covers: the payment library's match of a request against its route configuration is taken as equality with the `<METHOD> <path>` key. Its pattern syntax and any case-insensitive matching are not modelled.
- The x402 library (`paymentMiddleware`), its facilitator and settlement are external. Whether a header satisfies a requirement is the parameter `accepts`, and the network and token constants do not affect any decision.
- Express details beyond the report routes' path shape are left out. Case-insensitive routing and percent-decoding, which widen the payment gap further, are not modelled, and the mount order of the middleware is assumed as in `Pipeline`.
- Authentication middleware: the authenticated wallet is an input. The auth-message route (`premium-reports.js:33-50`) and `generateAuthMessage` are not part of this model.
- The hash service, the AI verifier and the DKG publishing services are parameters.
- VerifyRoute.Verify: a reply whose confidence is `null` is compared by JavaScript as 0. The model treats a missing confidence as never reaching the threshold, which differs only for a threshold of 0 or below.
- The `/verify` and `/publish` routes have no authentication in the source, and the model does not add any.
- Front end: React rendering, fetching, `clearFilters`, `truncateText`, the status badge and the sorted `uniqueStatuses` list are left out. A `NaN` referendum index is modelled as matching nothing.

## Findings

| source | as written | input that shows it | evidently intended | confidence | as-written member | corrected member |
|---|---|---|---|---|---|---|
| governance-dkg-app/backend/src/routes/premium-reports.js:854-881 | The response names `accessId`, whose declaration was commented out together with the record creation and the grant. | POST `/api/premium-reports/7/request-access` with a wallet, for a premium published report 7 the wallet has no grant for: 500, and no access is recorded. | Create or reuse the access record, grant it, and answer with its id. | not executed | AccessRoutes.RequestAccessAsWritten (AccessRoutes.RequestAccessAsWrittenNeverGrants) | AccessRoutes.RequestAccess (AccessRoutes.RequestAccessIdempotent) |
| governance-dkg-app/backend/src/middleware/x402-config.js:199 | The legacy middleware calls `createReportX402Middleware`, which is commented out (lines 39-84). | Any path containing `/api/premium-reports/7/request-access` for a premium report 7 with a payee: a ReferenceError instead of a payment demand. | Build the per-report request-access requirement and demand payment. | not executed | PaymentConfig.LegacyPostAsWritten (PaymentConfig.LegacyPostFaultsOnRequestAccess) | PaymentConfig.LegacyPost (PaymentConfig.LegacyPostRepairsFault) |
| governance-dkg-app/backend/src/middleware/x402-config.js:150-152 | The payment middleware matches only GET and `/(\d+)$`, while the router serves GET and HEAD on `/:id` with an optional trailing slash and parses the id with `parseInt`. The requirement is keyed by `GET /api/premium-reports/<id>`, which a path with leading zeros does not match. | GET `/api/premium-reports/7/`, GET `/api/premium-reports/7a`, GET `/api/premium-reports/07`, or HEAD `/api/premium-reports/7`, with any `x-payment` text: access to premium report 7 is granted without a payment check. | Charge every request the GET handler serves for a payable report. | not executed | Pipeline.PipelineAsWritten (Pipeline.TrailingSlashSkipsPayment, Pipeline.TrailingTextSkipsPayment, Pipeline.HeadRequestSkipsPayment, Pipeline.LeadingZeroSkipsPayment) | Pipeline.PipelineAligned (Pipeline.AlignedPipelineChargesPremium) |
| governance-dkg-app/backend/src/routes/premium-reports.js:458-655 | verify-and-publish has no "already published" guard, unlike `/publish` (lines 669-675). | An authorized call on a report that already has a UAL, with a valid verifier reply: it is published again and its stored UAL replaced. | Refuse a report that already has a UAL, as `/publish` does. | not executed | VerifyRoute.VerifyAndPublishAsWritten (VerifyRoute.AsWrittenOverwritesPublishedUal) | VerifyRoute.VerifyAndPublish (VerifyRoute.PublishedReportIsFinal) |
| governance-dkg-app/backend/src/routes/premium-reports.js:993 | The private-data route calls `require` inside an ES module (`import`/`export default`), where `require` is not defined. | GET `/api/premium-reports/private/<hash>` by the report's own submitter: 500. | Read the report by digest through the imported database module. | not executed; medium, since it assumes the package runs as an ES module | ReadRoutes.GetPrivateAsWritten (ReadRoutes.PrivateRouteAsWrittenNeverServes) | ReadRoutes.GetPrivate (ReadRoutes.GrantOpensPrivateData) |
