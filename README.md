# LexFlow intake pipeline: a verified model of its core logic

LexFlow takes legal intake submissions. A language model classifies each
one, the record is stored in a DynamoDB table, and an operations dashboard
reads the table back. This project models the logic of that pipeline that
can be stated precisely, and proves what the code promises about it:

- **Classifier-output validation** (`classifier.dfy`). The fence stripper
  cleans the model's text. The schema validator then checks the parsed JSON
  against the eight required keys, the closed case-type and urgency sets,
  the 0-10 integer score, the boolean flag, three to five string key facts
  and the three non-blank text fields. The checks run in source order, and
  the first failing check decides the error.
- **Dashboard aggregation** (`aggregation.dfy`). The same block appears in
  both services. It computes the record count, three group-by counters with
  "Unknown"/"unknown" default buckets, the mean of the positive scores, the
  "new" and "critical" counts, and the ten newest records projected to
  eight fields. The counting loop is the method `Aggregate`. It is proved
  equal to the function `Summarize`, and the lemmas say what `Summarize`
  computes.
- **Record store** (`record_store.dfy`). The table is a class: records by
  `intake_id`, the order a scan visits them in, and a page size. It
  provides `scan_all`'s pagination loop, `put_item`, `get_item`, the
  conditional `update_status`, and `get_by_token`.
- **Dashboard service handler** (`dashboard_handler.dfy`). It routes on
  method and path, handles the case detail lookup and the status update
  (strip, lower, check against six statuses), and runs the scan and
  aggregation.

Supporting modules:

- `wrappers.dfy` holds Option/Result.
- `pystr.dfy` holds the Python string operations the code uses: `strip`,
  `split`, `replace`, ASCII `lower`, and code-point ordering.
- `json.dfy` holds the value type for parsed JSON and DynamoDB attributes,
  with Python truthiness, `int()` and hashability.

Exceptions are modelled as values:

- A raised exception the code catches becomes the error the code turns it
  into.
- One that escapes every handler becomes `Unhandled`.
- Service errors are inputs: `Fault` and `Faults` say which store call
  raises a `ClientError`, and with which code.
- The JSON parser of the handlers and the clock of `update_status` are
  parameters.

Two path quirks are visible in the routing lemmas. The case id `status` makes
`/case/status` end in `/status`, so `GET /case/status` is not routed to the
detail handler. `CaseDetailRoute` therefore excludes that id. And the id is
the piece after the first `/case/`, with every `/status` removed, so an id
that contains `/` (and with it `/case/` or `/status`) comes out changed;
`CaseDetailRoute` and `StatusUpdateRoute` therefore speak of ids without `/`.

## Model

| member | source | states |
|---|---|---|
| Classifier.StripFences | lexflow-intake/ai_classifier.py:40-49 | whichever branch is taken, the result neither begins nor ends with whitespace |
| Classifier.StripFencesUnfenced | lexflow-intake/ai_classifier.py:42-49 | text that does not start with a fence once stripped comes out stripped and nothing more, so a second pass changes nothing |
| Classifier.FencedSplitHasTwoParts | lexflow-intake/ai_classifier.py:43-45 | splitting fenced text on the fence gives at least two pieces, the first empty, so `parts[1]` always exists |
| Classifier.StripFencesFenced | lexflow-intake/ai_classifier.py:43-48 | fenced text becomes the piece between the first two fences, without one leading `json`, stripped; it contains no fence |
| Classifier.MissingKeysEmptyIffPresent | lexflow-intake/ai_classifier.py:54-55 | the missing-key set is empty exactly when all eight required keys are present |
| Classifier.FirstNonString | lexflow-intake/ai_classifier.py:75-77 | the index found is the first key fact that is not a string; when there is none, all of them are strings |
| Classifier.FirstBlankText | lexflow-intake/ai_classifier.py:79-81 | the field found is the first of the three text fields that is not a non-blank string |
| Classifier.Validate | lexflow-intake/ai_classifier.py:52-81 | an accepted value is a dict with all eight keys; only a non-dict gives the not-an-object error; a missing-keys error lists exactly the absent required keys, and never none |
| Classifier.ValidateFields | lexflow-intake/ai_classifier.py:58-81 | the field checks never report a structural error; a key-fact error points inside the list, and a blank-text error names one of the three text fields |
| Classifier.ValidateAcceptsExactlyConforming | lexflow-intake/ai_classifier.py:52-81 | the validator accepts a value if and only if it conforms to the schema (both directions) |
| Classifier.ValidateReportsFirstFailure | lexflow-intake/ai_classifier.py:52-81 | a rejected value is rejected for the first check in source order that fails; every earlier check holds |
| Classifier.FencedContent | lexflow-intake/ai_classifier.py:43-48 | the fenced branch's result neither begins nor ends with whitespace |
| Classifier.ValidateErrorDetails | lexflow-intake/ai_classifier.py:54-56 | the missing-keys error happens exactly when a key is missing, and it carries exactly the missing keys |
| Classifier.KeyFactErrorIsFirstBadFact | lexflow-intake/ai_classifier.py:75-77 | a key-fact error names an index inside the list whose fact is not a string, and every earlier fact is a string |
| Classifier.BlankTextErrorIsFirstBadField | lexflow-intake/ai_classifier.py:79-81 | a blank-text error names the first of the three text fields, in source order, that is not a non-blank string |
| Classifier.AcceptedClassification | lexflow-intake/ai_classifier.py:58-81 | an accepted value has a case type among the twelve, an urgency among the four, an integer score in 0..10, which is a bool or an int in 0..10 (a bool counts as an int), a boolean flag, 3 to 5 string key facts and non-blank text fields |
| Classifier.SchemaConstants | tests/test_basic.py:25-27 | "Personal Injury - Vehicle Accident" is a case type; "high" and "critical" are urgencies |
| Classifier.Interpret | lexflow-intake/ai_classifier.py:118-126 | a parse failure of the cleaned text is the invalid-JSON error and only that; an accepted result is the parsed value unchanged and conforming; a rejection carries the validator's error |
| PyStr.Strip | lexflow-intake/ai_classifier.py:42 | the result is the slice left once leading and trailing whitespace is gone, with no whitespace at either end |
| PyStr.Split | lexflow-intake/ai_classifier.py:44 | at least one piece, none containing the separator |
| PyStr.JoinSplit | lexflow-dashboard/handler.py:174 | joining the pieces of a split with the separator gives back the string |
| PyStr.LexLeTotal | lexflow-dashboard/handler.py:70 | any two timestamps are ordered one way or the other |
| PyStr.LexLeTransitive | lexflow-dashboard/handler.py:70 | the string order is transitive |
| Aggregation.Aggregate | lexflow-dashboard/handler.py:52-94 | the counting loop and the payload built after it equal `Summarize` of the records, the first exception included; the copy at lexflow-intake/handler.py:52-105 is the same code |
| Aggregation.CountItem | lexflow-dashboard/handler.py:59-64 | one pass of the loop body raises the record's first error, in the order of the three lookups and the score conversion, and otherwise bumps the three counters and collects a positive score |
| Aggregation.CountAllCollectsScores | lexflow-dashboard/handler.py:62-64 | the collected scores are each record's positive converted score, in record order, whatever the counters do |
| Aggregation.TallyFailureIsFinal | lexflow-dashboard/handler.py:58-64 | once a record makes the loop raise, the whole aggregation raises that error |
| Aggregation.TallyFailsOnFirstBadRecord | lexflow-dashboard/handler.py:58-64 | the loop completes if and only if no record makes it raise, and otherwise raises the first such record's error |
| Aggregation.CountsMatchRecords | lexflow-dashboard/handler.py:58-61 | each counter holds, per bucket, the number of records filed under it, and has a bucket exactly for the values that occur |
| Aggregation.CountsSumToTotal | lexflow-dashboard/handler.py:52-61 | each counter's counts add up to the number of records; the copy at lexflow-intake/handler.py:52-66 is the same code |
| Aggregation.BumpAddsOne | lexflow-dashboard/handler.py:59 | one increment adds one to a counter's total |
| Aggregation.SummaryCountsAddUp | lexflow-dashboard/handler.py:85-92 | `by_case_type`, `by_urgency` and `by_status` each add up to `total_intakes` |
| Aggregation.MissingFieldCountedAsUnknown | lexflow-dashboard/handler.py:59-61 | a record without the field is counted under "Unknown" (case type) or "unknown" (urgency, status); the copy at lexflow-intake/handler.py:60-66 is the same code |
| Aggregation.ScoresArePositive | lexflow-dashboard/handler.py:62-64 | every collected score is positive |
| Aggregation.ZeroScoreDoesNotLowerMean | lexflow-intake/handler.py:68-71 | a record whose score is missing or 0 adds nothing to the collected scores |
| Aggregation.MeanOfPositiveScores | lexflow-dashboard/handler.py:66 | `avg_viability` is the exact mean of the collected, positive scores |
| Aggregation.AverageOfPositives | lexflow-intake/handler.py:73 | for positive scores, the mean times their number is their sum; it is positive when there is at least one score and 0.0 when there is none |
| Aggregation.ZeroScoresExample | lexflow-intake/handler.py:68-73 | scores 0, 0, 8, 6 give the mean 7 |
| Aggregation.NewAndCriticalCounts | lexflow-dashboard/handler.py:67-68 | `new_unreviewed` and `critical_urgency` are the numbers of records with status "new" and urgency "critical" (0 when none), and `total_intakes` is the record count; the copy at lexflow-intake/handler.py:74-75 is the same code |
| Aggregation.FirstUnorderable | lexflow-dashboard/handler.py:70 | no timestamp is found exactly when every present timestamp is a string |
| Aggregation.InsertByTimestamp | lexflow-dashboard/handler.py:70 | inserting keeps every record: the result is the old records plus the new one, as a multiset |
| Aggregation.InsertKeepsNewestFirst | lexflow-dashboard/handler.py:70 | inserting into a newest-first sequence keeps it newest first |
| Aggregation.SortByTimestamp | lexflow-dashboard/handler.py:70 | the sort is a permutation of the records |
| Aggregation.SortByTimestampCorrect | lexflow-dashboard/handler.py:70 | the sort is newest first (a missing timestamp counts as ""), keeps every record, and keeps the length |
| Aggregation.Project | lexflow-dashboard/handler.py:72-81 | an entry has exactly the eight keys, copies them (None when absent), defaults the flag to False, and converts the score with `int()`, which may raise |
| Aggregation.ProjectAll | lexflow-dashboard/handler.py:71-83 | the list has one projected entry per chosen record, in order, and fails if any projection fails |
| Aggregation.Last10 | lexflow-dashboard/handler.py:70-83 | a successful `last_10_intakes` means every present timestamp was a string; it has min(10, n) entries, each with exactly the eight projected keys |
| Aggregation.Last10Shape | lexflow-dashboard/handler.py:70-83 | `last_10_intakes` has min(10, n) entries, newest first, each the projection of a sorted record with exactly the eight keys, and no record left out is newer than one shown; the copy at lexflow-intake/handler.py:78-91 is the same code |
| Aggregation.ProjectedKeysExcludeHidden | lexflow-dashboard/handler.py:72-81 | no entry carries `raw_description`, `attorney_note`, `portal_token` or `ai_model_used` |
| Aggregation.SummaryLast10 | lexflow-dashboard/handler.py:93 | the payload's `last_10_intakes` is the ten-entry projection |
| Aggregation.SummaryParts | lexflow-dashboard/handler.py:85-94 | a successful payload is made of the loop's counters, the exact mean, the two bucket counts and the projection |
| Aggregation.Summarize | lexflow-dashboard/handler.py:52-94 | an exception of the counting loop is the result, before any sort; after the loop the result is a payload exactly when the ten-entry projection succeeds; the payload counts every record and carries that projection |
| Aggregation.EmptySummary | lexflow-dashboard/handler.py:52-94 | no records give a zero summary with empty counters, mean 0.0 and no entries |
| RecordStore.Table.ScanAll | lexflow-dashboard/db.py:30-45 | the result is every record in scan order, the pages concatenated; it fails exactly when one of the `Requests` requests raises, returns nothing partial, and re-raises the same error; the copy at lexflow-intake/db.py:31-49 is the same code |
| RecordStore.ScanPages | lexflow-dashboard/db.py:34-39 | the pagination loop over the records in scan order returns all of them, concatenated page by page; it fails exactly when one of its `Requests` requests raises, with that error; the copy at lexflow-intake/db.py:37-43 is the same code |
| RecordStore.PageShape | lexflow-dashboard/db.py:34-39 | a page is the next stretch of the scan order, at most the page limit long; it carries `LastEvaluatedKey` exactly when it is full, and that key belongs to its last item |
| RecordStore.PageKeys | lexflow-dashboard/db.py:34-38 | the first page, or the page after a given key, holds at most the page limit; a full page's `LastEvaluatedKey` is a key of the scan, and its last item is stored under it |
| RecordStore.ResumeAfterFullPage | lexflow-dashboard/db.py:37-38 | following `LastEvaluatedKey` reads the page that starts right after the previous one |
| RecordStore.ExtendByNextPage | lexflow-dashboard/db.py:39 | extending by the next page gives the next prefix of the scan |
| RecordStore.Requests | lexflow-dashboard/db.py:37 | at least one request is made, whatever the table |
| RecordStore.RequestsIsQuotientPlusOne | lexflow-intake/db.py:41 | the loop makes n / limit + 1 requests: one per full page plus the last, partial or empty, page |
| RecordStore.Table.ContentsAreTheRecords | lexflow-intake/db.py:45-46 | the scan lists each stored record exactly once |
| RecordStore.Table.PutItem | lexflow-dashboard/db.py:15-27 | stores the item under its `intake_id`, replacing any previous record; a service error or an invalid key is re-raised, and the table is left unchanged; the copy at lexflow-intake/db.py:13-28 is the same code |
| RecordStore.Table.GetItem | lexflow-dashboard/db.py:48-68 | the stored record (keyed by the id) for a present id, None for an absent one, the error re-raised; the empty id is refused with a `ValidationException`; the table is only read |
| RecordStore.Table.UpdateStatus | lexflow-dashboard/db.py:71-118 | an absent id or a failed condition raises "Case {id} not found in database." and changes nothing; the empty id is refused with a `ValidationException`; other service errors are re-raised; success patches that one record |
| RecordStore.StatusPatchTouchesThreeFields | lexflow-dashboard/db.py:86-100 | the update sets `status`, `updated_at` and `attorney_note` to the given values and keeps every other attribute |
| RecordStore.StatusPatched | lexflow-dashboard/db.py:86-100 | the patched record is still stored under the same `intake_id` |
| RecordStore.Table.GetByToken | lexflow-intake/db.py:50-62 | the code as written: any record returned is stored and carries the token; an error is re-raised |
| RecordStore.LimitOneScan | lexflow-intake/db.py:56-62 | with `Limit=1` only the first scanned record is examined, and it is returned exactly when it carries the token |
| RecordStore.LimitOneMissesStoredToken | lexflow-intake/db.py:56-62 | a two-record table in which the record with the token comes second: the lookup as written returns None, the intended one finds it |
| RecordStore.FirstWithToken | lexflow-intake/db.py:50-53 | the first record carrying the token; None exactly when no record carries it |
| RecordStore.Table.FindByToken | lexflow-intake/db.py:50-62 | the corrected lookup: a returned record carries the token, and None means no stored record does |
| RecordStore.Table.TokenAbsentFromScan | lexflow-intake/db.py:52-53 | a token found on no scanned record is found on no stored record |
| DashboardHandler.RouteOf | lexflow-dashboard/handler.py:159-181 | OPTIONS, and only OPTIONS, is the preflight; a detail route is a GET `/case/` path not ending in `/status`; a status route is a POST `/case/` path ending in `/status`; a non-string path raises |
| DashboardHandler.MethodOf | lexflow-dashboard/handler.py:154 | the method defaults to GET when the request context, its `http` entry or the method is missing, and is the event's own method when present; reading it raises `AttributeError` exactly when the context, or its `http` entry, is present but not a dict |
| DashboardHandler.PathOf | lexflow-dashboard/handler.py:155 | the path is the event's `rawPath`, or "/dashboard" without one |
| DashboardHandler.EventRoute | lexflow-dashboard/handler.py:154-181 | an event is a preflight exactly when its method is OPTIONS; routing raises only on a bad request context or a non-string path; the detail and status routes have a `/case/` path |
| DashboardHandler.DefaultsRouteToDashboard | lexflow-dashboard/handler.py:154-165 | an event with neither method nor path is `GET /dashboard` |
| DashboardHandler.OptionsIsPreflight | lexflow-dashboard/handler.py:160-161 | OPTIONS is answered as a preflight whatever the path |
| DashboardHandler.CaseDetailRoute | lexflow-dashboard/handler.py:167-170 | `GET /case/X` reaches the detail handler with id X, for an X without '/' that does not make the path end in `/status` |
| DashboardHandler.StatusUpdateRoute | lexflow-dashboard/handler.py:172-174 | `POST /case/X/status` reaches the status update with id X, for an X without '/' |
| DashboardHandler.RemoveStatusSuffix | lexflow-dashboard/handler.py:174 | removing every "/status" from "X/status" gives X back |
| DashboardHandler.SlashFreeAvoids | lexflow-dashboard/handler.py:169 | an id without '/' contains neither route separator |
| DashboardHandler.OtherRequestsNotFound | lexflow-dashboard/handler.py:159-181 | a string path is a 404 if and only if the request matches none of the preflight, dashboard, detail and status routes |
| DashboardHandler.StatusPathNeedsPost | lexflow-dashboard/handler.py:167-181 | `GET /case/X/status`, or any method but POST and OPTIONS on a status path, is a 404 |
| DashboardHandler.CasePathNeedsGet | lexflow-dashboard/handler.py:167-181 | `POST /case/X`, or any method but GET and OPTIONS on a case path without the status suffix, is a 404 |
| DashboardHandler.Normalise | lexflow-dashboard/handler.py:124 | the normalised status is the stripped text lower-cased letter by letter: same length as the stripped text, no capital letters, no surrounding whitespace |
| DashboardHandler.NormaliseIdempotent | lexflow-dashboard/handler.py:124 | normalising a status twice is normalising it once |
| DashboardHandler.NormaliseExample | lexflow-dashboard/handler.py:124-127 | " Needs_Review\n" normalises to "needs_review", a valid status |
| DashboardHandler.ReadStatusRequest | lexflow-dashboard/handler.py:124-125 | the request reads successfully exactly when the body is a dict whose status and note are strings; the status is then normalised and the note stripped |
| DashboardHandler.MissingStatusIsInvalid | lexflow-dashboard/handler.py:124-130 | a body without a status asks for "", which is not a valid status |
| DashboardHandler.HandleStatusUpdate | lexflow-dashboard/handler.py:120-149 | an unreadable body raises; an invalid normalised status is a 400 before the store is touched; a valid status is a 200 exactly when the store holds the id and raises nothing, in which case the reply echoes the id and the normalised status and exactly that record is patched; in every other case (a store error, not-found, the empty id) it is a 500 with the store unchanged |
| DashboardHandler.HandleCaseDetail | lexflow-dashboard/handler.py:100-117 | a store error, the empty id's `ValidationException` included, is a 500; for any other id the 404 happens exactly when no record is stored under it; a stored record with no store error is the 200 carrying that record |
| DashboardHandler.HandleDashboard | lexflow-dashboard/handler.py:42-97 | a failed scan is a 500 with no summary; otherwise the reply is the summary of every stored record, or the aggregation's exception; the intake service's handler at lexflow-intake/handler.py:37-112 does the same scan, the same 500 and the same summary |
| DashboardHandler.DashboardCountsEveryRecord | lexflow-intake/handler.py:43-52 | a successful summary counts every stored record |
| DashboardHandler.RequestBody | lexflow-dashboard/handler.py:176 | a missing or falsy body is `{}`; a truthy body that is not a string raises `TypeError`; a non-empty string body is whatever the parser makes of it |
| DashboardHandler.LambdaHandler | lexflow-dashboard/handler.py:152-181 | a routing error raises; a preflight is a 200; the dashboard route gives the scan's 500 or the summary (or the aggregation's exception); the detail route gives the detail handler's reply; on the status route a body that raises is unhandled, one that fails to parse is a 400, and a parsed one gets the status update's full case-by-case reply and records; an unmatched route is a 404; only a status update can change the table |

## Left out

- `classify`'s call to the Anthropic API and `json.loads` (lexflow-intake/ai_classifier.py:84-117). The parser is a parameter of `Interpret`.
- Aggregation.MeanOfPositiveScores: `round(..., 1)` on a binary float is not modelled. The mean is exact.
- Aggregation.Last10: any present timestamp that is not a string raises. Python raises only when the sort compares a string with a non-string, or two values it cannot order, so a table whose timestamps are all numbers would sort in Python but raises here.
- Aggregation.CountsMatchRecords: buckets are compared as values. Python's dict also treats `True`, `1` and `1.0` as the same key, and that merge is not modelled.
- Aggregation.SortByTimestampCorrect: the sort is stable by construction (a later record goes after earlier ones with the same timestamp), but stability is not stated as a lemma.
- PyStr.Lower: only ASCII letters are lower-cased. Python's `str.lower` also maps other scripts. No non-ASCII character lower-cases to a valid status, so acceptance is unaffected.
- Json.PyInt: `int()` of a string accepts an optional sign and ASCII digits only. Underscores and non-ASCII digits are not modelled.
- DynamoDB sets, binary values and `Decimal` precision are not modelled. Numbers are integers or exact reals.
- RecordStore.PageAt: a page holds a fixed number of items. DynamoDB stops a page at 1 MB of data or at `Limit` items, whichever comes first.
- RecordStore.Table: the scan order is an abstract sequence (DynamoDB orders by key hash). `PutItem` takes the new key's position as a parameter.
- RecordStore.Table.PutItem: the only key validation modelled is a non-empty string `intake_id`; `GetItem` and `UpdateStatus` refuse the empty id the same way. Other DynamoDB item and key limits, such as size and attribute types, are not.
- RecordStore.Table.UpdateStatus: `datetime.now` is replaced by the `updatedAt` parameter.
- Concurrent access and last-write-wins behaviour belong to the store and are not modelled.
- boto3 itself is not modelled: `get_table`, the region, `ClientError`'s structure beyond its code, and expression strings.
- `_cors_headers`, `_response` and `json.dumps`. A reply is a status code and a body value. The 400 text lists the statuses in set-iteration order, which is undefined; the model keeps only the status.
- DashboardHandler.RequestBody: a missing or empty body is `{}` directly, without calling the parser.
- Environment configuration (table name, region) and logging.
- lexflow-intake/emailer.py (email I/O and templating) and lexflow-intake/prompt.py (static prompt text) are not part of this model.
- test_classifier.py (a harness against the live API) is not part of this model.
- Record creation, including how ids and portal tokens are generated, is not in the modelled files.
- The intake service's `lambda_handler` has no member of its own. Its code is the same scan-then-aggregate code as the dashboard's `handle_dashboard`, and `DashboardHandler.HandleDashboard` models both.

## Findings

| source | as written | input that shows it | evidently intended | confidence | as-written member | corrected member |
|---|---|---|---|---|---|---|
| lexflow-intake/db.py:56-62 | `scan(FilterExpression=..., Limit=1)` reads one item and then filters it, so the lookup examines only the first record of the scan | a table of two records in which the one carrying the token is second in scan order: the lookup returns None although the record is stored | return the record carrying the token, scanning every page until one matches, and None only when no record carries it (the docstring: "Returns the record dict or None if not found") | high; not executed | RecordStore.Table.GetByToken (with RecordStore.LimitOneMissesStoredToken) | RecordStore.Table.FindByToken |
