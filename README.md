# Unused secrets scanner: a Dafny model of the scan, filter and report pipeline

This project models the core of the weekly Lambda in
`src/services/SecretsScannerLambdaHandler.ts`:

- it walks the Secrets Manager inventory page by page;
- it flags every secret whose last access lies at least `UnusedDays` whole days (rounded up) from now and whose name is not on the comma-separated suppression list kept in SSM;
- it writes the flagged secrets as a three-column CSV report to S3, only when there are some;
- it passes the list, or the first error, to the Lambda callback.

Modules, one per component, in the order the source uses them:

- `Wrappers`: `Option`, `Result`, `Outcome` and the errors a run can end with.
- `Age`: `getDaysUnused` as exact integer ceiling division on millisecond timestamps (`DaysUnused`).
- `Suppression`: `getSuppressedSecrets` as a comma split with no trimming (`Split`, `SuppressionList`), with its inverse `Join`.
- `Scanner`: `getUnusedSecrets`.
  - The filter is `Flagged` and `Select`.
  - `Walk` is the page walk as written, where `nextToken` is assigned inside the per-entry loop.
  - `Inventory` is the walk that follows every page's `NextToken`.
  - The method `GetUnusedSecrets` holds the do/while loop, and `ScanEntries` holds the per-entry `for` loop. `GetUnusedSecrets` is proved equal to `ScanResult`.
- `Report`: the row projection, the decimal rendering of the day count (with a parser that reads it back), and the object key `unused-secrets-<ISO>.csv` (with `StampOf`, which recovers the timestamp).
- `Orchestrator`: `handler` and the upload step of `uploadToS3`.
  - The S3 bucket is the class `ObjectStore`, whose `objects` field logs every `putObject`.
  - `Handler` is proved against the pure `Run`, which returns the callback's value and the objects written.

The collaborators are inputs, gathered in `Invocation`:

- `listSecrets` is a function from the request's continuation token (`None` for the first request) to the page or the error it throws.
- `getParameter` is its value or its error.
- `new Date()` gives two timestamps: the scan time and the export time.
- `Date.toISOString` is an opaque renderer.
- `putObject` either stores the object or throws a given error.
- The Lambda deadline is a budget of `listSecrets` requests. A walk that needs more than the budget ends in `DeadlineExceeded`.

Line 93 does not trim the suppression names: the value `"alpha, beta"` suppresses `"alpha"` and `" beta"`, not `"beta"` (`Suppression.PiecesAreNotTrimmed`).

## Model

| member | source | states |
|---|---|---|
| `Age.CeilDiv` | src/services/SecretsScannerLambdaHandler.ts:85 | `Math.ceil(n / d)`: the least q with q·d ≥ n; it is 0 exactly when n is 0 |
| `Age.CeilDivUnique` | src/services/SecretsScannerLambdaHandler.ts:85 | the two bounds of the ceiling determine its value |
| `Age.CeilDivMonotone` | src/services/SecretsScannerLambdaHandler.ts:85 | a longer gap never rounds up to fewer days |
| `Age.DaysUnused` | src/services/SecretsScannerLambdaHandler.ts:81-86 | returns null exactly when the secret has no last-access date |
| `Age.DaysUnusedBounds` | src/services/SecretsScannerLambdaHandler.ts:84-85 | with a date, the result is the least whole number of days covering abs(now − last); it is 0 exactly when last = now |
| `Age.DaysUnusedSymmetric` | src/services/SecretsScannerLambdaHandler.ts:84 | the absolute difference makes the age the same whichever instant is later |
| `Age.DaysUnusedWholeDays` | src/services/SecretsScannerLambdaHandler.ts:84-85 | a gap of exactly k days, in either direction, gives exactly k |
| `Age.DaysUnusedMonotone` | src/services/SecretsScannerLambdaHandler.ts:84-85 | an earlier last access never gives a smaller age |
| `Suppression.Split` | src/services/SecretsScannerLambdaHandler.ts:93 | `split(',')` gives at least one piece, and no piece contains a comma |
| `Suppression.JoinSplit` | src/services/SecretsScannerLambdaHandler.ts:93 | joining the pieces with commas gives the parameter value back |
| `Suppression.SplitJoin` | src/services/SecretsScannerLambdaHandler.ts:93 | splitting comma-joined comma-free names gives exactly those names back |
| `Suppression.SuppressionList` | src/services/SecretsScannerLambdaHandler.ts:93 | an absent value is read as `''`; the list is never empty |
| `Suppression.EmptyValueSuppressesOnlyEmptyName` | src/services/SecretsScannerLambdaHandler.ts:93 | a missing or empty value gives `['']`, which suppresses only the empty name |
| `Suppression.SuppressesExactlyListedNames` | src/services/SecretsScannerLambdaHandler.ts:56 | with a value of comma-separated names, `includes` holds exactly for those names |
| `Suppression.PiecesAreNotTrimmed` | src/services/SecretsScannerLambdaHandler.ts:93 | no trimming: `"alpha, beta"` gives `["alpha", " beta"]`, and `"beta"` is not suppressed |
| `Scanner.Select` | src/services/SecretsScannerLambdaHandler.ts:54-58 | every pushed record has a last-access date and carries the age computed for it; that age is at least the threshold and the name is not suppressed; there are at most as many records as entries |
| `Scanner.SelectAppend` | src/services/SecretsScannerLambdaHandler.ts:54-58 | the filter preserves order: filtering a concatenation concatenates the filtered parts |
| `Scanner.SelectMembership` | src/services/SecretsScannerLambdaHandler.ts:56-57 | a record is in the result if and only if it is the record of some entry that meets the condition |
| `Scanner.ThresholdIsInclusive` | src/services/SecretsScannerLambdaHandler.ts:56 | an unsuppressed secret last used exactly `maxUnusedDays` days away is flagged |
| `Scanner.OneDayShortIsNotFlagged` | src/services/SecretsScannerLambdaHandler.ts:56 | one whole day short of the threshold is not flagged |
| `Scanner.NeverFlagged` | src/services/SecretsScannerLambdaHandler.ts:56 | a secret with no last-access date, or a suppressed one, is never flagged, whatever the threshold |
| `Scanner.Walk` | src/services/SecretsScannerLambdaHandler.ts:50-61 | a finished walk has at least one page and no more pages than requests allowed; its first page is the response to the first request |
| `Scanner.Inventory` | src/services/SecretsScannerLambdaHandler.ts:50-61 | the same bounds for the walk that follows every page's own `NextToken` |
| `Scanner.InventoryIsChain` | src/services/SecretsScannerLambdaHandler.ts:50-61 | the following walk returns exactly the chain of pages linked by `NextToken` and ending at a page without one, whenever the budget allows that many requests |
| `Scanner.WalkAgreesOnFilledPages` | src/services/SecretsScannerLambdaHandler.ts:54-61 | on pages that all have entries, the walk as written and the following walk give the same pages |
| `Scanner.EmptyPageStalls` | src/services/SecretsScannerLambdaHandler.ts:54-61 | a page with no entries, fetched with a non-empty token, leaves the token unchanged; the same request repeats until the deadline |
| `Scanner.EmptySecondPageStallsScan` | src/services/SecretsScannerLambdaHandler.ts:50-61 | counterexample: page 1 with one entry and token "t", page "t" empty with token "u": the scan never finishes, whatever the deadline |
| `Scanner.WalkShape` | src/services/SecretsScannerLambdaHandler.ts:54-61 | a finished walk either has entries on every page, or is one empty page fetched by the first request |
| `Scanner.FirstEmptyPageEndsWalk` | src/services/SecretsScannerLambdaHandler.ts:48-61 | an empty first page ends the scan after one request, whatever `NextToken` it carries |
| `Scanner.ScanOverFilledInventory` | src/services/SecretsScannerLambdaHandler.ts:45-64 | when every page has entries, the scan returns the filtered concatenation of the whole `NextToken` chain |
| `Scanner.SecondPageFailureAbortsScan` | src/services/SecretsScannerLambdaHandler.ts:51 | an error on the second request fails the scan, and the first page's records are not returned |
| `Scanner.FirstEmptyPageHidesRest` | src/services/SecretsScannerLambdaHandler.ts:54-61 | counterexample: an empty first page that has a token stops the scan, and a stale secret on page 2 is missed |
| `Scanner.CorrectedScanCoversInventory` | src/services/SecretsScannerLambdaHandler.ts:45-64 | with the token taken from every page, the scan covers the whole chain, including empty pages |
| `Scanner.ScanEntries` | src/services/SecretsScannerLambdaHandler.ts:54-60 | the per-entry loop appends the page's filtered records; it leaves the token unchanged on an empty page and sets it to the page's `NextToken` otherwise |
| `Scanner.GetUnusedSecrets` | src/services/SecretsScannerLambdaHandler.ts:45-64 | the result is the parameter's error, or the first request error, or the filtered entries of all pages walked, in order |
| `Report.DecimalString` | src/services/SecretsScannerLambdaHandler.ts:109 | `toString()` of a day count is a non-empty run of decimal digits with no leading zero |
| `Report.DecimalRoundTrip` | src/services/SecretsScannerLambdaHandler.ts:109 | the DaysUnused column reads back as the number it renders |
| `Report.ProjectRow` | src/services/SecretsScannerLambdaHandler.ts:106-110 | the row keeps the name; DaysUnused is "N/A" exactly when undefined and otherwise reads back as the count; the date is the ISO rendering of the last access, or "N/A" when there is none |
| `Report.BuildTable` | src/services/SecretsScannerLambdaHandler.ts:99-110 | the header is Name, LastAccessedDate, DaysUnused, with one row per candidate, in order |
| `Report.ScannedRowsAreComplete` | src/services/SecretsScannerLambdaHandler.ts:106-110 | rows of scanned secrets never show "N/A": each has the ISO date and a day count of at least the threshold |
| `Report.ReportKey` | src/services/SecretsScannerLambdaHandler.ts:116 | the key is the prefix, the timestamp and the suffix, and nothing else |
| `Report.KeyStampRoundTrip` | src/services/SecretsScannerLambdaHandler.ts:116 | the export timestamp is recovered from the key, and each key of that shape is the key of its timestamp |
| `Report.DistinctStampsDistinctKeys` | src/services/SecretsScannerLambdaHandler.ts:116 | distinct export timestamps never give the same object key |
| `Orchestrator.ObjectStore.constructor` | src/services/SecretsScannerLambdaHandler.ts:8 | a new sink handle starts with an empty write log (the objects already in the bucket are not modelled) |
| `Orchestrator.ObjectStore.PutObject` | src/services/SecretsScannerLambdaHandler.ts:121 | the object is appended to the bucket, or the error is thrown and nothing is stored |
| `Orchestrator.UploadToS3` | src/services/SecretsScannerLambdaHandler.ts:96-122 | writes one object with the configured bucket, the key of the export time, the rendered table and `text/csv`, or fails with the sink's error |
| `Orchestrator.Handler` | src/services/SecretsScannerLambdaHandler.ts:23-42 | the callback value and the objects written are those of `Run` |
| `Orchestrator.ExportOnlyWhenNonEmpty` | src/services/SecretsScannerLambdaHandler.ts:29-30 | a run writes at most one object, and writes one exactly when the scan found something and the upload succeeded |
| `Orchestrator.RunReportsScanOrFirstError` | src/services/SecretsScannerLambdaHandler.ts:37-40 | success returns the scanned list; a scan error is returned as it is; a failed run writes nothing |
| `Orchestrator.ExportedObjectDescribesResult` | src/services/SecretsScannerLambdaHandler.ts:97-121 | the written object has the configured bucket, the timestamped key, `text/csv`, the fixed header, and one row per returned secret, in order |
| `Orchestrator.OnePageScan` | src/services/SecretsScannerLambdaHandler.ts:50-61 | a one-page inventory is scanned with one request, and the result is that page filtered |
| `Orchestrator.SelectOnlyStale` | src/services/SecretsScannerLambdaHandler.ts:56 | at threshold 90, only the secret idle for 152 days is kept: not the one never accessed, not the one idle for 12 days |
| `Orchestrator.ScenarioOnlyStaleSecretReported` | src/services/SecretsScannerLambdaHandler.ts:23-42 | the run returns only A with 152 days and writes one object whose only row is A, its ISO date, "152" |
| `Orchestrator.ScenarioSuppressedSecretNotReported` | src/services/SecretsScannerLambdaHandler.ts:56 | at threshold 30, a secret idle for 40 days but suppressed is not reported, and nothing is written |
| `Orchestrator.SecondPageFailureFailsRun` | src/services/SecretsScannerLambdaHandler.ts:38-40 | an inventory error on page 2 fails the run; nothing is returned and nothing is exported |

## Left out

- AWS SDK calls (`listSecrets`, `getParameter`, `putObject`) are inputs. Their network, permission and throttling behaviour is not modelled; only "returns this" or "throws that" is.
- The inventory source is deterministic: the same token always gives the same page during a run. Secrets created or deleted while the scan runs are not modelled.
- The Lambda deadline is counted in `listSecrets` requests, not in time.
- CSV quoting and escaping by `csv-writer`, and the write to `/tmp/unused-secrets.csv` and its read-back (lines 97-112), are left out. These are library and file-system behaviour. The report body is the table of records given to the writer, so a failure of that writer or of the file system is not modelled.
- `Date.toISOString()` is an opaque renderer. `new Date()` is two explicit timestamps: the source reads the clock once per `getDaysUnused` call, and the model uses one scan time for all of them.
- The `parseInt` of `UnusedDays`, including its NaN case, and the reading of the other environment variables (lines 10-13) are left out. The threshold and the bucket name are `Config` fields.
- `deleteSecrets` (lines 67-79) and the `DeleteUnusedSecrets` flag are left out. Their only call is commented out (lines 31-34), and deletion is destructive I/O.
- Console logging, async/await, and the callback's error-first calling convention are left out, beyond the success-or-error result.
- `Scanner.Entry`: `Name` is a plain string. The SDK type leaves it optional; the handler's own record type declares it present.
- `Age.DaysUnused`: computes the exact integer ceiling. JavaScript divides in double precision, which can round a gap just over a whole number of days down. That only happens for gaps longer than about 180,000 years.
- The infrastructure stacks (`src/infra/stacks/UnusedSecretsScannerStack.ts`, `src/infra/stacks/LambdaStack.ts`, `src/infra/Launcher.ts`) declare the bucket, its lifecycle rule, IAM and the schedule. They hold no behaviour and are not part of this model.

## Findings

| source | as written | input that shows it | evidently intended | confidence | as-written member | corrected member |
|---|---|---|---|---|---|---|
| src/services/SecretsScannerLambdaHandler.ts:54-61 | `nextToken = secretResponse.NextToken` runs inside the per-entry loop, so it is never assigned when the first page is empty, and the do/while stops | first page `{SecretList: [], NextToken: "page-2"}`; page "page-2" holds a secret unused for 100 days; threshold 90 | take `NextToken` from every page, so the scan reaches page 2 and reports the secret | medium (not executed) | `Scanner.FirstEmptyPageHidesRest` | `Scanner.CorrectedScanCoversInventory` |
| src/services/SecretsScannerLambdaHandler.ts:54-61 | an empty page after the first leaves `nextToken` at the token that fetched it, so the same page is requested again and again until the Lambda deadline | page 1 has one entry and `NextToken: "t"`; page "t" has no entries and `NextToken: "u"` | continue with "u" | medium (not executed) | `Scanner.EmptySecondPageStallsScan` | `Scanner.InventoryIsChain` |

`Orchestrator.Handler` keeps the scan as written, so the model reports what the deployed function does. The corrected walk is `Scanner.Inventory`. `Scanner.WalkAgreesOnFilledPages` shows that the two walks agree whenever no page is empty.
