# Azure Table Storage bulk export: a Dafny model

This project models the core of `scripts/export_table_by_partition_keys.py`, a
command-line tool that exports every entity of a list of partitions of an Azure
Table Storage table into one CSV file. The modelled behaviour covers:

- reading the partition keys from the input file;
- building the OData filter for one partition;
- fetching one partition over the REST API, with continuation pages, retries and
  exponential backoff;
- collecting the per-partition results as they complete;
- choosing the CSV columns and writing the rows.

The model is split into modules that follow the script's functions:

| module | models |
|---|---|
| `Wrappers` | `Option` and `Result` |
| `Text` | Python's `str.strip`, the lower-casing used for the header test, and `in` on strings |
| `Config` | `require` and the tenant default of `get_credential` |
| `KeyLoader` | `load_partition_keys`: the format sniff, the CSV and line branches, the header rule, the filtering and the order-preserving de-duplication |
| `OData` | the quote escape and the `$filter` expression, with a parser that proves the filter can be read back |
| `Fetcher` | `request_one_pk`: a specification `Run` of the fetch loop over a script of responses, and the loop itself as a method proved equal to it |
| `Dispatcher` | the `as_completed` loop of `main` that gathers rows and failed keys |
| `CsvWriter` | `write_csv`: the column order, the row projection and the two loops |

What the outside world supplies is a parameter:
- The input file arrives as a flag saying whether it exists, its text, the rows
  `csv.reader` splits it into, and the lines iterating over it yields.
- Each HTTP response is an `Outcome` taken from a script: a status, the decoded
  `value` list and the two continuation headers, or a `RequestFailed`
  exception.
- A fetch's requests and sleeps are recorded in a `Trace`, in order. The method
  keeps the ones it made in ghost out-parameters.
- The order in which the thread pool completes the fetches is a sequence of
  `Completion`s.

## Model

| member | source | states |
|---|---|---|
| Text.Strip | scripts/export_table_by_partition_keys.py:52 | the result of `strip()` has no leading or trailing whitespace (Python's whitespace set) |
| Text.StripSlice | scripts/export_table_by_partition_keys.py:52 | the stripped string is the slice of the input after its leading whitespace; everything cut off on either side is whitespace |
| Text.Lower | scripts/export_table_by_partition_keys.py:88 | lower-casing keeps the length; which strings it maps to a lower-case ASCII word is stated by `LowerMatches` |
| Text.LowerMatches | scripts/export_table_by_partition_keys.py:88 | a string lower-cases to a lower-case ASCII word exactly when it has the word's length and each character is the word's letter, its ASCII capital, or, for 'k', the Kelvin sign; these are the strings Python's `lower()` maps to that word |
| Text.StripIdempotent | scripts/export_table_by_partition_keys.py:52 | stripping twice gives the same as stripping once |
| Text.StripStripped | scripts/export_table_by_partition_keys.py:52 | a string with no leading or trailing whitespace is left unchanged |
| Config.Require | scripts/export_table_by_partition_keys.py:51-56 | succeeds exactly when the value (missing counts as "") has a non-whitespace character. The result is then the part of the input between its leading and trailing whitespace: non-empty, not beginning or ending with whitespace, with only whitespace cut off on either side. Otherwise the error names the setting and the optional environment variable |
| Config.RequireIdempotent | scripts/export_table_by_partition_keys.py:51-56 | requiring an already-required value returns it unchanged |
| Config.TenantOrCommon | scripts/export_table_by_partition_keys.py:116 | the tenant is the stripped argument when it has a non-whitespace character and "common" otherwise; it is never empty and always stripped |
| Config.TenantOrCommonIdempotent | scripts/export_table_by_partition_keys.py:116 | applying the tenant default to its own result changes nothing |
| KeyLoader.LooksCsv | scripts/export_table_by_partition_keys.py:75-79 | the sniff. Its meaning is proved by `SniffSeparator`, `SniffIgnoresRest`, `SniffNeedsHint` and `LowercaseHeaderNotSniffed` |
| KeyLoader.SniffSeparator | scripts/export_table_by_partition_keys.py:75-79 | a ',' or ';' among the first 2048 characters makes the file CSV |
| KeyLoader.SniffIgnoresRest | scripts/export_table_by_partition_keys.py:75-79 | nothing after the first 2048 characters changes the format chosen |
| KeyLoader.SniffNeedsHint | scripts/export_table_by_partition_keys.py:79 | a file with no ',', no ';' and no capital 'P' is always read line by line |
| KeyLoader.IsHeaderRow | scripts/export_table_by_partition_keys.py:87-88 | the header test on the first row. Its meaning is proved for every row by `HeaderRowIgnoresCase`, and used by `FirstRowRule` |
| KeyLoader.HeaderRowIgnoresCase | scripts/export_table_by_partition_keys.py:87-88 | a row is a header exactly when it is non-empty and its stripped first cell spells "partitionkey" with each letter in either case (the Kelvin sign standing for 'k') |
| KeyLoader.HeaderRows | scripts/export_table_by_partition_keys.py:87-88 | at most one row is dropped: the first, never an empty one, and only when its stripped first cell has the length of "partitionkey" |
| KeyLoader.HeaderCaseExample | scripts/export_table_by_partition_keys.py:87-88 | "PARTITIONKEY" and "partitionKey" are recognised as the header |
| KeyLoader.HeaderOuterSpaceExample | scripts/export_table_by_partition_keys.py:87-88 | " PartitionKey" is recognised as the header: surrounding whitespace is stripped first |
| KeyLoader.HeaderInnerSpaceExample | scripts/export_table_by_partition_keys.py:87-88 | "Partition Key" is not a header, and neither is an empty row |
| KeyLoader.CsvKeysMembers | scripts/export_table_by_partition_keys.py:86-94 | in CSV mode a value is collected exactly when some non-empty row at or after the header offset has a first cell that strips to it, and that value is non-empty and does not start with '#' |
| KeyLoader.FirstRowRule | scripts/export_table_by_partition_keys.py:86-88 | the first row's key is lost only when that row is a header (first cell "partitionkey" after stripping and lower-casing) and no later row gives the same key |
| KeyLoader.LineKeysMembers | scripts/export_table_by_partition_keys.py:95-99 | in line mode there is no header: a value is collected exactly when some line strips to it and the value is kept |
| KeyLoader.Dedupe | scripts/export_table_by_partition_keys.py:101-108 | the order-preserving de-duplication. Its meaning is proved by `DedupeSpec`, `DedupeDistinct` and `DedupeIdempotent`, and `DedupeKeys` is proved to compute it |
| KeyLoader.DedupeSpec | scripts/export_table_by_partition_keys.py:101-108 | de-duplication keeps exactly the input's values, each once, ordered by where each first occurs |
| KeyLoader.DedupeDistinct | scripts/export_table_by_partition_keys.py:101-108 | a list without repeats comes out of de-duplication unchanged |
| KeyLoader.DedupeIdempotent | scripts/export_table_by_partition_keys.py:101-108 | de-duplicating the loaded keys again changes nothing |
| KeyLoader.LoadedKeysWellFormed | scripts/export_table_by_partition_keys.py:59-108 | every loaded key is non-empty, stripped and not a comment; there are no repeats; the values are exactly those collected by the format the sniff chose |
| KeyLoader.LoadPartitionKeys | scripts/export_table_by_partition_keys.py:59-108 | the procedure returns the file-not-found error or the de-duplicated keys of the sniffed format, as `LoadKeys` defines them |
| KeyLoader.CollectCsvKeys | scripts/export_table_by_partition_keys.py:84-88 | the CSV branch drops exactly the header rows `HeaderRows` counts and collects the rest |
| KeyLoader.CollectRowKeys | scripts/export_table_by_partition_keys.py:89-94 | the loop over the rows skips empty rows and collects each kept, stripped first cell, in order |
| KeyLoader.CollectLineKeys | scripts/export_table_by_partition_keys.py:95-99 | the line loop collects each kept, stripped line, in order |
| KeyLoader.DedupeKeys | scripts/export_table_by_partition_keys.py:101-108 | the `seen`-set loop computes the order-preserving de-duplication `Dedupe` |
| KeyLoader.HeaderDuplicateAndCommentExample | scripts/export_table_by_partition_keys.py:59-108 | a file holding "PartitionKey", A, A, B and "#comment" loads as [A, B] |
| KeyLoader.LowercaseHeaderInLineModeExample | scripts/export_table_by_partition_keys.py:76-99 | a file "partitionkey\nA\n" is not sniffed as CSV and loads as ["partitionkey", A] |
| OData.Escape | scripts/export_table_by_partition_keys.py:148 | escaping doubles every quote and changes nothing else: one character longer per quote, and the same text once the quotes are removed |
| OData.EscapeRoundTrip | scripts/export_table_by_partition_keys.py:148 | un-doubling the quotes of an escaped key gives the key back |
| OData.ParseEscapedLiteral | scripts/export_table_by_partition_keys.py:148-149 | an escaped key followed by the closing quote parses back as a string literal to that key |
| OData.ParsedLiteralIsEscaped | scripts/export_table_by_partition_keys.py:148-149 | whatever parses as a literal is an escaped key followed by a single closing quote, with nothing after it |
| OData.Filter | scripts/export_table_by_partition_keys.py:149 | the filter starts with `PartitionKey eq '`, ends with the closing quote, and parses back as a filter on exactly the given key. `FilterParsesBack` adds the converse |
| OData.FilterParsesBack | scripts/export_table_by_partition_keys.py:148-149 | a string parses as a partition filter for `pk` exactly when it is the filter built for `pk`, so different keys never share a filter |
| Fetcher.ContinuationParams | scripts/export_table_by_partition_keys.py:183-188 | the parameters after a page are the filter plus exactly the continuation markers that are present and non-empty; nothing is carried over from earlier pages |
| Fetcher.NextBackoff | scripts/export_table_by_partition_keys.py:173 | the next backoff is never above 60; it is double the current one while that stays within 60, and otherwise 60; a non-negative backoff stays non-negative |
| Fetcher.StepOn | scripts/export_table_by_partition_keys.py:158-198 | one response's effect on the loop. A 401/403 ends it with that status. A retried response either gives up (exactly when the counter would pass `max_retries`), fails on a negative backoff, or sleeps the current backoff and retries with the counter up by one, the backoff doubled, and the parameters and entities unchanged. A page adds its entities; it goes on with the continuation parameters (counter and backoff untouched) when it has a marker, and returns the entities otherwise |
| Fetcher.Run | scripts/export_table_by_partition_keys.py:150-200 | a fetch sends at least one request when a response is available, and never more requests than the responses it reads |
| Fetcher.RunRequests | scripts/export_table_by_partition_keys.py:150-159 | every request goes to `<table_url>()`; a fetch that runs out of responses has read every one of them |
| Fetcher.AuthFailureEndsFetch | scripts/export_table_by_partition_keys.py:161-165 | a 401 or 403 is the last response read and fails the fetch with that status, with no retry; a denied fetch always ends on such a response |
| Fetcher.RetryAccounting | scripts/export_table_by_partition_keys.py:167-198 | from any state, the sleeps taken plus the retry that failed equal the retried responses read; the fetch gives up exactly when the retry counter passes `max_retries` |
| Fetcher.RetryBound | scripts/export_table_by_partition_keys.py:167-198 | a whole fetch, across all its pages, sleeps at most `max(max_retries, 0)` times; it fails with retries exhausted exactly when `max(max_retries, 0) + 1` retried responses were read |
| Fetcher.BackoffSchedule | scripts/export_table_by_partition_keys.py:172-173 | the k-th sleep is the initial backoff doubled k times with the 60-second cap applied at each step; a fetch that sleeps had a non-negative backoff |
| Fetcher.BackoffClosedForm | scripts/export_table_by_partition_keys.py:173 | from the second sleep on, a non-negative backoff is min(b·2^k, 60) |
| Fetcher.BackoffBounded | scripts/export_table_by_partition_keys.py:173 | no sleep is negative or longer than the larger of the initial backoff and 60 seconds |
| Fetcher.BackoffNonDecreasing | scripts/export_table_by_partition_keys.py:173 | with an initial backoff between 0 and 60 the sleeps never get shorter |
| Fetcher.LargeInitialBackoff | scripts/export_table_by_partition_keys.py:154-173 | an initial backoff above 60 is slept once in full, and every later sleep is exactly 60 |
| Fetcher.PagesConcatenated | scripts/export_table_by_partition_keys.py:176-191 | a fetch that returns ends on a page without continuation, and its entities are all pages' `value` lists concatenated in order |
| Fetcher.ContinuationDrivesRequests | scripts/export_table_by_partition_keys.py:180-191 | a page is followed by another request exactly when it carries a non-empty continuation header |
| Fetcher.RequestParameters | scripts/export_table_by_partition_keys.py:149-198 | the first request carries the starting parameters (only the filter, from the start state). After a page, the next request carries that page's continuation parameters (`FollowingParams`). After a retry, it repeats the same parameters |
| Fetcher.ThrottledTwiceThenPageExample | scripts/export_table_by_partition_keys.py:157-200 | two 503 responses and then a page give three identical requests, sleeps of b and min(2b, 60), and the page's entities |
| Fetcher.ForbiddenExample | scripts/export_table_by_partition_keys.py:161-165 | a 403 on the first response fails the key after one request and no sleep |
| Fetcher.ThreePagesExample | scripts/export_table_by_partition_keys.py:176-191 | three pages linked by continuation markers give three requests, each carrying the previous page's marker, and the three pages' entities in order |
| Fetcher.RequestOnePartition | scripts/export_table_by_partition_keys.py:136-200 | the imperative loop's ending, requests and sleeps are exactly the specification `Run` from the initial state |
| Fetcher.Attempt | scripts/export_table_by_partition_keys.py:158-198 | one pass through the `try`/`except` body, including the `raise_for_status` that the handler catches, is the specification step `StepOn` |
| CsvWriter.BelowTotal | scripts/export_table_by_partition_keys.py:218 | code-point order on strings is total: two different strings are ordered one way or the other |
| CsvWriter.BelowTransitive | scripts/export_table_by_partition_keys.py:218 | code-point order on strings is transitive |
| CsvWriter.SortedSet | scripts/export_table_by_partition_keys.py:218 | `sorted` of a set gives each member exactly once, in strictly ascending code-point order |
| CsvWriter.Columns | scripts/export_table_by_partition_keys.py:216-218 | every property name is a column exactly once; the preferred names present come first in the order PartitionKey, RowKey, Timestamp; all other names follow in ascending order |
| CsvWriter.Cell | scripts/export_table_by_partition_keys.py:221 | one cell: the entity's value, or "" (`restval`) when it has none. `RowRoundTrip` proves what the cells hold |
| CsvWriter.ProjectRow | scripts/export_table_by_partition_keys.py:221-224 | one cell per column. `RowRoundTrip` proves it holds exactly the entity's values, and `ExtraPropertiesIgnored` that properties outside the header do not matter |
| CsvWriter.RowRoundTrip | scripts/export_table_by_partition_keys.py:221-224 | a written row read back under the header has every column; its non-empty cells are exactly the entity's non-empty properties |
| CsvWriter.ExtraPropertiesIgnored | scripts/export_table_by_partition_keys.py:221 | properties outside the header never affect a row (`extrasaction="ignore"`) |
| CsvWriter.UnionKeysMembers | scripts/export_table_by_partition_keys.py:212-214 | the column set holds exactly the names that are a property of some entity |
| CsvWriter.HeaderIsUnionOfProperties | scripts/export_table_by_partition_keys.py:206-218 | a name is in the header exactly when it is a property of some entity |
| CsvWriter.CollectColumnNames | scripts/export_table_by_partition_keys.py:212-214 | the `colset` loop computes the union of all entities' property names |
| CsvWriter.WriteRows | scripts/export_table_by_partition_keys.py:223-224 | one row per entity, in order, each the entity projected onto the header |
| CsvWriter.WriteCsv | scripts/export_table_by_partition_keys.py:203-224 | the header is the column order of the union of the property names, and the data rows are the entities projected onto it, in order |
| CsvWriter.TwoEntitiesExample | scripts/export_table_by_partition_keys.py:216-224 | two entities, one with an extra property X and one with Y, give the header PartitionKey, RowKey, X, Y; each entity's row has a blank cell in the other's column |
| Dispatcher.GatheredPermutation | scripts/export_table_by_partition_keys.py:275-283 | reordering the completions only reorders what is gathered from them |
| Dispatcher.RowsIndependentOfOrder | scripts/export_table_by_partition_keys.py:275-280 | the exported rows are the same multiset whatever order the fetches complete in |
| Dispatcher.FailuresIndependentOfOrder | scripts/export_table_by_partition_keys.py:275-283 | the failed keys are the same multiset whatever order the fetches complete in |
| Dispatcher.FailedKeysAreFailedFetches | scripts/export_table_by_partition_keys.py:281-283 | a key is reported failed exactly when one of its fetches ended other than by returning its entity list (a fetch returning an empty list is a success) |
| Dispatcher.RowsComeFromFetchedPartitions | scripts/export_table_by_partition_keys.py:277-280 | an entity is exported exactly when some fetch that returned produced it |
| Dispatcher.EveryKeyAccounted | scripts/export_table_by_partition_keys.py:275-283 | each completion is counted once, either as a success or as a failure |
| Dispatcher.CollectResults | scripts/export_table_by_partition_keys.py:275-283 | the loop appends the rows of each returned fetch and the key of each failed one, in completion order |

### Behaviour worth knowing

The model follows the code in each of these cases:

- `raise_for_status` raises only for statuses from 400 to 599. A 1xx or 3xx
  response therefore goes down the success path and is decoded as a page. It
  is not treated as an error, although HTTP counts only 2xx as success.
- When a throttled response exhausts the retries, the `raise_for_status` at
  line 171 raises an `HTTPError`. That is a `RequestException`, so the handler
  at line 193 catches it and increments the counter a second time before
  raising the `RuntimeError`. No extra sleep happens, and the outcome is the
  same failure (`Attempt` models the double increment).
- The first sleep is the initial backoff itself, without the 60-second cap.
  Sleeps are therefore non-decreasing only when the initial backoff is between
  0 and 60. Above 60 the first sleep is the longest (`LargeInitialBackoff`).
- The CSV sniff looks for "PartitionKey" case-sensitively. A file whose only
  hint is a lower-case "partitionkey" line, with no ',' or ';', is read line
  by line. That header line then becomes a key
  (`LowercaseHeaderInLineModeExample`). The case-insensitive header test
  applies in CSV mode only.
- A negative initial backoff makes `time.sleep` raise `ValueError` on the
  first retry. The handler does not catch it, so the fetch fails. This is
  modelled as the `InvalidSleep` ending.

## Left out

- HTTP, JSON decoding, the credentials and `auth_headers`: they are replaced
  by the scripted `Outcome`s.
  - A body that is not JSON raises a `requests` exception and is modelled as
    `RequestFailed`.
  - JSON bodies that are not objects, and entity values other than strings,
    are not modelled. Every property value is a string, as it appears in the
    CSV.
- `ScriptExhausted` is an ending of the model only. It marks a script that ran
  out of responses while the loop wanted another, which cannot happen against
  a real server.
- `time.sleep` itself: the sleep durations are recorded, but no time passes.
  The request timeout is not modelled.
- `main` is not modelled beyond its aggregation loop. Left out:
  - argument parsing and the environment variables;
  - the `rstrip("/")` of the table URL;
  - the exit on an empty key list;
  - the printing and the summary.
- The concurrency of the thread pool: it is represented only by the
  completion order given to `Dispatcher.CollectResults`.
- File handling:
  - the existence test, opening and reading are inputs;
  - `csv.reader`'s splitting of text into rows is taken as given;
  - the creation of the output directory and CSV quoting on output are not
    modelled.
- Floating point: backoffs are exact reals, so rounding and overflow of
  `backoff * 2` are not modelled.
- Text.Strip: Unicode whitespace is modelled by the characters Python's `isspace` accepts. Case folding is modelled only where the header test needs it: ASCII letters and the Kelvin sign.
- Text.Lower: only the characters whose lower-case form is an ASCII letter are mapped; every other character is left as it is, which the comparison with "partitionkey" cannot tell from Python's `lower()`.
- Config.Require: the text of the `SystemExit` message is not modelled. The error carries what the message is built from: the setting's name and the optional environment variable.
- CsvWriter.ProjectRow: its contract states only the row length. What a row holds is stated by `RowRoundTrip` and `ExtraPropertiesIgnored`.
