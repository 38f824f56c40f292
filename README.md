# Confession board: the list query, the form and the request, in Dafny

The confession board lets anyone post an anonymous confession: text or a voice recording, with a city, a gender and an age. Anyone can also browse the confessions, filtered, searched, sorted and paginated. This project models the logic at the board's core and proves what it promises:

- **The list query** exists twice, and the model gives it one meaning:
  - `Query.Matches` is the filter predicate: a case-insensitive city substring, an exact gender, inclusive age bounds, and a search term found in the city or the description.
  - `Query.Select` keeps the matching rows in order.
  - `Query.SortRows` is an insertion sort by one column, ascending or descending.
  - `Query.Window` takes LIMIT rows from OFFSET on.
  - `Query.CeilDiv` is `Math.ceil(n / d)`.
- **The server** (`backend/index.js`) is modelled in module `Server`:
  - `Server.BuildWhere` builds the WHERE clause filter by filter, with numbered `$n` placeholders and a parallel list of values. The statements of `Server.AddFilter` follow the handler's own `+=`, `push` and `idx++` steps.
  - `Server.GetConfessions` runs the count and data queries against an abstract table (a sequence of rows). It adds the playback URLs and answers with a page, or with the store's error (HTTP 500).
  - `Server.InsertFor` is the INSERT of a submission.
  - `Server.FileRoute` is the file route with its separator guard, and `Server.SafeFileRoute` the same route with the guard its comment intends (see Findings).
- **The client helpers** (`src/utils/helpers.ts`) are modelled in module `Helpers`: `truncateText`, `filterConfessions`, `sortConfessions` and `paginateArray`, each a pure function.
- **The submission form** (`ConfessionForm.tsx`) is the class `Form.ConfessionForm`:
  - Its fields are the component's state.
  - Its methods are the event handlers.
  - Its validation rules are the functions `CityError`, `SexError`, `AgeError` and `DescriptionError`.
- **The data hook** (`useConfessions.ts`) is modelled in module `Hook`:
  - `Hook.BuildParams` is the loop that copies non-empty filters into the request parameters.
  - `Hook.ConfessionsHook` keeps the loading flag and the error message around each call.
  - `Hook.ServerAnswersClientPipeline` connects the two ends. When both sides read the age bounds alike (always so for bounds written in digits), a request built by the hook is served, and the server answers it with exactly the client helpers' own pipeline over the whole table: filter, then sort, then paginate. A bound the server reads as NaN is answered with status 500 instead.

JavaScript's string and number coercions are written out in module `Text`:
- `trim`
- ASCII `toLowerCase`
- `includes`
- `parseInt` and `Number` on decimal text, with NaN as `None`
- decimal rendering of numbers

Two NaN behaviours are modelled:
- A NaN bound passes every client comparison, because JS comparisons with NaN are false.
- On the server, a NaN bound makes the store reject the query.

Files:
- `wrappers.dfy`: Option and Result.
- `text.dfy`: the JS string operations.
- `types.dfy`: the shared shapes, following `src/types/index.ts` and the `confessions` table.
- `query.dfy`: the shared list-query semantics.
- `helpers.dfy`: the client list helpers.
- `server.dfy`: the Express handlers.
- `form.dfy`: the submission form.
- `hook.dfy`: the data hook.

## Model

| member | source | states |
|---|---|---|
| Text.Trim | src/components/confession/ConfessionForm.tsx:43 | `trim` returns a contiguous piece of its input, no longer than it, that neither starts nor ends with white space, and everything it removed before and after that piece is white space |
| Text.TrimStartSuffix | src/utils/helpers.ts:48 | dropping leading white space, as `parseInt` does, leaves the suffix that starts at the first non-space character |
| Text.TrimEndPrefix | src/components/confession/ConfessionForm.tsx:43 | dropping trailing white space leaves the prefix that ends at the last non-space character |
| Text.TrimEmpty | src/components/confession/ConfessionForm.tsx:43 | the trimmed text is empty exactly when every character is white space |
| Text.Lower | src/utils/helpers.ts:38 | lower-casing keeps the length and maps each character |
| Text.LexLeTotal | src/utils/helpers.ts:84 | the string order used for cities is total |
| Text.LexLeTransitive | src/utils/helpers.ts:84 | the string order used for cities is transitive |
| Text.NatToString | backend/index.js:46 | the decimal rendering of a placeholder number is a non-empty digit string with that value |
| Text.ParseIntOfNat | src/utils/helpers.ts:48 | `parseInt` reads back a decimal rendering |
| Text.ToNumberOfNat | backend/index.js:55 | `Number` reads back a decimal rendering |
| Text.ToNumberOfNegated | backend/index.js:71 | `Number` reads back a minus sign followed by a decimal rendering |
| Text.ParseIntAgreesWithNumber | backend/index.js:55 | on a digit string, the client's `parseInt` and the server's `Number` both read its value |
| Text.ParseInt | src/components/confession/ConfessionForm.tsx:47 | (definition) `parseInt`: skips leading white space, reads an optional sign and the longest run of digits, and is NaN without a digit; `ParseIntOfNat` and `ParseIntAgreesWithNumber` state what it reads |
| Text.ToNumber | backend/index.js:55 | (definition) `Number` on text: surrounding white space ignored, blank text is 0, otherwise an optional sign and digits only, NaN for anything else; `ToNumberOfNat`, `ToNumberOfNegated` and `ParseIntAgreesWithNumber` state what it reads |
| Query.Select | src/utils/helpers.ts:36-65 | the selection holds exactly the rows that satisfy the criteria (as a set; `SelectCounts` states multiplicities), and is no longer than its input |
| Query.SelectIsSubsequence | src/utils/helpers.ts:36 | the selection is a subsequence of the input, in the input's order |
| Query.SelectNoCriteria | src/utils/helpers.ts:36-65 | with no filter supplied, every row is kept |
| Query.Matches | src/utils/helpers.ts:36-64 | (definition) the filter predicate: case-insensitive city substring, exact gender, inclusive age bounds, search term in the city or the description, each only when supplied; `Server.BuildWhere` proves the WHERE clause accepts exactly these rows |
| Query.SelectCounts | src/utils/helpers.ts:36-65 | the selection holds each matching row exactly as often as the input does, and no row that fails the criteria |
| Query.Insert | src/utils/helpers.ts:73-89 | inserting into a sorted list gives a sorted permutation of the list plus the new row |
| Query.SortRows | src/utils/helpers.ts:73-89 | the sort returns a permutation of its input in which every pair of rows is in order |
| Query.SortRowsDirection | src/utils/helpers.ts:88 | ascending results are non-decreasing by the key; descending ones are non-increasing, because the comparison is negated |
| Query.BeforeTotal | src/utils/helpers.ts:74-88 | any two rows can be ordered by the comparison |
| Query.BeforeTransitive | src/utils/helpers.ts:74-88 | the comparison is transitive in both directions |
| Query.Window | backend/index.js:79 | LIMIT/OFFSET returns at most `limit` rows, starting at row `offset`, with the exact count |
| Query.CeilDiv | src/utils/helpers.ts:102 | `Math.ceil(n / d)` is not finite exactly when `d` is 0 |
| Query.CeilDivBounds | src/utils/helpers.ts:102 | for a positive `d` the page count is the `k` with `(k-1)*d < n <= k*d`, and the mirrored bound holds for a negative `d` |
| Helpers.TruncateText | src/utils/helpers.ts:23-26 | a text that fits is returned unchanged; a longer one becomes its first `maxLength` characters followed by "..." |
| Helpers.TruncateDefault | src/utils/helpers.ts:23 | with the default 150, `truncateText` returns at most 153 characters, and a text of at most 150 is returned whole |
| Helpers.FilterConfessions | src/utils/helpers.ts:32-66 | the result is a subsequence of the input and holds exactly the confessions that satisfy the criteria |
| Helpers.FilterKeepsCounts | src/utils/helpers.ts:32-66 | a confession that passes the filters is kept as often as it occurs in the input; one that fails them is not kept |
| Helpers.FilterKeptSatisfies | src/utils/helpers.ts:38-62 | every kept confession has each supplied filter: a city substring ignoring case, the exact gender, inclusive parsed age bounds, and the search term in the city or the description |
| Helpers.FilterNoFilters | src/utils/helpers.ts:36-65 | with every filter field empty, the whole input is returned |
| Helpers.SelectSameMatches | src/utils/helpers.ts:36 | two criteria that accept the same rows select the same list |
| Helpers.FilterIgnoresNaNMinimum | src/utils/helpers.ts:48-50 | a minimum age that `parseInt` reads as NaN filters nothing |
| Helpers.FilterIgnoresNaNMaximum | src/utils/helpers.ts:51-53 | a maximum age that `parseInt` reads as NaN filters nothing |
| Helpers.SortConfessions | src/utils/helpers.ts:68-90 | a sorted copy: a permutation of the input, ordered by the chosen key and direction, with the input left as it was |
| Helpers.SliceIndex | src/utils/helpers.ts:101 | a `slice` index (negative counts from the end) lands within the array |
| Helpers.JsSlice | src/utils/helpers.ts:101 | (definition) `array.slice(start, end)`: both indices resolved by `SliceIndex`, empty when they cross; `JsSliceSpan` and `PaginateIsWindow` state what it returns |
| Helpers.JsSliceSpan | src/utils/helpers.ts:101 | a slice between two indices `limit` apart holds at most `limit` elements |
| Helpers.PaginateArray | src/utils/helpers.ts:92-105 | at most `limit` items when `limit` is not negative; `total` is the array's length and `totalPages` is `ceil(length / limit)` |
| Helpers.PaginateIsWindow | src/utils/helpers.ts:97-101 | for a page from 1 on, the items are `array[(page-1)*limit .. min(page*limit, length)]` |
| Helpers.PaginatePastLastPage | src/utils/helpers.ts:97-101 | a page after the last one is empty |
| Server.SuppliedFilters | backend/index.js:45-61 | a filter is applied exactly when its query parameter is truthy |
| Server.PlaceholderInAll | backend/index.js:41-65 | each placeholder of a condition appears in the clause list's placeholders |
| Server.PlaceholdersInRange | backend/index.js:41-65 | the placeholders of consecutively numbered conditions point at bound values |
| Server.WhereExtend | backend/index.js:41-65 | appending values for new placeholders does not change what the earlier conditions accept |
| Server.WhereIsSelect | backend/index.js:67-68 | evaluating the WHERE clause over the table selects the same rows as the criteria it implements |
| Server.LikeLowerPattern | backend/index.js:46-47 | `LOWER(col) LIKE LOWER('%t%')` holds exactly when the lower-cased column contains the lower-cased term |
| Server.ClauseFor | backend/index.js:45-65 | the condition added for a filter belongs to that filter and reads the next one (two for search) placeholder numbers |
| Server.ValuesFor | backend/index.js:47-63 | one value is bound per filter, and two identical `%search%` values for search |
| Server.PlanFilters | backend/index.js:45-65 | the reference plan holds one condition per supplied filter, in the order the filters are taken |
| Server.Step | backend/index.js:45-65 | adding a supplied filter's condition and values preserves consecutive numbering, the rendered text, the bindings and the meaning of the clause |
| Server.Skip | backend/index.js:45-65 | an unsupplied filter adds nothing and keeps every invariant |
| Server.PartialSkip | backend/index.js:45-65 | a filter whose parameter is not truthy adds no criterion |
| Server.ProgressStart | backend/index.js:41-43 | the builder starts from `WHERE 1=1`, no values and placeholder 1, accepting every row |
| Server.BuildComplete | backend/index.js:41-65 | once all five filters are handled, the builder's state is the complete WHERE clause, with the properties stated for `BuildWhere` |
| Server.Advance | backend/index.js:45-65 | one `PlanStep` on a builder state that has handled some filters gives the state of a builder that has also handled this one, whether or not its parameter is truthy |
| Server.PlanComplete | backend/index.js:41-65 | the plan of the five filters in the handler's order numbers its placeholders `$1..$n`, applies exactly the supplied filters, binds each condition to its value, is `WHERE 1=1` with no values when nothing is supplied, has a NaN value exactly when an age bound is not a number, and otherwise accepts exactly the rows the shared criteria accept |
| Server.NumbersIffNoNaNBound | backend/index.js:55-59 | a bound value is NaN exactly when a supplied age bound is not a number |
| Server.AddFilter | backend/index.js:45-65 | one `if (param)` step of the builder: the text stays the rendering of the conditions and `idx` one past the values, and the conditions and values are those of `PlanStep`: the filter's condition reading the next free placeholders and its values when supplied, nothing otherwise |
| Server.BuildWhere | backend/index.js:41-65 | the conditions and values are exactly `Plan(q, FilterOrder)`: one condition per supplied filter in the order city, gender, minimum age, maximum age, search, with placeholders `$1..$n` consecutive and one value each, and `idx` the number of values plus one; with no filter the clause is `WHERE 1=1` and there are no values; a value is NaN exactly when an age bound is not a number; otherwise the clause accepts exactly the rows the shared criteria accept |
| Server.OrderField | backend/index.js:72 | the ORDER BY column is always one of city, sex, age or created_at: the requested one when it is on the list, otherwise created_at |
| Server.OrderDirection | backend/index.js:73 | ascending exactly when `sortOrder` is "asc"; descending otherwise, including by default |
| Server.DefaultPaging | backend/index.js:30-31 | without paging parameters, page 1 of 10 rows is asked for, from offset 0 |
| Server.PagingOfDecimals | backend/index.js:71 | for decimal page and limit, the offset is `(page-1)*limit` |
| Server.AddAudioUrls | backend/index.js:86-94 | rows keep their order, count and columns; a URL `protocol://host/uploads/<path>` is added exactly to rows with a truthy audio path |
| Server.CountIsSelect | backend/index.js:67-69 | the count query with the WHERE clause counts the selected rows, or the store rejects a NaN value |
| Server.DataIsWindow | backend/index.js:75-83 | the data query, with LIMIT and OFFSET bound after the filter values, returns the window of the sorted selection, or the store's rejection |
| Server.RunCount | backend/index.js:67-69 | (definition) the count query: the number of rows the WHERE clause accepts, or the store's rejection of a NaN value; `CountIsSelect` states its meaning |
| Server.RunData | backend/index.js:75-83 | (definition) the data query: the OFFSET/LIMIT window of the accepted rows in the requested order, or the store's rejection of a NaN or negative LIMIT/OFFSET; `DataIsWindow` states its meaning |
| Server.ExpectedPage | backend/index.js:71-101 | (definition) the page a servable request is answered with; `GetConfessions` is proved to return it, and `PageRowsMatch`, `PagePastLast` and `PageAgreesWithClient` state its properties |
| Server.GetConfessions | backend/index.js:27-106 | the count query uses the data query's WHERE clause and values; LIMIT and OFFSET are the next two placeholders, at the end of the values; the answer is a page exactly when the store accepts the parameters, and then it has `total` matching rows, `totalPages == ceil(total / limit)` and `currentPage == page` |
| Server.PageRowsMatch | backend/index.js:75-94 | every row of a page is a stored row that passes the filters, and a page has at most `limit` rows |
| Server.OffsetPastEnd | backend/index.js:71 | a page after the last one starts at or past the end of the rows |
| Server.PagePastLast | backend/index.js:71-101 | a page after the last one is empty while the total is unchanged |
| Server.PageAgreesWithClient | backend/index.js:71-81 | the server's rows for a page are the client's `paginateArray` page of the same ordered selection |
| Server.ColumnValueAt | backend/index.js:122-136 | looking up a listed column finds its bound value |
| Server.ColumnValueAbsent | backend/index.js:130-136 | a column that is not listed has no value |
| Server.InsertFor | backend/index.js:114-137 | with an upload, the description is never NULL (an absent or empty one is stored as the empty string) and the audio path is the file's path; without one, the description is stored as given and no audio path is written; city, sex and age are stored as given |
| Server.VoiceDescriptionNotNull | backend/index.js:119-121 | a voice submission always stores a non-NULL description |
| Server.FileRouteAsWritten | backend/index.js:144-161 | a name containing `/` or `\` is refused with 400 before any path is built; every other name ends in the uncaught ReferenceError on `fs` |
| Server.FileRouteAsWrittenNeverServes | backend/index.js:155 | as written, the route never sends a file, not even an existing recording name |
| Server.FileRoute | backend/index.js:144-161 | with `fs` imported: 400 exactly for a name with a separator, 404 exactly when `path.join(cwd, name)` does not exist, and otherwise that path is sent |
| Server.JoinPath | backend/index.js:152 | `path.join(cwd, name)` for a name without separators: the entry directly inside the directory, the directory itself for "" and ".", its parent for ".." |
| Server.FileRouteEscapesWithDotDot | backend/index.js:148-152 | ".." passes the separator guard and is joined to the parent of the working directory, so the route sends a path outside it |
| Server.SafeFileRoute | backend/index.js:147-161 | with the guard as its comment intends: 400 exactly for a name that is empty, ".", ".." or has a separator; 404 exactly for a missing entry; the entry otherwise |
| Server.SafeFileRouteOnPlainNames | backend/index.js:147-161 | for a plain name the corrected guard answers as the route does |
| Server.FileRouteStaysInDirectory | backend/index.js:147-152 | with the corrected guard, a sent file is an existing entry directly inside the working directory, named by the request |
| Form.SetField | src/components/confession/ConfessionForm.tsx:33 | the named field gets the new value and every other field is unchanged |
| Form.CityError | src/components/confession/ConfessionForm.tsx:43 | (definition) the city rule; `CityRule` states when it fails |
| Form.AgeError | src/components/confession/ConfessionForm.tsx:45-49 | (definition) the age rule; `AgeRule` and `AgeLimits` state when it fails |
| Form.DescriptionError | src/components/confession/ConfessionForm.tsx:50-62 | (definition) the description rule for both modes; `DescriptionRule` states when it fails and with which message |
| Form.SexError | src/components/confession/ConfessionForm.tsx:44 | a gender message exactly when no gender is chosen |
| Form.CityRule | src/components/confession/ConfessionForm.tsx:43 | "City is required" exactly when the city has no character other than white space |
| Form.AgeRule | src/components/confession/ConfessionForm.tsx:45-49 | "Age is required" exactly for an empty age; the range message exactly for a parsed age outside 13..100; no message otherwise, including for NaN |
| Form.AgeLimits | src/components/confession/ConfessionForm.tsx:47 | 13 and 100 are accepted; 12 and 101 get the range message |
| Form.DescriptionRule | src/components/confession/ConfessionForm.tsx:50-62 | text mode: passes exactly when the trimmed text has 10 to 1000 characters, and the first failing check names the message; voice mode: the text is ignored and the only message is a missing recording |
| Form.ErrorMap | src/components/confession/ConfessionForm.tsx:41-64 | the messages map has an entry exactly for each field with a message, holding that message, and no other entry |
| Form.FormErrors | src/components/confession/ConfessionForm.tsx:40-64 | validation records a message exactly for the fields whose rule fails, one message per field |
| Form.ErrorMapEmpty | src/components/confession/ConfessionForm.tsx:65 | the messages map is empty exactly when no field has a message |
| Form.FormValidNoErrors | src/components/confession/ConfessionForm.tsx:64-65 | the form is valid exactly when no message was recorded |
| Form.FormValidIff | src/components/confession/ConfessionForm.tsx:43-62 | the form is valid exactly when the city has a non-space character, a gender is chosen, the age is given and not a number outside 13..100, and either the recording exists (voice) or the trimmed text has 10 to 1000 characters |
| Form.ChoosePayload | src/components/confession/ConfessionForm.tsx:77-86 | multipart (city, sex, age, the recording as `confession.webm`, no description) exactly when voice mode is on and a recording exists; otherwise the form data as it is |
| Form.ValidPayload | src/components/confession/ConfessionForm.tsx:74-86 | a valid voice form always posts its recording; a valid text form posts a description whose trimmed length is 10 to 1000 |
| Form.ConfessionForm.constructor | src/components/confession/ConfessionForm.tsx:17-27 | empty fields, no messages, text mode, no recording, not submitting |
| Form.ConfessionForm.HandleInputChange | src/components/confession/ConfessionForm.tsx:29-38 | only the named field changes, and only that field's message is blanked, if it had one |
| Form.ConfessionForm.ValidateForm | src/components/confession/ConfessionForm.tsx:40-66 | the messages become those of the failing fields; the result is true exactly when the form is valid and exactly when no message was recorded; nothing else changes |
| Form.ConfessionForm.HandleRecordingComplete | src/components/confession/ConfessionForm.tsx:68-70 | stores the recording and nothing else |
| Form.ConfessionForm.ToggleVoice | src/components/confession/ConfessionForm.tsx:190 | flips the mode and nothing else |
| Form.ConfessionForm.HandleClose | src/components/confession/ConfessionForm.tsx:97-102 | fields reset to empty, no recording, no messages; the mode is kept |
| Form.ConfessionForm.HandleSubmit | src/components/confession/ConfessionForm.tsx:72-95 | nothing is sent when validation fails; otherwise the chosen payload is sent once; success resets fields, recording and messages, failure keeps the form data; the submitting flag ends false |
| Hook.FilterValues | src/hooks/useConfessions.ts:19 | one value per filter key |
| Hook.KeysDistinct | src/hooks/useConfessions.ts:18-19 | `page`, `limit` and the seven filter keys are distinct |
| Hook.BuildParams | src/hooks/useConfessions.ts:18-23 | `page` and `limit` are always present; a filter key is present exactly when its value is not empty, with the value unchanged; no other key is added |
| Hook.SortAlwaysSent | src/hooks/useConfessions.ts:19-23 | the sort key and order are never empty, so they are always sent |
| Hook.SerializeNumber | src/hooks/useConfessions.ts:18 | the server's `Number` reads back the page and limit the client sends |
| Hook.ServerSeesFilters | src/hooks/useConfessions.ts:19-23 | the server receives the client's city, gender and search, and a truthy age bound exactly when the client's is not empty |
| Hook.DigitsReadAlike | backend/index.js:53-59 | a bound written in decimal digits is read alike by the server's `Number` and the client's `parseInt` |
| Hook.BoundAgrees | backend/index.js:53-59 | an age bound read alike gives the server the client's bound, and is a number when supplied |
| Hook.NaNBoundRejected | backend/index.js:53-59 | a supplied age bound the server's `Number` reads as NaN makes the request unservable, so the handler answers with the store's error |
| Hook.BlankBoundDisagrees | backend/index.js:53-55 | a bound of white space only is read as 0 by the server and ignored by the client |
| Hook.RequestPaging | src/hooks/useConfessions.ts:18 | the server reads the client's page and limit |
| Hook.RequestOrder | src/hooks/useConfessions.ts:19-23 | the server orders by the client's sort key and direction |
| Hook.RequestMeansFilters | src/hooks/useConfessions.ts:18-25 | for a built request with age bounds read alike, the server's criteria are the client's filter criteria, its bounds are numbers, and its page, limit and order are the client's |
| Hook.ServerAnswersClientPipeline | src/hooks/useConfessions.ts:18-26 | a built request for a page from 1 on, with age bounds read alike, is served, and the rows returned are the client helpers' filter, then sort, then paginate over the whole table |
| Hook.ConfessionsHook.constructor | src/hooks/useConfessions.ts:6-7 | not loading, and no error |
| Hook.ConfessionsHook.FetchConfessions | src/hooks/useConfessions.ts:9-35 | the parameters are built as `BuildParams` states; the service's answer is returned unchanged; loading goes true, then false; the error is cleared, then set to "Failed to fetch confessions" exactly on failure |
| Hook.ConfessionsHook.CreateConfession | src/hooks/useConfessions.ts:37-51 | the payload goes to the service as it is; loading goes true, then false; the error is cleared, then set to "Failed to submit confession" exactly on failure |

## Left out

- SQL execution is modelled on a sequence of rows:
  - Postgres `LIKE` wildcards inside a term (`%`, `_`) are taken as literal text.
  - `LOWER` is ASCII lower-casing.
  - Postgres leaves the order of rows with equal sort keys unspecified; the model keeps table order.
- Query.SortRows: `localeCompare` on cities is modelled as code-point lexicographic order. `Date` parsing of `created_at` is modelled as an integer timestamp.
- Text.Trim: only the listed white-space characters are removed, not every Unicode separator. Lengths count characters, not UTF-16 code units.
- Text.ParseInt: only decimal text is read, not hexadecimal prefixes.
- Text.ToNumber: fractions, exponents, `Infinity` and hexadecimal text are read as NaN. So a fractional page or limit makes the model's store reject the query.
- Helpers.FilterConfessions: a stored row without a description is taken to fail the search. The client would instead throw a TypeError when the city does not match.
- Helpers.SortConfessions: the helper's key is spelled `createdAt` while the filter bar's is `created_at`; the model maps both to the creation column. The helpers are not called anywhere in the client.
- Helpers.PaginateArray: a negative limit slices from the end, as JavaScript does. Only the bound for a non-negative limit is stated.
- The filter bar's values are never `undefined` or `null`, because of their types, so `BuildParams` tests only for the empty string.
- Hook.RequestMeansFilters: stated for age bounds that `Number` and `parseInt` read alike (`ReadAlike`; every digit string is, by `DigitsReadAlike`). For other text the two can disagree: `NaNBoundRejected` shows that a bound `Number` reads as NaN (e.g. "12abc") gets status 500 from the server, while the client would apply 12; `BlankBoundDisagrees` shows that a blank bound filters ages from 0 on at the server and nothing at the client.
- Hook.ServerAnswersClientPipeline: stated under the same condition on the age bounds as `RequestMeansFilters`, for the same reason; the other cases are the two lemmas named there.
- The query string's URL encoding and decoding is taken as the identity on text.
- Form.DescriptionRule: a trimmed description of exactly 1000 characters is accepted, though the message says "less than 1000".
- Form.AgeRule: an age that `parseInt` reads as NaN (e.g. "abc") passes validation, because both comparisons are false.
- multer's disk storage, `Date.now()` file names and `process.cwd()` are left out. An upload is given by its stored path.
- Static serving of `/uploads` is left out.
- Server.JoinPath: `path.join` is modelled on paths as lists of segments, and only for a name without separators, the only names the guard lets through. "" and "." give the directory and ".." its parent. The working directory is taken as already normalised.
- What `res.sendFile` does with a directory (the route's answer for "." and "..") is not modelled; the route is taken to send the path.
- The file route's existence check is a parameter: `fileExists`.
- The `onClose` callback, `console` logging, `e.preventDefault` and the asynchronous interleaving of state updates are left out. React's `setState` is modelled as an immediate assignment.
- Database constraints and the `RETURNING *` row of the insert are left out.
- Text.ToNumber: integers are unbounded. A JavaScript `Number` is a double, exact only up to 2^53, so a longer digit string is rounded there and not in the model.
- Server.BoundValue: the store's parameter ranges are not modelled. Postgres rejects an age bound outside the 32-bit range of the integer `age` column (e.g. `ageMin=3000000000`), and the handler then answers 500; the model binds the number and serves the page.
- Server.PageOffset: `(page - 1) * limit` is computed exactly. In JavaScript it loses precision above 2^53, and Postgres rejects a LIMIT or OFFSET beyond 64 bits; the model has no such error.
- Hook.ConfessionsHook.FetchConfessions: the rethrown error is returned as `Err`. The axios array-response normalisation of `src/services/api.ts` is not part of this model; the service is a parameter.
- Hook.ConfessionsHook.CreateConfession: the HTTP request is a parameter.
- `formatDate` and `generateId` read the clock and randomness, and are left out.
- Rendering is left out: JSX, `App.tsx`, the filter and search bars, the cards, the audio recorder. So is `average.py`.

## Findings

| source | as written | input that shows it | evidently intended | confidence | as-written member | corrected member |
|---|---|---|---|---|---|---|
| backend/index.js:155 | `fs.existsSync` is called, but `fs` is never required, so every filename that passes the separator guard throws a ReferenceError and no response is sent | GET `/api/file/1700000000000-confession.webm` | `const fs = require('fs')`: 404 for a missing file, the file otherwise | not executed | Server.FileRouteAsWrittenNeverServes | Server.FileRoute |
| backend/index.js:148 | the traversal guard refuses only names with `/` or `\`; ".." passes it and `path.join(process.cwd(), "..")` is the parent directory, which exists, so once `fs` is imported the route calls `res.sendFile` on a path outside the working directory | GET `/api/file/%2E%2E` (the parameter decodes to "..") | refuse "." and ".." as well, so that only entries directly inside the working directory are sent | not executed | Server.FileRouteEscapesWithDotDot | Server.FileRouteStaysInDirectory |
