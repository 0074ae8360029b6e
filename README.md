# Student ID generator: the logic under the pages

The Harbour.Space student ID generator lists the roster from the student
administration API. Staff choose students, optionally narrowed by an
uploaded CSV of ID numbers, by arrival month and by free-text search, and
print ID cards. A second page reads a staff CSV, collects photos and prints
staff cards. Photos come through a same-origin image proxy.

This project models the logic under those pages as Dafny and proves what it
promises.

- **CsvUploadFilter**: reading an uploaded CSV into a set of student ID numbers.
  - The ID column is chosen from the header line.
  - Row 0 is skipped when its cell is not a number.
  - The set is collected in a loop.
  - Two errors are possible: an empty file, or no IDs found.
- **StaffManager**: the staff roster.
  - The CSV parser always treats row 0 as the header and names records `staff-<row>`.
  - Manual entry has a duplicate check.
  - Photo update and removal, record removal, the "staff with photos" selection for bulk printing, and clearing.
- **StudentSelector**: the selection state as a class whose methods change its sets and maps.
  - Its invariant `Valid`: the ticked ids are roster ids that are not chosen. The constructor establishes it and every handler keeps it.
  - The derived `filteredStudents` pipeline: not selected, then the CSV allow-list, then the arrival month, then search.
  - `selectedStudents`.
  - The per-student expiration override.
- **StudentList**: the facet filter (search, programme, campus) and the distinct option lists.
- **Api**:
  - the client configuration check;
  - the choice among response shapes;
  - `transformStudent` with its synthesised `id` and `idNumber`, its defaults and its years-to-add;
  - `getStudents` and `testConnection` over an abstract reply.
- **UseStudents**:
  - the search hook;
  - the capped exponential retry delay;
  - the query's timing constants (`StaleTimeMs`, `GcTimeMs`, `RetryCount`, `MaxRetryDelayMs`).
- **ProxyImage**: the `GET` and `OPTIONS` handlers of the image proxy.
  - The request becomes a response over an abstract upstream answer.
  - The outbound headers are built in place.
- **ImageUtils**: how a photo URL is turned into a data URL.
  - Local URLs are passed through.
  - The two trusted domains are fetched through the proxy, any other URL directly.
  - The guard of `convertStudentImageForPDF`.
- **OptimizedAvatar**: the resize URL of the roster thumbnail, its prop defaults, and its load/error flags.

Supporting modules:

- **Text**: the JavaScript string operations the code uses, on `seq<char>`: `trim`, `split`, `join`, `includes`, ASCII `toLowerCase`, the quote and white-space `replace` patterns, `padStart` and `String(n)`.
- **JsNumber**: when `Number(s)` is `NaN`. It is written out from the StrNumericLiteral grammar of ECMA-262 (section 7.1.4.1.1).
- **CsvText**: the line and cell handling shared by the two CSV readers.
- **Seqs**: order-preserving filtering, subsequences and duplicate removal.
- **Types**: the `Student` record and the calendar values read from `Date`.
- **Wrappers**: `Option` and `Result`.

Dates, `encodeURIComponent`, `fetch` and `FileReader` are function
parameters or abstract outcomes. Today's date and the clock are supplied
values.

The image proxy tests whether a trusted domain's text occurs anywhere in the
URL, ignores `width`, `height` and `quality`, and returns the upstream bytes
unchanged. `ProxyImage.QueryMentionPassesCheck` shows the consequence of the
text test: a URL on another host that mentions the storage domain in its
query passes the check. `ProxyImage.QueryMentionGetsToken` shows that the
token test has the same shape: such a URL that mentions the primary domain
is fetched with the access token attached.

## Model

| member | source | states |
|---|---|---|
| CsvUploadFilter.IdColumnIsFirstMatch | components/CSVUploadFilter.tsx:65-73 | the ID column is the first header (quotes stripped, trimmed, lower-cased) containing `id`, `student` or `number`, and column 0 when none does |
| CsvUploadFilter.DataStart | components/CSVUploadFilter.tsx:76-77 | data starts at row 1 exactly when the first row's ID-column cell, cleaned, is `NaN` under `Number`, else at row 0 |
| CsvUploadFilter.RowId | components/CSVUploadFilter.tsx:80-85 | a row contributes an ID only if it has more than `idColumnIndex` cells; the ID is non-empty, trimmed and free of quote characters |
| CsvUploadFilter.Collect | components/CSVUploadFilter.tsx:62-87 | the collected set never has more IDs than rows, and holds only IDs some row contributed |
| CsvUploadFilter.CollectMember | components/CSVUploadFilter.tsx:79-87 | an ID is in the collected set if and only if some row contributed it |
| CsvUploadFilter.CollectIds | components/CSVUploadFilter.tsx:79-87 | the loop adds the ID of each data row from the start row on, giving exactly the collected set of those rows |
| CsvUploadFilter.ParseCsv | components/CSVUploadFilter.tsx:55-94 | the imperative parse returns the same result, error or ID set, as the parse function |
| CsvUploadFilter.ParseIds | components/CSVUploadFilter.tsx:55-94 | a successful parse is a non-empty set of well-formed IDs |
| CsvUploadFilter.EmptyIffBlank | components/CSVUploadFilter.tsx:56-60 | the parse fails with "CSV file is empty" if and only if every newline-separated piece of the text is white space |
| CsvUploadFilter.BlankLinesIgnored | components/CSVUploadFilter.tsx:56 | inserting a blank or white-space-only line between two lines, before the first or after the last never changes the parse |
| CsvUploadFilter.ParseLinesExactly | components/CSVUploadFilter.tsx:79-93 | a successful parse holds exactly the IDs contributed by the data rows |
| CsvUploadFilter.AtMostOneIdPerRow | components/CSVUploadFilter.tsx:62-86 | duplicates collapse: there are never more IDs than data rows |
| CsvUploadFilter.NoIdsIffNoRowId | components/CSVUploadFilter.tsx:89-91 | the parse fails with "No valid Student IDs found in CSV" if and only if no data row contributes an ID |
| CsvUploadFilter.NumericFirstRowIsData | components/CSVUploadFilter.tsx:76-77 | a first row whose ID cell is empty or all digits is data, and its ID is returned |
| CsvUploadFilter.WordFirstRowIsHeader | components/CSVUploadFilter.tsx:76-77 | a first row whose ID cell is a word such as `id` or `student` is skipped as a header |
| CsvUploadFilter.CsvUploadFilter.HandleFileSelect | components/CSVUploadFilter.tsx:23-53 | a non-`.csv` name and a read error set their messages and upload nothing; otherwise the parsed set is uploaded, or the parse error becomes the message |
| CsvText.Lines | components/CSVUploadFilter.tsx:56 | the lines kept are non-empty and trimmed |
| CsvText.LinesEmpty | components/CSVUploadFilter.tsx:56 | no lines remain if and only if every piece between newlines is white space |
| CsvText.BlankLineIgnored | components/StaffManager.tsx:59 | removing a white-space-only line between two lines leaves the list of lines unchanged |
| CsvText.BlankFirstLineIgnored | components/StaffManager.tsx:59 | a white-space-only first line leaves the list of lines unchanged |
| CsvText.BlankLastLineIgnored | components/StaffManager.tsx:59 | a white-space-only last line leaves the list of lines unchanged |
| CsvText.CleanCell | components/CSVUploadFilter.tsx:82 | a cleaned cell holds no `'` or `"` and has no white-space ends |
| CsvText.HeaderCells | components/CSVUploadFilter.tsx:65 | one header per cell: the cell cleaned and lower-cased |
| JsNumber.DigitsAreNumbers | components/CSVUploadFilter.tsx:76 | `Number` of the empty string or of ASCII digits is not `NaN` |
| JsNumber.LetterMakesNaN | components/CSVUploadFilter.tsx:76 | a white-space-free text holding a letter no numeric literal can hold, other than the spellings of `Infinity`, is `NaN` |
| StaffManager.FindColumnsIsFirstMatch | components/StaffManager.tsx:68-74 | the name column is the first header containing `name` and the ID column the first containing `id` or `staff`; the columns are missing exactly when either has no match |
| StaffManager.RecordIdInjective | components/StaffManager.tsx:86 | different rows give different `staff-<row>` record ids |
| StaffManager.RowStaff | components/StaffManager.tsx:78-95 | a row's record has the id `staff-<row>` and a non-empty cleaned name and staff ID |
| StaffManager.RowRecords | components/StaffManager.tsx:77-97 | line 0 contributes nothing; every later line contributes its own record or none |
| StaffManager.CollectStaff | components/StaffManager.tsx:65-97 | the loop pushes exactly the records of the surviving lines, in line order |
| StaffManager.ParseCsv | components/StaffManager.tsx:58-104 | the imperative parse returns the same result as the parse function |
| StaffManager.ParseStaffErrors | components/StaffManager.tsx:59-101 | an empty file fails as empty and a header lacking a column fails as missing columns; otherwise the parse fails if and only if no line after the header gives a record |
| StaffManager.ParseStaffRecords | components/StaffManager.tsx:77-103 | a successful parse is the records of the surviving lines after the header in line order, with pairwise distinct record ids |
| StaffManager.SetPhoto | components/StaffManager.tsx:137-141 | only the records with the given id get the new photo; the rest and the order are unchanged |
| StaffManager.SetPhotoOnlyTouchesPhoto | components/StaffManager.tsx:154-158 | setting or clearing a photo keeps the length, the record ids, names and staff IDs |
| StaffManager.SetPhotoTwice | components/StaffManager.tsx:137-158 | of two photo updates for a record, the later one wins |
| StaffManager.RemoveById | components/StaffManager.tsx:216-217 | removal keeps, in order, exactly the records whose id differs |
| StaffManager.RemoveByIdIdempotent | components/StaffManager.tsx:216-217 | removing the same id twice is removing it once |
| StaffManager.StaffWithPhotos | components/StaffManager.tsx:234 | the bulk selection keeps, in order, exactly the records with a non-empty photo |
| StaffManager.PhotoDecidesBulk | components/StaffManager.tsx:137-158 | clearing a record's photo takes it out of the bulk selection, and giving it a non-empty one puts it in |
| StaffManager.ManualStaff | components/StaffManager.tsx:178-187 | a manual record has a trimmed name and staff ID, a `staff-` id and no photo yet |
| StaffManager.StaffManager.HandleFileSelect | components/StaffManager.tsx:26-56 | a non-`.csv` name and a read error keep the list and set their messages; otherwise a successful parse replaces the list and a failure sets its message |
| StaffManager.StaffManager.HandlePhotoUpload | components/StaffManager.tsx:133-144 | the list becomes the old list with the photo set on the matching records |
| StaffManager.StaffManager.RemovePhoto | components/StaffManager.tsx:153-164 | the list becomes the old list with the photo cleared on the matching records |
| StaffManager.StaffManager.HandleManualPhotoSelect | components/StaffManager.tsx:209-214 | only a picked `image/` file is taken as the manual photo; anything else leaves the form's photo |
| StaffManager.StaffManager.AddManualStaff | components/StaffManager.tsx:166-207 | a blank name or staff ID, or a staff ID already listed, leaves the list and sets the matching error; otherwise the form is reset, the error cleared, and the trimmed record appended at once without a photo or left waiting for its photo read; this call never makes a staff ID appear twice |
| StaffManager.StaffManager.ManualPhotoRead | components/StaffManager.tsx:189-196 | a finished read appends the waiting record with its photo to the list as it is then, without a duplicate check; a failed read drops the record silently |
| StaffManager.DuplicateWhilePhotoPending | components/StaffManager.tsx:172-196 | the same staff ID added twice, the first time with a photo still being read, ends up in the list twice |
| StaffManager.StaffManager.RemoveStaff | components/StaffManager.tsx:216-220 | the list becomes the old list without the records of that id |
| StaffManager.StaffManager.GenerateBulkPdf | components/StaffManager.tsx:231-239 | the batch is exactly the staff with photos; with none, nothing is printed and the error is set |
| StaffManager.StaffManager.ClearData | components/StaffManager.tsx:258-264 | the list and the error are emptied |
| StudentSelector.Available | components/StudentSelector.tsx:31-33 | exactly the roster students whose id is not selected remain, in roster order |
| StudentSelector.FilteredStudents | components/StudentSelector.tsx:29-70 | the visible list is an order-preserving subsequence of the roster |
| StudentSelector.FilteredStudentsExactly | components/StudentSelector.tsx:29-70 | a student is visible if and only if they are on the roster and not selected, on the CSV list when it is active and non-empty, arrived in or after the month when one is set, and match the search when there is one |
| StudentSelector.SelectedStudents | components/StudentSelector.tsx:25-27 | the chosen students are the roster entries whose id is selected, in roster order |
| StudentSelector.ShownOrChosen | components/StudentSelector.tsx:25-33 | no student is both visible and chosen; with no filters every roster student is one or the other |
| StudentSelector.Toggle | components/StudentSelector.tsx:73-81 | toggling flips the membership of that id and of no other |
| StudentSelector.ToggleTwice | components/StudentSelector.tsx:73-81 | toggling the same id twice restores the set |
| StudentSelector.CardExpiration | components/StudentSelector.tsx:146-149 | a card shows the custom date when it is a non-empty string, else the student's own expiration |
| StudentSelector.CardStudents | components/StudentSelector.tsx:146-149 | the cards are the chosen students in order, each with its card expiration |
| StudentSelector.OverrideTakesEffect | components/StudentSelector.tsx:118-123 | a date change affects that student's card only, and only when non-empty |
| StudentSelector.StudentSelector.FilteredIdsAvailable | components/StudentSelector.tsx:29-33 | the shown students' ids are roster ids that are not chosen |
| StudentSelector.StudentSelector.TempToggleSelection | components/StudentSelector.tsx:73-81 | for a ticked or shown id, the pending set is toggled at that id; nothing else changes, and ticked ids stay unchosen roster ids |
| StudentSelector.StudentSelector.AddStudent | components/StudentSelector.tsx:84-93 | the id joins the selection and leaves the pending set |
| StudentSelector.StudentSelector.AddSelectedStudents | components/StudentSelector.tsx:96-100 | the selection becomes the old selection joined with the pending set, which is emptied |
| StudentSelector.StudentSelector.DeselectAll | components/StudentSelector.tsx:102-105 | the selection and every custom date are cleared |
| StudentSelector.StudentSelector.RemoveStudent | components/StudentSelector.tsx:107-116 | the id leaves the selection and only its custom date is deleted |
| StudentSelector.StudentSelector.ExpirationDateChange | components/StudentSelector.tsx:118-123 | the custom date of that id is set |
| StudentSelector.StudentSelector.CsvUpload | components/StudentSelector.tsx:125-128 | the CSV set is replaced and the filter activated |
| StudentSelector.StudentSelector.ClearCsv | components/StudentSelector.tsx:130-133 | the CSV set is emptied and the filter deactivated |
| StudentSelector.StudentSelector.SelectAllVisible | components/StudentSelector.tsx:135-138 | the pending set becomes exactly the ids of the visible list, none of them already selected |
| StudentList.ListFiltered | components/StudentList.tsx:49-60 | the list is an order-preserving subsequence, and a student is kept if and only if they match the search and both facets |
| StudentList.ListFilteredIdempotent | components/StudentList.tsx:49-60 | filtering the filtered list again changes nothing |
| StudentList.NoFilterKeepsAll | components/StudentList.tsx:50-57 | with no search and empty facets every student is kept |
| StudentList.SearchIgnoresDegree | components/StudentList.tsx:50-54 | for every student, changing the degree never changes whether the search keeps them |
| StudentList.DegreeNotSearched | components/StudentList.tsx:50-54 | the search here does not look at the degree: a term only the degree holds finds nothing |
| StudentList.Programmes | components/StudentList.tsx:46 | the programme options are duplicate-free, non-empty values that some student has, in order of first appearance |
| StudentList.Campuses | components/StudentList.tsx:47 | the campus options are duplicate-free, non-empty values that some student has, in order of first appearance |
| StudentList.OfferedProgrammeNotEmpty | components/StudentList.tsx:46-57 | picking an offered programme never yields an empty list |
| Api.NewApiClient | lib/api.ts:25-32 | construction succeeds if and only if both settings are non-empty, and then keeps them |
| Api.UsersListRequest | lib/api.ts:38-47 | the request goes to exactly the base URL followed by `/users-list`, with the token and the JSON content type |
| Api.SelectRecords | lib/api.ts:63-75 | a bare array is taken as is; a scalar is an unexpected structure; `null` raises a type error |
| Api.ShapesAgree | lib/api.ts:64-71 | the same records under `data`, `users` or `students` give the same roster |
| Api.ShapePriority | lib/api.ts:66-75 | `data` as an array wins over `users`, `users` wins over `students`, and an object with none is an unexpected structure |
| Api.YearsToAdd | lib/api.ts:108-109 | three years exactly when the lower-cased degree contains `bachelor`, one otherwise, and one when the degree is missing |
| Api.Serial | lib/api.ts:92 | the serial is digits only and five long below 99999 records |
| Api.SerialValue | lib/api.ts:92 | the padded serial reads back as the one-based position |
| Api.IdNumber | lib/api.ts:85-94 | the upstream ID number is used whenever it is non-empty |
| Api.GeneratedIdNumbersDistinct | lib/api.ts:91-93 | two generated ID numbers at different positions differ, for every position and whatever the names |
| Api.GeneratedIdNumberPrefix | lib/api.ts:85-94 | a generated ID number is the first five characters (all when fewer) of the white-space-free lower-cased name, then `-`, then the serial padded to width five |
| Api.UniqueId | lib/api.ts:116 | the id ends with `_` and the position |
| Api.UniqueIdInjective | lib/api.ts:116 | equal ids mean equal positions |
| Api.TransformStudent | lib/api.ts:84-131 | every field of the student: the synthesised id and ID number, the defaults "Unknown Student", "Master", "General Studies" and "/test-photo.jpg" exactly when the field is empty, empty email, status "active" |
| Api.TransformAll | lib/api.ts:77 | one student per record, in order, each transformed with its index |
| Api.RosterIdsDistinct | lib/api.ts:77-116 | the ids of one fetch are pairwise distinct |
| Api.GetStudents | lib/api.ts:49-81 | a failed request raises its status; otherwise the selected records become the roster, or the shape error is raised |
| Api.TestConnection | lib/api.ts:133-146 | reports success if and only if the roster loads, else the error message |
| UseStudents.RetryDelay | hooks/useStudents.ts:12 | the delay is 1000·2^i or the 30-second cap, whichever is smaller |
| UseStudents.RetryDelayMonotone | hooks/useStudents.ts:12 | a later attempt never waits less |
| UseStudents.RetryDelayDoubles | hooks/useStudents.ts:12 | the first five attempts wait 1, 2, 4, 8 and 16 seconds |
| UseStudents.RetryDelayCapped | hooks/useStudents.ts:12 | from the sixth attempt on the wait is 30 seconds |
| UseStudents.UseStudentSearch | hooks/useStudents.ts:16-31 | the result is an order-preserving subsequence; an empty term keeps the list; otherwise a student is kept if and only if the lower-cased term occurs in a lower-cased name, programme, degree, ID number or non-empty email |
| UseStudents.UseStudentSearchIdempotent | hooks/useStudents.ts:16-31 | searching the result again for the same term changes nothing |
| UseStudents.IdNumberSearchFinds | hooks/useStudents.ts:20-25 | searching for a student's own ID number finds them |
| ProxyImage.Respond | app/api/proxy-image/route.ts:44-71 | an exception is a 500; a non-ok status is passed on with a fixed message, or is a 500 when the response cannot carry it; an upstream 304 is a 500; an ok answer is a 200 with the bytes, the upstream content type or `image/jpeg`, one-year immutable caching and open CORS |
| ProxyImage.BuildHeaders | app/api/proxy-image/route.ts:27-34 | the user agent is always sent; the token, or an empty one, is sent if and only if the URL mentions the primary domain |
| ProxyImage.Get | app/api/proxy-image/route.ts:3-73 | a missing or empty `url` is a 400 and a URL outside both domains a 403, both with nothing fetched; otherwise exactly that URL is fetched, with the user agent and, exactly when the URL mentions the primary domain, the configured token (or an empty one) and no other header, and its answer decides the response |
| ProxyImage.RespondBodies | app/api/proxy-image/route.ts:44-71 | bytes go out exactly with a 200 and unchanged; every other answer carries one of the fixed messages |
| ProxyImage.NotModifiedIsInternalError | app/api/proxy-image/route.ts:44-47 | an upstream 304 cannot carry the JSON error body, so it is answered with the catch-all 500 |
| ProxyImage.ExampleOtherHostRefused | app/api/proxy-image/route.ts:16-22 | the URL `https://evil.example.com/photo.jpg`, which mentions neither domain, is refused |
| ProxyImage.QueryMentionPassesCheck | app/api/proxy-image/route.ts:16-17 | the domain check is on the text, so another host that mentions the storage domain in its query is let through |
| ProxyImage.QueryMentionGetsToken | app/api/proxy-image/route.ts:16-33 | another host that mentions the primary domain in its query passes the check and is sent the access token |
| ProxyImage.Options | app/api/proxy-image/route.ts:76-85 | the preflight is a 200 with no body and permissive CORS headers |
| ImageUtils.FetchUrl | lib/imageUtils.ts:9-16 | trusted-domain URLs go through the proxy route with the URL encoded; any other is fetched as it is |
| ImageUtils.FetchUrlInjective | lib/imageUtils.ts:9-16 | different remote photos are fetched from different URLs when the encoder is injective |
| ImageUtils.ConvertImageToDataUrl | lib/imageUtils.ts:1-38 | local and data URLs are returned unchanged; otherwise the read data URL of an ok fetch, and `null` on a failed status, an exception or a read error |
| ImageUtils.CorrectedAgreesWhereCodeResolves | lib/imageUtils.ts:1-38 | the conversion agrees with the code wherever the code resolves |
| ImageUtils.LocalNotFetched | lib/imageUtils.ts:4-6 | a local URL's result does not depend on any fetch |
| ImageUtils.RemoteRouting | lib/imageUtils.ts:9-19 | only the chosen fetch URL matters to the result |
| ImageUtils.ConvertStudentImageForPdf | lib/imageUtils.ts:40-49 | a missing, blank or placeholder photo gives `null` without conversion; otherwise the conversion's result |
| ImageUtils.BlankIsNoPhoto | lib/imageUtils.ts:41-43 | a white-space-only or placeholder photo gives `null` whatever the fetch would give |
| OptimizedAvatar.OptimizedSrc | components/OptimizedAvatar.tsx:24-33 | no source if and only if the photo is empty, blank or the placeholder; otherwise the proxy path with the encoded source first |
| OptimizedAvatar.OptimizedSrcParameters | components/OptimizedAvatar.tsx:30-32 | with a separator-escaping encoder, the URL splits back into the proxy path and exactly the four parameters `url`, `width`, `height` and `quality`, both sizes twice the displayed size |
| OptimizedAvatar.DefaultRequest | components/OptimizedAvatar.tsx:16-32 | without size and quality props the request is for 80 by 80 at quality 80 |
| OptimizedAvatar.Avatar.HandleLoad | components/OptimizedAvatar.tsx:37-39 | loading ends and an earlier error stays |
| OptimizedAvatar.Avatar.HandleError | components/OptimizedAvatar.tsx:41-44 | loading ends and the placeholder is drawn from then on |

## Left out

- Rendering, styling, drag and drop, file inputs and refs: JSX and CSS, outside the logic.
- Reading files (`FileReader`), `fetch`, response bodies and `NextResponse`. These are I/O. File contents, upstream answers and read outcomes are parameters.
- PDF generation and saving, and the `Promise.all` photo fan-out of `handleGenerateCards`. These are foreign libraries and concurrency with no order to state. The bulk staff batch is modelled up to the selection it hands over.
- Dates and locales. `new Date(...)` is a `DateParser` parameter and the expiration text an `ExpirationFormatter` parameter. The staff issue date and the `Date.now()` of manual records are supplied values.
- `encodeURIComponent` is an abstract function. Properties that need it to be injective or to escape `&` and `?` say so in their preconditions.
- `toLowerCase` is modelled on ASCII letters only; other scripts' case mappings are not. Strings are sequences of Unicode scalar values, not UTF-16 code units, so `slice(0, 5)` of a name holding characters outside the Basic Multilingual Plane gives a different ID-number prefix here.
- `console` logging, and the react-query cache beyond its constants and the retry delay.
- Image resizing and re-encoding: the proxy code does neither.
- The roster of the selector is fixed once loaded. The component's roster starts empty and changes on load and on every refetch, and its ids are name plus position; a roster change under existing selections and ticks is not modelled, and `StudentSelector.StudentSelector.Valid` relies on the roster being fixed.
- The `isProcessing` flag of both CSV readers and their early return when no file is given. The flag only drives a spinner while a read is in flight, and the model treats each read as finished.
- Api.TestConnection: for a `null` or non-array reply the JavaScript engine's `TypeError` message is reported; the model reports the name `TypeError` in its place.
- Api.GetStudents: a reply whose body is not JSON, and a network exception, are not modelled separately. Both surface as a failed request.
- Api.SelectRecords: array elements are taken to be roster records. An element of another shape is not represented.
- OptimizedAvatar.OptimizedSrc: `size` and `quality` are natural numbers. Fractional or negative props and their number formatting are not modelled.

## Findings

| source | as written | input that shows it | evidently intended | confidence | as-written member | corrected member |
|---|---|---|---|---|---|---|
| lib/imageUtils.ts:28-37 | the `FileReader` promise is returned from inside `try` without `await`, so a read error rejects the call instead of reaching the `catch` that returns `null` | a remote photo whose fetch is ok but whose blob fails to read | every failure yields `null`, as the `catch` and the callers expect | not executed | ImageUtils.AsWrittenRejectsOnReadError | ImageUtils.ConvertImageToDataUrl |
