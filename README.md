# CiRemote-Frontend core, modelled in Dafny

CiRemote-Frontend keeps a list of subscribed homework "jobs". Each job is a
repository or a plain JSON address that serves a *job index* (name,
description, author, last update, version). The front end also reads *job
detail* exports in the StickyHomeworks format and turns their rich-text
content into plain text. This project models the core of that logic:

- the two job-index validators and parsers: the lenient one the store uses,
  with its `name` fallback that writes into the caller's object, and the
  strict version-1 one;
- the two job-detail parsers: the fail-fast version-0 parser that
  normalises homework items, and the lenient generic one;
- `filterXmlTags`: the fast path for plain text, the FlowDocument `<Run>`
  extraction, the HTML-parser branch and the strip-tags-until-fixpoint loop;
- `convertGithubApiUrlToRawUrl` and the file-type helpers of the file
  explorer;
- the Pinia jobs store: `addJob`, `removeJob`, saving and loading the list,
  `fetchJobIndex` with its two address branches and error wrapping, and
  `loadJobs`, which refreshes every entry and keeps the old entry when a
  fetch fails.

Each file holds one module:

- `strings.dfy` (`Strings`): the JavaScript string operations used: `join`,
  `split`, `startsWith`, `lastIndexOf`, `substring`, `trim`, ASCII
  `toLowerCase`, number formatting.
- `js_values.dfy` (`JsValues`):
  - a `Json` value type with JavaScript truthiness, `typeof … === 'object'`
    and `hasOwnProperty`;
  - `Result`/`Option` for thrown errors and `null`;
  - a `Handle` class standing for a caller's object reference.
- One file per core source file, named after it.

Functions state what each operation computes. Code that works step by step
is a method proved against them:
- validators that push errors one by one;
- the nested `for` loops of the version-0 parser;
- the `do … while` strip loop;
- the byte-copying loop;
- the store, whose class fields are updated in place.

Such a method and its function define the same behaviour twice on
purpose. The function is what lemmas and the other functions can use,
since they cannot call a method. The method keeps the source's form: its
loops, the order of its early returns, and the in-place update of the
caller's object or of the store. Its `ensures` clause proves it equal to
the function. This holds for `FetchJobIndex`, `FetchDirect`,
`FetchFromGithub`, `FilterXmlTags`, `ParseStickyHomeworksDataV0` and the
validators.

Facts about the source that the model reflects:

- The source has no version dispatcher. Each parser is called directly.
- Both index validators require `author` and `last`.
- `parseJobIndex` keeps a numeric `version` as a number. The trailing
  `...jobData` spread puts the input value back.
- The version-0 detail parser never sanitises `Content`.
- The version-0 parser is fail-fast: it reports only the first problem.
- The lenient index validator checks its fields in the order name,
  description, author, last, version. A missing `version` is reported last.

## Model

| member | source | states |
|---|---|---|
| JobIndexParser.JobIndexErrors | src/parsers/index/job-index-parser.ts:24-74 | a falsy or non-object input gives exactly `["Data must be an object"]`; the list is empty exactly when the document is a valid job index; at most five errors |
| JobIndexParser.ErrorsInFieldOrder | src/parsers/index/job-index-parser.ts:40-68 | for an object or array the errors come strictly in field order (name, description, author, last, version), so each field adds at most one |
| JobIndexParser.ErrorsByField | src/parsers/index/job-index-parser.ts:40-68 | each message is present exactly when its field's check fails, in both directions: a falsy `name` with an unusable `description` gives both the fallback error and the description error; `version` fails only when undefined, null or neither string nor number |
| JobIndexParser.WithNameFallback | src/parsers/index/job-index-parser.ts:40-44 | only `name` can change, and it becomes `description` exactly when `name` is falsy and `description` is a non-empty string; every other property is kept |
| JobIndexParser.ValidateJobIndex | src/parsers/index/job-index-parser.ts:24-74 | the reported errors are those of the input, `isValid` holds exactly when there are none, and the caller's object is left with the `name` fallback applied |
| JobIndexParser.JobIndexParse | src/parsers/index/job-index-parser.ts:81-112 | fails with `Invalid job index data: ` and the errors joined by `, ` exactly when validation fails; otherwise returns the input's properties: every property other than `name` keeps its input value, `version` included (a number stays a number), and `name` is a non-empty string, equal to `description` after the fallback |
| JobIndexParser.ParseJobIndex | src/parsers/index/job-index-parser.ts:81-112 | returns the result of parsing the input and leaves the caller's object with the `name` fallback applied |
| JobIndexParser.RevalidationAgrees | src/parsers/index/job-index-parser.ts:40-86 | the fallback is idempotent, and validating or parsing the already updated object gives the same errors and the same result as the original |
| IndexV1.V1Errors | src/parsers/index/index-v1.ts:18-56 | a falsy or non-object input gives exactly `["Data must be an object"]`; the list is empty exactly when name, description, author, last and version are all non-empty strings; at most five errors |
| IndexV1.ErrorsByField | src/parsers/index/index-v1.ts:32-50 | each field's message is present exactly when that field is not a non-empty string |
| IndexV1.ValidateJobIndex | src/parsers/index/index-v1.ts:18-56 | reports the errors of the input, and `isValid` holds exactly when there are none; the document is taken by value and cannot change |
| IndexV1.ParseJobIndex | src/parsers/index/index-v1.ts:63-81 | fails with the prefix and the joined errors exactly when invalid; otherwise the output is exactly the input's properties, with `name` and `version` as in the input and `version` a string |
| IndexV1.NumericVersionRejected | src/parsers/index/index-v1.ts:48-50 | a numeric `version` gives the version error and makes the document invalid |
| DetailV0.HeaderFailure | src/parsers/detail/detail-v0.ts:25-59 | no failure exactly when `Version` is an own number equal to 0, `Description` and `ExportDate` are own strings, and `Homeworks` is an own array |
| DetailV0.VersionChecked | src/parsers/detail/detail-v0.ts:29-35 | a non-number `Version` throws `Field "Version" must be a number`; any other number throws `Unsupported version: N. Only version 0 is supported.` |
| DetailV0.FieldFailure | src/parsers/detail/detail-v0.ts:65-87 | no failure for a field of an item exactly when it is an own string property |
| DetailV0.TagFailure | src/parsers/detail/detail-v0.ts:93-98 | a reported tag failure names the first tag at or after the index that is not a string: every tag before it is a string |
| DetailV0.CheckTags | src/parsers/detail/detail-v0.ts:93-98 | the inner `for` loop over the tags returns `TagFailure` from the first tag, stopping at the first non-string tag |
| DetailV0.ItemFailure | src/parsers/detail/detail-v0.ts:63-99 | the engine's null-read error is reported exactly for a `null` or `undefined` item |
| DetailV0.ItemsFailure | src/parsers/detail/detail-v0.ts:62-100 | a reported failure is that of some item at or after the index |
| DetailV0.TagFailureNone | src/parsers/detail/detail-v0.ts:93-98 | no tag failure exactly when every tag from the index on is a string |
| DetailV0.ItemFailureNone | src/parsers/detail/detail-v0.ts:63-99 | an item passes exactly when its `Content`, `Subject` and `DueTime` are own strings and `Tags` is absent or an array of strings |
| DetailV0.ItemsFailureNone | src/parsers/detail/detail-v0.ts:62-100 | the item loop passes exactly when every item from the index on is valid |
| DetailV0.SkipValidItems | src/parsers/detail/detail-v0.ts:62-64 | valid items before index `i` do not change which failure the loop reports |
| DetailV0.FirstInvalidItemReported | src/parsers/detail/detail-v0.ts:62-100 | with a valid header, the first invalid item's failure is the one reported, and it names that item (or is the engine's null-read error) |
| DetailV0.ItemFailureNamesItem | src/parsers/detail/detail-v0.ts:65-98 | every message thrown for item `i` starts with `Homework item i ` |
| DetailV0.FieldFailureNamesItem | src/parsers/detail/detail-v0.ts:65-87 | every field message for item `i` starts with `Homework item i ` |
| DetailV0.TagFailureNamesItem | src/parsers/detail/detail-v0.ts:94-97 | every tag message for item `i` starts with `Homework item i ` |
| DetailV0.NormalizeHomework | src/parsers/detail/detail-v0.ts:107-112 | the normalised item copies `Content`, `Subject` and `DueTime` verbatim, has no `Tags` exactly when the input has none, and copies every tag; other properties are dropped |
| DetailV0.V0Parse | src/parsers/detail/detail-v0.ts:23-116 | succeeds exactly when the document is valid; a header failure is reported before any item failure; the output has version 0, the input's `Description` and `ExportDate`, and `Homeworks` of the same length with each item normalised in order |
| DetailV0.ParseStickyHomeworksDataV0 | src/parsers/detail/detail-v0.ts:23-116 | the nested loops over items and tags return what `V0Parse` specifies |
| DetailParser.DetailErrors | src/parsers/detail/detail-parser.ts:22-48 | a falsy or non-object input gives exactly `["Data must be an object"]`; the list is empty exactly when `ExportDate` is a non-empty string and `Homeworks` an array; at most two errors |
| DetailParser.ErrorsByField | src/parsers/detail/detail-parser.ts:36-42 | each message is present exactly when its check fails, `ExportDate` before `Homeworks`; nothing else is checked |
| DetailParser.ValidateDetailData | src/parsers/detail/detail-parser.ts:22-48 | reports the errors of the input, and `isValid` holds exactly when there are none |
| DetailParser.ParseDetailData | src/parsers/detail/detail-parser.ts:55-70 | fails with `Invalid detail data: ` and the joined errors exactly when invalid; otherwise the output has the input's keys plus `Description`, every input property with its input value, `Description` undefined when absent, a non-empty `ExportDate` and an array `Homeworks` |
| DetailParser.V0AcceptedIsDetailUnlessDateEmpty | src/parsers/detail/detail-parser.ts:36-38 | among documents the version-0 parser accepts, the generic validator refuses exactly those with an empty `ExportDate` |
| ContentFilter.RunAt | src/utils/contentFilter.ts:18 | a `<Run …>text</Run>` match at `p` starts with `<` there and ends inside the string, and its captured text is non-empty and has no `<` |
| ContentFilter.FirstRun | src/utils/contentFilter.ts:18-19 | the match returned is the leftmost: no match starts before it, and none at all when it is absent |
| ContentFilter.AllRuns | src/utils/contentFilter.ts:24 | every global match is a match at its own start, inside the string, in order and without overlap; completeness is `AllRunsComplete` |
| ContentFilter.AllRunsComplete | src/utils/contentFilter.ts:24 | no run is skipped: every position where the Run pattern matches lies inside one of the global matches, so with the ordering clauses the match list is exactly the greedy left-to-right one |
| ContentFilter.Filtered | src/utils/contentFilter.ts:10-54 | empty content, and content lacking `<` or `>`, is returned unchanged |
| ContentFilter.ChineseRunWins | src/utils/contentFilter.ts:16-21 | in a FlowDocument, the result is the trimmed text of the first run marked `xml:lang="zh-cn"`, whatever else the document holds |
| ContentFilter.NoChineseRun | src/utils/contentFilter.ts:18-19 | with no Chinese run anywhere, the first branch does not apply |
| ContentFilter.RematchSame | src/utils/contentFilter.ts:26-28 | matching a matched string again captures the same text, so the per-match step yields its trimmed text |
| ContentFilter.RunsTextIsTrimmedTexts | src/utils/contentFilter.ts:24-30 | the map/filter/join over the matched strings equals the trimmed texts of the matches, empties dropped, joined by one space |
| ContentFilter.AllRunsJoined | src/utils/contentFilter.ts:23-30 | a FlowDocument without a Chinese run but with runs gives their trimmed texts in document order, empties dropped, joined by one space |
| ContentFilter.ParsedResult | src/utils/contentFilter.ts:35-38 | when no run applies and the HTML parser succeeds, the result is its `textContent`, else its `innerText`, else the content, and never empty |
| ContentFilter.FallbackResult | src/utils/contentFilter.ts:35-48 | when no run applies and the HTML parser throws, the result is the stripped content, trimmed, with no `<` followed later by `>` |
| ContentFilter.MatchedStrings | src/utils/contentFilter.ts:24 | one matched string per global match, each starting with `<` |
| ContentFilter.Rematch | src/utils/contentFilter.ts:27-28 | the trimmed text of a matched string's first run, or empty; never contains `<` |
| ContentFilter.RunsText | src/utils/contentFilter.ts:26-29 | the joined run texts never contain `<`, so filtering them again returns them unchanged |
| ContentFilter.TagFreeFiltered | src/utils/contentFilter.ts:14-48 | trimmed text with no `<` followed by a later `>` is returned unchanged when the HTML parser throws: no run matches it and stripping removes nothing |
| ContentFilter.FilterIdempotentWhenDomThrows | src/utils/contentFilter.ts:10-50 | when the HTML parser throws, filtering the filter's output changes nothing, whichever branch produced it |
| ContentFilter.StripPass | src/utils/contentFilter.ts:46 | every character of the result comes from the input, and a string without `<` is left unchanged |
| ContentFilter.StripPassShrinks | src/utils/contentFilter.ts:44-47 | a pass never lengthens the string and strictly shortens it whenever it changes it, so the loop stops |
| ContentFilter.StripPassNoClose | src/utils/contentFilter.ts:46 | without a `>` a pass changes nothing |
| ContentFilter.StripPassRemovesTags | src/utils/contentFilter.ts:46 | after one pass no `<` is followed anywhere later by `>` |
| ContentFilter.StripPassFixpoint | src/utils/contentFilter.ts:46-47 | a string in which no `<` is followed by `>` is left unchanged by a pass |
| ContentFilter.StripPassIdempotent | src/utils/contentFilter.ts:44-47 | a second pass changes nothing, so the loop runs at most twice |
| ContentFilter.StripToFixpoint | src/utils/contentFilter.ts:42-48 | the loop's result is one pass followed by `trim`; it has no tag left and no white space at either end |
| ContentFilter.StripToFixpointIdempotent | src/utils/contentFilter.ts:42-48 | running the strip loop on its own output changes nothing |
| ContentFilter.FilterXmlTags | src/utils/contentFilter.ts:10-54 | returns what `Filtered` specifies for every branch |
| JobUrlHandler.PathParts | src/utils/jobUrlHandler.ts:31 | the segments are non-empty and contain no `/` |
| JobUrlHandler.RefOrMain | src/utils/jobUrlHandler.ts:41 | the branch is the `ref` parameter unless it is absent or empty, and `main` otherwise; never empty |
| JobUrlHandler.ConvertGithubApiUrlToRawUrl | src/utils/jobUrlHandler.ts:21-52 | `null` for an unparsable address or another host; for `api.github.com`, a result exactly when there are at least four segments and the first is `repos`; every result starts with `https://raw.githubusercontent.com/` |
| JobUrlHandler.LeadingSlash | src/utils/jobUrlHandler.ts:31 | a leading slash only adds an empty segment, which the filter drops |
| JobUrlHandler.ApiPathParts | src/utils/jobUrlHandler.ts:31 | splitting a built contents-API path gives back the segments it was built from |
| JobUrlHandler.ConvertsApiPath | src/utils/jobUrlHandler.ts:31-47 | for every owner, repository and file path, the converted API address is the raw address with the same owner, repository and file segments, on `ref` or `main` |
| JobUrlHandler.KindIgnored | src/utils/jobUrlHandler.ts:33-44 | the fourth segment (normally `contents`) does not affect the result |
| JobUrlHandler.DefaultRef | src/utils/jobUrlHandler.ts:41 | an absent `ref`, an empty one and `main` give the same result |
| JobUrlHandler.Example | src/utils/jobUrlHandler.ts:37-47 | `/repos/acme/repo/contents/docs/index.json?ref=dev` converts to `https://raw.githubusercontent.com/acme/repo/dev/docs/index.json` |
| FileExplorer.Extension | src/utils/fileexplorer.ts:16 | with no dot the whole lower-cased name is the extension (`substring(-1)` starts at 0); otherwise it is the lower-cased suffix from the last dot, which starts with `.` and has no other dot |
| FileExplorer.CanPreviewWithOffice | src/utils/fileexplorer.ts:10-17 | a name without a dot is never previewable, although the whole lower-cased name then serves as its extension |
| FileExplorer.GetFileType | src/utils/fileexplorer.ts:34-52 | always one of image, text, pdf, office, unknown; `image` exactly when the extension is an image extension; `text` exactly when it is a text extension and not an image one; `pdf` exactly when it is `.pdf` and on neither earlier list; `unknown` exactly when the extension is on no list |
| FileExplorer.OfficeIffPreviewable | src/utils/fileexplorer.ts:37-48 | the type is `office` exactly when the file can be previewed with Office, since no office extension is on another list |
| FileExplorer.GetOfficePreviewUrl | src/utils/fileexplorer.ts:25-27 | the address starts with `http://view.officeapps.live.com/op/view.aspx?src=` and continues with the encoded file address |
| FileExplorer.LastDotCaseBlind | src/utils/fileexplorer.ts:16 | names equal up to ASCII case have their last dot at the same place |
| FileExplorer.CaseInsensitive | src/utils/fileexplorer.ts:10-35 | names equal up to ASCII case get the same extension, the same Office answer and the same type |
| FileExplorer.LowerCasedNameSameType | src/utils/fileexplorer.ts:34-52 | lower-casing a name first changes neither its type nor its Office answer |
| JobsStore.FindIndex | src/stores/jobs.ts:59 | -1 exactly when no entry has the address; otherwise the first index holding it |
| JobsStore.Added | src/stores/jobs.ts:58-66 | the list grows by one exactly when the address is new; `job` is in it; every entry is `job` or an old entry; the addresses are unchanged, or the old ones with `job`'s address appended |
| JobsStore.AddReplaces | src/stores/jobs.ts:59-62 | adding a job whose address is listed overwrites that slot; the length and every other entry stay |
| JobsStore.AddAppends | src/stores/jobs.ts:63-66 | adding a job with a new address appends it last, so the length grows by one |
| JobsStore.AddedFinds | src/stores/jobs.ts:58-66 | after adding, the address is listed and its first entry is the added job |
| JobsStore.AddIdempotent | src/stores/jobs.ts:58-66 | adding the same job twice leaves the same list as adding it once |
| JobsStore.AddKeepsUnique | src/stores/jobs.ts:58-66 | adding keeps addresses unique |
| JobsStore.Removed | src/stores/jobs.ts:72 | no entry with the address is left, nothing new appears, and the list does not grow |
| JobsStore.RemovedAppend | src/stores/jobs.ts:72 | removing works entry by entry and keeps the rest in relative order |
| JobsStore.RemovedSingle | src/stores/jobs.ts:72 | a single entry is kept exactly when its address differs |
| JobsStore.RemoveAbsent | src/stores/jobs.ts:72 | removing an address that is not listed leaves the list equal |
| JobsStore.RemoveIdempotent | src/stores/jobs.ts:72 | removing twice is removing once |
| JobsStore.RemoveKeepsUnique | src/stores/jobs.ts:72 | removing keeps addresses unique |
| JobsStore.RemoveAfterAdd | src/stores/jobs.ts:58-74 | removing an address undoes adding a job with it |
| JobsStore.LoadedList | src/stores/jobs.ts:23-38 | a read failure resets the list to empty; a stored list replaces it; with nothing stored, layui gives an empty list and `localStorage` leaves the list untouched |
| JobsStore.SaveThenLoad | src/stores/jobs.ts:23-55 | with storage that neither fails to write nor to read, `saveJobsToStorage` followed by `loadJobsFromStorage` leaves the list unchanged and stored |
| JobsStore.Store.SaveJobsToStorage | src/stores/jobs.ts:41-55 | stores the current list, or throws `Failed to save jobs to localStorage` and stores nothing |
| JobsStore.Store.LoadJobsFromStorage | src/stores/jobs.ts:23-38 | the list becomes `LoadedList` of the storage and the old list; the flags are untouched |
| JobsStore.Store.AddJob | src/stores/jobs.ts:58-68 | the list is updated before saving, so a failed save throws with the change already made |
| JobsStore.Store.RemoveJob | src/stores/jobs.ts:71-74 | the list is filtered before saving, so a failed save throws with the change already made |
| JobsStore.Preview | src/stores/jobs.ts:105 | a body of at most 100 characters is shown whole; a longer one as its first 100 characters and `...` |
| JobsStore.IndexFromJson | src/stores/jobs.ts:92-101 | validation then parsing succeeds exactly for a valid job index and gives the parser's result; otherwise it fails with the bare joined errors |
| JobsStore.ApiUrl | src/stores/jobs.ts:118-127 | the address starts with the API origin and the `index.json` contents path of the repository; `?ref=` and the encoded branch follow exactly when a non-empty branch is given |
| JobsStore.CharCodes | src/stores/jobs.ts:144-147 | one byte per character of the decoded content |
| JobsStore.DirectDocument | src/stores/jobs.ts:82-93 | a document is reached only when the fetch succeeds with an ok status |
| JobsStore.GithubDocument | src/stores/jobs.ts:111-150 | a document is reached only when the address names a user and a repository |
| JobsStore.DirectFetch | src/stores/jobs.ts:80-107 | succeeds exactly when the address answers ok with a JSON body that is a valid job index, and then returns the parse of that document |
| JobsStore.GithubFetch | src/stores/jobs.ts:111-158 | succeeds exactly when the repository is named, the contents API answers ok, and its base64 `content` decodes to a valid job index, and then returns the parse of that document; a decoded document that is not valid fails with its bare joined errors |
| JobsStore.FetchJobIndexResult | src/stores/jobs.ts:77-163 | every error carries the prefix `Failed to fetch job index: `; it succeeds exactly when the branch the address selects reaches a valid job-index document, and then returns `parseJobIndex` of that document, whose `name` is a non-empty string and which has a `version` |
| JobsStore.ShortGithubAddress | src/stores/jobs.ts:111-116 | a GitHub address with fewer than two path segments fails with `Invalid GitHub repository URL` |
| JobsStore.GithubStatusErrors | src/stores/jobs.ts:129-135 | a failed status from the contents API gives `index.json not found in the repository root` for 404 and the address, status and status text otherwise |
| JobsStore.DirectBodyErrors | src/stores/jobs.ts:92-107 | on the direct branch, a body that is not JSON, or not a valid job index, is reported with status, status text, a preview and the underlying message |
| JobsStore.ApiUrlConvertsToRaw | src/stores/jobs.ts:118-127 | the contents-API path built for a repository converts back, through `convertGithubApiUrlToRawUrl`, to the raw address of the same `index.json` on the same branch or `main` |
| JobsStore.CharCodesOfLatin1 | src/stores/jobs.ts:144-147 | for a string of characters below 256, as `atob` produces, the bytes are the character codes unchanged |
| JobsStore.EncodeBytes | src/stores/jobs.ts:144-147 | the loop fills a fresh byte array with the low byte of each character code |
| JobsStore.ValidateAndParse | src/stores/jobs.ts:150-158 | validating then parsing a fresh object gives `IndexFromJson` of it |
| JobsStore.FetchDirect | src/stores/jobs.ts:80-108 | the direct branch returns what `DirectFetch` specifies |
| JobsStore.FetchFromGithub | src/stores/jobs.ts:111-158 | the GitHub branch returns what `GithubFetch` specifies |
| JobsStore.FetchJobIndex | src/stores/jobs.ts:77-163 | the branch is chosen by the `https://github.com/` prefix and the result is `FetchJobIndexResult` |
| JobsStore.RefreshEntry | src/stores/jobs.ts:176-186 | a refreshed entry keeps its address; it is the old entry when the fetch fails and carries the fetched index otherwise |
| JobsStore.Refreshed | src/stores/jobs.ts:175-189 | the refreshed list has the same length and address order, and each entry is refreshed on its own |
| JobsStore.RefreshKeepsUnique | src/stores/jobs.ts:175-189 | refreshing keeps addresses unique |
| JobsStore.RefreshAll | src/stores/jobs.ts:175-187 | the loop over the entries, in order, gives `Refreshed` |
| JobsStore.Store.LoadJobs | src/stores/jobs.ts:166-196 | the list becomes the refreshed stored list, `error` is cleared, and `loading` ends false |

## Left out

- Network, storage and browser facilities are parameters: `fetch` with its body reading, `TextDecoder`, `JSON.parse`, `new URL`, `encodeURIComponent` and `atob` in `fetchJobIndex`, the HTML parser in `filterXmlTags`, and `layui.data`/`localStorage` (as flags saying whether a read or write throws and the stored list). Their own behaviour is not modelled.
- JSON serialisation of the stored list is taken to be exact. Properties whose value is `undefined` would be dropped by `JSON.stringify`; the model does not capture that.
- `Promise.all` in `loadJobs` is modelled as a sequential loop in entry order. Concurrency is not modelled: a store operation running while the fetches are pending, whose change `loadJobs` then overwrites, is out of scope.
- JobsStore.Store.LoadJobs: the `catch` that sets `error` is not modelled. The model types the stored list as `seq<JobData>`. In the source the stored value is never checked to be an array: a `localStorage` value such as `null`, `{}` or `3`, or a non-array layui `jobList`, makes `jobs.value.map` throw, and that throw sets `error`. Such a stored non-array, and the `error` it produces, are not modelled.
- Logging (`console.warn`, `console.error`) is left out.
- `getStoredGithubToken` reads ambient storage and is not part of this model. So are the `jobCount` and `hasJobs` computed properties, which only read the list length.
- Numbers are integers. Fractions, NaN and infinities are not modelled, and a number is formatted as its decimal digits.
- Objects are maps. Property order and prototype properties are not modelled.
- Strings are sequences of code points, not UTF-16 code units. `length`, `substring` and `charCodeAt` agree with JavaScript only outside the astral planes.
- `toLowerCase` is modelled on ASCII letters only. The file-type lists contain only ASCII.
- `trim` uses the JavaScript white-space and line-terminator set, listed code point by code point.
- The regular expressions of `filterXmlTags` are modelled by what they match, not by a regex engine. With the `i` flag, case-insensitivity is ASCII case-insensitivity.
- JobsStore.FetchJobIndexResult: `new URL(repoUrl)` is taken never to throw for an address starting with `https://github.com/`.
- JobsStore.FetchJobIndexResult: reading `responseData.content` on a `null` body throws an engine `TypeError`, whose text is a parameter.
- DetailV0.V0Parse: reading a property of a `null` or `undefined` document or item throws an engine `TypeError`. It is reported as `NullRead`, without its message text.
- DetailV0.V0Parse: an own `hasOwnProperty` key that shadows the method is not modelled. The source calls `data.hasOwnProperty(...)` and `homework.hasOwnProperty(...)` as methods, so a document or item such as `{"hasOwnProperty": 0, ...}` makes the engine throw a `TypeError` ("is not a function"). The model treats `hasOwnProperty` as the built-in check and accepts such a document when its fields are valid. `HeaderFailure`, `ItemFailure` and `ItemFailureNone` share this gap.
- ContentFilter.Filtered: idempotence is proved only when the HTML parser throws (`FilterIdempotentWhenDomThrows`). When it succeeds, the result is the parser's `textContent` or `innerText`, which the model takes as a parameter, so nothing is promised about filtering that text again.
