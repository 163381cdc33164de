# Cleanlify front-end rules, modelled in Dafny

Cleanlify is a Next.js front-end for cleaning tabular data in four steps: upload, preview, clean and export.

- **Upload.** The user uploads a CSV, TSV, TXT, JSON or "Excel" file. The step validates the file's type and size, parses it into rows and profiles every column.
- **Preview.** The user picks the text columns to clean, and the category approach when the service found an important category.
- **Clean.** A clustering service proposes one suggestion per cluster of similar values. The user overrides single members of a cluster ("exceptions") or reverts them.
- **Export.** The accepted mappings are applied to the rows. The step offers the cleaned CSV and a JSON cleaning map.

A dashboard lists past cleans, and a summary page charts one clean per column. Two mock API routes (`/api/process` and `/api/get-cleaning-suggestions`) produce suggestions by normalising distinct values.

The clustering, similarity and knowledge-graph engine lives behind an HTTP service and is not part of this model. What is modelled is the deterministic logic of the front-end and of the two mock routes.

## Modules

| file | module | what it covers |
|---|---|---|
| `js.dfy` | `Js` | The JavaScript built-ins the source relies on, as pure functions with their properties. `trim` and `\s` whitespace, `\w`, ASCII case mapping, `split`/`join`, `includes`, `indexOf`, `slice`, `[...new Set(s)]`, `filter`, objects as insertion-ordered entry lists (`o[k]`, `o[k] = v`, `delete`), `Object.values(...).reduce` sums, and decimal rendering of numbers. |
| `types.dfy` | `Types` | The shared records: `ColumnInfo`, `CleaningMapping`, `CleaningData` and rows. Also the non-blank column values and the checkbox toggle. |
| `paging.dfy` | `Paging` | Ten-per-page slicing, the page count and the "Showing x to y" figure. |
| `ledger.dfy` | `Ledger`, `LedgerState` | The cluster exception ledger of the cleaning step. `LedgerState.CleaningStep` is the component as a class. |
| `export.dfy` | `Export` | Applying accepted mappings, per-column statistics, the CSV writer, the cleaning map and the download names. |
| `suggest.dfy` | `Suggest` | The suggestion route: distinct non-blank candidates, normalisation, and the column → mappings object. |
| `process.dfy` | `Process` | The process route: the category fixture and the per-column suggestions. |
| `upload.dfy` | `Upload` | The plain upload step: validation, the CSV/TXT/TSV/JSON readers, dispatch, the column profiler and `processFile`. |
| `upload_enhanced.dfy` | `UploadEnhanced` | The dashboard upload step: validation, the row-limit input and the hand-off to the wizard. |
| `preview.dfy` | `Preview` | The plain preview step. |
| `preview_enhanced.dfy` | `PreviewEnhanced` | The dashboard preview step: column groups, selection rules, category approach, search and paging. |
| `workflow.dfy` | `Workflow` | The four-step wizard. |
| `dashboard.dfy` | `Dashboard` | The overview: totals, average acceptance, recent cleans, "time ago" and the clean index. |
| `summary.dfy` | `CleanSummary` | The summary of one clean: column picker, chart data and title. |

## Representation choices

- **Component state.**
  - Stateful React components are classes whose fields are the component's `useState` slots.
  - Their handlers are methods that reassign those fields and state the whole new state.
  - The pure logic behind the handlers is a set of functions, whose properties are proved as lemmas.
- **Loops.** Loops of the source (`forEach` accumulations) are methods with `while` loops. Each is proved equal to a specification function.
- **JavaScript objects.**
  - Objects are sequences of `Entry(key, val)` in insertion order.
  - `o[k] = v` replaces the value of an existing key where it stands, or appends the key.
  - Rows are objects with string values.
- **Parameters for what the model cannot see.**
  - Network calls and `await`ed callbacks become outcome parameters: `None` or a failure value when the request failed or threw.
  - `Number(v)`, `Number.parseInt`, `JSON.parse`, `file.text()` and `new Date(...).getTime()` become parameters. These are a numeric test, a parsed `Option<int>`, a `JsonDocument`, the text, and a `timeOf` function.
- **Ratios.** The ratios 0.8, 0.5 and 0.7 of the column profiler are compared by exact integer cross-multiplication. The acceptance ratios of the dashboard are `real`.

## Model

| member | source | states |
|---|---|---|
| Types.NonBlankValues | app/api/get-cleaning-suggestions/route.ts:11 | the values read from a column are never blank and at most one per row |
| Types.NonBlankValuesSpec | components/upload-step.tsx:154 | a value is kept iff it is non-blank and some row holds it under the column |
| Types.ToggledSpec | components/preview-step.tsx:26-30 | a click removes a selected name and adds an unselected one; every other name keeps its membership |
| Types.ToggleTwice | components/preview-step.tsx:28 | clicking an unselected column appends it at the end, and clicking again restores the selection exactly |
| Types.FilterAllExcept | components/dashboard/cleaning-step-enhanced.tsx:112-118 | filtering out a value held only at the end of a list gives back the list before it |
| Paging.PagingSpec | components/dashboard/cleaning-step-enhanced.tsx:220-227 | a page holds at most 10 items, item k of page p is item (p-1)*10+k, a page that starts inside the list runs up to the "to" figure, and the controls show iff n > 10 |
| Paging.EveryItemOnOnePage | components/dashboard/cleaning-step-enhanced.tsx:279-281 | item k is on page k/10+1, which lies within the page count, at position k%10, and on no other page |
| Paging.PageItems | components/dashboard/cleaning-step-enhanced.tsx:279-281 | a page holds at most ten items, and its k-th item is item (p-1)*10+k of the list |
| Paging.TotalPages | components/dashboard/cleaning-step-enhanced.tsx:222 | the page count is the fewest pages of ten that hold all the items |
| Paging.EndItem | components/dashboard/cleaning-step-enhanced.tsx:227 | the "to" figure is the smaller of p*10 and the item count |
| Ledger.WithoutIndex | components/dashboard/cleaning-step-enhanced.tsx:112 | the filtered list keeps only entries of the old list, none of them for the member |
| Ledger.ExceptionFor | components/dashboard/cleaning-step-enhanced.tsx:270-274 | no override is found iff no entry is for the member; a found override is an entry of the list for it |
| Ledger.ExceptionForFirst | components/dashboard/cleaning-step-enhanced.tsx:270-274 | a found override is the value of the first entry for the member |
| Ledger.ExceptionValue | components/dashboard/cleaning-step-enhanced.tsx:270-274 | a cluster without a list, or without an entry for the member, has no override; a found one is an entry of the list |
| Ledger.FinalValue | components/dashboard/cleaning-step-enhanced.tsx:341-343 | a member without an entry shows the suggestion; one with an entry shows the value of one of its entries |
| Ledger.WithException | components/dashboard/cleaning-step-enhanced.tsx:107-118 | the new entry is placed last, and every other entry is an old entry of another member |
| Ledger.WithoutIndexFacts | components/dashboard/cleaning-step-enhanced.tsx:112 | dropping a member's entries is idempotent, leaves none for it, keeps every other member's first entry and entry count, and removes exactly the member's entries |
| Ledger.CustomEditSpec | components/dashboard/cleaning-step-enhanced.tsx:99-125 | after a non-blank edit exactly one entry for the member remains, holding the new value and placed last; the other entries keep their values and their order |
| Ledger.RevertSpec | components/dashboard/cleaning-step-enhanced.tsx:127-137 | a revert removes every entry of the member and leaves the other members' overrides and counts as they were |
| Ledger.EditedIndices | components/dashboard/cleaning-step-enhanced.tsx:484-493 | the set holds exactly the member indices that have an entry |
| Ledger.WithoutIndexSubsequence | components/dashboard/cleaning-step-enhanced.tsx:112 | dropping entries keeps a list with one entry per member in that form |
| Ledger.EditsKeepOneEntryPerMember | components/dashboard/cleaning-step-enhanced.tsx:107-118 | edits and reverts keep one entry per member, and keep every entry inside the cluster's member list |
| Ledger.EditCountIsEditedMembers | components/dashboard/cleaning-step-enhanced.tsx:484-493 | with one entry per member, a cluster's custom-edit count equals the number of distinct edited members |
| Ledger.EditCountBound | components/dashboard/cleaning-step-enhanced.tsx:484-493 | a cluster never has more custom edits than members |
| Ledger.SetExceptionsSpec | components/dashboard/cleaning-step-enhanced.tsx:103-104 | updating one cluster's exception list keeps every tab, every cluster id, every other cluster and the cluster's members and suggestion |
| Ledger.CustomEditShows | components/dashboard/cleaning-step-enhanced.tsx:99-125 | after a non-blank edit the member shows the new value, the other members show what they showed, and the suggestion is untouched |
| Ledger.RevertShows | components/dashboard/cleaning-step-enhanced.tsx:127-137 | after a revert the member shows the cluster suggestion again, and the other members are unaffected |
| Ledger.DisplayMembers | components/dashboard/cleaning-step-enhanced.tsx:289 | the displayed members are exactly the members with a non-blank value |
| Ledger.EditsKeepTotal | components/dashboard/cleaning-step-enhanced.tsx:166-191 | editing or reverting never changes the total of members to review |
| Ledger.EditCountAfterSet | components/dashboard/cleaning-step-enhanced.tsx:484-493 | replacing one cluster's list moves the custom-edit figure by exactly the change in that list's length |
| Ledger.CustomEditCount | components/dashboard/cleaning-step-enhanced.tsx:484-493 | the custom-edit figure is 0 exactly when no cluster of any tab has an exception entry |
| Ledger.CustomEditCountAfterEdit | components/dashboard/cleaning-step-enhanced.tsx:484-493 | an edit adds one custom edit when the member had no override and none when it replaces one |
| Ledger.OneEntryAtMost | components/dashboard/cleaning-step-enhanced.tsx:112-118 | with one entry per member, a member has one entry iff it has an override |
| Ledger.CurrentPage | components/dashboard/cleaning-step-enhanced.tsx:80 | the page read back is never 0; with stored pages all at least 1 it is at least 1 and a stored page reads back as itself |
| Ledger.OriginalIndex | components/dashboard/cleaning-step-enhanced.tsx:331-338 | the index is -1 iff the member is absent, otherwise the first position holding an equal member |
| Ledger.DisplayedMemberIndex | components/dashboard/cleaning-step-enhanced.tsx:331-338 | a displayed member's index is the first position of an equal member, so duplicates share it |
| Ledger.RenderedClusters | components/dashboard/cleaning-step-enhanced.tsx:276-292 | the clusters drawn on a page are exactly the page's clusters with a non-blank member |
| Ledger.Rendered | components/dashboard/cleaning-step-enhanced.tsx:289-292 | a cluster is drawn iff it has a non-blank member |
| Ledger.TabNames | components/dashboard/cleaning-step-enhanced.tsx:460 | category mode without grouped data throws a TypeError; in category mode the tabs are exactly the categories with data, each once for an object with distinct keys; otherwise the tabs are the column names |
| Ledger.TabItemCount | components/dashboard/cleaning-step-enhanced.tsx:462-468 | a tab without data counts 0, otherwise the number of clusters under it |
| Ledger.EditKeysOfOneClusterDiffer | components/dashboard/cleaning-step-enhanced.tsx:340 | different members of one cluster have different edit-buffer keys |
| LedgerState.CleaningStep.constructor | components/dashboard/cleaning-step-enhanced.tsx:72-75 | the step starts with the given data, no edit buffers, no page state and not loading |
| LedgerState.CleaningStep.HandleCustomEdit | components/dashboard/cleaning-step-enhanced.tsx:99-125 | the response becomes the custom-edited one (unchanged for a blank value), and the edit buffers are kept |
| LedgerState.CleaningStep.HandleRevertToSuggestion | components/dashboard/cleaning-step-enhanced.tsx:127-147 | the member's override is dropped and its edit-buffer key deleted |
| LedgerState.CleaningStep.HandleStartEdit | components/dashboard/cleaning-step-enhanced.tsx:149-155 | the member's buffer opens with the value currently shown |
| LedgerState.CleaningStep.HandleEditInput | components/dashboard/cleaning-step-enhanced.tsx:370-374 | typing replaces the buffer's text |
| LedgerState.CleaningStep.HandleCancelEdit | components/dashboard/cleaning-step-enhanced.tsx:157-164 | the member's buffer is closed and the ledger is unchanged |
| LedgerState.CleaningStep.SetCurrentPage | components/dashboard/cleaning-step-enhanced.tsx:80-84 | the tab's page becomes the chosen page and reads back as it |
| LedgerState.CleaningStep.HandleContinue | components/dashboard/cleaning-step-enhanced.tsx:193-218 | the whole ledger is sent; exactly the reply received is handed on, nothing when the request failed; loading ends false |
| LedgerState.CleaningStep.GetTotalSuggestions | components/dashboard/cleaning-step-enhanced.tsx:166-178 | the loop counts the non-blank members over every cluster of every tab, 0 without data |
| LedgerState.CleaningStep.GetProcessedSuggestions | components/dashboard/cleaning-step-enhanced.tsx:180-191 | missing grouped data throws a TypeError; otherwise the processed count equals the total count |
| LedgerState.CountMembers | components/dashboard/cleaning-step-enhanced.tsx:170-175 | the nested loops compute the sum of non-blank members |
| Export.FindAccepted | components/dashboard/export-step-enhanced.tsx:39 | a found mapping is an accepted mapping of the value, and none is found iff no such mapping exists |
| Export.FindAcceptedFirst | components/dashboard/export-step-enhanced.tsx:39 | the mapping used is the first accepted one for the value |
| Export.CleanRowSpec | components/dashboard/export-step-enhanced.tsx:33-45 | a cleaned row has the original keys; a selected column gets the replacement of its first accepted mapping (user value, else suggestion) or stays; other columns are copied |
| Export.CleanedData | components/dashboard/export-step-enhanced.tsx:31-47 | the loop yields one cleaned row per original row, in order |
| Export.AcceptedCount | components/dashboard/export-step-enhanced.tsx:56 | the accepted count never exceeds the number of mappings |
| Export.StatsFor | components/dashboard/export-step-enhanced.tsx:53-57 | cleaned is at most total, and a column without mappings gives 0/0 |
| Export.CleaningStats | components/dashboard/export-step-enhanced.tsx:49-61 | the loop builds the statistics object of the selected columns |
| Export.StatsSpec | components/dashboard/export-step-enhanced.tsx:49-61 | the statistics have one key per distinct selected column, holding its counts, and no other key |
| Export.TotalChangesSpec | components/dashboard/export-step-enhanced.tsx:117 | the total of changes is the accepted count summed over the distinct selected columns |
| Export.TotalChangesRepeat | components/dashboard/export-step-enhanced.tsx:54 | selecting a column twice does not count it twice |
| Export.TotalChangesNew | components/dashboard/export-step-enhanced.tsx:54 | a newly selected column adds its accepted count to the total |
| Export.QuotedFields | components/dashboard/export-step-enhanced.tsx:71 | a data line has one field per header |
| Export.CsvLines | components/dashboard/export-step-enhanced.tsx:69-72 | the CSV has the header line and one line per row |
| Export.CsvLinesFreeOfBreaks | components/dashboard/export-step-enhanced.tsx:69-72 | without line breaks in names and cells, no CSV line holds one |
| Export.CsvLinesRoundTrip | components/dashboard/export-step-enhanced.tsx:72 | splitting the CSV text at line breaks gives back its lines when no cell holds a line break |
| Export.CsvFieldsRoundTrip | components/dashboard/export-step-enhanced.tsx:71 | splitting a data line at commas gives back its quoted fields when no cell holds a comma or line break |
| Export.AcceptedEntries | components/dashboard/export-step-enhanced.tsx:95-99 | one map entry per accepted mapping, and every accepted mapping appears as original → user value or suggestion |
| Export.AcceptedEntriesSound | components/dashboard/export-step-enhanced.tsx:95-99 | every map entry comes from an accepted mapping |
| Export.CleaningMapSpec | components/dashboard/export-step-enhanced.tsx:92-101 | the map has every column of the cleaning data (selected or not), each holding its accepted entries |
| Export.CsvFileName | components/dashboard/export-step-enhanced.tsx:80 | the CSV name is `cleaned_` followed by the file name |
| Export.TailRun | components/dashboard/export-step-enhanced.tsx:110 | the longest suffix free of `.` and `/` |
| Export.ExtensionDot | components/dashboard/export-step-enhanced.tsx:110 | the match position is a dot followed by at least one character, none of them `.` or `/`; no match means no such dot exists |
| Export.ReplaceExtension | components/dashboard/export-step-enhanced.tsx:110 | the trailing extension, if any, is replaced by `.json`, otherwise the name is kept |
| Export.MapFileNameOfCsv | components/dashboard/export-step-enhanced.tsx:110 | `a.csv` gives `cleaning_map_a.json` |
| Export.MapFileNameOfGz | components/dashboard/export-step-enhanced.tsx:110 | `a.b.gz` gives `cleaning_map_a.b.json`: only the last extension is replaced |
| Suggest.CollapseWhitespace | app/api/get-cleaning-suggestions/route.ts:20 | collapsing never lengthens the text |
| Suggest.CollapseShape | app/api/get-cleaning-suggestions/route.ts:20 | after collapsing only single plain spaces remain, the ends keep whether they were whitespace, and only "" collapses to "" |
| Suggest.CapitaliseWords | app/api/get-cleaning-suggestions/route.ts:21 | capitalising keeps the length |
| Suggest.TitleCase | app/api/get-cleaning-suggestions/route.ts:21 | title-casing keeps the length |
| Suggest.TitleCaseKeepsShape | app/api/get-cleaning-suggestions/route.ts:21 | title-casing keeps whitespace and word characters where they were, changing only letter case |
| Suggest.TitleCaseKeepsSpacing | app/api/get-cleaning-suggestions/route.ts:20-21 | a collapsed trimmed string stays collapsed and trimmed when title-cased |
| Suggest.TitleCaseCasing | app/api/get-cleaning-suggestions/route.ts:21 | every word start is upper case and every other letter lower case |
| Suggest.NormaliseShape | app/api/get-cleaning-suggestions/route.ts:17-21 | a suggestion has no whitespace at its ends, only single spaces inside, and upper-case word starts |
| Suggest.CollapseOfCollapsed | app/api/get-cleaning-suggestions/route.ts:20 | collapsing a collapsed string changes nothing |
| Suggest.TitleCaseIdempotent | app/api/get-cleaning-suggestions/route.ts:21 | title-casing twice is title-casing once |
| Suggest.NormaliseIdempotent | app/api/process/route.ts:102-104 | normalising a suggestion gives the same suggestion |
| Suggest.TitleCaseExample | app/api/get-cleaning-suggestions/route.ts:21 | `o'neil` becomes `O'Neil`: the letter after an apostrophe starts a word |
| Suggest.Candidates | app/api/get-cleaning-suggestions/route.ts:11-15 | the candidates are the first min(cap, d) of the column's d distinct non-blank values, without duplicates |
| Suggest.CandidatesInFirstOccurrenceOrder | app/api/get-cleaning-suggestions/route.ts:11-15 | the candidates keep the order in which the values first occur in the column |
| Suggest.CandidatesComplete | app/api/get-cleaning-suggestions/route.ts:12-15 | below the cap every distinct non-blank value is a candidate |
| Suggest.SuggestionsFrom | app/api/get-cleaning-suggestions/route.ts:16-29 | each proposal is for a candidate, suggests its normal form, differs from it and is not accepted; every candidate the normaliser changes is proposed |
| Suggest.BuildSuggestions | app/api/get-cleaning-suggestions/route.ts:10-32 | the loop builds the column → proposals object |
| Suggest.SuggestionMapSpec | app/api/get-cleaning-suggestions/route.ts:10-32 | one key per requested column, in first-request order, holding its proposals (possibly none), and no other key |
| Suggest.GetCleaningSuggestions | app/api/get-cleaning-suggestions/route.ts:3-38 | the reply is the bare column → proposals object with a cap of 25, or a 500 error when the body cannot be read |
| Process.ProcessPost | app/api/process/route.ts:3-126 | with a category column the reply is the fixture with `useCategory: true`; otherwise per-column proposals with a cap of 20 and `useCategory: false`; a 500 error when the body cannot be read |
| Process.SpellClusterItems | app/api/process/route.ts:11-27 | a fixture cluster of two non-blank members counts two items to review |
| Process.FixtureCategories | app/api/process/route.ts:9-85 | the fixture's tabs are CARS, TECHNOLOGY and HEALTHCARE |
| Process.FixtureItems | app/api/process/route.ts:9-85 | the fixture holds eight members to review |
| Process.FixtureHasNoEdits | app/api/process/route.ts:9-85 | no fixture cluster carries an exception yet |
| Upload.FormatOf | components/upload-step.tsx:42-43 | a found format carries the value looked up and at least one extension |
| Upload.FormatOfSupported | components/upload-step.tsx:42-43 | a format is found exactly for csv, json, txt, xls and tsv |
| Upload.ValidateFile | components/upload-step.tsx:41-55 | a file passes iff the type is known, the lower-cased name ends with one of its extensions and the size is at most 10 MiB |
| Upload.ValidateFileMessages | components/upload-step.tsx:41-55 | the unknown-type message comes first, then the wrong-extension message naming the format, then the size message |
| Upload.UpperCaseNameAccepted | components/upload-step.tsx:45 | `A.CSV` is accepted as a CSV file |
| Upload.SizeLimitExample | components/upload-step.tsx:51-53 | a file one byte over 10 MiB is refused with the size message |
| Upload.ExcelAndUnknownExamples | components/upload-step.tsx:27 | `.xlsx` passes as Excel and an unknown type is refused |
| Upload.AcceptedExtensions | components/dashboard/upload-step-enhanced.tsx:104-105 | the `accept` attribute is never empty and falls back to `.csv` for an unknown type |
| Upload.AcceptedExtensionsExamples | components/dashboard/upload-step-enhanced.tsx:104-105 | Excel accepts `.xls,.xlsx` and TSV `.tsv` |
| Upload.Cells | components/upload-step.tsx:63 | one cell per split piece |
| Upload.BuildRowKeys | components/upload-step.tsx:64-67 | a row's keys are the distinct headers in first-occurrence order |
| Upload.BuildRowValue | components/upload-step.tsx:65-67 | the last header of a name gets the value at its position, or "" when the line is short |
| Upload.BuildRowGet | components/upload-step.tsx:65-67 | headers are assigned in order: the last header's value wins over the ones before it, and other keys keep the value the earlier headers gave them |
| Upload.BuildRowCells | components/upload-step.tsx:66 | every value of a row is one of the line's cells or "" |
| Upload.LineRows | components/upload-step.tsx:62-69 | one row per data line |
| Upload.LineRowsAt | components/upload-step.tsx:62-69 | row i is built from data line i |
| Upload.DelimitedRows | components/upload-step.tsx:58-59 | fewer than two non-blank lines give no rows; otherwise one row per non-blank line after the header |
| Upload.DelimitedRowAt | components/upload-step.tsx:58-71 | row i comes from non-blank line i+1, keyed by the distinct header cells |
| Upload.CellsUnquoted | components/upload-step.tsx:63 | a stripped cell holds no double quote |
| Upload.DelimitedRowsUnquoted | components/upload-step.tsx:61-63 | with quote stripping, no key and no value of a row holds a double quote |
| Upload.ZipRow | components/upload-step.tsx:64-68 | the forEach fills the row described by BuildRow |
| Upload.ZipLines | components/upload-step.tsx:62-69 | the map over the data lines builds one row per line |
| Upload.ParseDelimited | components/upload-step.tsx:57-72 | the reader returns the delimited rows of the text |
| Upload.ParseCsv | components/upload-step.tsx:57-72 | CSV is comma-delimited with trimmed, quote-stripped fields |
| Upload.ParseTsv | components/upload-step.tsx:132-147 | TSV is tab-delimited with fields only trimmed |
| Upload.ParseTxt | components/upload-step.tsx:109-130 | TXT uses a tab if the header line has one, else `;` if it has one, else `,` |
| Upload.TxtWithoutTabOrSemicolonIsCsv | components/upload-step.tsx:114-117 | a TXT file whose header line has no tab or `;` reads exactly as CSV |
| Upload.CellsWithoutQuotes | components/upload-step.tsx:121 | without double quotes, stripping them changes no cell |
| Upload.LineRowsWithoutQuotes | components/upload-step.tsx:120-127 | without double quotes, the TXT and TSV cell cleaning give the same rows |
| Upload.TxtWithTabIsTsv | components/upload-step.tsx:109-147 | a quote-free TXT file with a tab in its header line reads exactly as TSV |
| Upload.ParseJson | components/upload-step.tsx:94-107 | an array is returned as is, a single object or `null` becomes a one-element array, anything else or a syntax error gives "Invalid JSON format" |
| Upload.Objects | components/upload-step.tsx:62-69 | every parsed row is an object record |
| Upload.ParsedFileDispatch | components/upload-step.tsx:77-91 | `xls` is read as CSV, an unknown type throws "Unsupported file type", and the text readers never fail |
| Upload.ParseFile | components/upload-step.tsx:74-92 | the switch returns the dispatched reader's result |
| Upload.NumericValues | components/upload-step.tsx:160 | each value passing the numeric test is kept as many times as it occurs, and no other value is kept |
| Upload.Profile | components/upload-step.tsx:149-178 | the profile names the header; missing plus non-blank equals the row count; unique is the distinct count; samples are the first five distinct values |
| Upload.ProfileSamples | components/upload-step.tsx:155-176 | the samples are distinct non-blank values of the column |
| Upload.ProfileClassification | components/upload-step.tsx:159-169 | numeric iff more than 80% are numeric; else categorical iff fewer than 50% and fewer than 20 are distinct; problematic iff text and more than 70% are distinct |
| Upload.AllBlankColumn | components/upload-step.tsx:159-169 | a column with no non-blank value is text, not problematic, and all missing |
| Upload.ProblematicIsText | components/upload-step.tsx:169 | a problematic column is a text column with at least one distinct value |
| Upload.RowsOf | components/upload-step.tsx:154 | one row per record |
| Upload.AnalyzeColumns | components/upload-step.tsx:149-180 | no data gives no columns, one profile per key of the first row, and a runtime error exactly when a `null` record is read |
| Upload.AnalyzeObjects | components/upload-step.tsx:149-180 | the rows of a delimited file are always analysed without error |
| Upload.ProcessOutcome | components/upload-step.tsx:182-200 | what is handed on always holds data and carries the file and its type |
| Upload.NoDataOutcomes | components/upload-step.tsx:189-190 | text with fewer than two non-blank lines, or an empty JSON array, is reported as "No valid data found in the file." |
| Upload.NullDocumentOutcome | components/upload-step.tsx:96-101 | a JSON `null` passes the reader and fails in the analysis |
| Upload.DelimitedUploads | components/upload-step.tsx:182-194 | a delimited file with a header line and a data line always reaches `onFileUpload` |
| Upload.UploadStep.constructor | components/upload-step.tsx:18-21 | the step starts on CSV, not dragging, not uploading and without error |
| Upload.UploadStep.SelectFileType | components/upload-step.tsx:18 | the chosen type is stored |
| Upload.UploadStep.HandleDrag | components/upload-step.tsx:31-39 | enter and over highlight the drop zone, leave clears it, and other events change nothing |
| Upload.UploadStep.ProcessFile | components/upload-step.tsx:182-200 | the upload is handed on on success, the error is set on failure, and uploading ends false |
| Upload.UploadStep.HandleFileSelect | components/upload-step.tsx:219-230 | with no file nothing changes; a refused first file sets its validation message and is not processed; an accepted one is processed, so uploading ends false and the upload is handed on, or the processing error is set |
| Upload.DropOutcome | components/upload-step.tsx:202-217 | with the selected type read: no outcome without a file; a refused first file gives its validation message; otherwise the processing outcome, carrying the selected type |
| Upload.DropOutcomeAsWritten | components/upload-step.tsx:202-217 | the handler as written behaves as if the initial type "csv" were selected, whatever is selected |
| Upload.StaleDropRefusesSelectedFormat | components/upload-step.tsx:202-217 | with JSON selected, a dropped `data.json` that JSON accepts is refused with "Please upload a CSV file (.csv)." |
| Upload.UploadStep.HandleDrop | components/upload-step.tsx:202-217 | the drop zone is cleared; then the same cases as `DropOutcome` for the type selected now: nothing without a file, the validation message for a refused first file, otherwise the processing outcome |
| UploadEnhanced.RowLimitOf | components/dashboard/upload-step-enhanced.tsx:150-153 | a limit that is set is at least 1 |
| UploadEnhanced.RowLimitText | components/dashboard/upload-step-enhanced.tsx:149 | the input is empty iff no numeric limit is set |
| UploadEnhanced.RowLimitCases | components/dashboard/upload-step-enhanced.tsx:150-153 | empty input unsets the limit; a positive number is kept and shown; a negative one becomes 1; zero or a non-number gives `NaN`, shown as empty |
| UploadEnhanced.RowLimitTextRoundTrip | components/dashboard/upload-step-enhanced.tsx:149 | the shown limit reads back as the same number |
| UploadEnhanced.ErrorAfter | components/dashboard/upload-step-enhanced.tsx:62-68 | a message is shown iff the hand-off threw |
| UploadEnhanced.UploadStepEnhanced.constructor | components/dashboard/upload-step-enhanced.tsx:18-22 | the step starts on CSV, with no limit, not dragging, not uploading and without error; the memoised drop handler sees no limit |
| UploadEnhanced.UploadStepEnhanced.SelectFileType | components/dashboard/upload-step-enhanced.tsx:122 | the chosen type is stored, and a changed type re-creates the drop handler over the current limit |
| UploadEnhanced.UploadStepEnhanced.SetRowLimit | components/dashboard/upload-step-enhanced.tsx:150-153 | the typed text sets the limit as RowLimitOf says |
| UploadEnhanced.UploadStepEnhanced.HandleDrag | components/dashboard/upload-step-enhanced.tsx:32-40 | enter and over highlight, leave clears, and other events change nothing |
| UploadEnhanced.UploadStepEnhanced.ProcessFile | components/dashboard/upload-step-enhanced.tsx:58-69 | file, type and the limit of the render that made the function are handed on; the error holds the thrown message, or the fallback for a non-Error; uploading ends false |
| UploadEnhanced.UploadStepEnhanced.HandleFirstFile | components/dashboard/upload-step-enhanced.tsx:91-102 | only the first file is looked at; a refused file sets the error and is not handed on; an accepted one is handed on with the given limit |
| UploadEnhanced.UploadStepEnhanced.HandleFileSelect | components/dashboard/upload-step-enhanced.tsx:91-102 | only the first file is looked at; a refused file sets the error and is not handed on; an accepted one carries the current limit |
| UploadEnhanced.UploadStepEnhanced.HandleDropAsWritten | components/dashboard/upload-step-enhanced.tsx:71-89 | the drop zone is cleared, then the first dropped file is handled like a selected one but carries the limit of the last type change |
| UploadEnhanced.UploadStepEnhanced.HandleDrop | components/dashboard/upload-step-enhanced.tsx:71-89 | the drop zone is cleared, then the first dropped file is handled exactly like a selected one, with the current limit |
| UploadEnhanced.StaleDropLimit | components/dashboard/upload-step-enhanced.tsx:71-89 | on a fresh step, typing 100 and dropping `a.csv` hands on no limit as written and 100 when corrected |
| Preview.TextColumnCount | components/preview-step.tsx:58 | the count is at most the number of columns |
| Preview.ProblematicCount | components/preview-step.tsx:59 | the count is at most the number of columns |
| Preview.CountsSpec | components/preview-step.tsx:58-59 | each count is 0 iff no column qualifies, and the full length iff all do |
| Preview.CountsAppend | components/preview-step.tsx:58-59 | the counts of two lists of columns add up |
| Preview.PreviewData | components/preview-step.tsx:169 | the preview shows the first min(5, n) rows |
| Preview.CellText | components/preview-step.tsx:173 | a cell is never empty: a non-empty value is shown as is, anything else as `-` |
| Preview.PreviewStep.constructor | components/preview-step.tsx:23-24 | nothing selected and no domain |
| Preview.PreviewStep.HandleColumnToggle | components/preview-step.tsx:26-30 | the name flips membership and every other name keeps it |
| Preview.PreviewStep.SelectDomain | components/preview-step.tsx:191 | the chosen domain is stored |
| Preview.PreviewStep.Continue | components/preview-step.tsx:213-216 | a call is made iff at least one column is selected and a domain is chosen, and it carries exactly the selection and the domain |
| PreviewEnhanced.OfType | components/dashboard/preview-step-enhanced.tsx:58-60 | the kept columns are exactly the input columns of the type |
| PreviewEnhanced.ShortText | components/dashboard/preview-step-enhanced.tsx:61 | the kept columns are exactly the selectable short-text columns of the input |
| PreviewEnhanced.Names | components/dashboard/preview-step-enhanced.tsx:93 | the i-th name is the i-th column's name |
| PreviewEnhanced.ImportantCategory | components/dashboard/preview-step-enhanced.tsx:65 | the result is the first important categorical column, and none is found iff no column is one |
| PreviewEnhanced.FindColumn | components/dashboard/preview-step-enhanced.tsx:75 | a found column has the name, and none is found iff no column has it |
| PreviewEnhanced.DisplayOrderSpec | components/dashboard/preview-step-enhanced.tsx:70 | the cards show every column exactly once, categorical first, then numeric, then text |
| PreviewEnhanced.DisplayOrder | components/dashboard/preview-step-enhanced.tsx:70 | the cards hold exactly the columns |
| PreviewEnhanced.AfterToggle | components/dashboard/preview-step-enhanced.tsx:74-82 | the selection toggles only for a short-text column, and is unchanged for any other or unknown name |
| PreviewEnhanced.SelectAllVisible | components/dashboard/preview-step-enhanced.tsx:84-96 | with every visible short-text column selected they are all removed and the rest stays; otherwise the selection becomes the old one plus the visible ones |
| PreviewEnhanced.SelectAllRemoves | components/dashboard/preview-step-enhanced.tsx:87-91 | when all visible short-text columns are selected, they are removed and every other selected column stays |
| PreviewEnhanced.SelectAllAdds | components/dashboard/preview-step-enhanced.tsx:92-95 | otherwise the visible ones are added without duplicates, and the prior selection stays a prefix |
| PreviewEnhanced.CategorySelection | components/dashboard/preview-step-enhanced.tsx:98-109 | choosing the category approach with an important category gives the name of every short-text column followed by that category; any other choice empties the selection |
| PreviewEnhanced.CategorySelectionSpec | components/dashboard/preview-step-enhanced.tsx:101-104 | the names before the last are selectable columns, and the category added is not one a click could toggle |
| PreviewEnhanced.ImportantImpliesCategorical | components/dashboard/preview-step-enhanced.tsx:65-67 | an important category implies that categorical columns exist |
| PreviewEnhanced.ContinueDisabled | components/dashboard/preview-step-enhanced.tsx:572-576 | continue is enabled iff something is selected, nothing is loading, and an approach is chosen whenever an important category exists |
| PreviewEnhanced.ContinueWith | components/dashboard/preview-step-enhanced.tsx:116-120 | the category column is passed iff the approach is true and an important category exists, and then it is that category's name |
| PreviewEnhanced.MatchingColumns | components/dashboard/preview-step-enhanced.tsx:155-158 | the kept columns are exactly the input columns whose name contains the term, ignoring case |
| PreviewEnhanced.MatchingRows | components/dashboard/preview-step-enhanced.tsx:161-168 | the search never adds rows |
| PreviewEnhanced.MatchingRowsSpec | components/dashboard/preview-step-enhanced.tsx:161-168 | a row is shown iff it is in the data and the term is empty or a matching column's value contains it, ignoring case |
| PreviewEnhanced.EmptySearchShowsAll | components/dashboard/preview-step-enhanced.tsx:155-168 | an empty search shows every column and every row |
| PreviewEnhanced.PreviewStepEnhanced.constructor | components/dashboard/preview-step-enhanced.tsx:47-52 | the step starts with the initial selection, no search, page 1, not loading, no approach chosen and column page 1 |
| PreviewEnhanced.PreviewStepEnhanced.HandleColumnToggle | components/dashboard/preview-step-enhanced.tsx:74-82 | the selection becomes AfterToggle of the old one |
| PreviewEnhanced.PreviewStepEnhanced.HandleSelectAllShortText | components/dashboard/preview-step-enhanced.tsx:84-96 | the selection is updated with the short-text columns visible on the column page |
| PreviewEnhanced.PreviewStepEnhanced.HandleCategoryApproachSelection | components/dashboard/preview-step-enhanced.tsx:98-109 | the approach is recorded and the selection becomes CategorySelection |
| PreviewEnhanced.PreviewStepEnhanced.AutoSelectCategoryApproach | components/dashboard/preview-step-enhanced.tsx:179-184 | with an important category and no choice yet, the category approach is chosen; otherwise nothing changes |
| PreviewEnhanced.PreviewStepEnhanced.SetSearchTerm | components/dashboard/preview-step-enhanced.tsx:173-176 | a new search term sends the rows back to page 1 |
| PreviewEnhanced.PreviewStepEnhanced.PreviousPage | components/dashboard/preview-step-enhanced.tsx:432-433 | the page goes down by one, never below 1 |
| PreviewEnhanced.PreviewStepEnhanced.NextPage | components/dashboard/preview-step-enhanced.tsx:440-441 | the page goes up by one, never past the last page |
| PreviewEnhanced.PreviewStepEnhanced.SetColumnPage | components/dashboard/preview-step-enhanced.tsx:196-222 | the column page becomes the target clamped to 1..pages |
| PreviewEnhanced.PreviewStepEnhanced.HandleContinue | components/dashboard/preview-step-enhanced.tsx:111-127 | the continue arguments are those of ContinueWith, and loading ends false |
| Workflow.ShownViews | components/dashboard/cleanlify-workflow.tsx:158-190 | at most one view is drawn |
| Workflow.OneViewPerStep | components/dashboard/cleanlify-workflow.tsx:158-190 | exactly one view is drawn iff the step is 1..4, a different one for each step |
| Workflow.Progress | components/dashboard/cleanlify-workflow.tsx:30 | progress is 25 times the step, and 100 exactly on the last step |
| Workflow.CleanlifyWorkflow.Circles | components/dashboard/cleanlify-workflow.tsx:126-134 | on step s the lit circles are exactly the first s, so s of the four are lit |
| Workflow.CleanlifyWorkflow.Connectors | components/dashboard/cleanlify-workflow.tsx:140-142 | the connector after a step is lit iff the next step's circle is |
| Workflow.CleaningColumns | components/dashboard/cleanlify-workflow.tsx:172 | only selected columns are handed to the cleaning step |
| Workflow.CleaningColumnsSpec | components/dashboard/cleanlify-workflow.tsx:172 | a column is handed on iff it was uploaded and its name is selected |
| Workflow.CleaningColumnsKeepOrder | components/dashboard/cleanlify-workflow.tsx:172 | the filter keeps upload order: two runs of columns are filtered run by run |
| Workflow.ExportFileName | components/dashboard/cleanlify-workflow.tsx:186 | the export file name is never empty, and is the uploaded file's name when it has one |
| Workflow.CleanlifyWorkflow.constructor | components/dashboard/cleanlify-workflow.tsx:21-28 | the wizard starts on step 1 with every other field empty |
| Workflow.CleanlifyWorkflow.HandleFileUpload | components/dashboard/cleanlify-workflow.tsx:32-60 | the file and type are kept; a successful upload stores columns and rows and moves to step 2; a failure leaves them and the step |
| Workflow.CleanlifyWorkflow.HandlePreviewContinue | components/dashboard/cleanlify-workflow.tsx:62-91 | selection and domain are kept and the request carries them with the rows; success stores the suggestions and moves to step 3; failure leaves the step |
| Workflow.CleanlifyWorkflow.HandleCleaningContinue | components/dashboard/cleanlify-workflow.tsx:93-96 | the reviewed mappings replace the suggestions and step 4 opens |
| Workflow.CleanlifyWorkflow.HandleRestart | components/dashboard/cleanlify-workflow.tsx:98-107 | all eight fields go back to their initial values |
| Workflow.CleanlifyWorkflow.HandleBack | components/dashboard/cleanlify-workflow.tsx:109-113 | one step back when past step 1; never below 1 |
| Workflow.CleanlifyWorkflow.View | components/dashboard/cleanlify-workflow.tsx:158-190 | the view on screen is the single view drawn for the step |
| Dashboard.CleansOf | components/dashboard/dashboard-overview.tsx:53 | a user without cleans has an empty list |
| Dashboard.TotalValuesAppend | components/dashboard/dashboard-overview.tsx:64-66 | the total of two lists of cleans is the sum of their totals |
| Dashboard.RowFigureBounded | components/dashboard/dashboard-overview.tsx:188 | no row shows more values than the "Total Values" card |
| Dashboard.AverageAcceptance | components/dashboard/dashboard-overview.tsx:58-61 | the average is 0 without cleans |
| Dashboard.AverageBounded | components/dashboard/dashboard-overview.tsx:58-61 | the average lies between the smallest and the largest ratio |
| Dashboard.Insert | components/dashboard/dashboard-overview.tsx:82-83 | insertion adds exactly the one clean |
| Dashboard.InsertSorted | components/dashboard/dashboard-overview.tsx:82-83 | inserting into a newest-first list keeps it newest first |
| Dashboard.SortByDate | components/dashboard/dashboard-overview.tsx:82-83 | the sorted list is a permutation of the cleans |
| Dashboard.SortByDateSorted | components/dashboard/dashboard-overview.tsx:82-83 | the sorted list is newest first |
| Dashboard.RecentCleans | components/dashboard/dashboard-overview.tsx:82-84 | at most six cleans are listed, and fewer only when fewer exist |
| Dashboard.RecentCleansSpec | components/dashboard/dashboard-overview.tsx:82-84 | the recent cleans are newest first, taken from the user's cleans, and any clean left out is no newer than every one shown |
| Dashboard.CleanIndex | components/dashboard/dashboard-overview.tsx:189-191 | the index is -1 iff no clean has the file name and date, otherwise the first such clean |
| Dashboard.RecentCleansHaveIndex | components/dashboard/dashboard-overview.tsx:189-191 | every listed clean is found in the user's list |
| Dashboard.DiffInHours | components/dashboard/dashboard-overview.tsx:72 | the hours are the floor of the millisecond difference over an hour |
| Dashboard.AgoAmount | components/dashboard/dashboard-overview.tsx:74-79 | under 24 hours the hours are shown; otherwise the whole days, at least 1 |
| Dashboard.AgoTextReadsBack | components/dashboard/dashboard-overview.tsx:75-78 | the text starts with the amount in decimal, then a space and the unit, `d` iff in days |
| Dashboard.AgoTextPlural | components/dashboard/dashboard-overview.tsx:75-78 | the unit is plural exactly when the amount is not 1 |
| Dashboard.TimeAgoSpec | components/dashboard/dashboard-overview.tsx:69-80 | hours under a day, whole days from 24 hours on, and a plural unit iff the amount is not 1 |
| CleanSummary.InitialColumn | components/dashboard/clean-summary-view.tsx:41 | the picker opens on the first summary's column, or "" without summaries |
| CleanSummary.SelectedSummary | components/dashboard/clean-summary-view.tsx:43 | a summary is chosen iff the clean has summaries |
| CleanSummary.ColumnsOf | components/dashboard/clean-summary-view.tsx:43 | the i-th column is the i-th summary's column |
| CleanSummary.SelectedSummarySpec | components/dashboard/clean-summary-view.tsx:43 | the chosen summary is the first one for the column, else the first summary |
| CleanSummary.OpensOnFirstSummary | components/dashboard/clean-summary-view.tsx:41-43 | the page opens on the first summary |
| CleanSummary.ChartData | components/dashboard/clean-summary-view.tsx:46-55 | no bars without a summary; otherwise six bars in the fixed order of methods |
| CleanSummary.ChartTotal | components/dashboard/clean-summary-view.tsx:46-55 | the bars add up to the values the six methods cleaned |
| CleanSummary.ModeTitle | components/dashboard/clean-summary-view.tsx:74 | an empty mode throws; otherwise the title is the mode with its first character upper-cased |
| CleanSummary.ModeTitleIdempotent | components/dashboard/clean-summary-view.tsx:74-80 | building a title from a title changes nothing, and the title equals the mode ignoring case |
| CleanSummary.ViewSpec | components/dashboard/clean-summary-view.tsx:101-138 | chart and figures are drawn exactly for a clean with summaries |
| CleanSummary.CleanSummaryView.constructor | components/dashboard/clean-summary-view.tsx:41 | the view starts on the initial column |
| CleanSummary.CleanSummaryView.SelectColumn | components/dashboard/clean-summary-view.tsx:81 | the picked column is stored |
| CleanSummary.CleanSummaryView.Selected | components/dashboard/clean-summary-view.tsx:43 | a summary is shown iff the clean has summaries |
| Js.Distinct | app/api/get-cleaning-suggestions/route.ts:12 | the result has no duplicates and the same elements as the input |
| Js.DistinctInFirstOccurrenceOrder | app/api/get-cleaning-suggestions/route.ts:12 | the distinct values come in the order of their first occurrence |
| Js.Split | components/upload-step.tsx:58 | at least one piece, none holding the separator, and joining them gives back the text |
| Js.SplitJoin | components/dashboard/export-step-enhanced.tsx:70-72 | splitting a join of separator-free parts gives back the parts |
| Js.GetAssign | components/dashboard/export-step-enhanced.tsx:54 | after `o[k] = v`, reading k gives v and every other key reads as before |
| Js.Trim | app/api/get-cleaning-suggestions/route.ts:17 | a trimmed string has no whitespace at either end |
| Js.NatToStringRoundTrip | components/dashboard/dashboard-overview.tsx:75-78 | the decimal rendering of a number reads back as the number |

## Findings

| source | as written | input that shows it | evidently intended | confidence | as-written member | corrected member |
|---|---|---|---|---|---|---|
| components/upload-step.tsx:202-217 | `handleDrop` is wrapped in `useCallback(..., [])`. It keeps the `validateFile` and `processFile` of the first render, and those read `selectedFileType` as the initial "csv". | Select JSON, then drop `data.json`. The step shows "Please upload a CSV file (.csv)." A TSV or TXT file is refused the same way. A dropped `.csv` file is parsed as CSV whatever type is selected. | A drop is validated and parsed against the type selected now, as `handleFileSelect` does. | high, not executed | Upload.DropOutcomeAsWritten, Upload.StaleDropRefusesSelectedFormat | Upload.DropOutcome, Upload.UploadStep.HandleDrop |
| components/dashboard/upload-step-enhanced.tsx:71-89 | `handleDrop` is wrapped in `useCallback(..., [selectedFileType])`. Its `processFile` reads `rowLimit` as it was when the selected type last changed. | Keep the initial CSV type, type 100 as the row limit, then drop `a.csv`. The file is handed on with no limit; picking the same file with the file input hands it on with 100. | A dropped file carries the row limit shown in the input, as a selected file does. | high, not executed | UploadEnhanced.UploadStepEnhanced.HandleDropAsWritten, UploadEnhanced.StaleDropLimit | UploadEnhanced.UploadStepEnhanced.HandleDrop |

## Left out

- The clustering, similarity, knowledge-graph and LLM engine behind `http://localhost:8080`. Its `/apply_cleaning` answer becomes the `reply` parameter of `LedgerState.CleaningStep.HandleContinue`.
- Network requests (`fetch`, `response.ok`, `response.json()`). Each becomes an outcome parameter of the handler that awaits it.
- `file.text()`, `JSON.parse`, `Number(v)`, `Number.parseInt` and `new Date(...)` become parameters.
  - For dates, the ordering of `NaN` times (invalid dates) is not modelled.
- The interleaving of asynchronous handlers. A handler runs to completion. The intermediate `uploading`/`isLoading` state between `await`s is visible only as the value it ends with.
- `localStorage`, the router, `handleSeeSummary`, `handleRefreshClick` and the `isRefreshing` flag are browser side effects with no rule worth stating.
- `app/api/upload-file/route.ts`, the login page, profile page, sidebar and layout are not part of this model.
- JSX presentation: icons, colours, badge variants, the cluster expand/collapse flags and the column-section grouping.
- Upload.ProfileClassification: compares 70% by exact rational arithmetic. JavaScript computes `n * 0.7` in floating point, so a column with exactly 70% distinct values (for example 7 of 10) may be flagged differently.
- Dashboard.AverageAcceptance: does not model the rounding of `toFixed(2)`. The unrounded mean is what is stated.
- Dashboard.SortByDate: order and permutation are proved. The stability of `Array.prototype.sort` (equal times keep their order) is built into the definition but not stated as a lemma.
- Js.ToLower and Js.UpperChar change only ASCII letters. `toLowerCase`/`toUpperCase` of other scripts (for example `ß` → `SS`) are not modelled.
- `Object.keys` orders integer-like keys first. The model keeps plain insertion order for every key.
- Engine-specific `TypeError` texts become one fixed message.
- JSON values that are not strings inside records are not modelled: rows hold string values only. Records in a JSON array that are neither objects nor `null` are not modelled either.
- The props the wizard passes do not match the steps' signatures (for example the enhanced upload step's third `rowLimit` argument). Each step is modelled against its own signature.
- Dashboard summary figures are modelled as natural numbers.
- `handleCustomEdit` and `handleRevertToSuggestion` copy the response shallowly (`{...prev}`) and then change the cluster object that the old and the new response share. The model builds a new response value instead, so the old response is not seen to change.
- Upload.ParseJson: the fields of a parsed object are not constrained to distinct keys. `JSON.parse` keeps the last value of a repeated key; the document parameter stands for what it returned.
