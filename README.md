# minis: a verified model of the document-extraction core

This project models the pure and state-machine logic of the single-page
browser tools in the `minis` repository and proves what that logic promises.
It covers five areas.

- **The PDF data extractor.** This covers:
  - the default `generalDocumentParser`, which turns one metadata match and the
    table matches into a 7-column row stream;
  - the GST Challan and IDBI Bank Statement post-processors;
  - the registry of custom parsers: the config-block parser, upsert, remove,
    the bulk template import, and the combined parser list;
  - the classifier that picks the first parser whose keywords all occur in the
    text;
  - the consolidation of metadata records into one table per document type;
  - the `FileProcessor` batch state machine, with its password suspension,
    submit and skip paths.
- **The OCR tool.** The lenient page-range parser, the page-selection step, and
  the application reducer.
- **The regex toolbox.** Token highlighting by greedy non-overlapping span
  selection, the pass rule for test cases, the test-case list operations, and
  the escaping of the text in the generated code snippet.
- **The table extractor.** Row assembly (grouping items into lines by height,
  slicing from the trigger line, bucketing by nearest anchor), its reducer, the
  page-by-page dispatch sequence of `extractFromPdf`, and `copyTSV`.

Regular expressions, PDF text extraction and clocks are outside the model. Each
is a parameter: an `Engine` holding regex compile and match results, an
extraction oracle `Env.extract` from file and password to text or a named error,
the detected column anchors, and the `Date.now()` value. Integers and
coordinates are unbounded `int` and exact `real`.

Modules follow the program's files:

- `Common`, `Text` and `Sorting` hold the shared JavaScript helpers (`trim`,
  `split`/`join`, `replace`, `parseInt`, the sort).
- `Patterns` holds the regex oracle.
- `DataExtractor` models `data-extractor.js`.
- `Registry`, `AppStore`, `Classifier`, `Consolidation`, `Batch`, `BatchLaws`
  and `Processing` model `pdf-data-extractor.js`. `Processing.FileProcessor` is
  a class; its methods are proved against the functions in `Batch`.
- `PageRange` and `OcrState` model `ocr-pdf.js`.
- `Highlight` and `Toolbox` model `regex-toolbox.js`.
- `TableRows` and `TableState` model `pdf-table-extractor.js`.

In these places the model follows what the code does:

- When text extraction fails, or the one-shot pattern is empty or invalid, no
  document record is pushed. The file is only passed over.
- `start` receives the password that the caller saved in the previous batch.
- Submitting a password without "use for subsequent files" clears the saved
  password.
- The template import (`saveTemplates`) does not validate patterns and accepts
  an empty keyword list.
- The extractor receives the text with only triple spaces collapsed. The
  keyword check uses the fully whitespace-collapsed text.

## Model

| member | source | states |
|---|---|---|
| DataExtractor.Fit | pages/data-extractor.js:277-278 | a header is padded with "" to exactly 7 entries, keeping the entries it has |
| DataExtractor.FitWidth | pages/data-extractor.js:290-291 | the padding loop plus `slice(0,7)` give exactly the 7-wide padded or truncated row |
| DataExtractor.CleanCell | pages/data-extractor.js:284 | a cleaned cell never contains a comma |
| DataExtractor.MapGroupsFinds | pages/data-extractor.js:240-243 | each group name of the match is found among the fields with its value mapped, and no other name is |
| DataExtractor.GeneralDocumentParser | pages/data-extractor.js:226-300 | the imperative parser computes exactly the specified row stream and metadata |
| DataExtractor.GeneralLayout | pages/data-extractor.js:252-292 | the rows are the metadata rows, then the header row, then one fitted row per table match, in match order |
| DataExtractor.GeneralRowAt | pages/data-extractor.js:280-292 | each row after the header is the padded row of the table match at that position |
| DataExtractor.HeaderWidth | pages/data-extractor.js:252-278 | the header row is 7 wide iff the table pattern matched; otherwise it is `[]` and there are no data rows |
| DataExtractor.DataRowsShape | pages/data-extractor.js:280-292 | every data row is 7 wide; cell i is the cleaned i-th group value (named or positional) or "" |
| DataExtractor.MatchRowShape | pages/data-extractor.js:280-292 | one match gives a 7-wide row of comma-free cleaned values, padded with "" |
| DataExtractor.HeaderNames | pages/data-extractor.js:264-276 | named groups give capitalised names; positional groups give "Col 1".."Col n" for the first match's group count |
| DataExtractor.HeaderNameShape | pages/data-extractor.js:267-269 | a header name upper-cases the first character and replaces every later `_`, leaving other characters |
| DataExtractor.ColNamesDistinct | pages/data-extractor.js:271-274 | positional header names are pairwise distinct |
| DataExtractor.MetadataAndRowCount | pages/data-extractor.js:236-299 | one trimmed field per named group in order; one `[key, val, "", …]` row each; row count is fields + 1 + matches |
| DataExtractor.IndependentFailure | pages/data-extractor.js:236-297 | metadata and table results do not depend on each other; a throwing table match leaves the metadata result |
| DataExtractor.GstGrandTotal | pages/data-extractor.js:36-91 | fixed GST headers; one row per match; a comma-free "Grand Total" row is added iff a total matched and no row is already "Total" |
| DataExtractor.GstPieces | pages/data-extractor.js:36-91 | a GST result keeps the metadata keys, puts the fixed headers after the fields and one row per match after them, and ends with the total row when one was added |
| DataExtractor.GrandTotalShape | pages/data-extractor.js:77-85 | the appended total row is 7 wide, starts with "Grand Total" and its amount holds no comma |
| DataExtractor.IdbiShape | pages/data-extractor.js:140-180 | always exactly "Account Name" and "Account Number" with "N/A" fallbacks; fixed headers; every row 7 wide |
| DataExtractor.IdbiAccountFields | pages/data-extractor.js:143-146 | each account field is "N/A" exactly when it is missing, empty or already "N/A" |
| DataExtractor.IdbiRowShape | pages/data-extractor.js:162-175 | a `Dr.` amount gets a leading "-"; amount and balance lose their commas; the row is 7 wide |
| Registry.LastValue | pages/pdf-data-extractor.js:156 | the value found for a key comes from a piece with that key; none is found only when no piece has it |
| Registry.AssignAllLastWins | pages/pdf-data-extractor.js:156 | the last duplicate key wins; absent keys keep the defaults |
| Registry.ParseConfigBlockFields | pages/pdf-data-extractor.js:143-157 | name and matches default to "", metadata and table to undefined; each takes its last piece's value |
| Registry.PieceSplitsAtFirstColon | pages/pdf-data-extractor.js:152-155 | the key is the colon-free text before the first ":", and key + ":" + value rebuilds the piece |
| Registry.PieceOfKeyValue | pages/pdf-data-extractor.js:152-155 | a piece `key:value` with a colon-free key reads back as exactly (key, value), untrimmed |
| Registry.ParseFormText | pages/pdf-data-extractor.js:143-157 | a block of four `;;\n`-separated entries parses back to exactly those four values |
| Registry.PiecesOfEntries | pages/pdf-data-extractor.js:151-155 | text that splits into entries yields exactly their (key, value) pieces |
| Registry.FormDefaultParses | pages/pdf-data-extractor.js:1728 | the form's default text parses to empty name and matches and empty patterns |
| Registry.KeywordsShape | pages/pdf-data-extractor.js:979 | every keyword is non-empty, trimmed, comma-free and occurs in the matches text |
| Registry.FindByName | pages/pdf-data-extractor.js:996 | finds the first custom parser with that name, or reports that none has it |
| Registry.AddRejects | pages/pdf-data-extractor.js:946-993 | the list is stored iff the block is acceptable; each rejection reports its own error message |
| Registry.AddUpserts | pages/pdf-data-extractor.js:995-1019 | an existing name is replaced at its index with length unchanged ("updated"); a new name is appended ("added"); other entries are kept |
| Registry.AddKeepsNamesDistinct | pages/pdf-data-extractor.js:995-1009 | upsert keeps custom parser names distinct, and the new parser is the one found under its name |
| Registry.RemoveDeletesIndex | pages/pdf-data-extractor.js:1022-1031 | remove deletes exactly index i and keeps the order of the rest |
| Registry.RemoveUndoesAdd | pages/pdf-data-extractor.js:995-1026 | removing the last entry after adding a new name restores the original list |
| Registry.SplitBlankLines | pages/pdf-data-extractor.js:1789-1793 | splitting on blank lines always yields at least one block |
| Registry.SaveTemplates | pages/pdf-data-extractor.js:1784-1826 | the import computes the template parsers of the blocks and reports their count |
| Registry.TemplateParsersShape | pages/pdf-data-extractor.js:1797-1814 | each imported parser has a name and defined patterns, and comes from one of the blocks |
| Registry.TemplateParsersAppend | pages/pdf-data-extractor.js:1797-1814 | importing two runs of blocks gives the first run's parsers followed by the second's, so the list is in block order |
| Registry.TemplateParsersOne | pages/pdf-data-extractor.js:1797-1814 | one block contributes exactly its own parser, or nothing |
| Registry.TemplatesReplaceAll | pages/pdf-data-extractor.js:1796-1816 | every block of the text that yields a parser is in the imported list |
| Registry.TemplateParsersComplete | pages/pdf-data-extractor.js:1797-1814 | no block that yields a parser is dropped |
| Registry.AllParsers | pages/pdf-data-extractor.js:936-942 | custom parsers come first, each with its name suffixed " (Custom)", its keywords, its metadata and table patterns as sources and the general kind; then the built-in parsers unchanged |
| Registry.ListedBefore | pages/pdf-data-extractor.js:936-942 | each custom parser is listed with the suffixed name, its keywords, its patterns as sources and the general kind, before the given list, which is kept unchanged |
| Registry.ToggleExpandFlipsOne | pages/pdf-data-extractor.js:96-103 | toggling flips only that parser's expanded flag; toggling twice restores every flag |
| Registry.ParserReducerToggles | pages/pdf-data-extractor.js:79-119 | the form toggle is an involution; close hides the form; modal toggles take the given value or flip; unknown actions keep the state |
| Registry.HandleAddChanges | pages/pdf-data-extractor.js:1011-1012 | a rejected block leaves the parser state; an accepted one stores the upserted list and hides the form |
| Registry.Absorb | pages/pdf-data-extractor.js:1011-1012 | the dispatches after `addCustomParser` returns: store the list and close the form on success, nothing on an error; stated by HandleAddChanges |
| Registry.SaveSteps | pages/pdf-data-extractor.js:1816-1818 | the three dispatches after an import replace the list, hide the modal and clear the text |
| Registry.HandleSaveTemplates | pages/pdf-data-extractor.js:1784-1826 | the import replaces the custom list with the parsed templates, closes the modal and reports success |
| AppStore.UpdatePasswordModalMerges | pages/pdf-data-extractor.js:459-463 | the modal update merges exactly the given fields and changes nothing else |
| AppStore.MergeLaws | pages/pdf-data-extractor.js:459-463 | merging is idempotent, and two merges equal one merge of the combined patch |
| AppStore.StartFileProcessingResets | pages/pdf-data-extractor.js:476-485 | starting clears results, metadata, saved password and status; the modal and view toggles are kept |
| AppStore.FinalizeProcessingPublishes | pages/pdf-data-extractor.js:468-488 | finalising publishes the documents, metadata and status and shows the results; unknown actions keep the state |
| Classifier.FirstClaim | pages/pdf-data-extractor.js:689-719 | the first parser that claims the text, or none exactly when no parser claims it |
| Classifier.Classify | pages/pdf-data-extractor.js:689-718 | the classification loop returns the first claiming parser |
| Classifier.FirstIsUnique | pages/pdf-data-extractor.js:689-718 | any claiming parser with no earlier claimer is the one chosen |
| Classifier.CustomBeforeBuiltIn | pages/pdf-data-extractor.js:936-942 | a claiming custom parser always wins over the built-ins |
| Classifier.ClaimsIgnoresCase | pages/pdf-data-extractor.js:694-697 | the auto check ignores the case of text and keywords; an empty keyword list claims anything |
| Classifier.RunParserOutcome | pages/pdf-data-extractor.js:702-711 | a general parser runs the default extractor on its compiled patterns; a pattern that fails to compile throws |
| Consolidation.GroupByType | pages/pdf-data-extractor.js:165-169 | groups are keyed by the distinct document types in first-seen order, each holding its records |
| Consolidation.HeaderKeys | pages/pdf-data-extractor.js:173-177 | the header loop computes the union of field keys |
| Consolidation.GenerateConsolidatedTables | pages/pdf-data-extractor.js:163-197 | the method computes the specified consolidated tables |
| Consolidation.AddAllMembers | pages/pdf-data-extractor.js:173-176 | adding keys to a set keeps earlier order and distinctness, and contains exactly both lists |
| Consolidation.DocTypesExact | pages/pdf-data-extractor.js:165-171 | document types are distinct and are exactly the types that occur |
| Consolidation.DocTypesFirstSeen | pages/pdf-data-extractor.js:165-171 | the types come in first-seen order: the type listed at i occurs before any record of the type listed at a later j |
| Consolidation.GroupExact | pages/pdf-data-extractor.js:166-169 | a group holds exactly the records of its type |
| Consolidation.GroupAppend | pages/pdf-data-extractor.js:166-169 | grouping two runs of records gives the first run's group followed by the second's, so a group keeps list order and multiplicity |
| Consolidation.GroupOne | pages/pdf-data-extractor.js:166-169 | a single record is in the group of its own type and in no other |
| Consolidation.UnionKeysExact | pages/pdf-data-extractor.js:173-177 | header keys are distinct and are exactly the keys that occur in the group |
| Consolidation.UnionKeysFirstSeen | pages/pdf-data-extractor.js:173-177 | header keys come in first-seen order over the records' field names, taken record by record |
| Consolidation.AddAllFirstSeen | pages/pdf-data-extractor.js:165-177 | adding names to an empty insertion-ordered set lists each before any name that first occurs later |
| Consolidation.ConsolidatedShape | pages/pdf-data-extractor.js:163-197 | one table per type; headers are "Source File" plus the key union; one row per record: file name, then each field's text |
| Consolidation.FieldTextLookup | pages/pdf-data-extractor.js:185 | an absent key gives ""; a present key gives its value |
| Common.LookupFinds | pages/pdf-data-extractor.js:185 | a key is absent exactly when no entry has it; a value found is stored under that key |
| Text.RemoveCharCounts | pages/data-extractor.js:284 | removing commas drops exactly the commas and keeps every other character's count |
| Batch.PositionalFinds | pages/pdf-data-extractor.js:662-664 | the i-th positional capture is found under "Group i+1" with its value, and only those position names are present |
| Batch.GroupNamesDistinct | pages/pdf-data-extractor.js:663 | positional group names are pairwise distinct |
| Batch.Step | pages/pdf-data-extractor.js:585-625 | one file appends its records; a password failure suspends without advancing; success counts one more |
| Batch.Pdfs | pages/pdf-data-extractor.js:549-551 | every file kept is a PDF of the list, and the batch is never longer than the list |
| Batch.PdfsAppend | pages/pdf-data-extractor.js:549-551 | filtering a concatenation gives the filtered parts concatenated, so the kept files stay in their order |
| Batch.PdfsOne | pages/pdf-data-extractor.js:549-551 | a single file is kept exactly when its type is `application/pdf` |
| Processing.FileProcessor.constructor | pages/pdf-data-extractor.js:512-516 | a new processor holds the reset state |
| Processing.FileProcessor.Reset | pages/pdf-data-extractor.js:518-529 | reset clears the batch fields |
| Processing.FileProcessor.Start | pages/pdf-data-extractor.js:539-577 | start leaves the state the batch start specifies |
| Processing.FileProcessor.Begin | pages/pdf-data-extractor.js:562-574 | before the first file, start resets the batch, takes the new files and settings, and opens the view |
| Processing.FileProcessor.ProcessNextFile | pages/pdf-data-extractor.js:579-626 | the loop runs the batch to its end or to a suspension, as specified |
| Processing.FileProcessor.ProcessCurrentFile | pages/pdf-data-extractor.js:585-625 | one pass over the current file leaves exactly the state of one batch step, and stops exactly when that step suspends for a password |
| Processing.FileProcessor.AfterContent | pages/pdf-data-extractor.js:597-625 | once the content is processed, success counts the file and advances, a password error opens the modal with an empty input and stops, any other error advances |
| Processing.FileProcessor.RecordSuccess | pages/pdf-data-extractor.js:721-752 | a recognised file's records are absorbed into the batch |
| Processing.FileProcessor.ProcessFileContent | pages/pdf-data-extractor.js:632-766 | one file's outcome and records are exactly the specified content outcome |
| Processing.FileProcessor.ProcessOneShot | pages/pdf-data-extractor.js:644-687 | the one-shot branch's outcome and records are as specified |
| Processing.FileProcessor.ProcessGlobalOneShot | pages/pdf-data-extractor.js:651-687 | a global pattern pushes one metadata record per match, then the success record of the default parser over all matches; a pattern that does not compile or a throwing match ends the file with an error |
| Processing.FileProcessor.ProcessSingleOneShot | pages/pdf-data-extractor.js:678-687 | a non-global pattern runs the default parser with it as the metadata pattern; one that does not compile ends the file with an error |
| Processing.FileProcessor.ProcessClassified | pages/pdf-data-extractor.js:689-765 | the first claiming parser's outcome is recorded; when no parser claims the text a FAILED record is pushed and the file fails |
| Processing.FileProcessor.PushMatchRecords | pages/pdf-data-extractor.js:656-677 | each global match appends one metadata record, in order |
| Processing.FileProcessor.Finalize | pages/pdf-data-extractor.js:768-791 | finalise publishes the collected records |
| Processing.FileProcessor.HandlePasswordSubmit | pages/pdf-data-extractor.js:798-858 | submit leaves the specified state |
| Processing.FileProcessor.AfterRetry | pages/pdf-data-extractor.js:824-857 | after the retry, success counts the file and continues the batch, a rejected password re-prompts with the typed password, any other error continues the batch |
| Processing.FileProcessor.HandlePasswordSkip | pages/pdf-data-extractor.js:860-884 | skip leaves the specified state |
| Processing.FileProcessor.SkipCurrent | pages/pdf-data-extractor.js:860-882 | skip closes the modal, clears the status, records the current file as skipped and advances |
| BatchLaws.ContentOutcome | pages/pdf-data-extractor.js:632-766 | success pushes one "success" record; a failure pushes no metadata and at most one "FAILED" error record; a password failure comes only from extraction; an unknown type is the only failure with a record |
| BatchLaws.SuccessOutcome | pages/pdf-data-extractor.js:721-752 | a recognised file gives exactly one "success" record of its type |
| BatchLaws.OneShotOutcome | pages/pdf-data-extractor.js:644-687 | one-shot never asks for a password; success gives one record; an error gives none |
| BatchLaws.GlobalOutcome | pages/pdf-data-extractor.js:651-687 | a global one-shot pattern never asks for a password; success gives one success record for the file; an error gives no records |
| BatchLaws.SingleOutcome | pages/pdf-data-extractor.js:678-687 | the same for a non-global one-shot pattern |
| BatchLaws.ClassifiedOutcome | pages/pdf-data-extractor.js:689-765 | classification fails with a record exactly when no parser claims the text |
| BatchLaws.OneShotRecords | pages/pdf-data-extractor.js:646-687 | one-shot fails iff the pattern is blank, does not compile, or its global match throws; global mode adds one record per match |
| BatchLaws.SuccessOfGeneral | pages/pdf-data-extractor.js:721-752 | the header is the row after the metadata and the data are the rows after it; a metadata record is added iff there are fields |
| BatchLaws.SuccessOfIdbi | pages/pdf-data-extractor.js:721-752 | an IDBI document always adds its metadata record |
| BatchLaws.StepKeepsCount | pages/pdf-data-extractor.js:596-625 | one step keeps the success count equal to the number of success records |
| BatchLaws.PassedKeepsCount | pages/pdf-data-extractor.js:597-625 | for any outcome with one success record on success and only error records otherwise, a pass keeps the success count equal to the number of success records |
| BatchLaws.RunKeepsCount | pages/pdf-data-extractor.js:579-626 | the whole run keeps that invariant |
| BatchLaws.FinalizePublishes | pages/pdf-data-extractor.js:768-791 | finalising ends the batch, reports "info" exactly when nothing was collected, and changes only the app state |
| BatchLaws.StepEffect | pages/pdf-data-extractor.js:585-625 | a step only extends the collected records; a suspension opens the prompt with an empty input |
| BatchLaws.PassedEffect | pages/pdf-data-extractor.js:585-625 | whatever the outcome, a pass only appends records, keeps the view switches, and when it stops opens the prompt with an empty input |
| BatchLaws.RunEnds | pages/pdf-data-extractor.js:579-626 | a run keeps the batch, never moves back, and ends finished or suspended |
| BatchLaws.OpenedEffect | pages/pdf-data-extractor.js:571-574 | opening a batch clears the results and the saved password; one-shot mode shows the consolidated view |
| BatchLaws.ClosePromptEffect | pages/pdf-data-extractor.js:807-820 | closing the prompt resets the modal, stores the saved password and clears the status |
| BatchLaws.RepromptEffect | pages/pdf-data-extractor.js:834-849 | a wrong password reopens the prompt for the same file with a warning |
| BatchLaws.StartWithoutPdfs | pages/pdf-data-extractor.js:540-560 | a start with no PDF changes only the visibility and status |
| BatchLaws.StartRunsBatch | pages/pdf-data-extractor.js:562-577 | a start with PDFs runs them with the given settings and saved password until finished or suspended |
| BatchLaws.SubmitEmpty | pages/pdf-data-extractor.js:799-805 | an empty password only asks again |
| BatchLaws.RetryOutcome | pages/pdf-data-extractor.js:823-857 | a rejected retry re-suspends on the same file; otherwise the batch moves on |
| BatchLaws.SubmitPassword | pages/pdf-data-extractor.js:798-858 | the saved password becomes the password or ""; a rejected one re-suspends with no record; the count invariant is kept |
| BatchLaws.SkippedEffect | pages/pdf-data-extractor.js:860-881 | skipping closes the prompt and records the file as skipped |
| BatchLaws.SkipRecordsOne | pages/pdf-data-extractor.js:860-884 | skip pushes exactly one "skipped" record for the current file, advances and keeps the saved password |
| BatchLaws.SkipKeepsCount | pages/pdf-data-extractor.js:860-884 | skip keeps the success-count invariant |
| Text.CollapseWhitespace | pages/pdf-data-extractor.js:640 | collapsing whitespace yields empty text only from empty text and keeps a leading non-space |
| Text.CollapseWhitespaceIdempotent | pages/pdf-data-extractor.js:640 | collapsing twice is the same as collapsing once |
| Text.CollapseTripleSpaces | pages/pdf-data-extractor.js:635 | collapsing triple spaces never lengthens the text and leaves text without them unchanged |
| Text.ParseIntOfNatToString | pages/ocr-pdf.js:61 | `parseInt` reads back every decimal numeral |
| Sorting.SortSorted | pages/pdf-table-extractor.js:467 | the sort yields a sequence ordered by the comparison |
| Sorting.Sort | pages/pdf-table-extractor.js:467 | the sort is a permutation of its input |
| Sorting.SortStable | pages/pdf-table-extractor.js:467 | the sort is stable: the elements the comparison calls equal to any given element come out in their input order |
| Sorting.InsertClass | pages/pdf-table-extractor.js:467 | inserting into a sorted sequence puts the new element last among those equal to it and keeps the order of every other class |
| PageRange.PartBounds | pages/ocr-pdf.js:59-80 | an accepted part is a range within 1..maxPage with start ≤ end |
| PageRange.SpanMembers | pages/ocr-pdf.js:71-73 | a range enumerates exactly lo..hi inclusive |
| PageRange.Add | pages/ocr-pdf.js:72 | adding to the page set keeps it duplicate-free and adds exactly that page |
| PageRange.ParsePageRange | pages/ocr-pdf.js:52-83 | the loop with early returns computes exactly the specified page list |
| PageRange.PageListShape | pages/ocr-pdf.js:52-83 | null iff some part is rejected; otherwise strictly ascending, within 1..maxPage, and exactly the pages the parts cover |
| PageRange.SelectionUnion | pages/ocr-pdf.js:58-81 | the selection fails iff some part is rejected; otherwise it is the union of the parts' pages |
| PageRange.OrderFree | pages/ocr-pdf.js:58-81 | the selection does not depend on the order or repetition of parts |
| PageRange.SameParts | pages/ocr-pdf.js:54-82 | two inputs with the same parts give the same result |
| PageRange.RangePart | pages/ocr-pdf.js:59-73 | a valid "a-b" part covers exactly a..b |
| PageRange.SinglePart | pages/ocr-pdf.js:75-79 | a single in-range number covers exactly that page |
| PageRange.LenientPart | pages/ocr-pdf.js:75-79 | a number followed by non-digits, without a dash, reads as that number |
| PageRange.BlankText | pages/ocr-pdf.js:54-56 | blank or comma-only input gives the empty list, not null |
| PageRange.SortedDistinct | pages/ocr-pdf.js:82 | sorting the distinct pages numerically gives an ascending list of the same pages |
| PageRange.SelectionBounds | pages/ocr-pdf.js:64-79 | every selected page lies in 1..maxPage |
| PageRange.RejectedPrefix | pages/ocr-pdf.js:64-79 | once a part is rejected, the whole input is rejected |
| PageRange.AscendingUnique | pages/ocr-pdf.js:82 | there is only one ascending list of a given set of pages |
| PageRange.ParseDigits | pages/ocr-pdf.js:61 | `parseInt` of a digit string is its decimal value |
| OcrState.UpdatePageStatusMerges | pages/ocr-pdf.js:160-167 | the update merges only into pages with that number; other pages and all other fields are unchanged |
| OcrState.UpdatePageStatusIdempotent | pages/ocr-pdf.js:160-167 | applying the same page update twice equals applying it once |
| OcrState.ProcessingErrorEffect | pages/ocr-pdf.js:182-188 | an error sets LOADED, percent 0 and the range-error flag iff it was given as true |
| OcrState.ProcessingCompleteEffect | pages/ocr-pdf.js:176-181 | completion sets COMPLETED with percent 100 and keeps the pages |
| OcrState.ResetForgets | pages/ocr-pdf.js:124-125 | reset gives the same initial state from any state, in PROCESSING mode with no pages |
| OcrState.UnknownKeepsState | pages/ocr-pdf.js:191-192 | an unknown action returns the state unchanged |
| OcrState.SelectPages | pages/ocr-pdf.js:403-429 | the selection loop computes the specified page choice |
| OcrState.ChosenShape | pages/ocr-pdf.js:403-429 | "all" gives 1..maxPage; otherwise the choice fails iff the range is null or empty |
| OcrState.AllPagesAscending | pages/ocr-pdf.js:405-410 | "all" gives an ascending list within 1..maxPage |
| OcrState.BeginJobOutcome | pages/ocr-pdf.js:395-456 | a failed choice keeps LOADED with "Invalid selection." and the range flag; otherwise every chosen page starts "Pending..." |
| Highlight.HighlightText | pages/regex-toolbox.js:73-102 | the imperative highlighter computes the specified segments |
| Highlight.CollectMatches | pages/regex-toolbox.js:76-82 | collecting matches computes the specified candidate list |
| Highlight.KeepGreedy | pages/regex-toolbox.js:85-92 | the greedy loop computes the specified kept spans |
| Highlight.RenderSegments | pages/regex-toolbox.js:93-101 | the rendering loop computes the specified segments |
| Highlight.PushPiece | pages/regex-toolbox.js:96-97 | one kept span adds the plain text before it, when there is any, then the span in its colour |
| Highlight.CollectedMembers | pages/regex-toolbox.js:80 | exactly the non-empty candidates are collected |
| Highlight.ConsideredOrder | pages/regex-toolbox.js:84 | candidates are considered by ascending start, and by descending end at the same start |
| Highlight.KeepChain | pages/regex-toolbox.js:85-92 | kept spans are non-empty, in order and pairwise non-overlapping |
| Highlight.DroppedOverlaps | pages/regex-toolbox.js:85-92 | every dropped candidate overlaps an earlier kept span |
| Highlight.KeptSpans | pages/regex-toolbox.js:84-92 | kept spans are real candidates, strictly ordered and disjoint; zero-length ones are never kept; each dropped one overlaps a kept one |
| Highlight.RenderShows | pages/regex-toolbox.js:93-101 | the rendered segments spell the text and paint exactly the kept spans |
| Highlight.HighlightReconstructs | pages/regex-toolbox.js:73-102 | concatenating the output reproduces the input exactly; empty text gives nothing; no segment is empty |
| Toolbox.PassRule | pages/regex-toolbox.js:150-176 | a case passes iff (matches non-empty) equals expected; a compile error fails every case with no matches; non-global mode has at most one match |
| Toolbox.FindFirst | pages/regex-toolbox.js:180 | `find` returns the first case with that id, or nothing exactly when none has it |
| Toolbox.ActiveCase | pages/regex-toolbox.js:178-181 | the active case is the case of `activeId`, else of the first case |
| Toolbox.AddShowsNewCase | pages/regex-toolbox.js:238-242 | add appends `{text:"", expected:true}` and makes it active when its id is fresh |
| Toolbox.UpdateOnlyThatCase | pages/regex-toolbox.js:244-246 | update changes only the case with that id, and only the given fields |
| Toolbox.WithoutKeeps | pages/regex-toolbox.js:249 | filtering removes exactly the cases with that id and is idempotent |
| Toolbox.RemoveDropsCase | pages/regex-toolbox.js:248-251 | remove filters out the id and clears `activeId` if it was active |
| Toolbox.EscapedStart | pages/regex-toolbox.js:217 | escaping never turns the text's first character into a `{` or removes one |
| Toolbox.EscapeSnippetReadsBack | pages/regex-toolbox.js:217 | the corrected escaping reads back as exactly the original text inside a template literal |
| Toolbox.Snippet | pages/regex-toolbox.js:211-226 | the `snippet` memo as the code builds it: empty for an empty pattern, else the pattern line, then the test text escaped by the code's escaping inside a template literal, then the fixed tail |
| Toolbox.AsWrittenSnippetHoldsText | pages/regex-toolbox.js:211-226 | for text without `\` or carriage returns, the snippet as built starts with the pattern and flags, and its string literal holds exactly the text |
| Toolbox.FixedSnippet | pages/regex-toolbox.js:211-226 | the snippet with the corrected escaping, otherwise built the same way |
| Toolbox.FixedSnippetHoldsText | pages/regex-toolbox.js:211-226 | with the corrected escaping, the literal of the snippet holds exactly any test text, followed by the fixed tail |
| Toolbox.AsWrittenLosesBackslash | pages/regex-toolbox.js:211-226 | for the test text `\`, the snippet as built does not hold that text before the fixed tail |
| Toolbox.AsWrittenAgrees | pages/regex-toolbox.js:217 | without backslashes and carriage returns, the code's escaping equals the corrected one |
| Toolbox.AsWrittenReadsBack | pages/regex-toolbox.js:217 | text without backslashes and carriage returns reads back correctly |
| TableRows.Kept | pages/pdf-table-extractor.js:455-459 | exactly the items whose text is not blank after trimming are kept |
| TableRows.KeptAppend | pages/pdf-table-extractor.js:455-459 | filtering two runs of items concatenates their results, so the filter keeps order and multiplicity |
| TableRows.KeptOne | pages/pdf-table-extractor.js:455-459 | a single item is kept exactly when its string is not blank after trimming |
| TableRows.FindLine | pages/pdf-table-extractor.js:463 | finds the first line whose founding height is within the leniency, or reports there is none |
| TableRows.GroupLines | pages/pdf-table-extractor.js:462-466 | the grouping loop computes the specified lines |
| TableRows.GroupedShape | pages/pdf-table-extractor.js:462-466 | grouping keeps every item exactly once, each line's items are near its height, and line heights stay apart |
| TableRows.FindTrigger | pages/pdf-table-extractor.js:469-473 | finds the first line containing the trigger word, or reports there is none |
| TableRows.FromTriggerSlice | pages/pdf-table-extractor.js:469-476 | rows start at the first trigger line, or at the first line when none has it |
| TableRows.Nearest | pages/pdf-table-extractor.js:480-487 | the chosen anchor is a valid index when anchors exist |
| TableRows.NearestAnchor | pages/pdf-table-extractor.js:480-487 | the distance loop computes the specified anchor |
| TableRows.NearestIsFirstClosest | pages/pdf-table-extractor.js:480-487 | the chosen anchor is at minimum distance and is the lowest such index |
| TableRows.Cells | pages/pdf-table-extractor.js:478-489 | a row has one cell per anchor; with no anchors it has one cell, if the line has items |
| TableRows.BucketRow | pages/pdf-table-extractor.js:478-489 | the bucketing loop computes the specified cells |
| TableRows.CellsGather | pages/pdf-table-extractor.js:478-489 | each cell joins with " ", in item order, the items nearest to that anchor, and is empty iff none is |
| TableRows.LineRows | pages/pdf-table-extractor.js:476-492 | one row per line, each the bucketed cells of that line |
| TableRows.BucketRows | pages/pdf-table-extractor.js:476-492 | the row loop computes the specified rows |
| TableRows.RowWidths | pages/pdf-table-extractor.js:478 | with anchors, every row is as wide as the anchor list |
| TableRows.ExtractPage | pages/pdf-table-extractor.js:455-492 | page assembly computes the specified rows |
| TableRows.PageShape | pages/pdf-table-extractor.js:455-492 | lines are a permutation of the grouped lines in descending height; rows start at the first trigger line; every row is anchor-wide |
| TableRows.ChosenRows | pages/pdf-table-extractor.js:469-492 | rows come from the first line holding the trigger word, or from every line when none does, and with anchors every row has one cell per anchor |
| TableRows.TsvReadsBack | pages/pdf-table-extractor.js:526-528 | splitting the TSV on newlines and tabs gives back every row of every page, in page order |
| TableState.AppendPageEffect | pages/pdf-table-extractor.js:46-59 | page 1 replaces the data with itself and takes defined anchors; any other page appends |
| TableState.StartProcessingEffect | pages/pdf-table-extractor.js:35-43 | start sets processing, clears the error, hides the prompt, and keeps the last file unless a new one is given |
| TableState.StopsProcessing | pages/pdf-table-extractor.js:60-65 | finish, error and password prompt each stop processing |
| TableState.ResetAndUnknown | pages/pdf-table-extractor.js:66-78 | reset restores the initial state; an unknown action keeps the state |
| TableState.CopyStatusMerge | pages/pdf-table-extractor.js:70-74 | the copy status merges the given flags over the old ones |
| TableState.ConfigureOnlyThatField | pages/pdf-table-extractor.js:33-34 | a config action changes only its own field |
| TableState.AppendAll | pages/pdf-table-extractor.js:442-501 | the page loop's dispatches leave exactly the pages read, with the first page's anchors |
| TableState.AppendLater | pages/pdf-table-extractor.js:442-501 | pages after the first are appended in order |
| TableState.ExtractionEnds | pages/pdf-table-extractor.js:397-519 | a successful extraction ends idle, with no error, the file remembered and the prompt hidden |
| TableState.FinishedRun | pages/pdf-table-extractor.js:442-501 | after the page dispatches, finishing leaves the reducer idle with the pages read and their anchors, or the old data when there were no pages, and keeps error, file and prompt flag |
| TableState.ExtractionRecords | pages/pdf-table-extractor.js:397-519 | a successful extraction of a non-empty document holds exactly the pages read and the anchors used |
| TableState.FailedExtraction | pages/pdf-table-extractor.js:506-518 | a password error shows the prompt; another error is shown; a non-Error throw leaves processing on |
| TableState.NoFileNoAction | pages/pdf-table-extractor.js:402 | without a file nothing is dispatched |
| TableState.AnchorChoice | pages/pdf-table-extractor.js:405-420 | provided anchors win; else manual mode uses the manual anchors; auto-detection runs only when none are given and not in manual mode |
| TableState.ReparseAnchors | pages/pdf-table-extractor.js:521-523 | re-parsing uses the last file and the manual anchors |
| TableState.CopyFlag | pages/pdf-table-extractor.js:524-540 | copying sets the "all" flag and the timer clears it, leaving the other flags |
| TableState.TableReducer | pages/pdf-table-extractor.js:30-80 | `reducer`: each action's new state; its effects are stated by AppendPageEffect, StartProcessingEffect, StopsProcessing, ResetAndUnknown, CopyStatusMerge and ConfigureOnlyThatField |
| TableState.Dispatched | pages/pdf-table-extractor.js:397-519 | the actions one `extractFromPdf` call dispatches, in order; their effect is stated by ExtractionEnds, ExtractionRecords, FailedExtraction, NoFileNoAction and AnchorChoice |
| TableState.Reparse | pages/pdf-table-extractor.js:521-523 | `handleReparse`: an extraction of the last file with the manual anchors (ReparseAnchors) |
| TableState.PagesRead | pages/pdf-table-extractor.js:442-501 | the page records the page loop produces; what the reducer keeps of them is stated by AppendAll, AppendLater and ExtractionRecords |
| AppStore.AppReducer | pages/pdf-data-extractor.js:439-489 | `appReducer` of the data extractor; its effects are stated by UpdatePasswordModalMerges, MergeLaws, StartFileProcessingResets and FinalizeProcessingPublishes |
| OcrState.OcrReducer | pages/ocr-pdf.js:122-194 | `appReducer` of the OCR tool; its effects are stated by UpdatePageStatusMerges, ProcessingErrorEffect, ProcessingCompleteEffect, ResetForgets and UnknownKeepsState |
| Registry.ParseConfigBlock | pages/pdf-data-extractor.js:143-157 | `parseConfigBlock`; its fields are stated by ParseConfigBlockFields, PieceOfKeyValue and ParseFormText |
| Registry.AddCustomParser | pages/pdf-data-extractor.js:946-1020 | `addCustomParser`: validation, then upsert by name; stated by AddRejects, AddUpserts and AddKeepsNamesDistinct |
| Registry.RemoveCustomParser | pages/pdf-data-extractor.js:1022-1031 | `removeCustomParser`: the list without that index and an info status naming the parser; stated by RemoveDeletesIndex and RemoveUndoesAdd |
| Registry.ParserReducer | pages/pdf-data-extractor.js:79-119 | `parserReducer`; stated by ParserReducerToggles, ToggleExpandFlipsOne, HandleAddChanges and SaveSteps |
| Registry.TemplateParser | pages/pdf-data-extractor.js:1797-1814 | the parser one imported block contributes, or none; stated by TemplateParsersShape and TemplateParsersComplete |
| Toolbox.TestResults | pages/regex-toolbox.js:149-176 | the `testResults` memo; stated by PassRule |
| Toolbox.AddTestCase | pages/regex-toolbox.js:238-242 | `addTestCase`; stated by AddShowsNewCase |
| Toolbox.UpdateTestCase | pages/regex-toolbox.js:244-246 | `updateTestCase`; stated by UpdateOnlyThatCase |
| Toolbox.RemoveTestCase | pages/regex-toolbox.js:248-251 | `removeTestCase`; stated by RemoveDropsCase |
| Toolbox.EscapeAsWritten | pages/regex-toolbox.js:217 | the code's two global replaces as one pass; compared with the corrected escaping by AsWrittenAgrees, AsWrittenReadsBack and AsWrittenLosesBackslash |
| Highlight.Highlighted | pages/regex-toolbox.js:73-102 | `highlight` once the matches are known: greedy selection then rendering; stated by KeptSpans, RenderShows and HighlightReconstructs |
| Highlight.Render | pages/regex-toolbox.js:93-101 | the output loop over the kept spans; stated by RenderShows |
| PageRange.PageList | pages/ocr-pdf.js:52-83 | the page list `parsePageRange` returns; stated by PageListShape, SelectionUnion and OrderFree |
| TableRows.PageRows | pages/pdf-table-extractor.js:455-492 | the rows assembled for one page; stated by PageShape and ChosenRows |
| TableRows.Tsv | pages/pdf-table-extractor.js:526-528 | the text `copyTSV` writes; stated by TsvReadsBack |
| Consolidation.Consolidated | pages/pdf-data-extractor.js:163-197 | what `generateConsolidatedTables` returns; stated by ConsolidatedShape, DocTypesExact, GroupExact and UnionKeysExact |
| Batch.Run | pages/pdf-data-extractor.js:579-626 | `processNextFile` and its calls of itself; stated by RunKeepsCount and RunEnds |
| Batch.Content | pages/pdf-data-extractor.js:632-766 | `processFileContent`; stated by ContentOutcome, SuccessOutcome, OneShotOutcome and ClassifiedOutcome |
| Batch.Start | pages/pdf-data-extractor.js:539-577 | `start`; stated by StartWithoutPdfs and StartRunsBatch |
| Batch.Submit | pages/pdf-data-extractor.js:798-858 | `handlePasswordSubmit`; stated by SubmitEmpty, RetryOutcome and SubmitPassword |
| Batch.Skip | pages/pdf-data-extractor.js:860-884 | `handlePasswordSkip`; stated by SkipRecordsOne and SkipKeepsCount |

## Left out

- PDF text extraction (pdf.js, `FileReader`, `arrayBuffer`) is an oracle from file and password to text or a named error. Only the password classification is modelled: the name "PasswordException", or "password" in the message.
- Regex compilation, `match`, `matchAll` and `exec` loops are an oracle `Engine`. Matches are abstract datatypes with ordered named or positional groups.
- `localStorage` persistence of parsers, anchors and toolbox state is not modelled; it is I/O.
- Rendering, modals, clipboard, `copyTable`, the detailed table, and the components under pages/components/ and pages/simple-table.js are not modelled; they are UI.
- The OCR scheduler, workers, canvas and jsPDF output, and the rounded progress percent are not modelled. They are concurrency, I/O and floating point.
- Column auto-detection by running averages, in pages/pdf-table-extractor.js:427-439, is a parameter `detected` of the dispatch model. It is floating-point clustering.
- Scale factors and pixel hit-testing in the table extractor are not modelled. Item positions are exact reals.
- The export text of custom parsers, in pages/pdf-data-extractor.js:1680-1685, is not modelled. It joins `name:`, `matches:`, `metadata: ` and `table:` with `\n`, while the import splits a block on `;;\n`, so each exported block reads back as a single `name` entry with no `matches` and is dropped; the space after `metadata:` would also end up in the pattern.
- DataExtractor.RawValue: a group that did not take part in the match is `undefined` in the source's field objects (pages/data-extractor.js:42, pages/pdf-data-extractor.js:659); the model stores `""` for it. The consolidated tables print both as `""` (pages/pdf-data-extractor.js:185), but the difference between a missing and an empty value is not represented.
- TableState.Dispatched: one `extractFromPdf` call's actions are run back to back. The source awaits between them, so a second call or a user action could interleave; that interleaving is not modelled.
- tests/data-parser.test.js reads fields the parsers do not have, so it is not used.
- Object key order is insertion order. JavaScript's integer-like-keys-first order is not modelled.
- Case mapping is ASCII only. Unicode case folding is not modelled.
- `parseInt` is exact on unbounded integers. Precision loss above 2^53 is not modelled.
- Highlight: the in-place `sort` is modelled on values, as an insertion sort of a sequence with the same comparison.
- TableRows.BucketRow: the row array `r` is a sequence the loop reassigns, not an array updated in place.
- The toolbox's debounce and the copy-status timer are not modelled as time. The timer's follow-up dispatch is the next action in the sequence.
- `Date.now()` and `Math.random()` are parameters.
- TableState.Configure: config values are typed. The source's range inputs deliver strings, which the model does not represent.
- TableState.ExtractionRecords: errors raised after the document opens are modelled only at opening. A page that fails to load midway is not modelled.

## Findings

| source | as written | input that shows it | evidently intended | confidence | as-written member | corrected member |
|---|---|---|---|---|---|---|
| pages/regex-toolbox.js:217 | the snippet escapes only backticks and `${` in the test text. It leaves `\` and carriage returns as they are. | test text consisting of a single `\`: the literal becomes `` `\` ``, whose backslash escapes the closing backtick | the generated string literal holds exactly the test text, with backslashes escaped too | not executed | Toolbox.AsWrittenLosesBackslash | Toolbox.FixedSnippetHoldsText |
