# Announcement analysis pipeline — a Dafny model

The system gathers company announcements from the cninfo disclosure site and has a
language model summarise them. A small Express server (`server.js`) edits the project's
files: it writes `config.json` from a form, rewrites the `LLM_PROVIDER` line of `.env`,
replaces the config's `require` prompt, empties directories and moves downloaded PDFs
from `downloads` into `data`. It then runs a pipeline of Python scripts.

Three of those scripts are modelled:

- The title step (`inputJson.py`) takes the text a browser agent extracted for a company
  and normalises it. It cuts the text on the two characters backslash-n and stores the
  pieces that start with the company name as the config's `titles`. Quotes are stripped,
  duplicates are dropped and first occurrences are kept in order.
- The analyser (`callLLM.py`) reads the provider from the environment. It checks the PDF
  and the config's target site, and builds the prompt. For DeepSeek the prompt holds the
  text of every page, or a placeholder for a scanned document. It saves the answer as
  `data/<stem>.md`, for one PDF or for every PDF of `data`.
- Two pagination walkers (`testGPT2.py` and its earlier version `testGPT.py`) print every
  row of an announcement table, page after page. Each clicks the "next" button until it
  finds the last page.

The model has one module per concern:

| module | file | models |
|---|---|---|
| `Wrappers` | wrappers.dfy | `Option` and `Result` |
| `Text` | text.dfy | substring search, `split`, `join`, Python `strip` / JavaScript `trim`, lower-casing |
| `Seqs` | seqs.dfy | order-keeping filters and `list(dict.fromkeys(...))` |
| `Json` | json.dfy | JSON values, field access, JavaScript truthiness |
| `TitleFilter` | title_filter.dfy | the title step of `inputJson.py` |
| `Server` | server.js → server.dfy | the request handlers and the two directory operations |
| `Analyzer` | analyzer.dfy | `callLLM.py` |
| `Dom` | dom.dfy | what the walkers read from the browser: a value, or an exception |
| `PagerWalk` | pager_walk.dfy | `testGPT2.py` |
| `EarlyPagerWalk` | early_pager_walk.dfy | `testGPT.py` |
| `Pipeline` | pipeline.dfy | how the server's run-all job connects the pieces |

Code that changes things step by step is modelled with imperative Dafny, and each such
method is proved against a specification function:

- `clearDirectory` and `movePdfFiles` are methods on a `Directory` class, or over its entry
  map.
- The DeepSeek page loop is the method `GatherText`.
- `process_pdf_files` is the method `ProcessPdfFiles`.
- The two browser loops are `PaginationWalk` methods.

The browser, the model services, the PDF reader, the environment and the file system
become parameters:

- the pages a walker meets;
- the prompt-to-answer functions;
- the page texts;
- the environment map;
- directory listings and maps.

## Model

| member | source | states |
|---|---|---|
| `Text.HasSubstringIffContains` | testGPT2.py:100 | Python's `in` on strings holds exactly when the substring occurs at some index |
| `Text.IndexOf` | server.js:112-114 | the result is an occurrence with none before it; it is `None` exactly when the text does not contain the substring |
| `Text.SplitOn` | inputJson.py:68 | the pieces joined with the separator give back the text; no piece contains the separator; there is at least one piece |
| `Text.SplitWithoutSeparator` | inputJson.py:68 | a text without the separator splits into itself alone |
| `Text.StripLeftDrops` | inputJson.py:73 | left stripping removes a prefix drawn wholly from the character set and stops at a character outside it |
| `Text.StripRightDrops` | inputJson.py:73 | right stripping removes a suffix drawn wholly from the set and stops at a character outside it |
| `Text.StripTrims` | testGPT2.py:63 | `strip` shortens the text; the result is empty exactly when every character is in the set; otherwise it neither starts nor ends with one |
| `Text.Lower` | callLLM.py:29 | lower-casing keeps the length, maps each upper-case ASCII letter to its lower-case letter, leaves no upper-case ASCII letter and changes no other character |
| `Seqs.Filter` | server.js:66-67 | the kept elements are exactly the input elements satisfying the test |
| `Seqs.FilterAppend` | server.js:66-67 | filtering a concatenation filters each part, in order |
| `Seqs.FilterNoDuplicates` | server.js:222-223 | filtering a list without repeats gives one without repeats |
| `Seqs.Dedupe` | inputJson.py:73 | `dict.fromkeys` keeps each element once, loses none, and keeps the order of first occurrences |
| `Json.Field` | server.js:29 | a field is present exactly on an object that has the key, and then it is that key's value |
| `TitleFilter.ContentTextCases` | inputJson.py:58-65 | a string, or a dict's string `text`, normalises to itself; a dict without `text` or any other value is rendered whole; a one-item list is its item's rendering |
| `TitleFilter.MatchingPieces` | inputJson.py:73 | a piece is kept exactly when it is a split piece starting with the company name |
| `TitleFilter.StripQuotes` | inputJson.py:73 | one title per kept piece, the piece with its surrounding `'` removed |
| `TitleFilter.ExtractTitles` | inputJson.py:68-73 | the titles have no repeats, and they are exactly the stripped matching pieces |
| `TitleFilter.TitleComesFromMatchingPiece` | inputJson.py:73 | every stored title comes from a split piece that starts with the company name |
| `TitleFilter.MatchingPieceGivesTitle` | inputJson.py:73 | every split piece that starts with the company name yields a stored title |
| `TitleFilter.TitlesInFirstOccurrenceOrder` | inputJson.py:73 | titles appear in the order their stripped pieces first occur |
| `TitleFilter.NoBackslashInJoin` | inputJson.py:63 | joining backslash-free list items with newlines adds no backslash |
| `TitleFilter.NoBackslashNoSeparator` | inputJson.py:68 | a text without a backslash holds no backslash-n separator |
| `TitleFilter.ListItemsAreNotSeparated` | inputJson.py:61-73 | list content is joined with real newlines, which are never cut on, so it gives at most one title |
| `TitleFilter.CompanyName` | inputJson.py:30-31 | a company name is read exactly when the config is an object with `target_url` and a string `companyName`, and then it is that string |
| `TitleFilter.StoreTitles` | inputJson.py:30-83 | the step succeeds exactly when the name is readable and some piece starts with it; then only `titles` changes, and it holds the title list; each error holds exactly in its own case: a non-object config, a missing `target_url`, a missing `companyName`, a non-string name, or no piece starting with the name |
| `Server.NewConfig` | server.js:42-48 | the new config holds exactly the five fields: the trimmed URL, the dates as given, the prompt or its default, and empty titles; it has no `companyName` |
| `Server.CreateConfig` | server.js:27-61 | 400 exactly when a required field is falsy, and then the old config stays; success exactly when the fields are truthy and `targetUrl` is a string; a truthy non-string `targetUrl` gives exactly a 500 with no config left, since the old file is deleted before `trim()` throws |
| `Server.LineEnd` | server.js:114 | `.*` stops at the first line terminator after the key, or at the end of the text |
| `Server.UpdateEnv` | server.js:97-127 | 404 exactly when `.env` is missing; without the key, a line `LLM_PROVIDER=<provider>` is appended after a line break; otherwise the first key's line is replaced by the expanded replacement, and the text around it is kept (see `Server.UpdateEnvRoundTrip` and `Server.LiteralReplacement`) |
| `Server.ExpandReplacement` | server.js:114 | a replacement string without `$` is inserted literally |
| `Server.ReplacementPatterns` | server.js:114 | `$$` gives `$`, `$&` the matched text, `` $` `` the text before it and `$'` the text after it; `$1` stays as it is, since the pattern has no group |
| `Server.UpdateEnvRoundTrip` | server.js:97-127 | for a provider without `$` or line breaks, the rewritten `.env` succeeds and its first `LLM_PROVIDER=` line reads back exactly that provider |
| `Server.AppendedSettingReadsBack` | server.js:115-117 | the appended line becomes the first setting when the file had none |
| `Server.ReplacedSettingReadsBack` | server.js:112-114 | the replaced line is read back as the first setting |
| `Server.LiteralReplacement` | server.js:111-114 | without `$`, the first key's line up to its end is replaced by `LLM_PROVIDER=<provider>`, and everything around it is kept |
| `Server.AppendedKeyIsFirst` | server.js:117 | after a line break is appended to a file without the key, the key first occurs right after that break |
| `Server.UpdateConfig` | server.js:130-153 | 404 exactly when the file is missing; on an object only `require` changes, and it is dropped when the request has none; an unparsable file or `null` gives 500; other JSON values are written back unchanged |
| `Server.ConfigNames` | server.js:66-67 | exactly the names starting with `config_` and ending with `.json` are kept |
| `Server.ConfigNamesKeepOrder` | server.js:66-67 | the config names keep the listing order |
| `Server.PdfNameShape` | server.js:222-223 | a name passes the PDF test exactly when it ends in `.pdf` or `.PDF`; `.Pdf` does not pass |
| `Server.PdfNames` | server.js:222-223 | exactly the listed names that pass the PDF test are kept |
| `Server.Directory.Ensure` | server.js:17-24 | the directory exists afterwards, with its contents unchanged |
| `Server.Directory.Clear` | server.js:156-170 | succeeds exactly when no entry is a sub-directory, and then the directory is empty; on failure only removals happened, and every sub-directory remains |
| `Server.MovePdfFiles` | server.js:299-343 | when `downloads` is absent the count is 0 and no directory's contents or existence change; otherwise `data` exists; the moved names are the PDFs not already in `data` whose rename does not throw; they leave `downloads` for `data`, and the count is their number |
| `Server.MoveEach` | server.js:318-336 | the rename loop moves exactly those names and counts them |
| `Analyzer.Provider` | callLLM.py:25-29 | the provider is the setting lower-cased, or `gemini` when unset |
| `Analyzer.Dispatch` | callLLM.py:199-218 | each route holds exactly when its provider and key condition hold; any other provider name is unsupported |
| `Analyzer.ProviderNameIgnoresCase` | callLLM.py:25-29 | two environments that differ only in the ASCII letter case of `LLM_PROVIDER` choose the same provider and the same route |
| `Analyzer.FileName` | callLLM.py:93 | the file name is a suffix of the path and holds no slash |
| `Analyzer.Stem` | callLLM.py:93 | the stem is a prefix of the name |
| `Analyzer.OutputPath` | callLLM.py:93-94 | answers go under `data/` with the `.md` suffix |
| `Analyzer.FileNameAfterSlash` | callLLM.py:93 | the file name of `dir/name` is `name` |
| `Analyzer.StemOfPdf` | callLLM.py:93 | the stem of `<stem>.pdf` or `<stem>.PDF` is `<stem>` |
| `Analyzer.OutputOfPdf` | callLLM.py:180-181 | the PDF `dir/<stem>.pdf` is answered in `data/<stem>.md` |
| `Analyzer.CaseVariantsShareOutput` | callLLM.py:180-181 | `x.pdf` and `x.PDF` write the same answer file |
| `Analyzer.BareExtensionKeepsName` | callLLM.py:93 | a file named `.pdf` is answered in `data/.pdf.md` |
| `Analyzer.Preflight` | callLLM.py:41-59 | a missing PDF stops first; without a config the default request is used; with one, the call proceeds exactly when `target_url` is on the allowed site, and the request is `require` or its default; the script raises exactly on an unreadable config, a config that is not an object or a non-string `target_url` |
| `Analyzer.MissingTargetIsRejected` | callLLM.py:51-54 | a config without `target_url` is rejected |
| `Analyzer.DeepSeekPromptDeterminesText` | callLLM.py:157 | for a given request, the DeepSeek prompt determines the document text it carries |
| `Analyzer.BlankDocumentIffBlankPages` | callLLM.py:147-152 | the accumulated text is blank exactly when every page's text is |
| `Analyzer.PlaceholderIffNoText` | callLLM.py:152-154 | the placeholder is sent exactly when no page has text; otherwise the pages' text is sent unchanged |
| `Analyzer.GatherText` | callLLM.py:145-154 | the page loop and blank check produce that extracted text |
| `Analyzer.GeminiOutcome` | callLLM.py:31-111 | Gemini's answer to the prompt and the PDF is saved, verbatim and at the PDF's output path, exactly when the checks pass, the upload does not fail and the answer is non-empty; an empty answer writes nothing; a failed upload or a raising call ends in `Raised` |
| `Analyzer.DeepSeekOutcome` | callLLM.py:113-196 | DeepSeek's answer text is saved, verbatim and at the output path, exactly when the checks pass, the PDF is readable and the call answers (an empty answer is still written); a reply without content opens the file and then raises; an unreadable PDF or a raising call ends in `Raised` |
| `Analyzer.EmptyAnswerDiffers` | callLLM.py:91-106 | on an empty answer Gemini writes nothing and DeepSeek writes an empty file |
| `Analyzer.ScannedPdfSendsPlaceholder` | callLLM.py:151-157 | a PDF without text is analysed from the placeholder alone |
| `Analyzer.AnalysisOf` | callLLM.py:199-218 | a configured Gemini or DeepSeek route gives exactly that provider's outcome; a missing key is reported exactly when the chosen provider's key is unset, naming that variable; an unsupported provider exactly when the name is neither `gemini` nor `deepseek`, naming it (see `Analyzer.SavedOnlyWhenAllowed`) |
| `Analyzer.SavedOnlyWhenAllowed` | callLLM.py:199-218 | anything written goes to the PDF's output path, and only once the PDF exists, the site check passed and a configured provider was chosen |
| `Analyzer.AnalyzePdf` | callLLM.py:199-218 | running the DeepSeek page loop gives that specified outcome |
| `Analyzer.PdfGlob` | callLLM.py:240 | the glob matches exactly the names ending in `.pdf` or `.PDF`, each once when the listing has no repeats |
| `Analyzer.GlobHalvesDisjoint` | callLLM.py:240 | the lower-case and upper-case matches never overlap |
| `Analyzer.ProcessPdfFiles` | callLLM.py:224-253 | a missing path or non-directory is reported; no matches are reported; otherwise every matched PDF is analysed, in glob order |
| `Analyzer.AnalyzeEach` | callLLM.py:247-253 | each path is paired with its analysis, in order |
| `Analyzer.EachDataPdfOnce` | callLLM.py:240-253 | every PDF of `data` is analysed exactly once, and nothing else |
| `Analyzer.Main` | callLLM.py:255-270 | a given path is the only one analysed; without one, every PDF of `data` is (see `Pipeline.JobAnalysesEachPdfOnce`) |
| `Analyzer.MainAsWritten` | callLLM.py:255-273 | as called, only paths under `data/` are analysed, so a path outside `data` given on the command line never is (see `Analyzer.MainIgnoresItsArgument`) |
| `Analyzer.DataPathsUnderData` | callLLM.py:240-270 | every path the glob of `./data/` yields starts with `data/` |
| `Analyzer.MainIgnoresItsArgument` | callLLM.py:272-273 | called as written, a path on the command line is ignored |
| `Dom.ClassText` | testGPT2.py:99 | a missing `class` attribute reads as the empty string |
| `PagerWalk.TitleAndHref` | testGPT2.py:58-67 | the title is the stripped link text, or empty; the link is the attribute, or empty when it is missing or its read throws; a throw keeps what was already read |
| `PagerWalk.When` | testGPT2.py:69-73 | the time is the stripped text, or empty when it is absent or its read throws |
| `PagerWalk.Fingerprint` | testGPT2.py:78-84 | the change detector is the first title's stripped text, or empty |
| `PagerWalk.Decide` | testGPT2.py:86-102 | the check reports no button exactly when there is none, a disabled button exactly when `is_disabled()` returns true, and a crash exactly when both probes throw; it never claims the pages ran out |
| `PagerWalk.DecideStopsWhen` | testGPT2.py:86-102 | the walk stops exactly when there is no button, it is disabled, or the fallback class check finds `disabled` |
| `PagerWalk.PrintRow` | testGPT2.py:53-75 | a row prints its error line, if any, then its line |
| `PagerWalk.PrintRows` | testGPT2.py:52-75 | the row loop prints the specified row events |
| `PagerWalk.PrintPage` | testGPT2.py:39-75 | a page prints its header, the visibility notice and its rows |
| `PagerWalk.VisitPage` | testGPT2.py:38-128 | one iteration prints its page and decides by the button check |
| `PagerWalk.PaginationWalk` | testGPT2.py:37-128 | the loop's output and end are those of the walk specification |
| `PagerWalk.StopIndex` | testGPT2.py:86-102 | the stop index is the first page whose button check stops; every earlier page clicks |
| `PagerWalk.RowHasOneLine` | testGPT2.py:75 | every row prints exactly one line, whatever its reads throw |
| `PagerWalk.RowsHaveNoHeadersOrClicks` | testGPT2.py:52-75 | the row loop prints no page header and clicks nothing |
| `PagerWalk.RowLinesInOrder` | testGPT2.py:52-75 | one line per row, in row order |
| `PagerWalk.EveryRowPrinted` | testGPT2.py:49-75 | every row of a page is printed, in order; a failing row never hides later rows |
| `PagerWalk.PageLinesAreRowLines` | testGPT2.py:39-51 | the header and notices add no row line |
| `PagerWalk.PageHasOneHeader` | testGPT2.py:39 | a page prints exactly its own number and no click |
| `PagerWalk.StepSelections` | testGPT2.py:86-105 | an iteration clicks once, with its fingerprint, exactly when the check does not stop |
| `PagerWalk.WalkEndsAtFirstStop` | testGPT2.py:37-128 | the walk ends at the first stopping page, for its reason; otherwise the pages run out |
| `PagerWalk.WalkClicksBeforeStop` | testGPT2.py:105 | there is one click per page before the stopping page, with that page's fingerprint |
| `PagerWalk.WalkSelectionsStep` | testGPT2.py:37-128 | gives the first iteration's share of the walk's headers and clicks |
| `PagerWalk.WalkNumbersPages` | testGPT2.py:128 | visited pages are numbered consecutively, up to and including the stopping page |
| `PagerWalk.TitleKeptWhenHrefThrows` | testGPT2.py:58-75 | for any row and any time read, when the `href` read throws after the link text was read, the row prints an error line and then its line with the stripped title, an empty link and its time |
| `PagerWalk.ClickingPageHandsOver` | testGPT2.py:42-128 | a page whose button check clicks prints its page and clicks with its fingerprint, then the walk goes on from the next page with the next number, whatever its table held |
| `EarlyPagerWalk.RowFailsWhen` | testGPT.py:49-54 | a row crashes exactly when one of its four reads throws; absent elements read as empty |
| `EarlyPagerWalk.RowsPrintedUntilFirstFailure` | testGPT.py:44-56 | rows are printed in order up to the first failing row, and the walk crashes exactly there |
| `EarlyPagerWalk.PrintRows` | testGPT.py:44-56 | the row loop matches its specification |
| `EarlyPagerWalk.CheckStopsWhen` | testGPT.py:59-65 | the walk stops exactly when both probes succeed and one says disabled; it crashes when either probe throws |
| `EarlyPagerWalk.Fingerprint` | testGPT.py:68-73 | the change detector is the active pager text, stripped, or empty when its read throws |
| `EarlyPagerWalk.EndAtWhen` | testGPT.py:38-96 | a page hands over exactly when its rows are read, the button says go on and the final wait does not time out |
| `EarlyPagerWalk.VisitPage` | testGPT.py:38-96 | one iteration matches its specification |
| `EarlyPagerWalk.PaginationWalk` | testGPT.py:37-96 | the loop's output and end are those of the walk specification |
| `EarlyPagerWalk.StopIndex` | testGPT.py:37-96 | the stop index is the first page that does not hand over, or the page count; every earlier page hands over |
| `EarlyPagerWalk.RowsHaveNoHeader` | testGPT.py:44-56 | the row loop prints no header |
| `EarlyPagerWalk.StepHasOneHeader` | testGPT.py:39 | each iteration prints its own number once |
| `EarlyPagerWalk.WalkEndsAtFirstStop` | testGPT.py:37-96 | the walk ends at the first page that does not hand over, for that page's reason; otherwise the pages run out |
| `EarlyPagerWalk.WalkStep` | testGPT.py:37-96 | gives the first iteration's share of the walk |
| `EarlyPagerWalk.WalkHeadersStep` | testGPT.py:37-96 | gives the first iteration's share of the headers |
| `EarlyPagerWalk.WalkNumbersPages` | testGPT.py:96 | visited pages are numbered consecutively |
| `EarlyPagerWalk.FallbackTimeoutEndsWalk` | testGPT.py:88-94 | an uncaught timeout of the last row wait ends the walk right after the click |
| `EarlyPagerWalk.MissingHrefPrintedAsNone` | testGPT.py:53 | a missing `href` prints `None` here, but `""` in the later walker |
| `Pipeline.ServerConfigStopsTitleStep` | inputJson.py:30-31 | a config created by the server has no `companyName`, so the title step fails on that key |
| `Pipeline.ServerConfigReachesAnalyser` | callLLM.py:133-138 | the analyser accepts a server-created config exactly when the trimmed URL is on the allowed site, and then asks the stored prompt |
| `Pipeline.RunResults` | server.js:227-232 | the job runs the analyser once per PDF, with that PDF's path (see `Pipeline.JobAnalysesEachPdfOnce`) |
| `Pipeline.JobAsWrittenRepeats` | server.js:227-232 | as written, the job starts one run per PDF of `data`, and each run analyses all of them: over n PDFs the job does n² analyses, and each PDF occurs n times (n times its count in the glob) |
| `Pipeline.FlattenEqualCount` | server.js:227-232 | n runs with the same result hold each path n times as often as one run |
| `Pipeline.PdfTestCountsBothGlobs` | server.js:222-223 | the server's PDF test and the analyser's two globs pick the same number of names |
| `Pipeline.RunPathsDistinct` | server.js:222-228 | the job's paths are distinct |
| `Pipeline.RunPathsAreAnalyserPaths` | server.js:222-223 | the server's PDF test and the analyser's glob pick the same files |
| `Pipeline.JobAnalysesEachPdfOnce` | server.js:227-232 | with the corrected entry point, the job analyses each PDF of `data` exactly once |

## Left out

- Browser automation (Stagehand and Playwright): the pages a walker meets, and the text
  the title step receives, are given in advance. Timeouts and wait durations are not
  modelled, only whether each wait succeeds.
- The walkers' `href` resolution and any list of results: the walkers only print.
- PagerWalk.PaginationWalk: a walk whose site never shows a last page is not modelled,
  because the pages are a finite list; running out of them ends the walk with
  `PagesExhausted`. The same holds for `EarlyPagerWalk.PaginationWalk`.
- The row count of both walkers (testGPT2.py:48, testGPT.py:43), the button count
  (testGPT2.py:88) and the click (testGPT2.py:105, testGPT.py:76) are assumed not to
  throw; an exception there would end the walk.
- File I/O, JSON parsing and serialisation: files arrive parsed (`StoredJson`).
  Numbers are integers.
- Server-sent events, `runPythonScript`, child processes, Express routing and the job
  lock of `/api/run-tasks`: only the job's last step is modelled (`Pipeline`).
- The Gemini upload and its polling loop (callLLM.py:68-79): the model keeps only whether
  processing ends in `FAILED`. DeepSeek's answer is a function of the prompt; Gemini's
  is a function of the prompt and the PDF's path.
- PyPDF2: the text of each page is given, or the reader fails as a whole.
- TitleFilter.ContentText: Python's `str()` of a non-string is a parameter; its repr
  format is not modelled.
- The title step's computation at inputJson.py:69-72 is overwritten on line 73 before any
  use, so it is left out.
- Analyzer.Provider: lower-casing is ASCII-only; Python's full Unicode case mapping is
  not modelled.
- Server.Directory.Clear: the listing order is not modelled, so on failure the model
  only says which entries may remain, not which files before the sub-directory went.
- Analyzer.PdfGlob: on a case-insensitive file system both `*.pdf` and `*.PDF` match every
  PDF, so each is analysed twice; the comment at callLLM.py:239 intends case-insensitive
  matching. The model follows a case-sensitive file system.
- Server.MovePdfFiles: which renames throw is a parameter (`failing`). A
  case-insensitive file system, where `.pdf` and `.PDF` may collide, is not modelled.
- The 500 replies carry the exception text, which is not modelled.
- `app.py`, `example.py`, `downloadpdf.py`, `getPdfFiles.py`, `getHerfWithoutAI.py`,
  `find_href.py` and `callGemini.py` are not part of this model.

## Findings

| source | as written | input that shows it | evidently intended | confidence | as-written member | corrected member |
|---|---|---|---|---|---|---|
| callLLM.py:272-273 | `main()` is called with no argument, so the path the server passes on the command line is ignored and every PDF in `data` is analysed | `python callLLM.py data/a.pdf` with `a.pdf` and `b.pdf` in `data` analyses both; a job over n PDFs does n² analyses | analyse only the PDF given on the command line | not executed | `Analyzer.MainIgnoresItsArgument` (with `Analyzer.MainAsWritten`, `Pipeline.JobAsWrittenRepeats`) | `Analyzer.Main` (with `Pipeline.JobAnalysesEachPdfOnce`) |

A further point:

- `server.js:41-48` writes a config without `companyName`.
- `inputJson.py:31` reads that key outside any handler.
- So a run started right after creating a config stops at the title step.
- `Pipeline.ServerConfigStopsTitleStep` proves this. The model keeps it as the code does.
