# Yimu Workshop bill transform, in Dafny

Yimu Workshop (一木记账工坊) turns a WeChat Pay bill export (a CSV text) into
two CSV files for the 一木记账 bookkeeping app: one file of transfers between
accounts and one of income/expense transactions. A Web Worker does the work:

1. **Preprocessing** splits the text at line feeds. It drops everything up to
   and including the line after the
   `----------------------微信支付账单明细列表--------------------` banner.
2. **Categorising** handles each non-blank line in turn:
   - the line is split into fields by a quote- and backslash-aware scanner;
   - a line whose fifth field holds `/` is a transfer, any other line a
     transaction;
   - the fields are moved into the import layout, notes are extracted and
     normalised, and the "转账到" account is reduced to a name;
   - trailing empty fields are dropped and the row is re-serialised with
     standard CSV quoting.

   A progress message is posted every tenth of the way.
3. **The handler** posts progress messages, then exactly one terminal message:
   - an "empty after preprocessing" error;
   - a "no records found" error;
   - or the result carrying both line lists.
4. **The caller** names the archive entries. The uploaded file's name is
   sanitised, loses its extension, and lends its `YYYYMMDD-YYYYMMDD` range to
   the prefix. Each CSV gets its canonical header row, reconciled with a
   header-like first record. The success notification reports counts.

The same worker code exists in several revisions. The shared functions
(`preprocessCSV`, `parseCSVLine`, `formatCSVField`, `processTransferInAccount`)
are modelled once. The divergent parts are named variants:

- `Categorizer.Revision`:
  - `WorkerFile` is assets/js/core/csv-worker.js;
  - `EmbeddedV2` is the worker text inside assets/js/core/script.js and
    assets/js/utils/csv-processor.js;
  - `RootScript` is the worker text inside script.js.
- `Notes.NoteRule`:
  - `MarkerFirst` is used by csv-worker.js and script.js;
  - `MarkerWithFallback` by optimized-functions.js;
  - `RecipientMerge` by the EmbeddedV2 text.

In the embedded copies the worker code sits inside a template literal, so the
source's `'\\\\'` is one backslash at run time. The model uses the run-time
text.

Modules, one per file:

| file | module | models |
|---|---|---|
| js_string.dfy | JsString | `indexOf`, `includes`, `trim`, `substring`, `split`, `join`, single-character global `replace` |
| preprocess.dfy | Preprocess | `preprocessCSV` |
| tokenizer.dfy | Tokenizer | `parseCSVLine` (scanner function and its `while` loop) |
| serializer.dfy | Serializer | `formatCSVField` and the `.map(formatCSVField).join(',')` of a row; the round trip with the scanner |
| notes.dfy | Notes | `processNoteText` and `extractNoteText` in their three forms |
| accounts.dfy | Accounts | `processTransferInAccount` |
| categorizer.dfy | Categorizer | `categorizeRecords` (per-line function, loop method, progress schedule) |
| worker.dfy | Worker | the `message` handler and its posted messages |
| archive.dfy | Archive | name prefix, header reconciliation and summary counts of `createAndDownloadZip` |

## Model

| member | source | states |
|---|---|---|
| JsString.IndexOf | assets/js/core/csv-worker.js:115 | the result is the first occurrence at or after `from`; -1 means there is none at all |
| JsString.TrimIsInfix | assets/js/core/csv-worker.js:104 | `trim` removes only JS white space from the two ends, and what is left neither starts nor ends with white space |
| JsString.TrimEmptyIffBlank | assets/js/core/csv-worker.js:165 | `line.trim() === ''` exactly when every character is JS white space or a line terminator |
| JsString.SubstringSwapsBounds | assets/js/core/csv-worker.js:85-87 | `substring(1, 0)` of a one-character text swaps its bounds and keeps the character, so a lone `"` survives the quote strip |
| JsString.Split | assets/js/core/csv-worker.js:7 | splitting gives at least one piece and no piece holds the separator |
| JsString.JoinSplit | assets/js/core/csv-worker.js:7 | joining the split pieces with the separator gives the text back |
| JsString.SplitJoin | assets/js/core/csv-worker.js:7 | splitting the join of separator-free pieces gives the pieces back |
| Preprocess.FindBanner | assets/js/core/csv-worker.js:10-11 | the index is the first line holding the banner; -1 means no line holds it |
| Preprocess.PreprocessCsv | assets/js/core/csv-worker.js:5-20 | the result is a suffix of the line-feed split of the text |
| Preprocess.PreprocessWithoutBanner | assets/js/core/csv-worker.js:13-16 | a bill without a banner line is returned as all its split lines |
| Preprocess.PreprocessStripsBanner | assets/js/core/csv-worker.js:13-16 | for any lines without line feeds whose first banner is at index k, k not the last line, preprocessing their join gives the lines from k + 2 on (none when k is the second-to-last line) |
| Preprocess.FindBannerIsFirst | assets/js/core/csv-worker.js:10-11 | the search returns the banner line that no earlier line precedes |
| Preprocess.PreprocessEmptyIff | assets/js/utils/csv-processor.js:101-112 | the result is empty exactly when the first banner is one of the last two lines; a bill without a banner never gives an empty result |
| Tokenizer.ParseFrom | assets/js/core/csv-worker.js:40-75 | the scanner always yields at least one field |
| Tokenizer.ParseCsvLine | assets/js/core/csv-worker.js:34-77 | the loop yields the scanner's fields; it yields one field more than the commas read outside quotes and not after a backslash; the fields together are no longer than the line |
| Tokenizer.ParseFieldCount | assets/js/core/csv-worker.js:62-66 | the field count is one more than the separator count, from any scanner state |
| Tokenizer.ParseLength | optimized-functions.js:35-71 | every character is copied into exactly one field or dropped, so the total field length is the line length minus the dropped characters |
| Serializer.DoubleQuotes | assets/js/core/csv-worker.js:28 | doubling adds one character per quote |
| Serializer.FormatCsvField | assets/js/core/csv-worker.js:23-31 | the field is unchanged exactly when it holds no comma and no quote; otherwise it gains two enclosing quotes and one character per inner quote |
| Serializer.SerializeRow | assets/js/core/csv-worker.js:210-213 | a one-field row is that field formatted; fields that need no quoting are joined with commas as they are |
| Serializer.FieldRoundTrip | assets/js/core/csv-worker.js:23-77 | the scanner reads a formatted backslash-free field back as the field, whatever field came before, up to the next comma |
| Serializer.RowRoundTrip | assets/js/core/csv-worker.js:23-77 | the scanner reads the serialised line of any non-empty row of backslash-free fields back as the row |
| Serializer.UnquotedJoinRoundTrip | assets/js/core/csv-worker.js:34-77 | fields without commas, quotes or backslashes are recovered from their plain comma join |
| Serializer.FormattedFieldRoundTrip | optimized-functions.js:159-167 | one formatted backslash-free field reads back as exactly that one field |
| Serializer.QuotedCommasStay | assets/js/tests/tests.js:54-84 | a line shaped like `field1,"field2,with,commas",field3` yields exactly three fields, the commas kept in the middle one |
| Notes.CollapseQuotes | assets/js/core/csv-worker.js:94 | collapsing `""` to `"` never lengthens the text and removes only quote characters |
| Notes.CollapseDoubled | assets/js/core/csv-worker.js:94 | collapsing undoes the quote doubling of `formatCSVField` |
| Notes.ReplaceEscapes | assets/js/core/csv-worker.js:95 | the backslash-escape replacement rewrites every match to itself, so the text is unchanged |
| Notes.DropTrailingQuote | assets/js/core/csv-worker.js:96 | at most one character is removed, the last, and only when it is a quote |
| Notes.StripQuotes | assets/js/core/csv-worker.js:85-87 | the text loses its first and last character exactly when it has two or more characters and both are quotes; only quotes are removed |
| Notes.StripQuotesRegex | optimized-functions.js:13 | `^"(.*)"$` strips the enclosing quotes only when the text has two or more characters and no line terminator; otherwise the text is kept |
| Notes.NormaliseV2 | assets/js/core/script.js:474-485 | the RecipientMerge normalisation never leaves an ASCII comma |
| Notes.NormaliseV1RemovesOnlyQuotes | assets/js/core/csv-worker.js:80-97 | MarkerFirst normalisation removes only quote characters and keeps every comma |
| Notes.NormaliseV1InvertsFormat | assets/js/core/csv-worker.js:80-97 | MarkerFirst normalisation undoes `formatCSVField` of any field that does not end in a quote |
| Notes.NormaliseV2InvertsFormat | assets/js/core/script.js:474-485 | RecipientMerge normalisation undoes `formatCSVField`, with every ASCII comma turned full-width |
| Notes.NormaliseRegexAgrees | optimized-functions.js:6-20 | on text without line terminators the regular-expression normaliser equals the MarkerFirst one, a lone `"` included |
| Notes.NormaliseRegexKeepsQuotesAcrossLineBreak | optimized-functions.js:13-19 | with a line terminator between the quotes the two normalisers differ: MarkerFirst gives the terminator, the regular expression the opening quote and the terminator |
| Notes.MarkerHit | assets/js/core/csv-worker.js:110-120 | the result is the first occurrence of marker k, where k is the first marker in list order that occurs at all; -1 exactly when none does |
| Notes.CommentEndChoice | assets/js/core/csv-worker.js:110-120 | the end is the first `","收入"` if there is one, else the first `",`; it is -1 exactly when no `",` follows the start; otherwise it is a closing quote followed by a comma |
| Notes.FindCommentEnd | assets/js/core/csv-worker.js:113-120 | the marker loop returns the end the list-order rule chooses |
| Notes.NormaliseV1 | assets/js/core/csv-worker.js:80-97 | the empty note and `/` are kept; otherwise the note is never longer and only quote characters are removed |
| Notes.NormaliseRegex | optimized-functions.js:6-20 | the empty note and `/` are kept; otherwise the note is never longer |
| Notes.Normalise | script.js:418-429 | each rule keeps the empty note and `/` and never lengthens the note |
| Notes.FieldNote | optimized-functions.js:116-125 | a transfer's note is the rule's normalisation of column 4, any other record's that of column 11, never longer than the column; without such a column the note is empty |
| Notes.MergedNote | assets/js/core/script.js:489-510 | the merged note never holds an ASCII comma; a record that is not a transfer gets the normalised column 11, or the empty note without one |
| Notes.MergedTransferNote | assets/js/core/script.js:493-503 | a transfer's note is `转给` + recipient + `，` + comment when the normalised recipient is not empty, else the comment alone |
| Notes.ExtractNoteText | assets/js/core/csv-worker.js:100-140 | the procedure computes the note of its rule: the marker span when the marker has an end, the positional rules without a marker, and for a marker without an end the empty note (MarkerFirst) or the positional rules (MarkerWithFallback) |
| Notes.CommentSpanShape | assets/js/core/csv-worker.js:122-126 | the note span is the line from the marker's opening quote to the closing quote, at least two characters with a quote at each end |
| Notes.UnterminatedMarkerGivesEmpty | optimized-functions.js:107-130 | a marker with no `",` after it gives the empty note under MarkerFirst and the positional note under MarkerWithFallback |
| Notes.MarkerRulesAgree | optimized-functions.js:84-133 | on a line and fields without line terminators the two marker rules give the same note, except when the marker has no end |
| Accounts.FirstMatch | assets/js/core/csv-worker.js:148 | the result is the leftmost position where `转账到` is followed by a non-terminator, or -1 when there is none |
| Accounts.RunEnd | assets/js/core/csv-worker.js:148 | the greedy `.+` runs to the first line terminator or to the end |
| Accounts.ProcessTransferInAccount | assets/js/core/csv-worker.js:143-155 | `""` gives `""`; an account without `转账` is unchanged; when `转账到(.+)` matches, the result is the trimmed text from after the leftmost match to the first line terminator; when it does not match (`转账到` alone, or at the end of a line), the account is unchanged |
| Accounts.MatchHasTransferWord | assets/js/core/csv-worker.js:147-148 | a text the pattern matches always holds `转账`, so the `includes` test never hides a match |
| Accounts.NoMatchUnchanged | optimized-functions.js:144-151 | an account holding `转账` where the pattern matches nowhere is returned unchanged |
| Accounts.MatchAfterPrefix | assets/js/core/csv-worker.js:147-150 | text before the first match is skipped: `x转账到张三` gives `张三` |
| Accounts.NoTransferToUnchanged | optimized-functions.js:140-152 | an account without `转账到` is returned unchanged |
| Accounts.TransferToName | assets/js/core/csv-worker.js:147-150 | `转账到` followed by a one-line name gives the trimmed name |
| Accounts.NameEndsAtLineBreak | assets/js/core/csv-worker.js:147-150 | the capture stops at the first line terminator after the name |
| Categorizer.StripYen | assets/js/core/csv-worker.js:195 | every `¥` is removed and nothing else: the amount loses exactly its `¥` characters and is kept as it is when it holds none |
| Categorizer.TransferFields | assets/js/core/csv-worker.js:189-198 | a transfer row has six columns, the fee and note empty |
| Categorizer.IncomeAndAmountColumns | assets/js/core/script.js:580-591 | both arms of EmbeddedV2 give type = column 5 and amount = column 6 without `¥`; the other revisions copy the amount raw |
| Categorizer.TransactionFields | assets/js/core/csv-worker.js:226-237 | a transaction row has nine columns: the ledger `账本` at index 5, the note at 7, the empty tag at 8 |
| Categorizer.LastNonEmpty | assets/js/core/csv-worker.js:240-243 | the index of the last non-empty entry, every later entry empty; -1 when all are empty |
| Categorizer.LastNonEmptyIndex | assets/js/core/csv-worker.js:240-243 | the walk-back loop stops at the last non-empty entry |
| Categorizer.KeptFields | assets/js/core/csv-worker.js:246-250 | the kept prefix has length min(length, max(8, last non-empty + 1)) and only empty entries are dropped |
| Categorizer.KeepsShortRows | assets/js/core/csv-worker.js:206-211 | a row of up to eight entries, such as a six-column transfer, is never shortened |
| Categorizer.TransactionRowHasEightFields | assets/js/core/script.js:593-618 | a trimmed transaction row is exactly its first eight columns |
| Categorizer.TransferLine | assets/js/core/csv-worker.js:187-218 | a transfer-shaped line of more than six fields gives the line of its six columns, which the trim does not shorten; a shorter one gives the literal transfer header |
| Categorizer.TransactionLine | assets/js/core/csv-worker.js:223-252 | the trimming revisions write the serialised first eight columns of the transaction row; RootScript writes all nine serialised, so its line ends with a comma |
| Categorizer.Categorize | assets/js/core/csv-worker.js:164-255 | a line is skipped exactly when blank; it is a transfer exactly when non-blank with more than four fields and `/` in the fifth; otherwise it is a transaction |
| Categorizer.ProgressStep | assets/js/core/csv-worker.js:169 | the step is a tenth of the line count rounded down, and one for fewer than twenty lines |
| Categorizer.ProgressPointsExactly | assets/js/core/csv-worker.js:257-267 | progress is posted after line i, blank or not, exactly when i is a multiple of the step |
| Categorizer.CountsAddUp | assets/js/utils/csv-processor.js:216-305 | the two lists together hold one line per non-blank line |
| Categorizer.OrderKept | assets/js/core/csv-worker.js:164 | the lists of a concatenation of lines are the concatenations of the lists, so input order is kept |
| Categorizer.CategorizeLine | assets/js/core/csv-worker.js:164-255 | the body of the forEach computes the line's output |
| Categorizer.CategorizeNext | assets/js/core/csv-worker.js:164-268 | each round extends the outputs traced so far by the output of the next line |
| Categorizer.CategorizeRecords | assets/js/core/csv-worker.js:158-271 | the loop returns the transfer lines and transaction lines of the lines in order, and the processed counts at which progress was posted |
| Categorizer.RootScriptLinesEndWithComma | script.js:530-546 | RootScript keeps the empty tag, so each of its transaction lines ends with a comma |
| Categorizer.TransactionLineParsesBack | assets/js/core/csv-worker.js:226-254 | a transaction line reads back as the columns its revision writes (eight when trimmed, all nine for RootScript) when none holds a backslash |
| Categorizer.TransferLineParsesBack | assets/js/core/csv-worker.js:187-215 | a transfer line reads back as its six columns when none holds a backslash |
| Categorizer.V2NoteQuotedOnlyForQuotes | assets/js/core/script.js:484 | an EmbeddedV2 note is quoted by formatting exactly when it holds a quote |
| Worker.HandleProcess | assets/js/core/csv-worker.js:274-352 | the handler posts exactly the message sequence of the text |
| Worker.ExactlyOneTerminal | assets/js/core/script.js:638-697 | the handler opens with `preprocessing` 0 and 100, posts only progress after that, and ends with exactly one terminal message |
| Worker.Outcome | assets/js/core/csv-worker.js:274-352 | the last message is an error or a result |
| Worker.EmptyErrorIff | assets/js/core/csv-worker.js:300-309 | the "empty" error is posted exactly when the first banner is one of the last two lines |
| Worker.NoRecordsIff | assets/js/core/csv-worker.js:323-332 | the "no records" error is posted exactly when preprocessing leaves lines and all of them are blank |
| Worker.ResultCarriesLists | assets/js/core/csv-worker.js:334-341 | the result carries the two lists of the categorised lines, holding one line per non-blank line, at least one |
| Worker.BlankFileHasNoRecords | script.js:587-623 | a file of only white space and line breaks ends in the "no records" error |
| Archive.Sanitize | assets/js/utils/csv-processor.js:566 | the length is kept and no reserved character is left |
| Archive.SanitizePointwise | assets/js/utils/csv-processor.js:566 | each of `<`, `>`, `:`, `"`, `/`, the vertical bar, `?` and `*` becomes `_`; every other character, a backslash included, is kept |
| Archive.SanitizeIdempotent | assets/js/utils/csv-processor.js:566 | sanitising twice is sanitising once |
| Archive.StripExtension | assets/js/utils/csv-processor.js:567 | the result is a prefix of the name; it is shorter exactly when `\.[^/.]+$` matches, and then the match starts where it ends |
| Archive.StripsLastExtension | assets/js/utils/csv-processor.js:567 | `base.ext` loses `.ext` when the extension holds no dot and no slash |
| Archive.FindDateRange | assets/js/utils/csv-processor.js:570 | the result is the leftmost `\d{8}-\d{8}` match |
| Archive.DateSuffix | assets/js/utils/csv-processor.js:569-573 | the suffix is `-` plus the leftmost match, or empty exactly when there is no match |
| Archive.DateSuffixOfLeftmost | assets/js/utils/csv-processor.js:570-572 | the leftmost match is unique and the suffix is built from it |
| Archive.FilePrefix | assets/js/utils/csv-processor.js:566-575 | the prefix is `一木记账工坊-微信-` when the sanitised name without its extension holds no date range, and `一木记账工坊-微信-` + the leftmost range + `-` when it does |
| Archive.BillNamePrefix | assets/js/core/script.js:147-157 | a bill named `<words>YYYYMMDD-YYYYMMDD<words>.<ext>` gives `一木记账工坊-微信-YYYYMMDD-YYYYMMDD-` |
| Archive.WithHeader | assets/js/utils/csv-processor.js:579-604 | the file starts with the canonical header; the first record is dropped exactly when there is more than one record and it looks like a header |
| Archive.HeaderLooksLikeHeader | assets/js/utils/i18n.js:103-108 | each canonical header holds the partial it is tested for |
| Archive.WithHeaderIdempotent | assets/js/core/script.js:162-192 | reconciling already reconciled lines changes nothing |
| Archive.CsvFile | assets/js/utils/csv-processor.js:579-609 | a file is written exactly when there are records, and its first line is the canonical header |
| Archive.CsvFileLines | assets/js/utils/csv-processor.js:590 | splitting the file text at line feeds gives the header and rows back |
| Archive.HeaderHasNoLineFeed | assets/js/utils/i18n.js:103-107 | neither header holds a line feed |
| Archive.SummaryCount | assets/js/utils/csv-processor.js:627-631 | the reported count is one less than the records, or 0 without records |
| Archive.DataRowCount | assets/js/utils/csv-processor.js:579-609 | a file without records has no data rows |
| Archive.DataRowCountIs | assets/js/utils/csv-processor.js:579-609 | the data rows are all the records but a dropped first one |
| Archive.SummaryCountShortByOne | assets/js/utils/csv-processor.js:627-631 | the reported count equals the data rows exactly when there are no records or a header record was dropped; otherwise it is one short |
| Archive.SingleRecordReportedAsNone | script.js:199-203 | one transfer record without a header is written as one data row and reported as zero |

## Left out

- The browser side is not modelled: the DOM, the loading overlay,
  notifications, tabs, the drop zone, FileReader, and file type and size
  checks. It is presentation and browser I/O.
- Worker plumbing is not modelled: worker creation and termination, Blob URLs,
  and the `currentWorker` and `isProcessing` globals. `postMessage` is
  modelled as appending to the list of posted messages.
- The progress percentage `Math.floor((processedCount / totalLines) * 100)` is
  floating point. `Worker.Progress` keeps the pair (processed, total) and the
  emission schedule only.
- The `try`/`catch` wrapping and its generic "处理CSV文件时出错" error are not
  modelled: no modelled path throws.
- JSZip archive generation, the entry time stamps (`Date`) and the download
  link are not modelled; they are a foreign library and the clock.
- `I18n.translate` placeholder substitution is not modelled; the Chinese
  header strings and the prefix template are constants.
- assets/js/utils/ui.js, logger.js, debug-tools.js and app.js are presentation
  and console output, and are not part of this model. The test-local helpers
  of assets/js/tests/tests.js are not part of it either.
- Serializer.RowRoundTrip: states the round trip only for backslash-free
  fields. The scanner copies a backslash together with the next character,
  which may be a closing quote, so the round trip fails otherwise.
- Notes.NormaliseV1InvertsFormat: excludes fields ending in a quote, because
  the trailing-quote removal drops that quote.
- Behaviour of the code a reader may not expect:
  - a text of only white space and line breaks (an empty text included)
    ends in the "no records" error, not the "empty" error. Splitting always
    gives at least one line, and no blank line holds the banner
    (`Worker.BlankFileHasNoRecords`);
  - preprocessing an empty text gives one empty line, not an empty list;
  - transfer rows keep six columns, not eight: the trim's `Math.max(7, …)`
    cannot lengthen a six-element array (`Categorizer.KeepsShortRows`);
  - a header-like first record is dropped only when it is not the only
    record (`Archive.WithHeader`).

## Findings

| source | as written | input that shows it | evidently intended | confidence | as-written member | corrected member |
|---|---|---|---|---|---|---|
| assets/js/utils/csv-processor.js:627-631 (also assets/js/core/script.js:210-214, script.js:199-203) | `transferCount` and `transactionCount` are `records.length - 1`, which assumes a header-like first record was dropped | a single transfer record `2024-01-01 10:00:00,零钱,张三,100.00,,`: the file holds one data row, and the notification reports 0 | report the data rows actually written: the records minus a dropped header record | high; follows from the code, not executed | Archive.SummaryCountShortByOne | Archive.DataRowCountIs |
