# bundleparty log analyzer — a Dafny model of `run_analysis`

`bundleparty.py` is an interactive tool that searches the `.log` and `.json`
files of a Terraform Enterprise support bundle. It writes every matching
line to a result file under `analysis_results/`. This project models the
search itself, `run_analysis`:

- **Term preparation.** Literal terms and ignore terms are lowercased once.
  Regex terms are compiled once, and a pattern that does not compile is
  skipped with a warning.
- **Per-line evaluation.** Terms are tried in list order and the first hit
  wins. A missing or empty matched term drops the line. In literal mode the
  ignore terms are looked for in the lowercased line. In regex mode they are
  looked for, case-sensitively, in the raw line.
- **Records.** Each surviving line becomes one record,
  `[path] [Matched: 'term'] line`, and the match counter agrees with the
  records written. The output file is the records written one after
  another. A record ends with its line's own terminator, so a record is not
  always a line of the file.
- **File eligibility.** A directory whose path contains `analysis_results`
  is skipped. Only names ending in `.log` or `.json` are read.
- **Run outcomes.** A failing `mkdir` ends the run and keeps the old output
  file. A failing `open` of the output file ends it after the old file was
  removed. Otherwise the output file holds exactly this run's records, in
  order.
- **Custom search.** The menu's free-form input is split on `,`, each piece
  is stripped, and blank pieces are dropped.

Modules, in dependency order:

- `Seqs` — `Option`, `Map`, `Filter`, and the subsequence relation.
- `Text` — the Python string operations used: ASCII `lower`, `in`,
  `endswith`, `strip` and `split`.
- `Terms` — the analysis request and the preparation of its terms.
- `Evaluate` — the verdict for one line, and the record format.
- `Scan` — the walk as a fold, the loops as written, and the run's result.
- `Custom` — parsing of the custom search input.
- `Catalog` — three entries of the `ANALYSES` table.
- `Scenarios` — worked examples, including a whole run.

The file system is an input, not an effect. An `Environment` holds:

- whether `mkdir` succeeds;
- whether the output file opens;
- what the output file held before the run;
- the sequence of `(dirpath, files)` entries that `os.walk('.')` yields,
  each file with the outcome of reading it: all lines, an `open` failure,
  or a failure after some lines.

The regular-expression library is also an input, a `RegexEngine`. It says
whether a pattern compiles and whether a compiled pattern finds a match in a
line.

In literal mode the reported term is the lowercased one: line 168 rebinds
`search_terms` to its lowercased copy, so line 197 sets `matched_term` to a
lowercased term.

## Model

| member | source | states |
|---|---|---|
| Terms.Prepare | bundleparty.py:157-169 | Literal mode lowercases every term and ignore term and skips nothing. Regex mode keeps only compiling patterns and skips only failing ones, the two counts add up to the number of terms, and ignore terms stay as given. `CompiledPatternsAreOrderedSubsequence` and `SkippedPatternsAreTheRest` pin both lists down exactly, in order. |
| Terms.CompiledPatternsAreOrderedSubsequence | bundleparty.py:158-165 | The compiled patterns are an order-preserving subsequence of the terms. Every compiling term keeps all its occurrences, and no non-compiling term appears. |
| Terms.SkippedPatternsAreTheRest | bundleparty.py:161-165 | The skipped patterns are an ordered subsequence of the terms, and kept plus skipped is exactly the terms as a multiset, so no term is lost. |
| Terms.AllValidPatternsKept | bundleparty.py:161-163 | When every pattern compiles, the matcher holds the term list unchanged and nothing is reported as invalid. |
| Evaluate.FirstHitFrom | bundleparty.py:189-198 | The term loop resumed at a position returns the first later position whose term hits, with none before it hitting, or `None` exactly when no remaining term hits. |
| Evaluate.FirstHit | bundleparty.py:188-198 | A returned position is the first term that hits the line, and `None` is returned exactly when no term hits. |
| Evaluate.EvaluateLine | bundleparty.py:185-204 | A reported term is non-empty, is the first hitting term, and the line contains no ignore term. |
| Evaluate.FirstTermReported | bundleparty.py:185-205 | When the first hitting term is non-empty and no ignore term occurs, exactly that term is reported. |
| Evaluate.EvaluateIff | bundleparty.py:200-205 | A line yields a record if and only if its first hit is a non-empty term and no ignore term occurs in the checked text. |
| Evaluate.Record | bundleparty.py:205 | A record has the length of its parts plus 17, starts with `[path] [Matched: '` and ends with `'] ` followed by the line. |
| Evaluate.RecordTermRoundTrip | bundleparty.py:205 | The matched term can be read back out of a record once its path and line are known. |
| Evaluate.LiteralMatchIff | bundleparty.py:193-198 | A literal-mode line matches if and only if the lowercase form of some search term is a substring of the lowercased line. |
| Evaluate.LiteralFirstMatchWins | bundleparty.py:193-198 | Literal mode reports the lowercase form of the first search term, in list order, found in the lowercased line. |
| Evaluate.RegexFirstMatchWins | bundleparty.py:188-192 | Regex mode reports the pattern text of the first compiled pattern whose search succeeds. |
| Evaluate.RegexMatchIff | bundleparty.py:159-192 | A regex-mode line matches if and only if some search term both compiles and finds a match in it. |
| Evaluate.IgnoreSuppresses | bundleparty.py:200-203 | A line is dropped when an ignore term occurs in it: lowercased on both sides in literal mode, case-sensitively in the raw line in regex mode. |
| Evaluate.IgnoreNeverCreatesMatches | bundleparty.py:200-204 | A line with no matched term, or with an empty one, is dropped. A line that yields a record reports the term it would report with no ignore terms. |
| Evaluate.MoreIgnoreTermsOnlyRemove | bundleparty.py:203 | Adding ignore terms can only drop records, never add or change one. |
| Evaluate.LiteralCaseInsensitive | bundleparty.py:194-203 | In literal mode, two lines equal after lowercasing get the same verdict and the same reported term. |
| Evaluate.LiteralShadowedTermNeverReported | bundleparty.py:195-198 | A literal term containing an earlier term, after lowercasing, is never the first hit. |
| Scan.LineTally | bundleparty.py:200-205 | One line adds at most one record and at most one to the count. It adds one exactly when the line yields a record, and then the record carries the reported term. |
| Scan.ScanLines | bundleparty.py:184-205 | For the lines of a file, the count equals the number of records, and neither exceeds the number of lines. |
| Scan.ScanFile | bundleparty.py:180-184 | A file whose name ends in neither `.log` nor `.json`, or that cannot be opened, contributes nothing. |
| Scan.ScanEntry | bundleparty.py:175-176 | A directory whose path contains `analysis_results` contributes nothing. |
| Scan.Run | bundleparty.py:143-210 | The run fails at `mkdir` exactly when `mkdir` fails, and then keeps the old output and reports nothing. It fails at `open` exactly when `mkdir` succeeds and the output file cannot be opened, and then leaves no output file and counts nothing. It completes exactly when both succeed, and then its count equals its number of records. |
| Scan.RunAnalysis | bundleparty.py:154-210 | The nested loops, with a counter and an append-only output, produce exactly the result of the `Run` fold. |
| Scan.ScanDirectory | bundleparty.py:178-208 | The file loop of one directory appends exactly the fold over its files to the counter and output so far. |
| Scan.ScanOneFile | bundleparty.py:184-205 | The line loop of one file appends exactly the fold over its lines to the counter and output so far. |
| Scan.ScanLinesAppend | bundleparty.py:184-205 | Scanning two runs of lines is scanning the first, then the second. |
| Scan.LineContributesInPlace | bundleparty.py:184-205 | Each line contributes its own record, or nothing, between the records of the lines before it and those after it. |
| Scan.ScanLinesCount | bundleparty.py:200-205 | The count of a file is the number of its lines that yield a record. |
| Scan.ReadFailureKeepsEarlierRecords | bundleparty.py:182-208 | A read failing part-way keeps the records of the lines read before it, and loses only those of the unread rest. |
| Scan.UnscannedExtensionIgnored | bundleparty.py:178-180 | Adding a file with another extension anywhere in a directory changes nothing. |
| Scan.ExcludedDirectoryIgnored | bundleparty.py:174-176 | Adding a walk entry whose path contains `analysis_results` anywhere in the walk changes nothing. |
| Scan.EligibleFileScanned | bundleparty.py:174-184 | A file contributes the scan of its lines exactly when it is eligible, and nothing otherwise. |
| Scan.OutputReplacedNotAppended | bundleparty.py:150-152 | Once `mkdir` succeeds, the run's result does not depend on what the output file held before. |
| Scan.RunCountsMatchingLines | bundleparty.py:154-205 | The count of a completed run is the number of lines it read, over every eligible file of the walk, that yield a record. |
| Scan.ScanFilesCount | bundleparty.py:178-205 | The count over one directory's files is the number of lines read from them that yield a record. |
| Scan.ScanWalkCount | bundleparty.py:174-205 | The count over the walk is the number of lines read from non-excluded directories that yield a record. |
| Scan.ScanFiles | bundleparty.py:178 | Over a directory's files, the count equals the number of records. |
| Scan.ScanWalk | bundleparty.py:174 | Over the whole walk, the count equals the number of records. |
| Scan.JoinPath | bundleparty.py:181 | The path shown in a record: `pathlib` drops the leading `.` component of the walk's directory path. `JoinPathKeepsName` states its guarantee. |
| Scan.JoinPathKeepsName | bundleparty.py:181 | The displayed path is the file name itself, or ends with `/` followed by the file name. |
| Scan.DirExcluded | bundleparty.py:175 | A directory is skipped when `analysis_results` occurs anywhere in its path, not only as a whole component. `ExcludedDirectoryIgnored` proves such entries add nothing. |
| Scan.HasScannedExtension | bundleparty.py:180 | A file is read only when its name ends in `.log` or `.json`. `UnscannedExtensionIgnored` proves other files add nothing. |
| Terms.IgnoreList | bundleparty.py:130-132 | Missing ignore terms behave as an empty list, and given ones are used as they are. |
| Evaluate.MatchedTerm | bundleparty.py:185-198 | `matched_term` after the term loop: the text of the first hitting term, or none. `MatchedTermIsFirstHit` states its guarantee. |
| Evaluate.MatchedTermIsFirstHit | bundleparty.py:185-198 | A matched term is the term of the first hit. There is none exactly when no term hits the line. |
| Evaluate.CheckedText | bundleparty.py:202 | Ignore terms are looked for in the raw line in regex mode and in the lowercased line in literal mode. `IgnoreSuppresses` proves the effect on the verdict. |
| Evaluate.Suppressed | bundleparty.py:203 | A line is suppressed when some ignore term occurs in its checked text. `MoreIgnoreTermsOnlyRemove` proves extra ignore terms only drop records. |
| Evaluate.OutputText | bundleparty.py:173-205 | The output file is the concatenation of the records, in the order they are written. |
| Evaluate.UnterminatedLineJoinsNextRecord | bundleparty.py:205 | Two records whose paths and terms hold no terminator, the first for a line without a terminator and the second for a line with one, make exactly one line of output. |
| Text.StripSpec | bundleparty.py:283 | The result of `Strip` has no whitespace at either end, and is a contiguous part of the input with only whitespace around it. It is empty exactly when the input is all whitespace. |
| Text.Split | bundleparty.py:283 | There is always at least one piece, and no piece contains the separator. |
| Text.JoinSplit | bundleparty.py:283 | Joining the pieces with the separator gives back the input. |
| Text.SplitJoin | bundleparty.py:283 | Splitting a join of separator-free pieces gives back the pieces. |
| Custom.ParseCustomTerms | bundleparty.py:283 | Every parsed term is non-empty, comma-free and stripped. |
| Custom.CustomTermsKeepOrder | bundleparty.py:283 | The parsed terms are the stripped pieces in their original order, with exactly the blank ones left out. |
| Custom.ParseJoinRoundTrip | bundleparty.py:283 | Parsing comma-joined, non-empty, stripped, comma-free terms gives back the terms. |
| Custom.TrailingBlankPieceIgnored | bundleparty.py:283 | A trailing comma followed by whitespace does not change what is parsed. |
| Custom.CustomAnalysis | bundleparty.py:282-290 | No run is started exactly when no term survives parsing. Otherwise the run searches literally for the parsed terms, with no ignore terms, and writes to `custom_search_results.txt`. `CustomRunReportsEveryHit` proves what such a run reports. |
| Custom.CustomRunReportsEveryHit | bundleparty.py:283-288 | A custom run reports a line exactly when the lowercase form of one of its terms occurs in the lowercased line. Custom terms are never empty and the run has no ignore terms, so no hit is dropped. |
| Custom.EmptyInputNoTerms | bundleparty.py:283 | An empty input parses to no terms, so no custom run is started. |
| Catalog.WebhookLaterTermsNeverReported | bundleparty.py:103-112 | In "Webhook Issues", `webhooks` and `WebhooksController` are never reported, because `webhook` always hits first. |
| Catalog.FailMatchesAnyCase | bundleparty.py:15-32 | In "General Errors", the lines `FAIL`, `Fail` and `fail` are all reported under `fail`. |
| Scenarios.LiteralIgnoreIsCaseInsensitive | bundleparty.py:200-203 | In literal mode the ignore term `KnownError` suppresses the line `a knownerror occurred`. |
| Scenarios.RegexIgnoreIsCaseSensitive | bundleparty.py:200-203 | In regex mode, for an engine that finds `error` in it, the same line is reported despite the ignore term. |
| Scenarios.ConnectionErrorsScenario | bundleparty.py:54-62 | Running "Connection Errors" over one matching `.log` line and one unrelated `.json` line completes. It counts 1 and writes exactly one record, for `a.log` under `failed to connect to`. |

## Left out

- Printing is not modelled: progress messages, warnings for invalid patterns and for unreadable files, and the final summary. Skipped patterns are returned instead of printed.
- The regular-expression language is not implemented: `re.compile` with `re.IGNORECASE` and `pattern.search` are the `RegexEngine` parameter. The HTTP status patterns of entry "2" are therefore not checked against concrete lines.
- File-system effects are not performed. The outcomes of `mkdir`, of opening the output file, of `os.walk` and of reading each file are given as an `Environment`. The walk order is whatever that sequence says.
- A failing `unlink` of the old output file (lines 151-152) is not modelled: it has no handler, so it raises out of `run_analysis` and `main`. An example is an output path that is a directory. The model assumes the removal succeeds.
- An exception from `re.compile` other than `re.error` (line 164) is not modelled, for example `OverflowError` for an oversized repeat count. It escapes the handler and ends the program. The `RegexEngine` only says whether a pattern compiles.
- The output file is modelled as the list of records, with `OutputText` giving its text. A record is not always a line: a last line without a terminator runs into the next record, so the count can exceed the number of lines in the file. `UnterminatedLineJoinsNextRecord` shows this.
- UTF-8 decoding with `errors='ignore'` is not modelled: lines are given as already-decoded strings.
- Write errors on the output file are not modelled: a failing `write` is caught by the per-file handler. A run is modelled as either failing to open the output file or writing every record. In the source, line 204 increments the counter before the write at line 205, so a failing write (a `UnicodeEncodeError` for a file name holding surrogate escapes, written as UTF-8) leaves the count one above the records written and abandons the rest of that file; the model's agreement of count and records does not cover that case.
- Text.Lower: lowercases ASCII letters only, because the Unicode case mapping of `str.lower` is outside the model.
- Scan.JoinPath: covers only the directory paths `os.walk('.')` produces, `.` and paths starting with `./`. Other `pathlib` normalisation is not modelled.
- The interactive menu of `main` is not modelled: reading input, quitting, running all analyses in turn, and pausing between runs. Only the parsing of a custom search and the run it starts are modelled.
- Only three of the nine `ANALYSES` entries are written out as constants. The other entries are data for the same `run_analysis` and add no behaviour.
