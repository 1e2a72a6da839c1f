# Pull-request coverage: correlating a diff with a Clover report

This project models `CoverageReporter` of `coverage.py`, a tool that reports
code coverage restricted to the lines a pull request adds. The reporter takes
the pull-request diff (file entries, hunks, typed segments, line records), a
Clover statement-coverage report and a base repository path. For every
added line of every file it looks up the report's record at
`base path + file name` and that line number. Only lines whose first record is a
statement are kept, each with a covered flag. From the resulting
`file -> (line -> covered)` map it computes the total coverage percentage and a
per-file report: the percentage and the uncovered lines of each file that has
tracked lines.

Layout, one module per file:

- `wrappers.dfy` (`Wrappers`): the `Option` type.
- `diff.dfy` (`Diff`): the diff's datatypes and the set of lines each file entry adds.
- `clover.dfy` (`Clover`): the report as a document-ordered sequence of line records, and the first-match lookup that stands in for the XPath query.
- `correlation.dfy` (`Correlation`): what `_parse` computes, as functions, with its properties.
- `totals.dfy` (`Totals`): the tracked and covered counts, sums over files and percentages.
- `reporter.dfy` (`Reporter`): the class `CoverageReporter`. Its field `fileDiffs` is built by `Parse`, whose nested loops mirror the source's. `GetTotalCoverage` and `Report` loop over the map as the source does.
- `scenarios.dfy` (`Scenarios`): two worked examples on concrete inputs.

Modelling decisions:

- Covered means an execution count above zero; see "## Findings" for what the source actually computes.
- Lookup takes the first record in document order whose file name equals `base path + file name` exactly and whose line number equals the diff line. A wrong prefix finds nothing and yields an empty map, never an error.
- Keys of a file's map are the record's line number as an integer. The source stores the record's `num` attribute, a string, which names the same line.
- Percentages are exact `real` divisions; Python's floats are not modelled.
- The report is returned as data (the total and one summary per file) rather than as text. The order of files and of uncovered lines follows dict iteration in the source; the model promises no order, only which entries appear, each once.
- The code does not sort uncovered lines. The model follows the code and does not promise ascending order.

## Model

| member | source | states |
|---|---|---|
| Diff.AddedLines | coverage.py:40-44 | the set of destination line numbers of the lines in the ADDED segments of all hunks of a file entry (definition; characterised by Diff.AddedLinesExactly) |
| Diff.AddedLinesExactly | coverage.py:40-44 | a line is among a file entry's added lines exactly when it is the destination of a line of one of its ADDED segments; REMOVED and CONTEXT segments contribute nothing |
| Clover.FirstMatch | coverage.py:45-50 | returns the position of the first record in document order matching the file name and line number, and none exactly when no record matches |
| Clover.Lookup | coverage.py:45-50 | the record `covered_line[0]` picks: none exactly when the first-match search finds none, and otherwise a record matching the file name and line number |
| Clover.Classify | coverage.py:46-51 | a line is absent when no record is found or the found record is not `stmt`, else tracked with covered = count > 0 (definition; characterised by Clover.ClassifyByFirstRecord and Clover.UnmatchedNotTracked) |
| Clover.Covered | coverage.py:51 | the intended covered test: an execution count above zero (definition) |
| Clover.CoveredAsWritten | coverage.py:51 | the covered test as written: under Python 2 the string attribute always compares greater than 0, so always true (definition; characterised by Correlation.AsWrittenNeverUncovered) |
| Clover.ClassifyByFirstRecord | coverage.py:46-51 | the first matching record alone decides: the line is tracked exactly when that record's type is `stmt`, and then covered exactly when its count is positive |
| Clover.UnmatchedNotTracked | coverage.py:48-49 | a line with no matching record is not tracked |
| Clover.ZeroCountCoveredAsWritten | coverage.py:51 | a statement record with count 0 counts as covered under the source's comparison but uncovered under the intended one |
| Correlation.Track | coverage.py:44-52 | `added_lines` for a set of candidate lines; its keys lie among the candidates (definition; characterised by Correlation.TrackExactly) |
| Correlation.TrackExactly | coverage.py:44-52 | a candidate is a key exactly when its classification finds a `stmt` record, and then maps to that record's covered flag |
| Correlation.ClassifyAsWritten | coverage.py:46-51 | the classification with line 51 as written: same tracked lines, flag always true (definition; characterised by Correlation.AsWrittenNeverUncovered) |
| Correlation.TrackAsWritten | coverage.py:44-52 | `added_lines` with line 51 as written (definition; characterised by Correlation.AsWrittenNeverUncovered) |
| Correlation.TrackedLines | coverage.py:39-52 | `added_lines` of one file entry: its added lines, looked up at base path + destination (definition; characterised by Correlation.TrackedLinesExactly) |
| Correlation.Correlate | coverage.py:36-54 | `file_diffs`: the file entries in order, each storing its tracked lines under its destination, later entries replacing earlier ones (definition; characterised by Correlation.CorrelateShape and Correlation.CorrelateSound) |
| Correlation.AsWrittenNeverUncovered | coverage.py:48-52 | with the source's comparison at line 51, the same lines are tracked but all are covered, so no uncovered line is ever listed |
| Correlation.CorrelateKeys | coverage.py:37-53 | the result has an entry for every file entry's destination, even one with no tracked line, and no other entry |
| Correlation.CorrelateLastWins | coverage.py:37-53 | the entry for a name is the map computed for the last file entry with that name |
| Correlation.CorrelateShape | coverage.py:36-54 | both of the above for all file entries at once |
| Correlation.CorrelateSound | coverage.py:36-54 | every key of a file's map is added by some file entry with that name and has a first matching record at base path + name that is a statement, whose count decides the flag |
| Correlation.OnlyAddedTracked | coverage.py:42-44 | a tracked line comes from an ADDED segment of that file entry |
| Correlation.TrackedLinesExactly | coverage.py:44-52 | an added line is tracked exactly when its classification finds a statement record, with that record's covered flag |
| Correlation.ZeroCountTrackedUncovered | coverage.py:46-52 | an added line whose first record is a statement with count 0 is tracked as uncovered |
| Correlation.PrefixMismatchEmpty | coverage.py:45-49 | when no record carries the name base path + file name, the file's map is empty |
| Totals.CoveredLines | coverage.py:61 | the keys of a file's map whose value is true, the filter at line 61 (definition; characterised by Totals.CoveredUncoveredSplit) |
| Totals.UncoveredLines | coverage.py:75 | the keys of a file's map whose value is false, the filter at line 75 (definition; characterised by Totals.CoveredUncoveredSplit) |
| Totals.CoveredUncoveredSplit | coverage.py:61-75 | covered and uncovered lines are disjoint and together make up a file's tracked lines |
| Totals.TotalTracked | coverage.py:57-60 | `total_lines`: the sum over all files of the number of tracked lines (definition) |
| Totals.TotalCovered | coverage.py:58-61 | `covered_lines`: the sum over all files of the number of lines marked covered (definition) |
| Totals.AllCoveredTotalFull | coverage.py:56-64 | when no file has an uncovered line, as with the source's comparison at line 51, covered equals tracked and the total is exactly 100 |
| Totals.CoveredAtMostTracked | coverage.py:57-61 | across all files the covered count is at most the tracked count |
| Totals.NoTrackedLines | coverage.py:59-63 | the total tracked count is zero exactly when every file's map is empty |
| Totals.Percent | coverage.py:62-64 | exactly 100 with no tracked lines; otherwise p times total equals covered times 100; within 0..100, and 100 exactly when all are covered |
| Totals.ComplementPercent | coverage.py:75-76 | the per-file figure, 100 times one minus the uncovered fraction, equals the covered percentage |
| Reporter.UncoveredList | coverage.py:75 | returns exactly the lines mapped to false, each once |
| Reporter.Summarize | coverage.py:72-79 | for a file with tracked lines, returns its percentage and its uncovered lines |
| Reporter.CoverageReporter.constructor | coverage.py:29-31 | stores the diff and leaves the object with its map built from the diff, report and base path |
| Reporter.CoverageReporter.Parse | coverage.py:33-54 | the nested loops leave `fileDiffs` equal to the correlation of all file entries with the report |
| Reporter.CoverageReporter.GetFileCoverageLines | coverage.py:66-67 | the map has one key per file of the diff, each holding the tracked lines of the last entry with that name |
| Reporter.CoverageReporter.GetTotalCoverage | coverage.py:56-64 | the loop's sums give the total percentage of covered over tracked lines: within 0..100, and exactly 100 when every file's map is empty |
| Reporter.CoverageReporter.Report | coverage.py:69-80 | returns the total percentage and one summary for each file with tracked lines and for no other file, each reporting its percentage and uncovered lines |
| Scenarios.FooTracked | coverage.py:39-52 | lines 10 (count 0) and 12 (count 3) of foo.py, with no record for 11, give the map {10: false, 12: true} |
| Scenarios.FooScenario | coverage.py:36-76 | correlating the one-file diff stores {10: false, 12: true} under foo.py, which reads 50 percent with uncovered lines {10} |
| Scenarios.BarScenario | coverage.py:44-52 | an added line whose record is a method declaration leaves the file's map empty |

## Findings

| source | as written | input that shows it | evidently intended | confidence | as-written member | corrected member |
|---|---|---|---|---|---|---|
| coverage.py:51 | `covered_line.get('count') > 0` compares the string attribute with the integer 0, which under Python 2 is always true | a `stmt` record with `count="0"` on an added line | covered when the execution count is above zero | high, not executed | Correlation.AsWrittenNeverUncovered | Correlation.ZeroCountTrackedUncovered |

## Left out

- `StashApi` (coverage.py:11-24): fetching the diff over HTTP with Basic authentication and a timeout is network I/O. The diff is a parameter instead.
- `main` (coverage.py:85-103): command-line parsing and printing.
- Reading the XML file, parsing it and evaluating XPath (coverage.py:34-35, 45-46) are file I/O and a foreign library. The report is a pre-parsed record sequence with a first-match lookup. A malformed document, and a file name containing a quote that would break the query, are therefore not modelled.
- The source indexes the diff's JSON without any guard: `['diffs']` (coverage.py:37), `['destination']['toString']` (coverage.py:38), `['hunks']` (coverage.py:40), `['segments']` (coverage.py:41), `['type']` (coverage.py:42), `['lines']` (coverage.py:44) and `['destination']` of a line (coverage.py:45). A missing or null value at any of these raises `KeyError` or `TypeError`, which aborts the whole run, so no report at all is produced. An example is a file entry with no destination, such as a file the pull request deletes. The datatypes always carry these fields, so the model gives such a file a map instead of failing.
- A record's missing `type` attribute is modelled as any type other than `stmt`. Its `count` is always present, as a natural number.
- The source's map keys are the `num` attribute strings; the model keys by integer line number. XPath's numeric match would also accept a record written as, say, `num="010"`.
- Floating-point rounding of the percentages (coverage.py:64, 76): modelled as exact reals.
- The text of the report (coverage.py:70, 77, 79) and the dict iteration order of files and uncovered lines.
