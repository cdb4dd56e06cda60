# Numbered-line extraction and offset renumbering, in Dafny

This project models two small text-processing scripts from the
`cs_tagless` actor-assignment tooling and proves what they do.

**`Austin_cs_tagless/numbering_script.py`** gathers numbered lines from
actor-assignment files into one output file:
- It normalises line endings.
- It collects monologue and `SCENARIO` entries. A fallback match is skipped when its number is already collected.
- It scans the remaining lines for `<digits><whitespace><text>` lines. Continuation lines are gathered into the same entry until a break marker, a blank line, the next numbered line or a header line.
- It sorts all entries by number (stably) and keeps the first entry of each number.
- It cleans every kept text with `clean_text`.
- It writes `<number>  <text>` lines joined by newlines.

**`Chris_Arias_cs_tagless/tori_2_chris.py`** selects the files whose name
carries `actor_assignments<N>.txt` with `N >= 8`. It rewrites every line that
starts with a digit run followed by a whitespace character, raising that
number by 612.

Modules:
- `Strings`: the parts of Python's `str` the scripts use, over ASCII. That is `\d`, `\s`, `strip`, `split()`, `find`, `replace`, `split('\n')` and `join`.
- `Decimal`: `int(digits)` and `str(n)`, with their round trip.
- `TextCleaning`:
  - `clean_text` as a chain of left-to-right substitution scanners, one per regular expression, and the marker truncation loop.
  - Proofs that the result is tidy.
  - What the function does to text with nothing to remove.
- `CleanTextExamples`: worked inputs, including the proof that `clean_text` is not idempotent.
- `Newlines`: the CRLF / CR normalisation.
- `Entries`:
  - the `(number, text)` entries;
  - the stable sort by number, as an insertion sort on values;
  - the `seen`-set deduplication loop.
- `Collector`: the numbered-line loop, as methods with loop invariants proved against a reference definition (`Collected`).
- `Aggregate`:
  - the monologue and fallback appends;
  - the per-file loop of `process_files`;
  - the output formatting loop;
  - end-to-end properties of the written text.
- `Renumbering`: the `re.sub` with the `add_offset` callback, its line-by-line reading, and the file filter of `main`.
- `RenumberExamples`: worked inputs.

One might expect `clean_text` to be idempotent, since it is meant to strip
all metadata in one pass. The code is not: `clean_text("Narrator: Foo: bar")`
is `"Foo: bar"`, and cleaning that again gives `"bar"`. The model follows the
code and proves the counterexample (`CleanTextExamples.NotIdempotent`). It
also proves the condition under which a second pass changes nothing
(`TextCleaning.CleanTextStable`).

The collector's stop test `re.match(r'^\d+\s+', next_line)` succeeds exactly
when the opening test `re.match(r'^(\d+)\s+(.*)$', line)` does. The lines come
from `split('\n')`, so they hold no newline for `.` to miss. Both are modelled
by `Collector.NumberedLine`.

## Model

| member | source | states |
|---|---|---|
| Strings.StripSpec | Austin_cs_tagless/numbering_script.py:54 | `strip()` returns the slice between the leading and the trailing whitespace runs. Everything cut off is whitespace, and the result neither starts nor ends with whitespace. |
| Strings.SplitIgnoresStrip | Austin_cs_tagless/numbering_script.py:96 | `s.strip().split()` has exactly the words of `s.split()`. |
| Strings.SplitJoinWords | Austin_cs_tagless/numbering_script.py:96 | Joining non-empty, whitespace-free words with single spaces and splitting again gives the same words. |
| Strings.SplitWordsAreWords | Austin_cs_tagless/numbering_script.py:96 | Every piece `split()` returns is non-empty and holds no whitespace. |
| Strings.SplitLines | Austin_cs_tagless/numbering_script.py:135 | `split('\n')` returns at least one piece. No piece holds a newline, and joining the pieces with `'\n'` gives the input back. |
| Strings.SplitJoin | Austin_cs_tagless/numbering_script.py:201 | Splitting newline-joined, newline-free lines at `'\n'` gives the same lines back. |
| Strings.Find | Austin_cs_tagless/numbering_script.py:43 | `find` returns the first index where the marker occurs. It returns none exactly when the marker does not occur. |
| Decimal.ShowNat | Chris_Arias_cs_tagless/tori_2_chris.py:16 | `str(n)` is a canonical digit string (no superfluous leading zero) whose value is `n`. |
| Decimal.ShowParse | Chris_Arias_cs_tagless/tori_2_chris.py:15-16 | `str(int(s)) == s` for every canonical digit string `s`. |
| Decimal.CanonicalInjective | Chris_Arias_cs_tagless/tori_2_chris.py:15-16 | Two canonical digit strings with the same value are equal. |
| TextCleaning.CleanTextTidy | Austin_cs_tagless/numbering_script.py:24-54 | For every input, the result is trimmed and its only whitespace is single spaces. It holds no run of five `=` and no run of five `-`. |
| TextCleaning.RuleLineNoRun | Austin_cs_tagless/numbering_script.py:48-49 | After `re.sub(r'\s*c{5,}\s*', ' ', t)` no run of five `c` is left. |
| TextCleaning.SubAllKeepsNoRun | Austin_cs_tagless/numbering_script.py:48-52 | The later substitutions, which insert only spaces, never create a run of five `=` or `-`. |
| TextCleaning.CollapseSpacesSingleSpaced | Austin_cs_tagless/numbering_script.py:52 | After `re.sub(r'\s+', ' ', t)` the only whitespace is single spaces, and a text that starts with a non-space keeps its first character. |
| TextCleaning.CollapseSpacesWords | Austin_cs_tagless/numbering_script.py:52 | `re.sub(r'\s+', ' ', t)` keeps the words: `split()` finds the same words before and after. |
| TextCleaning.CollapseSpacesStrip | Austin_cs_tagless/numbering_script.py:52-54 | `re.sub(r'\s+', ' ', t).strip()` equals `' '.join(t.split())`: the text's words, in order, one space apart. |
| TextCleaning.JoinSplitSingleSpaced | Austin_cs_tagless/numbering_script.py:52-54 | A trimmed, single-spaced text is the join of its own words. |
| TextCleaning.TruncateAtSpec | Austin_cs_tagless/numbering_script.py:43-45 | One truncation gives a prefix of the text without the marker. Where it cuts, the marker starts in the text. |
| TextCleaning.TruncateAllSpec | Austin_cs_tagless/numbering_script.py:34-45 | After the marker loop, the text is a prefix of its value before the loop. It contains none of the six markers, and where it was cut, one of the markers starts. |
| TextCleaning.RemoveLabelsPlain | Austin_cs_tagless/numbering_script.py:27-31 | A text without `:` has no label to remove: the three label substitutions return it unchanged. |
| TextCleaning.CharacterLabelMatch | Austin_cs_tagless/numbering_script.py:26-27 | `Character\s*\d+:\s*` matches a text `Character<spaces><digits>:<spaces>...` over the whole label, the whitespace after the colon included. |
| TextCleaning.RoleCodeLabelMatch | Austin_cs_tagless/numbering_script.py:28-29 | `[A-Z][A-Za-z\s]+:\s*[A-Z]?\d+:\s*` matches `<Upper><role>:<spaces><optional letter><digits>:<spaces>...` over the whole label. |
| TextCleaning.RoleLengthOf | Austin_cs_tagless/numbering_script.py:30-31 | `[A-Z][A-Za-z\s]+:\s*` matches `<Upper><role>:<spaces>...` over the role name, the colon and the whitespace after it. |
| TextCleaning.CollapseRulesPlain | Austin_cs_tagless/numbering_script.py:48-49 | A text without a run of five `=` or `-` is left unchanged by the two rule substitutions. |
| TextCleaning.CleanTextPlain | Austin_cs_tagless/numbering_script.py:24-54 | A text with no `:` and no run of five `=` or `-` is cut at the first marker. Its words are then joined with single spaces. |
| TextCleaning.CleanTextPlainNoMarker | Austin_cs_tagless/numbering_script.py:24-54 | A text that also holds no marker cleans to its own words, joined with single spaces. |
| TextCleaning.CleanTextStable | Austin_cs_tagless/numbering_script.py:24-54 | A second `clean_text` leaves a cleaned text as it is whenever that text has no label to remove and no marker. |
| CleanTextExamples.NotIdempotent | Austin_cs_tagless/numbering_script.py:24-54 | `clean_text("Narrator: Foo: bar") == "Foo: bar"` and `clean_text("Foo: bar") == "bar"`, so `clean_text` is not idempotent. |
| CleanTextExamples.GoNow | Austin_cs_tagless/numbering_script.py:34-54 | `clean_text("Go now. You are A; continue the scene.") == "Go now."`: the text is cut at the instruction and the space before it is stripped. |
| CleanTextExamples.CustomerSupportLabel | Austin_cs_tagless/numbering_script.py:28-29 | The label of `Customer Support: D2: Hello` is 22 characters long: `Customer Support: D2: `. |
| CleanTextExamples.CustomerSupportClean | Austin_cs_tagless/numbering_script.py:24-54 | The label is removed: `Customer Support: D2: Hello` loses its labels to `Hello`, which is also what it cleans to. |
| CleanTextExamples.CharacterThreeLabel | Austin_cs_tagless/numbering_script.py:26-27 | The label of `Character 3: Hi` is 13 characters long: `Character 3: `. |
| CleanTextExamples.CharacterThreeClean | Austin_cs_tagless/numbering_script.py:24-54 | The label is removed: `Character 3: Hi` loses its labels to `Hi`, which is also what it cleans to. |
| Newlines.NormalizeIsOneLineFeed | Austin_cs_tagless/numbering_script.py:69 | The two chained `replace` calls equal a one-pass reading in which each `\r\n` pair and each lone `\r` becomes one `\n` and every other character is kept. |
| Newlines.NormalizeNewlinesSpec | Austin_cs_tagless/numbering_script.py:69 | No `\r` is left, and content without `\r` comes through unchanged. |
| Newlines.OneLineFeed | Austin_cs_tagless/numbering_script.py:69 | The one-pass reading leaves no `\r`, and content without `\r` comes through unchanged. |
| Entries.Insert | Austin_cs_tagless/numbering_script.py:184 | Inserting into a sorted list gives a sorted permutation of the element and the list. |
| Entries.SortByNumber | Austin_cs_tagless/numbering_script.py:184 | The sort returns a permutation of its input, ordered by number. |
| Entries.SortByNumberStable | Austin_cs_tagless/numbering_script.py:184 | The sort is stable: the entries of each number keep their input order. |
| Entries.FirstOccurrences | Austin_cs_tagless/numbering_script.py:185-190 | The deduplicated list holds only input entries and has exactly the input's numbers. |
| Entries.Deduplicate | Austin_cs_tagless/numbering_script.py:185-190 | The `seen` loop returns the first entry of every number, in order (`FirstOccurrences`). |
| Entries.FirstOccurrencesWithNumber | Austin_cs_tagless/numbering_script.py:185-190 | For every number present, exactly one entry is kept, and it is the first one with that number. No entry is kept for an absent number. |
| Entries.FirstOccurrencesDistinct | Austin_cs_tagless/numbering_script.py:185-190 | No number is kept twice. |
| Entries.FirstOccurrencesIncreasing | Austin_cs_tagless/numbering_script.py:184-190 | Deduplicating a sorted list leaves the numbers strictly increasing. |
| Entries.SortDeduplicate | Austin_cs_tagless/numbering_script.py:184-190 | Sort then dedup keeps one entry per number in strictly increasing order, with the same set of numbers. The entry kept is the first one appended with that number. |
| Collector.NumberedLine | Austin_cs_tagless/numbering_script.py:139-143 | A line opens an entry only if it starts with a digit. The captured rest is a suffix of the line and does not start with whitespace. |
| Collector.NumberedLineParts | Austin_cs_tagless/numbering_script.py:139-143 | A line `<digits><whitespace><rest>` opens an entry with the value of its digit run and that rest. |
| Collector.NotNumbered | Austin_cs_tagless/numbering_script.py:139 | A line without a leading digit run followed by whitespace opens no entry. |
| Collector.NumberedIsBoundary | Austin_cs_tagless/numbering_script.py:162 | A numbered line is never consumed as a break: it ends the previous entry without being consumed. |
| Collector.ClassifyLine | Austin_cs_tagless/numbering_script.py:151-174 | A line ends the entry and is consumed exactly when its stripped text is `###BREAK###` or empty. A numbered line, a line starting with `---`, or a line whose stripped text starts with a header prefix ends the entry without being consumed. A line is gathered exactly when it is none of these. |
| Collector.InfosConsistent | Austin_cs_tagless/numbering_script.py:139-162 | In the table of any line list, a line that opens an entry is a boundary. |
| Collector.ContinuationEnd | Austin_cs_tagless/numbering_script.py:147-175 | Gathering runs exactly over the continuation lines and stops at the first line that is not one. |
| Collector.StopsAtLine | Austin_cs_tagless/numbering_script.py:145-175 | After continuation lines, gathering stops at the first line that does not continue. At a `###BREAK###` or blank line, scanning resumes after it. At a numbered, `---` or header line, scanning resumes at it. At the end of the lines, scanning ends. |
| Collector.Stripped | Austin_cs_tagless/numbering_script.py:149-174 | The gathered texts are the stripped continuation lines, one per line, in order. |
| Collector.GatheredNotNumbered | Austin_cs_tagless/numbering_script.py:147-175 | No line passed over while gathering (continuation lines and the one consumed break) is numbered. |
| Collector.GatherContinuation | Austin_cs_tagless/numbering_script.py:145-175 | The inner loop returns the stripped continuation lines, in order, and the index where scanning resumes. |
| Collector.ScanLine | Austin_cs_tagless/numbering_script.py:138-181 | One pass of the outer loop appends exactly what the reference assigns to the line: its entry when the line is numbered and the joined text is not blank, nothing otherwise. The index strictly increases, and the lines skipped contribute nothing. |
| Collector.Scan | Austin_cs_tagless/numbering_script.py:136-181 | The outer loop terminates, and the entries it appends are the reference reading over the table. |
| Collector.CollectNumbered | Austin_cs_tagless/numbering_script.py:134-181 | Over `content_cleaned.split('\n')` the loop collects exactly `Collected(lines)`. |
| Collector.CollectedFromNumbered | Austin_cs_tagless/numbering_script.py:139-179 | Every collected entry comes from a numbered line. It has that line's number and its gathered text, and the text is not blank. |
| Collector.NumberedCollected | Austin_cs_tagless/numbering_script.py:139-179 | Every numbered line whose gathered text is not blank is collected, with its number and that text. |
| Aggregate.WordsSpec | Austin_cs_tagless/numbering_script.py:96 | `' '.join(body.strip().split())` has the same words as the body, and is trimmed and single-spaced. |
| Aggregate.WordsIgnoreStrip | Austin_cs_tagless/numbering_script.py:96 | The `strip()` before `split()` does not change the joined words. |
| Aggregate.FromCapturesSpec | Austin_cs_tagless/numbering_script.py:94-103 | The monologue loops append one entry per match, in match order. Each entry has the match's number, and its text is trimmed and single-spaced with the same words as the match's body. The entries' numbers are exactly the matches' numbers. |
| Aggregate.WithScenarios | Austin_cs_tagless/numbering_script.py:105-110 | The fallback pass keeps what was collected as a prefix. Every entry it appends has a number absent from all entries before it, and comes from a fallback match. The numbers afterwards are the old numbers plus the matches' numbers. |
| Aggregate.WithScenariosFirst | Austin_cs_tagless/numbering_script.py:105-110 | The fallback pass appends, in match order, the first match of every number not collected before it. No other match is appended. |
| Aggregate.Unseen | Austin_cs_tagless/numbering_script.py:108 | Keeps exactly the entries whose number is not yet collected. |
| Aggregate.UnseenWithNumber | Austin_cs_tagless/numbering_script.py:108 | For each number, either all its entries are kept, in their order, or none are: none when the number was collected before, all otherwise. |
| Aggregate.UnseenConcat | Austin_cs_tagless/numbering_script.py:106-110 | Filtering a sequence of matches is filtering each part in turn, so the relative order of kept matches is their match order. |
| Aggregate.AppendScenarios | Austin_cs_tagless/numbering_script.py:106-110 | The fallback loop computes `WithScenarios`. |
| Aggregate.FormatParse | Austin_cs_tagless/numbering_script.py:197 | An output line `f"{num}  {cleaned}"` reads back as its number and its text. |
| Aggregate.FormatLineNoNewline | Austin_cs_tagless/numbering_script.py:197 | An output line built from a single-spaced text holds no newline. |
| Aggregate.FormatOutput | Austin_cs_tagless/numbering_script.py:193-197 | The output loop formats, in order, the cleaned text of every kept entry that cleans to something. |
| Aggregate.CleanedFrom | Austin_cs_tagless/numbering_script.py:194-197 | Every line written comes from a kept entry whose cleaned text is not empty. |
| Aggregate.CleanedKeeps | Austin_cs_tagless/numbering_script.py:194-197 | Every kept entry whose text cleans to something is written, cleaned. |
| Aggregate.CleanedTidy | Austin_cs_tagless/numbering_script.py:194-197 | Every text written is non-empty and tidy. |
| Aggregate.CleanedIncreasing | Austin_cs_tagless/numbering_script.py:184-197 | Dropping empty texts keeps the numbers strictly increasing. |
| Aggregate.KeptAreFirst | Austin_cs_tagless/numbering_script.py:184-190 | After sort and dedup the numbers strictly increase. Every kept entry is the first gathered with its number, and the first entry of every number is kept. |
| Aggregate.OutputReports | Austin_cs_tagless/numbering_script.py:184-197 | Every output line holds no newline. It reads back as a number and a non-empty tidy text, and that text is `clean_text` of the first entry gathered with that number. |
| Aggregate.OutputComplete | Austin_cs_tagless/numbering_script.py:184-197 | Every number whose first entry cleans to something has an output line. |
| Aggregate.OutputSpec | Austin_cs_tagless/numbering_script.py:184-201 | End to end: every line reports the first entry of its number, and numbers strictly increase from line to line. No number that cleans to something is missing. The lines come back from the written text by splitting at `'\n'` (no trailing newline). |
| Aggregate.ProcessFiles | Austin_cs_tagless/numbering_script.py:57-201 | `process_files` without its I/O. Per present file it appends the monologue entries, then the fallback entries, then the collected numbered lines. It then sorts, deduplicates, formats and joins, producing `Output(files)`. |
| Renumbering.AddOffset | Chris_Arias_cs_tagless/tori_2_chris.py:14-16 | The new number is a canonical digit string whose value is the old value plus 612. |
| Renumbering.AddOffsetNoNewline | Chris_Arias_cs_tagless/tori_2_chris.py:16 | The new number holds no newline. |
| Renumbering.RenumberJoined | Chris_Arias_cs_tagless/tori_2_chris.py:19 | On newline-joined lines the multiline `re.sub` acts line by line. Each line except the last is followed by its newline. |
| Renumbering.RenumberByLines | Chris_Arias_cs_tagless/tori_2_chris.py:19 | The rewritten content has the same number of lines, with newlines in place. Its lines are the original lines, each renumbered on its own. |
| Renumbering.RenumberLinesSpec | Chris_Arias_cs_tagless/tori_2_chris.py:14-19 | The number of lines is kept, and newline-free lines stay newline-free. A line `<digits><ws><rest>` becomes the raised number, the same whitespace character and the rest. A digits-only line is raised unless it is the last line. Every other line is kept as it is. |
| Renumbering.RenumberLineCases | Chris_Arias_cs_tagless/tori_2_chris.py:14-19 | The same three cases for one line, given whether a newline follows it. |
| Renumbering.RenumberLineNoNewline | Chris_Arias_cs_tagless/tori_2_chris.py:16-19 | Renumbering a line adds no newline. |
| Renumbering.RenumberLineMatch | Chris_Arias_cs_tagless/tori_2_chris.py:14-19 | A line `<digits><whitespace><rest>` becomes `str(int(digits) + 612)`, then the same whitespace character, then the same rest. |
| Renumbering.RenumberLineKeeps | Chris_Arias_cs_tagless/tori_2_chris.py:19 | A line that does not start with a digit, or whose digit run is followed by a character other than whitespace, is unchanged. |
| Renumbering.DigitsOnlyLastLine | Chris_Arias_cs_tagless/tori_2_chris.py:19 | A line of digits alone is renumbered when a newline follows it, because `\s` matches that newline. As the last line it is left alone. |
| Renumbering.FileNumberFrom | Chris_Arias_cs_tagless/tori_2_chris.py:32 | `re.search` returns the value at the leftmost index where `actor_assignments(\d+)\.txt` matches, and none when it matches nowhere. |
| Renumbering.FirstMatch | Chris_Arias_cs_tagless/tori_2_chris.py:32 | The search's result is the match at the first matching index. |
| Renumbering.FileNumberOf | Chris_Arias_cs_tagless/tori_2_chris.py:32-35 | A path `<before>actor_assignments<digits>.txt<after>` with no earlier match carries the value of `digits`. It is selected exactly when that value is at least 8. |
| Renumbering.RewriteAllSpec | Chris_Arias_cs_tagless/tori_2_chris.py:30-36 | Every file keeps its path and place, and a file not selected is unchanged. A selected file's lines are its old lines, each renumbered. |
| RenumberExamples.HelloWorld | Chris_Arias_cs_tagless/tori_2_chris.py:14-19 | `"5 Hello world"` becomes `"617 Hello world"`. |
| RenumberExamples.LeadingZeros | Chris_Arias_cs_tagless/tori_2_chris.py:14-19 | `"007 x"` becomes `"619 x"`: leading zeros are not kept. |
| RenumberExamples.DigitsAtEnd | Chris_Arias_cs_tagless/tori_2_chris.py:19 | A final line `"12"` without a newline is unchanged. |
| RenumberExamples.DigitsThenNewline | Chris_Arias_cs_tagless/tori_2_chris.py:19 | `"12\n"` becomes `"624\n"`. |
| RenumberExamples.NotAtLineStart | Chris_Arias_cs_tagless/tori_2_chris.py:19 | `"a 5 b"` is unchanged: digits not at a line start are left alone. |
| RenumberExamples.TwelveSelected | Chris_Arias_cs_tagless/tori_2_chris.py:32-35 | `actor_assignments12.txt` carries 12 and is rewritten. |
| RenumberExamples.SevenSkipped | Chris_Arias_cs_tagless/tori_2_chris.py:32-35 | `actor_assignments7.txt` carries 7 and is not rewritten. |

## Left out

- File and console I/O is not modelled: the glob, the existence check, reading and writing files, and the prints. A file is given as its content, or as `Missing` when the listing names a file that no longer exists. The output is the string that would be written. The files are taken in the order given, which the scripts get from `sorted(glob(...))`.
- The monologue extraction and removal regular expressions (numbering_script.py:77-115) are not modelled. They rely on lazy `DOTALL` matching with lookahead and lookbehind. Their matches are an input of the per-file step (`Aggregate.FileScan`): the monologue matches of both patterns, the fallback matches, and the text left for the line scan.
- The header and metadata substitutions (numbering_script.py:118-132) are not modelled either. Their result, `content_cleaned`, is the `cleaned` field of the same input.
- Aggregate.ProcessFiles does not apply the CRLF normalisation of line 69 itself. The normalisation matters only to the regular expressions that are left out, so it is modelled and proved on its own (`Newlines`).
- Unicode is not modelled: `\d`, `\s`, `str.isspace` and `str.strip` are restricted to ASCII.
- Entries.SortByNumber: the in-place `list.sort` is modelled on values as a stable insertion sort. Only its result is modelled, not Python's algorithm.
- Collector.Scan: each line's match, kind and stripped text are computed once into a table before the loop. The source evaluates them when it reaches the line. All three are pure functions of the line, so the results are the same.
- Renumbering.AddOffset: the callback returns the new number only. The scan appends the matched whitespace character (`match.group(2)` in the source) right after it.
- Decimal.DigitsValue: CPython's limit of 4300 digits on `int()` is not modelled. In the source (numbering_script.py:95, 101, 107, 142 and tori_2_chris.py:15, 34) a longer digit run raises `ValueError` and ends the script; the model reads digit runs of any length.
- Decimal.ShowNat: the same limit on `str()` (tori_2_chris.py:16, numbering_script.py:197) is not modelled; the model writes numbers of any length.
- Decimal.ShowParse: the round trip holds for canonical digit strings of any length in the model. In CPython it fails with `ValueError` past 4300 digits.
- The idempotence of `clean_text` is not proved, because it is false (see `CleanTextExamples.NotIdempotent`).
