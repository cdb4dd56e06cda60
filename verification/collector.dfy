/** The numbered-line collector of `process_files`
    (Austin_cs_tagless/numbering_script.py:134-181). It scans the lines left
    after the metadata substitutions; a line `<digits><whitespace><rest>` opens
    an entry, and the lines after it are gathered, stripped, as continuation
    text until a break marker, a blank line, the next numbered line or a header
    line. Entries whose gathered text is blank are dropped. */
module Collector {
  import opened Strings
  import opened Decimal
  import opened Entries

  /** What `re.match(r'^(\d+)\s+(.*)$', line)` captures. */
  datatype Numbered = Numbered(num: nat, rest: string)

  /** The match of `^(\d+)\s+(.*)$` on a line without `\n`: the value of the
      leading digit run, and what follows it after the whitespace run. */
  function NumberedLine(line: string): (r: Option<Numbered>)
    ensures r.Some? ==> line != [] && IsDigit(line[0])
    ensures r.Some? ==> |r.value.rest| < |line| && line[|line| - |r.value.rest|..] == r.value.rest
    ensures r.Some? ==> r.value.rest == [] || !IsSpace(r.value.rest[0])
  {
    var d := Span(line, Digit);
    if d == 0 || d == |line| || !IsSpace(line[d]) then None
    else
      var w := Span(line[d..], Space);
      Some(Numbered(DigitsValue(line[..d]), line[d + w..]))
  }

  /** A line made of a digit run, a whitespace run and a rest that does not
      start with whitespace is recognised, with the digit run's value and that
      rest. */
  lemma NumberedLineParts(digits: string, ws: string, rest: string)
    requires digits != [] && AllDigits(digits)
    requires ws != [] && forall i :: 0 <= i < |ws| ==> IsSpace(ws[i])
    requires rest == [] || !IsSpace(rest[0])
    ensures NumberedLine(digits + ws + rest) == Some(Numbered(DigitsValue(digits), rest))
  {
    var line := digits + ws + rest;
    SpanIs(line, Digit, |digits|);
    assert line[..|digits|] == digits;
    assert line[|digits|..] == ws + rest;
    SpanIs(ws + rest, Space, |ws|);
    assert line[|digits| + |ws|..] == rest;
  }

  /** Lines that do not open an entry: a digit run not followed by whitespace,
      or no leading digit at all. */
  lemma NotNumbered(line: string)
    requires line == [] || !IsDigit(line[0]) || Span(line, Digit) == |line| || !IsSpace(line[Span(line, Digit)])
    ensures NumberedLine(line) == None
  {
  }

  // ---------------------------------------------------------------------------
  // What a line does to an entry being gathered

  datatype LineKind =
    | EndsEntry   // `###BREAK###` or a blank line: gathering stops and the line is consumed
    | Boundary    // a numbered or header line: gathering stops, the line is scanned again
    | Continues   // appended, stripped, to the entry's text

  const BreakMarker: string := "###BREAK###"

  /** The prefixes of a stripped line that end an entry without being consumed,
      besides a numbered line and a raw line starting with `---`. */
  const HeaderPrefixes: seq<string> := [
    "===",
    "ITEM ",
    "ITEMS ",
    "Source:",
    "Script:",
    "Character ",
    "This must be read",
    "You are"
  ]

  predicate StartsWithAny(s: string, prefixes: seq<string>)
    decreases |prefixes|
  {
    prefixes != [] && (StartsWith(s, prefixes[0]) || StartsWithAny(s, prefixes[1..]))
  }

  /** The tests of lines 151-172, in their order. */
  function Classify(line: string): LineKind {
    var stripped := Strip(line);
    if stripped == BreakMarker then EndsEntry
    else if stripped == [] then EndsEntry
    else if NumberedLine(line).Some? || StartsWith(line, "---") || StartsWithAny(stripped, HeaderPrefixes)
    then Boundary
    else Continues
  }

  /** A numbered line is never consumed while gathering: it stops the previous
      entry and opens its own. */
  lemma NumberedIsBoundary(line: string)
    requires NumberedLine(line).Some?
    ensures Classify(line) == Boundary
  {
    StripKeepsFirst(line);
    assert Strip(line)[0] != BreakMarker[0];
  }

  /** What a line does to the entry being gathered, in terms of its text: a
      break marker or a blank line is consumed, a numbered line, a line
      starting with `---` or a stripped line starting with a header prefix
      stops the entry without being consumed, and every other line is
      gathered. None of the stopping lines can be mistaken for a break
      marker, since none starts with `#`. */
  lemma ClassifyLine(line: string)
    ensures Classify(line) == EndsEntry <==> Strip(line) == BreakMarker || Strip(line) == []
    ensures NumberedLine(line).Some? || StartsWith(line, "---") || StartsWithAny(Strip(line), HeaderPrefixes)
            ==> Classify(line) == Boundary
    ensures Classify(line) == Continues
            <==> !(Strip(line) == BreakMarker || Strip(line) == [])
                 && !(NumberedLine(line).Some? || StartsWith(line, "---") || StartsWithAny(Strip(line), HeaderPrefixes))
  {
    if NumberedLine(line).Some? {
      NumberedIsBoundary(line);
    }
    if StartsWith(line, "---") {
      assert line[0] == line[..3][0];
      StripKeepsFirst(line);
    }
    StartsWithAnyHead(Strip(line), HeaderPrefixes, '#');
    if Strip(line) != [] && Strip(line)[0] != '#' {
      assert Strip(line)[0] != BreakMarker[0];
    }
  }

  /** A text that starts with one of the prefixes starts with its first
      character. */
  lemma {:induction false} StartsWithAnyHead(s: string, prefixes: seq<string>, c: char)
    requires forall i :: 0 <= i < |prefixes| ==> prefixes[i] != [] && prefixes[i][0] != c
    ensures StartsWithAny(s, prefixes) ==> s != [] && s[0] != c
    decreases |prefixes|
  {
    if prefixes != [] {
      if StartsWith(s, prefixes[0]) {
        assert s[0] == s[..|prefixes[0]|][0];
      }
      StartsWithAnyHead(s, prefixes[1..], c);
    }
  }

  // ---------------------------------------------------------------------------
  // The scan over a table of what each line says

  /** What the collector reads off one line: whether it opens an entry (and
      with which number and rest), what it does to an entry being gathered,
      and its stripped text. */
  datatype LineInfo = LineInfo(numbered: Option<Numbered>, kind: LineKind, stripped: string)

  function Info(line: string): LineInfo {
    LineInfo(NumberedLine(line), Classify(line), Strip(line))
  }

  /** The table for all lines, in order. */
  function Infos(lines: seq<string>): (r: seq<LineInfo>)
    ensures |r| == |lines|
  {
    seq(|lines|, i requires 0 <= i < |lines| => Info(lines[i]))
  }

  /** A line that opens an entry also stops the one before it. */
  ghost predicate Consistent(infos: seq<LineInfo>) {
    forall i :: 0 <= i < |infos| && infos[i].numbered.Some? ==> infos[i].kind == Boundary
  }

  lemma InfosConsistent(lines: seq<string>)
    ensures Consistent(Infos(lines))
  {
    forall i | 0 <= i < |lines| && Infos(lines)[i].numbered.Some?
      ensures Infos(lines)[i].kind == Boundary
    {
      InfoAt(lines, i);
      NumberedIsBoundary(lines[i]);
    }
  }

  /** The first index at or after `k` whose line does not continue an entry. */
  function ContinuationEnd(infos: seq<LineInfo>, k: nat): (r: nat)
    requires k <= |infos|
    ensures k <= r <= |infos|
    ensures forall m :: k <= m < r ==> infos[m].kind == Continues
    ensures r < |infos| ==> infos[r].kind != Continues
    decreases |infos| - k
  {
    if k == |infos| || infos[k].kind != Continues then k
    else ContinuationEnd(infos, k + 1)
  }

  /** The stripped lines `a` to `b - 1`, in order. */
  function Stripped(infos: seq<LineInfo>, a: nat, b: nat): (r: seq<string>)
    requires a <= b <= |infos|
    ensures |r| == b - a
    ensures forall k :: 0 <= k < |r| ==> r[k] == infos[a + k].stripped
    decreases b - a
  {
    if a == b then [] else Stripped(infos, a, b - 1) + [infos[b - 1].stripped]
  }

  /** `' '.join(text_parts)` for the entry opened at line `i`: the rest of the
      numbered line, then every continuation line stripped. */
  function EntryText(infos: seq<LineInfo>, i: nat): string
    requires i < |infos| && infos[i].numbered.Some?
  {
    Join([infos[i].numbered.value.rest] + Stripped(infos, i + 1, ContinuationEnd(infos, i + 1)), " ")
  }

  /** The entry line `i` contributes: none when the line is not numbered or
      its gathered text is blank. */
  function EntryAt(infos: seq<LineInfo>, i: nat): (r: seq<Entry>)
    requires i < |infos|
    ensures |r| <= 1
  {
    if infos[i].numbered.Some? && Strip(EntryText(infos, i)) != []
    then [Entry(infos[i].numbered.value.num, EntryText(infos, i))]
    else []
  }

  /** What each line contributes, line by line. */
  function PerLine(infos: seq<LineInfo>): (r: seq<seq<Entry>>)
    ensures |r| == |infos|
    ensures forall i :: 0 <= i < |infos| ==> r[i] == EntryAt(infos, i)
  {
    seq(|infos|, i requires 0 <= i < |infos| => EntryAt(infos, i))
  }

  /** Where scanning resumes after the continuation lines from `from`: at the
      line that stopped them, or just after it when that line was consumed. */
  function ResumeAt(infos: seq<LineInfo>, from: nat): (r: nat)
    requires from <= |infos|
    ensures from <= r <= |infos|
  {
    var j := ContinuationEnd(infos, from);
    if j < |infos| && infos[j].kind == EndsEntry then j + 1 else j
  }

  /** The contributions from index `i` on, concatenated in order. */
  function Flatten(parts: seq<seq<Entry>>, i: nat): seq<Entry>
    requires i <= |parts|
    decreases |parts| - i
  {
    if i == |parts| then [] else parts[i] + Flatten(parts, i + 1)
  }

  /** Reference reading of the collector: every numbered line, in order, gives
      one entry with its number and gathered text, unless that text is blank. */
  function Collected(lines: seq<string>): seq<Entry> {
    Flatten(PerLine(Infos(lines)), 0)
  }

  /** The table row of a line is what the line says. */
  lemma InfoAt(lines: seq<string>, k: nat)
    requires k < |lines|
    ensures Infos(lines)[k].numbered == NumberedLine(lines[k])
    ensures Infos(lines)[k].kind == Classify(lines[k])
    ensures Infos(lines)[k].stripped == Strip(lines[k])
  {
  }

  /** Contributions that are empty can be skipped. */
  lemma {:induction false} SkipEmpty(parts: seq<seq<Entry>>, a: nat, b: nat)
    requires a <= b <= |parts|
    requires forall k :: a <= k < b ==> parts[k] == []
    ensures Flatten(parts, a) == Flatten(parts, b)
    decreases b - a
  {
    if a < b {
      SkipEmpty(parts, a + 1, b);
    }
  }

  lemma FlattenStep(parts: seq<seq<Entry>>, i: nat)
    requires i < |parts|
    ensures Flatten(parts, i) == parts[i] + Flatten(parts, i + 1)
  {
  }

  /** Gathering stops at a line that does not continue the entry; the lines
      passed over are continuation lines and, at most, one consumed line, and
      none of them is numbered. */
  lemma GatheredNotNumbered(infos: seq<LineInfo>, a: nat, i: nat)
    requires Consistent(infos)
    requires a <= i <= |infos|
    requires i == ResumeAt(infos, a)
    ensures forall k :: a <= k < i ==> infos[k].numbered.None?
  {
    var j := ContinuationEnd(infos, a);
    forall k | a <= k < i ensures infos[k].numbered.None? {
      if k < j {
        assert infos[k].kind == Continues;
      } else {
        assert infos[j].kind == EndsEntry;
      }
    }
  }

  /** A line that is not numbered contributes nothing. */
  lemma NothingUnlessNumbered(infos: seq<LineInfo>, k: nat)
    requires k < |infos| && infos[k].numbered.None?
    ensures PerLine(infos)[k] == []
  {
  }

  /** An entry of the concatenation comes from one of the contributions. */
  lemma {:induction false} FlattenMember(parts: seq<seq<Entry>>, a: nat, x: Entry)
    requires a <= |parts| && x in Flatten(parts, a)
    ensures exists i :: a <= i < |parts| && x in parts[i]
    decreases |parts| - a
  {
    if x !in parts[a] {
      FlattenMember(parts, a + 1, x);
    }
  }

  /** Every contribution ends up in the concatenation. */
  lemma {:induction false} FlattenHas(parts: seq<seq<Entry>>, a: nat, i: nat, x: Entry)
    requires a <= i < |parts| && x in parts[i]
    ensures x in Flatten(parts, a)
    decreases i - a
  {
    assert Flatten(parts, a) == parts[a] + Flatten(parts, a + 1);
    if a < i {
      FlattenHas(parts, a + 1, i, x);
    }
  }

  /** Every collected entry comes from a numbered line whose gathered text is
      not blank, with the value of its digit run and that text. */
  lemma CollectedFromNumbered(lines: seq<string>, e: Entry)
    requires e in Collected(lines)
    ensures Strip(e.text) != []
    ensures exists i :: 0 <= i < |lines| && NumberedLine(lines[i]).Some? &&
                        e == Entry(NumberedLine(lines[i]).value.num, EntryText(Infos(lines), i))
  {
    var infos := Infos(lines);
    var parts := PerLine(infos);
    FlattenMember(parts, 0, e);
    var i :| 0 <= i < |parts| && e in parts[i];
    assert parts[i] == EntryAt(infos, i);
    InfoAt(lines, i);
  }

  /** Every numbered line whose gathered text is not blank is collected. */
  lemma NumberedCollected(lines: seq<string>, i: nat)
    requires i < |lines| && NumberedLine(lines[i]).Some?
    ensures Infos(lines)[i].numbered.Some?
    ensures Strip(EntryText(Infos(lines), i)) != [] ==>
            Entry(NumberedLine(lines[i]).value.num, EntryText(Infos(lines), i)) in Collected(lines)
  {
    var infos := Infos(lines);
    var parts := PerLine(infos);
    InfoAt(lines, i);
    if Strip(EntryText(infos, i)) != [] {
      assert parts[i] == EntryAt(infos, i);
      FlattenHas(parts, 0, i, Entry(NumberedLine(lines[i]).value.num, EntryText(infos, i)));
    }
  }

  /** A continuation line reached before the end of the run is inside it. */
  lemma PastContinuation(infos: seq<LineInfo>, from: nat, m: nat)
    requires from <= m < |infos| && m <= ContinuationEnd(infos, from)
    requires infos[m].kind == Continues
    ensures m < ContinuationEnd(infos, from)
  {
  }

  /** The first line that does not continue the entry, or the end of the
      lines, ends the run. */
  lemma StopsAt(infos: seq<LineInfo>, from: nat, m: nat)
    requires from <= m <= |infos| && m <= ContinuationEnd(infos, from)
    requires m < |infos| ==> infos[m].kind != Continues
    ensures ContinuationEnd(infos, from) == m
    ensures ResumeAt(infos, from) == if m < |infos| && infos[m].kind == EndsEntry then m + 1 else m
  {
  }

  /** The run of continuation lines reaches every index up to which all lines
      continue the entry. */
  lemma {:induction false} RunReaches(infos: seq<LineInfo>, from: nat, m: nat)
    requires from <= m <= |infos|
    requires forall k :: from <= k < m ==> infos[k].kind == Continues
    ensures m <= ContinuationEnd(infos, from)
    decreases m - from
  {
    if from < m {
      RunReaches(infos, from + 1, m);
    }
  }

  /** Where gathering stops, in terms of the lines: after continuation lines
      `from` to `m - 1`, a break marker or blank line at `m` ends the entry
      and scanning resumes after it; a numbered, `---` or header line at `m`
      ends the entry and is scanned next; the end of the lines ends it too. */
  lemma StopsAtLine(lines: seq<string>, from: nat, m: nat)
    requires from <= m <= |lines|
    requires forall k :: from <= k < m ==> Classify(lines[k]) == Continues
    ensures m == |lines| ==> ContinuationEnd(Infos(lines), from) == m && ResumeAt(Infos(lines), from) == m
    ensures m < |lines| && (Strip(lines[m]) == BreakMarker || Strip(lines[m]) == []) ==>
              ContinuationEnd(Infos(lines), from) == m && ResumeAt(Infos(lines), from) == m + 1
    ensures m < |lines| &&
            (NumberedLine(lines[m]).Some? || StartsWith(lines[m], "---") || StartsWithAny(Strip(lines[m]), HeaderPrefixes)) ==>
              ContinuationEnd(Infos(lines), from) == m && ResumeAt(Infos(lines), from) == m
  {
    var infos := Infos(lines);
    forall k | from <= k < m ensures infos[k].kind == Continues {
      InfoAt(lines, k);
    }
    RunReaches(infos, from, m);
    if m < |lines| {
      InfoAt(lines, m);
      ClassifyLine(lines[m]);
      if infos[m].kind != Continues {
        StopsAt(infos, from, m);
      }
    } else {
      StopsAt(infos, from, m);
    }
  }

  /** The inner loop of lines 145-175: the stripped continuation lines from
      `from` on, and the index where scanning resumes. */
  method GatherContinuation(infos: seq<LineInfo>, from: nat)
    returns (texts: seq<string>, next: nat)
    requires from <= |infos|
    ensures texts == Stripped(infos, from, ContinuationEnd(infos, from))
    ensures next == ResumeAt(infos, from)
  {
    ghost var j := ContinuationEnd(infos, from);
    texts := [];
    next := from;
    while next < |infos| && infos[next].kind == Continues
      invariant from <= next <= j
      invariant texts == Stripped(infos, from, next)
      decreases |infos| - next
    {
      PastContinuation(infos, from, next);
      texts := texts + [infos[next].stripped];
      next := next + 1;
    }
    StopsAt(infos, from, next);
    if next < |infos| && infos[next].kind == EndsEntry {
      next := next + 1;
    }
  }

  /** Moving the scan from `i` to `next` appends what line `i` contributes,
      when the lines skipped after it contribute nothing. */
  lemma Advance(parts: seq<seq<Entry>>, before: seq<Entry>, after: seq<Entry>, i: nat, next: nat)
    requires i < next <= |parts|
    requires forall k :: i < k < next ==> parts[k] == []
    requires before + Flatten(parts, i) == Flatten(parts, 0)
    requires after == before + parts[i]
    ensures after + Flatten(parts, next) == Flatten(parts, 0)
  {
    SkipAfter(parts, i, next);
    Concat3(before, parts[i], Flatten(parts, next));
  }

  /** Line `i`'s contribution is followed directly by those from `next` on,
      when the lines in between contribute nothing. */
  lemma SkipAfter(parts: seq<seq<Entry>>, i: nat, next: nat)
    requires i < next <= |parts|
    requires forall k :: i < k < next ==> parts[k] == []
    ensures Flatten(parts, i) == parts[i] + Flatten(parts, next)
  {
    SkipEmpty(parts, i + 1, next);
    FlattenStep(parts, i);
  }

  /** One pass of the loop of lines 136-181 from line `i`: what the line
      contributes and where scanning resumes; the lines skipped in between
      contribute nothing. */
  method ScanLine(infos: seq<LineInfo>, i: nat) returns (found: seq<Entry>, next: nat)
    requires Consistent(infos) && i < |infos|
    ensures i < next <= |infos|
    ensures found == PerLine(infos)[i]
    ensures forall k :: i < k < next ==> PerLine(infos)[k] == []
  {
    var m := infos[i].numbered;
    found := [];
    if m.Some? {
      var texts;
      texts, next := GatherContinuation(infos, i + 1);
      var fullText := Join([m.value.rest] + texts, " ");
      if Strip(fullText) != [] {
        found := [Entry(m.value.num, fullText)];
      }
      GatheredNotNumbered(infos, i + 1, next);
      forall k | i < k < next ensures PerLine(infos)[k] == [] {
        NothingUnlessNumbered(infos, k);
      }
    } else {
      NothingUnlessNumbered(infos, i);
      next := i + 1;
    }
  }

  /** The loop of lines 134-181, over the table of the lines. */
  method Scan(infos: seq<LineInfo>) returns (entries: seq<Entry>)
    requires Consistent(infos)
    ensures entries == Flatten(PerLine(infos), 0)
  {
    entries := [];
    var i := 0;
    while i < |infos|
      invariant 0 <= i <= |infos|
      invariant entries + Flatten(PerLine(infos), i) == Flatten(PerLine(infos), 0)
      decreases |infos| - i
    {
      var found, next := ScanLine(infos, i);
      ghost var before := entries;
      entries := entries + found;
      Advance(PerLine(infos), before, entries, i, next);
      i := next;
    }
  }

  /** The collector over `content_cleaned.split('\n')`: every line is read
      once into the table, then scanned. */
  method CollectNumbered(content: string) returns (entries: seq<Entry>)
    ensures entries == Collected(SplitLines(content))
  {
    var lines := SplitLines(content);
    var infos := Infos(lines);
    InfosConsistent(lines);
    entries := Scan(infos);
  }
}
