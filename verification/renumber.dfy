/** Chris_Arias_cs_tagless/tori_2_chris.py: every line of a selected file that
    starts with a digit run followed by a whitespace character gets that
    number raised by a fixed offset. A file is selected by the number in its
    `actor_assignments<N>.txt` name. */
module Renumbering {
  import opened Strings
  import opened Decimal

  const Offset: nat := 612
  const StartFile: nat := 8

  // ---------------------------------------------------------------------------
  // re.sub(r'^(\d+)(\s)', add_offset, content, flags=re.MULTILINE)

  /** `add_offset` for a digit run of value `num`: the number raised by
      `Offset`, written in decimal. The matched whitespace character that
      `add_offset` appends is put back by the scan. */
  function AddOffset(num: nat): (r: string)
    ensures Canonical(r) && DigitsValue(r) == num + Offset
  {
    ShowNat(num + Offset)
  }

  /** The substitution scanning `s` with the callback `repl`, where
      `atLineStart` says whether `^` can match at its first character (the
      start of the content, or just after a newline). A match is a digit run
      and one whitespace character; it is replaced by the callback's result
      for the run's value, then that same character. The scan resumes after
      the match, so a newline that ends a match still puts the next character
      at a line start. */
  function RenumberFrom(s: string, atLineStart: bool, repl: nat -> string): string
    decreases |s|
  {
    if s == [] then []
    else
      var d := Span(s, Digit);
      if atLineStart && 0 < d < |s| && IsSpace(s[d]) then
        repl(DigitsValue(s[..d])) + [s[d]] + RenumberFrom(s[d + 1..], s[d] == '\n', repl)
      else [s[0]] + RenumberFrom(s[1..], s[0] == '\n', repl)
  }

  /** `add_offset_to_numbers` on the file's content. */
  function Renumber(content: string): string {
    RenumberFrom(content, true, AddOffset)
  }

  // ---------------------------------------------------------------------------
  // The same substitution, line by line

  /** What happens to one line; `followed` says whether a newline follows it
      in the content. A line that is only digits is renumbered when a newline
      follows, because `\s` then matches that newline. */
  function RenumberLine(line: string, followed: bool, repl: nat -> string): string {
    var d := Span(line, Digit);
    if d > 0 && ((d < |line| && IsSpace(line[d])) || (d == |line| && followed))
    then repl(DigitsValue(line[..d])) + line[d..]
    else line
  }

  /** Every line but the last is followed by a newline. */
  function RenumberLines(lines: seq<string>, repl: nat -> string): (r: seq<string>)
    ensures |r| == |lines|
    ensures forall i :: 0 <= i < |lines| ==> r[i] == RenumberLine(lines[i], i < |lines| - 1, repl)
  {
    seq(|lines|, i requires 0 <= i < |lines| => RenumberLine(lines[i], i < |lines| - 1, repl))
  }

  /** One step of the scan at a match: the digit run `s[..d]` and the
      whitespace character after it are replaced. */
  lemma MatchStep(s: string, d: nat, repl: nat -> string)
    requires d == Span(s, Digit) && 0 < d < |s| && IsSpace(s[d])
    ensures RenumberFrom(s, true, repl)
         == repl(DigitsValue(s[..d])) + [s[d]] + RenumberFrom(s[d + 1..], s[d] == '\n', repl)
  {
  }

  /** One step of the scan where nothing matches: one character is copied. */
  lemma CopyStep(s: string, atLineStart: bool, repl: nat -> string)
    requires s != []
    requires var d := Span(s, Digit); !(atLineStart && 0 < d < |s| && IsSpace(s[d]))
    ensures RenumberFrom(s, atLineStart, repl) == [s[0]] + RenumberFrom(s[1..], s[0] == '\n', repl)
  {
  }

  /** The renumbered form of a line whose digit run `line[..d]` is followed by
      whitespace. */
  lemma LineMatchStep(line: string, d: nat, followed: bool, repl: nat -> string)
    requires d == Span(line, Digit) && 0 < d < |line| && IsSpace(line[d])
    ensures RenumberLine(line, followed, repl) == repl(DigitsValue(line[..d])) + line[d..]
  {
  }

  /** Away from a line start nothing changes up to and including the next
      newline. */
  lemma {:induction false} CopyToNewline(x: string, t: string, repl: nat -> string)
    requires NoNewline(x)
    ensures RenumberFrom(x + "\n" + t, false, repl) == x + "\n" + RenumberFrom(t, true, repl)
    ensures RenumberFrom(x, false, repl) == x
    decreases |x|
  {
    var s := x + "\n" + t;
    if x == [] {
      assert s[1..] == t;
    } else {
      assert s[1..] == x[1..] + "\n" + t;
      CopyToNewline(x[1..], t, repl);
    }
  }

  /** The digit run of a line is not extended by what follows its newline. */
  lemma SpanBeforeNewline(l: string, t: string)
    ensures Span(l + "\n" + t, Digit) == Span(l, Digit)
  {
    var s := l + "\n" + t;
    SpanOfPrefix(l, s, Digit);
    if Span(l, Digit) == |l| {
      SpanIs(s, Digit, |l|);
    }
  }

  /** The substitution on a line followed by a newline and more content. */
  lemma LineThenRest(l: string, t: string, repl: nat -> string)
    requires NoNewline(l)
    ensures RenumberFrom(l + "\n" + t, true, repl) == RenumberLine(l, true, repl) + "\n" + RenumberFrom(t, true, repl)
  {
    var s := l + "\n" + t;
    var d := Span(l, Digit);
    SpanBeforeNewline(l, t);
    if d > 0 && d < |l| && IsSpace(l[d]) {
      MatchedLineThenRest(l, t, d, repl);
    } else if d > 0 && d == |l| {
      DigitsLineThenRest(l, t, repl);
    } else {
      UnmatchedLineThenRest(l, t, repl);
    }
  }

  lemma DigitsLineThenRest(l: string, t: string, repl: nat -> string)
    requires Span(l + "\n" + t, Digit) == Span(l, Digit) == |l| > 0
    ensures RenumberFrom(l + "\n" + t, true, repl) == RenumberLine(l, true, repl) + "\n" + RenumberFrom(t, true, repl)
  {
    var s := l + "\n" + t;
    var d := |l|;
    assert s[..d] == l && l[..d] == l && l[d..] == [];
    assert s[d] == '\n' && s[d + 1..] == t;
    var n := repl(DigitsValue(l));
    assert RenumberLine(l, true, repl) == n;
    assert RenumberFrom(s, true, repl) == n + [s[d]] + RenumberFrom(s[d + 1..], s[d] == '\n', repl);
  }

  lemma UnmatchedLineThenRest(l: string, t: string, repl: nat -> string)
    requires NoNewline(l)
    requires Span(l + "\n" + t, Digit) == Span(l, Digit)
    requires var d := Span(l, Digit); !(d > 0 && d < |l| && IsSpace(l[d])) && !(d > 0 && d == |l|)
    ensures RenumberFrom(l + "\n" + t, true, repl) == RenumberLine(l, true, repl) + "\n" + RenumberFrom(t, true, repl)
  {
    if l == [] {
      var s := l + "\n" + t;
      assert s == "\n" + t;
      CopyStep(s, true, repl);
      assert s[1..] == t;
    } else {
      UnmatchedFirstLine(l, t, repl);
    }
  }

  lemma UnmatchedFirstLine(l: string, t: string, repl: nat -> string)
    requires NoNewline(l) && l != []
    requires Span(l + "\n" + t, Digit) == Span(l, Digit)
    requires var d := Span(l, Digit); !(d > 0 && d < |l| && IsSpace(l[d])) && !(d > 0 && d == |l|)
    ensures RenumberFrom(l + "\n" + t, true, repl) == RenumberLine(l, true, repl) + "\n" + RenumberFrom(t, true, repl)
  {
    var s := l + "\n" + t;
    var d := Span(l, Digit);
    if d < |l| {
      JoinedParts(l, t, d);
    }
    JoinedParts(l, t, 0);
    CopyStep(s, true, repl);
    CopyToNewline(l[1..], t, repl);
    SuffixCons(l, 0);
    assert l[0..] == l;
    Concat4([l[0]], l[1..], "\n", RenumberFrom(t, true, repl));
  }

  /** Where the characters of `l + "\n" + t` around index `i` of `l` come from. */
  lemma JoinedParts(l: string, t: string, i: nat)
    requires i < |l|
    ensures (l + "\n" + t)[..i] == l[..i]
    ensures (l + "\n" + t)[i] == l[i]
    ensures (l + "\n" + t)[i + 1..] == l[i + 1..] + "\n" + t
  {
    var s := l + "\n" + t;
    assert s[i + 1..] == l[i + 1..] + "\n" + t;
  }

  lemma MatchedLineThenRest(l: string, t: string, d: nat, repl: nat -> string)
    requires NoNewline(l)
    requires d == Span(l + "\n" + t, Digit) == Span(l, Digit)
    requires 0 < d < |l| && IsSpace(l[d])
    ensures RenumberFrom(l + "\n" + t, true, repl) == RenumberLine(l, true, repl) + "\n" + RenumberFrom(t, true, repl)
  {
    var s := l + "\n" + t;
    JoinedParts(l, t, d);
    MatchStep(s, d, repl);
    LineMatchStep(l, d, true, repl);
    PrefixThenSuffix(repl(DigitsValue(l[..d])), l, d);
    CopyToNewline(l[d + 1..], t, repl);
    Concat4(repl(DigitsValue(l[..d])) + [l[d]], l[d + 1..], "\n", RenumberFrom(t, true, repl));
  }

  /** The substitution on the last line. */
  lemma LastLine(l: string, repl: nat -> string)
    requires NoNewline(l)
    ensures RenumberFrom(l, true, repl) == RenumberLine(l, false, repl)
  {
    var d := Span(l, Digit);
    if l != [] {
      if d > 0 && d < |l| && IsSpace(l[d]) {
        LastLineMatched(l, d, repl);
      } else {
        LastLineUnmatched(l, repl);
      }
    }
  }

  lemma LastLineMatched(l: string, d: nat, repl: nat -> string)
    requires NoNewline(l)
    requires d == Span(l, Digit) && 0 < d < |l| && IsSpace(l[d])
    ensures RenumberFrom(l, true, repl) == RenumberLine(l, false, repl)
  {
    MatchStep(l, d, repl);
    LineMatchStep(l, d, false, repl);
    PrefixThenSuffix(repl(DigitsValue(l[..d])), l, d);
    CopyToNewline(l[d + 1..], [], repl);
  }

  lemma LastLineUnmatched(l: string, repl: nat -> string)
    requires NoNewline(l) && l != []
    requires var d := Span(l, Digit); !(0 < d < |l| && IsSpace(l[d]))
    ensures RenumberFrom(l, true, repl) == RenumberLine(l, false, repl)
  {
    CopyStep(l, true, repl);
    CopyToNewline(l[1..], [], repl);
    assert l == [l[0]] + l[1..];
  }

  /** On newline-joined lines the substitution acts line by line. */
  lemma {:induction false} RenumberJoined(lines: seq<string>, repl: nat -> string)
    requires |lines| >= 1
    requires forall i :: 0 <= i < |lines| ==> NoNewline(lines[i])
    ensures RenumberFrom(JoinLines(lines), true, repl) == JoinLines(RenumberLines(lines, repl))
  {
    if |lines| == 1 {
      LastLine(lines[0], repl);
    } else {
      var rest := lines[1..];
      assert JoinLines(lines) == lines[0] + "\n" + JoinLines(rest);
      LineThenRest(lines[0], JoinLines(rest), repl);
      RenumberJoined(rest, repl);
      var r := RenumberLines(lines, repl);
      assert r[1..] == RenumberLines(rest, repl);
      assert JoinLines(r) == r[0] + "\n" + JoinLines(r[1..]);
    }
  }

  /** The new number never holds a newline. */
  lemma AddOffsetNoNewline(num: nat)
    ensures NoNewline(AddOffset(num))
  {
    var r := AddOffset(num);
    forall i | 0 <= i < |r| ensures r[i] != '\n' {
      assert IsDigit(r[i]);
    }
  }

  /** A renumbered line still has no newline. */
  lemma RenumberLineNoNewline(line: string, followed: bool)
    requires NoNewline(line)
    ensures NoNewline(RenumberLine(line, followed, AddOffset))
  {
    var d := Span(line, Digit);
    if d > 0 && ((d < |line| && IsSpace(line[d])) || (d == |line| && followed)) {
      var digits := AddOffset(DigitsValue(line[..d]));
      AddOffsetNoNewline(DigitsValue(line[..d]));
      var r := digits + line[d..];
      forall i | 0 <= i < |r| ensures r[i] != '\n' {
        if i >= |digits| {
          assert r[i] == line[d + i - |digits|];
        }
      }
    }
  }

  /** The content keeps its lines: splitting the result at newlines gives, in
      order, the content's lines each renumbered on its own. */
  lemma RenumberByLines(content: string)
    ensures Renumber(content) == JoinLines(RenumberLines(SplitLines(content), AddOffset))
    ensures SplitLines(Renumber(content)) == RenumberLines(SplitLines(content), AddOffset)
  {
    var lines := SplitLines(content);
    RenumberJoined(lines, AddOffset);
    var r := RenumberLines(lines, AddOffset);
    forall i | 0 <= i < |r| ensures NoNewline(r[i]) {
      RenumberLineNoNewline(lines[i], i < |lines| - 1);
    }
    SplitJoin(r);
  }

  /** A line `<digits><whitespace><rest>` has its digit run replaced by the
      canonical decimal form of its value plus `Offset`; the whitespace
      character and the rest are kept. */
  lemma RenumberLineMatch(digits: string, w: char, rest: string, followed: bool)
    requires digits != [] && AllDigits(digits) && IsSpace(w)
    ensures RenumberLine(digits + [w] + rest, followed, AddOffset) == AddOffset(DigitsValue(digits)) + [w] + rest
  {
    var line := digits + [w] + rest;
    SpanIs(line, Digit, |digits|);
    assert line[..|digits|] == digits;
    assert line[|digits|] == w;
    assert line[|digits| + 1..] == rest;
    RenumberLineParts(line, digits, w, rest, followed, AddOffset);
  }

  lemma RenumberLineParts(line: string, digits: string, w: char, rest: string, followed: bool, repl: nat -> string)
    requires |digits| == Span(line, Digit) && 0 < |digits| < |line| && IsSpace(line[|digits|])
    requires line[..|digits|] == digits && line[|digits|] == w && line[|digits| + 1..] == rest
    ensures RenumberLine(line, followed, repl) == repl(DigitsValue(digits)) + [w] + rest
  {
    LineMatchStep(line, |digits|, followed, repl);
    PrefixThenSuffix(repl(DigitsValue(digits)), line, |digits|);
  }

  /** A line that does not start with a digit, or whose digit run is followed
      by a character other than whitespace, is left as it is. */
  lemma RenumberLineKeeps(line: string, followed: bool, repl: nat -> string)
    requires line == [] || !IsDigit(line[0]) || (Span(line, Digit) < |line| && !IsSpace(line[Span(line, Digit)]))
    ensures RenumberLine(line, followed, repl) == line
  {
  }

  /** Line by line, with the offset: a line that starts with a digit run and a
      whitespace character gets the raised number and keeps the rest; a line
      that is only digits is renumbered unless it is the last one; every other
      line is kept. Lines without a newline stay without one. */
  lemma RenumberLinesSpec(lines: seq<string>)
    ensures |RenumberLines(lines, AddOffset)| == |lines|
    ensures (forall i :: 0 <= i < |lines| ==> NoNewline(lines[i]))
            ==> forall i :: 0 <= i < |lines| ==> NoNewline(RenumberLines(lines, AddOffset)[i])
    ensures forall i :: 0 <= i < |lines| ==>
              var line, d := lines[i], Span(lines[i], Digit);
              var r := RenumberLines(lines, AddOffset)[i];
              && (0 < d < |line| && IsSpace(line[d]) ==> r == AddOffset(DigitsValue(line[..d])) + [line[d]] + line[d + 1..])
              && (0 < d == |line| ==> r == if i < |lines| - 1 then AddOffset(DigitsValue(line)) else line)
              && (d == 0 || (d < |line| && !IsSpace(line[d])) ==> r == line)
  {
    var r := RenumberLines(lines, AddOffset);
    forall i | 0 <= i < |lines| && NoNewline(lines[i]) ensures NoNewline(r[i]) {
      RenumberLineNoNewline(lines[i], i < |lines| - 1);
    }
    forall i | 0 <= i < |lines| {
      RenumberLineCases(lines[i], i < |lines| - 1);
    }
  }

  lemma RenumberLineCases(line: string, followed: bool)
    ensures var d, r := Span(line, Digit), RenumberLine(line, followed, AddOffset);
            && (0 < d < |line| && IsSpace(line[d]) ==> r == AddOffset(DigitsValue(line[..d])) + [line[d]] + line[d + 1..])
            && (0 < d == |line| ==> r == if followed then AddOffset(DigitsValue(line)) else line)
            && (d == 0 || (d < |line| && !IsSpace(line[d])) ==> r == line)
  {
    var d := Span(line, Digit);
    if 0 < d < |line| && IsSpace(line[d]) {
      MatchedLineSplit(line, d, followed, AddOffset);
    } else if 0 < d == |line| {
      DigitsOnlyLine(line, followed);
    } else {
      RenumberLineKeeps(line, followed, AddOffset);
    }
  }

  lemma MatchedLineSplit(line: string, d: nat, followed: bool, repl: nat -> string)
    requires d == Span(line, Digit) && 0 < d < |line| && IsSpace(line[d])
    ensures RenumberLine(line, followed, repl) == repl(DigitsValue(line[..d])) + [line[d]] + line[d + 1..]
  {
    LineMatchStep(line, d, followed, repl);
    assert line[d..] == [line[d]] + line[d + 1..];
    Concat3(repl(DigitsValue(line[..d])), [line[d]], line[d + 1..]);
  }

  lemma DigitsOnlyLine(line: string, followed: bool)
    requires 0 < Span(line, Digit) == |line|
    ensures RenumberLine(line, followed, AddOffset) == if followed then AddOffset(DigitsValue(line)) else line
  {
    forall i | 0 <= i < |line| ensures IsDigit(line[i]) {
      assert InClass(Digit, line[i]);
    }
    DigitsOnlyLastLine(line, AddOffset);
  }

  /** The last line of the content is not renumbered when it is only digits:
      no character follows for `\s` to match. */
  lemma DigitsOnlyLastLine(line: string, repl: nat -> string)
    requires line != [] && AllDigits(line)
    ensures RenumberLine(line, false, repl) == line
    ensures RenumberLine(line, true, repl) == repl(DigitsValue(line))
  {
    SpanIs(line, Digit, |line|);
    assert line[..|line|] == line;
  }

  // ---------------------------------------------------------------------------
  // Selecting files, main() lines 30-36

  const FilePrefix: string := "actor_assignments"
  const FileSuffix: string := ".txt"

  /** `actor_assignments(\d+)\.txt` tried at index `k` of the path: the value
      of the digit run when it matches there. The digit run is greedy and the
      character after it is `.`, so no backtracking can find another match. */
  function FileNumberAt(path: string, k: nat): Option<nat> {
    NumberBetween(path, k, FilePrefix, FileSuffix)
  }

  /** `prefix(\d+)suffix` tried at index `k`, for a suffix that does not start
      with a digit. */
  function NumberBetween(path: string, k: nat, prefix: string, suffix: string): Option<nat> {
    if k + |prefix| > |path| || path[k..k + |prefix|] != prefix then None
    else DigitsThen(path[k + |prefix|..], suffix)
  }

  /** `(\d+)suffix` at the start of `rest`: the value of the digit run. */
  function DigitsThen(rest: string, suffix: string): Option<nat> {
    var d := Span(rest, Digit);
    if d == 0 || !StartsWith(rest[d..], suffix) then None
    else Some(DigitsValue(rest[..d]))
  }

  /** `re.search` from index `k` on: the leftmost match. */
  function FileNumberFrom(path: string, k: nat): (r: Option<nat>)
    ensures r.Some? ==> exists j :: k <= j <= |path| && FileNumberAt(path, j) == r
                                    && forall i :: k <= i < j ==> FileNumberAt(path, i).None?
    ensures r.None? ==> forall j :: k <= j ==> FileNumberAt(path, j).None?
    decreases |path| - k
  {
    if k > |path| then None
    else if FileNumberAt(path, k).Some? then FileNumberAt(path, k)
    else FileNumberFrom(path, k + 1)
  }

  function FileNumber(path: string): Option<nat> {
    FileNumberFrom(path, 0)
  }

  /** A file is rewritten when its name carries a number of at least `StartFile`. */
  predicate Selected(path: string) {
    FileNumber(path).Some? && FileNumber(path).value >= StartFile
  }

  /** The search finds the first index where the pattern matches. */
  lemma FirstMatch(path: string, j: nat)
    requires j <= |path| && FileNumberAt(path, j).Some?
    requires forall i :: 0 <= i < j ==> FileNumberAt(path, i).None?
    ensures FileNumber(path) == FileNumberAt(path, j)
  {
    var r := FileNumber(path);
    var j' :| 0 <= j' <= |path| && FileNumberAt(path, j') == r && forall i :: 0 <= i < j' ==> FileNumberAt(path, i).None?;
  }

  /** The pattern matches where the name's prefix starts. */
  lemma FileNumberAtName(before: string, digits: string, after: string)
    requires digits != [] && AllDigits(digits)
    ensures FileNumberAt(before + FilePrefix + digits + FileSuffix + after, |before|) == Some(DigitsValue(digits))
  {
    assert FileSuffix[0] == '.';
    NumberBetweenName(before, FilePrefix, digits, FileSuffix, after);
  }

  lemma NumberBetweenName(before: string, prefix: string, digits: string, suffix: string, after: string)
    requires digits != [] && AllDigits(digits)
    requires suffix != [] && !IsDigit(suffix[0])
    ensures NumberBetween(before + prefix + digits + suffix + after, |before|, prefix, suffix) == Some(DigitsValue(digits))
  {
    var path := before + prefix + digits + suffix + after;
    var a := |before| + |prefix|;
    assert path[|before|..a] == prefix;
    assert path[a..] == digits + suffix + after;
    NumberBetweenAt(path, |before|, prefix, digits, suffix, after);
  }

  lemma NumberBetweenAt(path: string, k: nat, prefix: string, digits: string, suffix: string, after: string)
    requires digits != [] && AllDigits(digits)
    requires suffix != [] && !IsDigit(suffix[0])
    requires k + |prefix| <= |path| && path[k..k + |prefix|] == prefix
    requires path[k + |prefix|..] == digits + suffix + after
    ensures NumberBetween(path, k, prefix, suffix) == Some(DigitsValue(digits))
  {
    DigitsThenOf(digits, suffix, after);
  }

  /** A digit run followed by the suffix reads as the run's value. */
  lemma DigitsThenOf(digits: string, suffix: string, after: string)
    requires digits != [] && AllDigits(digits)
    requires suffix != [] && !IsDigit(suffix[0])
    ensures DigitsThen(digits + suffix + after, suffix) == Some(DigitsValue(digits))
  {
    var rest := digits + suffix + after;
    SpanIs(rest, Digit, |digits|);
    assert rest[..|digits|] == digits;
    assert rest[|digits|..] == suffix + after;
  }

  /** A path `<before>actor_assignments<digits>.txt<after>` whose `before`
      holds no earlier match carries the value of `digits`. */
  lemma FileNumberOf(before: string, digits: string, after: string)
    requires digits != [] && AllDigits(digits)
    requires forall i :: 0 <= i < |before| ==> FileNumberAt(before + FilePrefix + digits + FileSuffix + after, i).None?
    ensures FileNumber(before + FilePrefix + digits + FileSuffix + after) == Some(DigitsValue(digits))
    ensures Selected(before + FilePrefix + digits + FileSuffix + after) <==> DigitsValue(digits) >= StartFile
  {
    FileNumberAtName(before, digits, after);
    FirstMatch(before + FilePrefix + digits + FileSuffix + after, |before|);
  }

  /** A file in the directory listing: its path and its content. */
  datatype SourceFile = SourceFile(path: string, content: string)

  /** `main`: the selected files get their content renumbered, the others are
      not touched. */
  function RewriteAll(files: seq<SourceFile>): seq<SourceFile> {
    seq(|files|, i requires 0 <= i < |files| =>
      if Selected(files[i].path) then SourceFile(files[i].path, Renumber(files[i].content)) else files[i])
  }

  /** Every file keeps its path and place; a selected file keeps its lines,
      each renumbered on its own, and any other file is unchanged. */
  lemma RewriteAllSpec(files: seq<SourceFile>)
    ensures |RewriteAll(files)| == |files|
    ensures forall i :: 0 <= i < |files| ==> RewriteAll(files)[i].path == files[i].path
    ensures forall i :: 0 <= i < |files| && !Selected(files[i].path) ==> RewriteAll(files)[i] == files[i]
    ensures forall i :: 0 <= i < |files| && Selected(files[i].path) ==>
              SplitLines(RewriteAll(files)[i].content) == RenumberLines(SplitLines(files[i].content), AddOffset)
  {
    forall i | 0 <= i < |files| && Selected(files[i].path)
      ensures SplitLines(RewriteAll(files)[i].content) == RenumberLines(SplitLines(files[i].content), AddOffset)
    {
      RenumberByLines(files[i].content);
    }
  }
}
