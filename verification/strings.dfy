/** The parts of Python's `str` and `re` that both scripts rely on, restricted to
    ASCII: character classes, `strip`, `find`, `replace`, `split('\n')` and
    `join`. */
module Strings {

  datatype Option<T> = None | Some(value: T)

  /** `\d` restricted to ASCII. */
  predicate IsDigit(c: char) { '0' <= c <= '9' }

  /** `\s` and `str.isspace` restricted to ASCII: space, tab, LF, VT, FF, CR and
      the four separators FS, GS, RS and US. */
  predicate IsSpace(c: char) {
    c == ' ' || '\t' <= c <= '\r' || '\U{1C}' <= c <= '\U{1F}'
  }

  predicate IsUpper(c: char) { 'A' <= c <= 'Z' }

  predicate IsLetter(c: char) { IsUpper(c) || 'a' <= c <= 'z' }

  /** The character classes the scripts' regular expressions repeat. */
  datatype CharClass =
    | Digit                   // \d
    | Space                   // \s
    | LetterOrSpace           // [A-Za-z\s]
    | Only(c: char)           // one literal character, as in `=` or `-`
    | AnyBut(c: char)         // [^c]
    | NonSpace                // \S

  predicate InClass(k: CharClass, c: char) {
    match k
    case Digit => IsDigit(c)
    case Space => IsSpace(c)
    case LetterOrSpace => IsLetter(c) || IsSpace(c)
    case Only(d) => c == d
    case AnyBut(d) => c != d
    case NonSpace => !IsSpace(c)
  }

  /** Length of the longest prefix of `s` drawn from class `k`: what a greedy
      `k*` matches at the start of `s`. */
  function Span(s: string, k: CharClass): (n: nat)
    ensures n <= |s|
    ensures forall i :: 0 <= i < n ==> InClass(k, s[i])
    ensures n < |s| ==> !InClass(k, s[n])
  {
    if s == [] || !InClass(k, s[0]) then 0 else 1 + Span(s[1..], k)
  }

  /** The span is the first index outside the class. */
  lemma SpanIs(s: string, k: CharClass, n: nat)
    requires n <= |s|
    requires forall i :: 0 <= i < n ==> InClass(k, s[i])
    requires n < |s| ==> !InClass(k, s[n])
    ensures Span(s, k) == n
  {
  }

  /** A span never shrinks when the string is extended. */
  lemma {:induction false} SpanOfPrefix(s: string, t: string, k: CharClass)
    requires s <= t
    ensures Span(s, k) <= Span(t, k)
    ensures Span(s, k) < |s| ==> Span(s, k) == Span(t, k)
  {
    if s != [] && InClass(k, s[0]) {
      assert s[1..] <= t[1..];
      SpanOfPrefix(s[1..], t[1..], k);
    }
  }

  // ---------------------------------------------------------------------------
  // str.strip()

  function TrimStart(s: string): (r: string)
    ensures |r| <= |s| && r == s[|s| - |r|..]
    ensures forall i :: 0 <= i < |s| - |r| ==> IsSpace(s[i])
    ensures r == [] || !IsSpace(r[0])
  {
    s[Span(s, Space)..]
  }

  function TrimEnd(s: string): (r: string)
    ensures |r| <= |s| && r == s[..|r|]
    ensures forall i :: |r| <= i < |s| ==> IsSpace(s[i])
    ensures r == [] || !IsSpace(r[|r| - 1])
  {
    if s == [] || !IsSpace(s[|s| - 1]) then s else TrimEnd(s[..|s| - 1])
  }

  /** `s.strip()`: the slice of `s` left after removing whitespace from both ends. */
  function Strip(s: string): string {
    TrimEnd(TrimStart(s))
  }

  /** What strip leaves: the slice after the leading whitespace run, with no
      whitespace at either end and only whitespace cut from the end. */
  lemma StripSpec(s: string)
    ensures Span(s, Space) + |Strip(s)| <= |s|
    ensures Strip(s) == s[Span(s, Space)..Span(s, Space) + |Strip(s)|]
    ensures forall i :: Span(s, Space) + |Strip(s)| <= i < |s| ==> IsSpace(s[i])
    ensures Strip(s) == [] || (!IsSpace(Strip(s)[0]) && !IsSpace(Strip(s)[|Strip(s)| - 1]))
  {
    var a := Span(s, Space);
    var u := TrimStart(s);
    assert u == s[a..];
    var r := TrimEnd(u);
    assert r == u[..|r|];
    assert r == s[a..a + |r|];
    forall i | a + |r| <= i < |s| ensures IsSpace(s[i]) {
      assert s[i] == u[i - a];
    }
  }

  /** A string that starts with a non-space character keeps it under strip. */
  lemma StripKeepsFirst(s: string)
    requires s != [] && !IsSpace(s[0])
    ensures Strip(s) != [] && Strip(s)[0] == s[0]
  {
    StripSpec(s);
    SpanIs(s, Space, 0);
    assert !IsSpace(s[0]);
  }

  /** Stripping a string that has no whitespace at either end changes nothing. */
  lemma StripTrimmed(s: string)
    requires s == [] || (!IsSpace(s[0]) && !IsSpace(s[|s| - 1]))
    ensures Strip(s) == s
  {
    assert TrimStart(s) == s;
  }

  // ---------------------------------------------------------------------------
  // str.split() without arguments

  predicate NoSpace(s: string) {
    forall i :: 0 <= i < |s| ==> !IsSpace(s[i])
  }

  /** `s.split()`: the maximal runs of non-whitespace characters, in order. */
  function SplitWords(s: string): (words: seq<string>)
    decreases |s|
  {
    if s == [] then []
    else if IsSpace(s[0]) then SplitWords(s[1..])
    else
      var w := Span(s, NonSpace);
      [s[..w]] + SplitWords(s[w..])
  }

  /** Every piece `split()` returns is a non-empty run without whitespace. */
  lemma {:induction false} SplitWordsAreWords(s: string)
    ensures forall i :: 0 <= i < |SplitWords(s)| ==> SplitWords(s)[i] != [] && NoSpace(SplitWords(s)[i])
    decreases |s|
  {
    if s != [] {
      if IsSpace(s[0]) {
        SplitWordsAreWords(s[1..]);
      } else {
        SplitWordsAreWords(s[Span(s, NonSpace)..]);
      }
    }
  }

  /** Trailing whitespace adds no word. */
  lemma {:induction false} SplitTrailingSpace(t: string, sp: string)
    requires NoWord(sp)
    ensures SplitWords(t + sp) == SplitWords(t)
    decreases |t| + |sp|
  {
    var s := t + sp;
    if t == [] {
      if sp != [] {
        assert s == sp && IsSpace(sp[0]);
        assert [] + sp[1..] == sp[1..];
        SplitTrailingSpace([], sp[1..]);
      }
    } else if IsSpace(t[0]) {
      assert s[1..] == t[1..] + sp;
      SplitTrailingSpace(t[1..], sp);
    } else {
      var w := Span(t, NonSpace);
      SpanOfPrefix(t, s, NonSpace);
      if w == |t| && sp != [] {
        assert s[w] == sp[0];
      }
      assert Span(s, NonSpace) == w;
      assert s[..w] == t[..w];
      assert s[w..] == t[w..] + sp;
      SplitTrailingSpace(t[w..], sp);
    }
  }

  /** A string made only of whitespace. */
  predicate NoWord(s: string) {
    forall i :: 0 <= i < |s| ==> IsSpace(s[i])
  }

  /** `s.strip().split() == s.split()`. */
  lemma SplitIgnoresStrip(s: string)
    ensures SplitWords(Strip(s)) == SplitWords(s)
  {
    StripSpec(s);
    SplitMiddle(s, Span(s, Space), Strip(s));
  }

  /** Whitespace around a slice adds no word. */
  lemma SplitMiddle(s: string, a: nat, r: string)
    requires a + |r| <= |s| && r == s[a..a + |r|]
    requires forall i :: 0 <= i < a ==> IsSpace(s[i])
    requires forall i :: a + |r| <= i < |s| ==> IsSpace(s[i])
    ensures SplitWords(r) == SplitWords(s)
  {
    SplitLeading(s, a);
    assert s[a..] == r + s[a + |r|..];
    SplitTrailingSpace(r, s[a + |r|..]);
  }

  /** Skipping a leading whitespace run adds no word. */
  lemma {:induction false} SplitLeading(s: string, a: nat)
    requires a <= |s| && forall i :: 0 <= i < a ==> IsSpace(s[i])
    ensures SplitWords(s[a..]) == SplitWords(s)
    decreases a
  {
    if a > 0 {
      assert s[a..] == s[1..][a - 1..];
      SplitLeading(s[1..], a - 1);
    }
  }

  /** Joining words with single spaces and splitting again gives the words back. */
  lemma {:induction false} SplitJoinWords(words: seq<string>)
    requires forall i :: 0 <= i < |words| ==> words[i] != [] && NoSpace(words[i])
    ensures SplitWords(Join(words, " ")) == words
  {
    var s := Join(words, " ");
    if words == [] {
    } else {
      var w := words[0];
      if |words| == 1 {
        SpanIs(s, NonSpace, |w|);
        assert s[..|w|] == w;
        assert s[|w|..] == [];
      } else {
        var rest := Join(words[1..], " ");
        assert s == w + " " + rest;
        SpanIs(s, NonSpace, |w|);
        assert s[..|w|] == w;
        assert s[|w|..] == " " + rest;
        assert s[|w|..][1..] == rest;
        SplitJoinWords(words[1..]);
        assert words == [w] + words[1..];
      }
    }
  }

  // ---------------------------------------------------------------------------
  // str.startswith / str.find

  /** The suffix from `i` is its first character and the rest. */
  lemma SuffixCons(s: string, i: nat)
    requires i < |s|
    ensures s[i..] == [s[i]] + s[i + 1..]
  {
  }

  lemma PrefixThenSuffix(n: string, s: string, i: nat)
    requires i < |s|
    ensures n + s[i..] == (n + [s[i]]) + s[i + 1..]
  {
    SuffixCons(s, i);
    Concat3(n, [s[i]], s[i + 1..]);
  }

  lemma Concat3<T>(a: seq<T>, b: seq<T>, c: seq<T>)
    ensures a + (b + c) == (a + b) + c
  {
  }

  lemma Concat4(a: string, b: string, c: string, d: string)
    ensures a + ((b + c) + d) == ((a + b) + c) + d
  {
  }

  predicate StartsWith(s: string, p: string) {
    |p| <= |s| && s[..|p|] == p
  }

  /** `p` occurs in `s` starting at index `k`. */
  predicate OccursAt(s: string, p: string, k: nat) {
    k + |p| <= |s| && s[k..k + |p|] == p
  }

  ghost predicate Contains(s: string, p: string) {
    exists k: nat :: OccursAt(s, p, k)
  }

  /** `s.find(p)` with `-1` as `None`: the leftmost occurrence of `p` in `s`. */
  function Find(s: string, p: string): (r: Option<nat>)
    ensures r.Some? ==> OccursAt(s, p, r.value)
    ensures r.Some? ==> forall k: nat :: k < r.value ==> !OccursAt(s, p, k)
    ensures r.None? <==> !Contains(s, p)
  {
    FindFrom(s, p, 0)
  }

  function FindFrom(s: string, p: string, from: nat): (r: Option<nat>)
    requires forall k: nat :: k < from ==> !OccursAt(s, p, k)
    ensures r.Some? ==> OccursAt(s, p, r.value)
    ensures r.Some? ==> forall k: nat :: k < r.value ==> !OccursAt(s, p, k)
    ensures r.None? <==> !Contains(s, p)
    decreases |s| - from
  {
    if from + |p| > |s| then
      assert forall k: nat :: k >= from ==> !OccursAt(s, p, k);
      None
    else if OccursAt(s, p, from) then Some(from)
    else FindFrom(s, p, from + 1)
  }

  /** Occurrences inside a prefix are occurrences in the whole string. */
  lemma OccursInPrefix(s: string, j: nat, p: string, k: nat)
    requires j <= |s|
    requires OccursAt(s[..j], p, k)
    ensures OccursAt(s, p, k) && k + |p| <= j
  {
    assert s[..j][k..k + |p|] == s[k..k + |p|];
  }

  lemma ContainsOfPrefix(s: string, j: nat, p: string)
    requires j <= |s|
    ensures Contains(s[..j], p) ==> Contains(s, p)
  {
    if Contains(s[..j], p) {
      var k: nat :| OccursAt(s[..j], p, k);
      OccursInPrefix(s, j, p, k);
    }
  }

  // ---------------------------------------------------------------------------
  // str.replace

  /** `s.replace(pat, repl)`: every non-overlapping occurrence of `pat`, left to
      right, is replaced by `repl`. */
  function ReplaceAll(s: string, pat: string, repl: string): string
    requires pat != []
  {
    if s == [] then []
    else if StartsWith(s, pat) then repl + ReplaceAll(s[|pat|..], pat, repl)
    else [s[0]] + ReplaceAll(s[1..], pat, repl)
  }

  // ---------------------------------------------------------------------------
  // sep.join(parts) and s.split('\n')

  /** `sep.join(parts)`. */
  function Join(parts: seq<string>, sep: string): string {
    if |parts| == 0 then ""
    else if |parts| == 1 then parts[0]
    else parts[0] + sep + Join(parts[1..], sep)
  }

  function JoinLines(lines: seq<string>): string {
    Join(lines, "\n")
  }

  predicate NoNewline(s: string) {
    forall i :: 0 <= i < |s| ==> s[i] != '\n'
  }

  /** `s.split('\n')`: never empty, pieces hold no newline, and joining the
      pieces with newlines gives `s` back. */
  function SplitLines(s: string): (lines: seq<string>)
    ensures |lines| >= 1
    ensures forall i :: 0 <= i < |lines| ==> NoNewline(lines[i])
    ensures JoinLines(lines) == s
    decreases |s|
  {
    var k := Span(s, AnyBut('\n'));
    if k == |s| then [s]
    else
      var rest := SplitLines(s[k + 1..]);
      assert s == s[..k] + "\n" + s[k + 1..];
      [s[..k]] + rest
  }

  /** Splitting newline-joined lines gives the same lines back. */
  lemma {:induction false} SplitJoin(lines: seq<string>)
    requires |lines| >= 1
    requires forall i :: 0 <= i < |lines| ==> NoNewline(lines[i])
    ensures SplitLines(JoinLines(lines)) == lines
  {
    var s := JoinLines(lines);
    if |lines| == 1 {
      assert Span(s, AnyBut('\n')) == |s|;
    } else {
      var l := lines[0];
      assert s == l + "\n" + JoinLines(lines[1..]);
      SpanOfPrefix(l, s, AnyBut('\n'));
      assert Span(l, AnyBut('\n')) == |l|;
      assert s[|l|] == '\n';
      assert Span(s, AnyBut('\n')) == |l|;
      assert s[|l| + 1..] == JoinLines(lines[1..]);
      SplitJoin(lines[1..]);
      assert s[..|l|] == l;
      assert SplitLines(s) == [l] + SplitLines(s[|l| + 1..]);
      assert lines == [l] + lines[1..];
    }
  }
}
