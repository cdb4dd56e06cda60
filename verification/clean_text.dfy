/** `clean_text` from Austin_cs_tagless/numbering_script.py: the cleanup applied
    to every entry's text just before it is written. It removes speaker and
    role labels, cuts the text at the first metadata marker, turns leftover
    `=====`/`-----` rules into spaces and collapses whitespace. Bracketed
    direction tags such as `[apologetically]` are ordinary text to it. */
module TextCleaning {
  import opened Strings

  /** The regular expressions `clean_text` substitutes. */
  datatype Rule =
    | CharacterLabel      // Character\s*\d+:\s*
    | RoleCodeLabel       // [A-Z][A-Za-z\s]+:\s*[A-Z]?\d+:\s*
    | LeadingRole         // [A-Z][A-Za-z\s]+:\s*   (only tried at the start of the text)
    | RuleLine(c: char)   // \s*c{5,}\s*            (c is '=' or '-')
    | SpaceRun            // \s+

  /** Length of the text `rule` matches at the start of `s`, 0 when it does not
      match there. None of these patterns can match the empty string, and each
      is deterministic: a greedy repetition that is followed by a character its
      class excludes never has to give characters back, so the greedy reading
      below is what Python's backtracking matcher finds. */
  function MatchLength(rule: Rule, s: string): (n: nat)
    ensures n <= |s|
  {
    match rule
    case CharacterLabel =>
      if !StartsWith(s, "Character") then 0
      else CodeEnd(s, 9 + Span(s[9..], Space), false)
    case RoleCodeLabel =>
      var a := RoleLength(s);
      if a == 0 then 0 else CodeEnd(s, a, true)
    case LeadingRole =>
      RoleLength(s)
    case RuleLine(c) =>
      var a := Span(s, Space);
      var e := Span(s[a..], Only(c));
      if e < 5 then 0 else a + e + Span(s[a + e..], Space)
    case SpaceRun =>
      Span(s, Space)
  }

  /** `[A-Z][A-Za-z\s]+:\s*` at the start of `s`: the length it matches, or 0. */
  function RoleLength(s: string): (n: nat)
    ensures n <= |s|
  {
    if s == [] || !IsUpper(s[0]) then 0
    else
      var r := Span(s[1..], LetterOrSpace);
      if r == 0 || 1 + r == |s| || s[1 + r] != ':' then 0
      else 2 + r + Span(s[2 + r..], Space)
  }

  /** `[A-Z]?\d+:\s*` (with `letter`) or `\d+:\s*` (without) at index `a` of
      `s`: the index where the match ends, or 0 when it does not match. An
      upper-case letter not followed by a digit fails either way, so taking the
      optional letter greedily is exact. */
  function CodeEnd(s: string, a: nat, letter: bool): (n: nat)
    requires a <= |s|
    ensures n <= |s|
  {
    var u := if letter && a < |s| && IsUpper(s[a]) then 1 else 0;
    var d := Span(s[a + u..], Digit);
    var b := a + u + d;
    if d == 0 || b == |s| || s[b] != ':' then 0
    else b + 1 + Span(s[b + 1..], Space)
  }

  /** `re.sub(pattern, repl, s)`: scan from the left; where the rule matches,
      emit `repl` and resume after the match; elsewhere copy one character. */
  function SubAll(rule: Rule, repl: string, s: string): string
    decreases |s|
  {
    if s == [] then []
    else
      var n := MatchLength(rule, s);
      if n > 0 then repl + SubAll(rule, repl, s[n..])
      else [s[0]] + SubAll(rule, repl, s[1..])
  }

  /** The metadata markers, in the order the loop tries them. */
  const Markers: seq<string> := [
    "ITEMS ",
    "ITEM ",
    "You are B;",
    "You are A;",
    "You are Character",
    "You are playing a customer service agent"
  ]

  /** `idx = text.find(marker); if idx != -1: text = text[:idx]` */
  function TruncateAt(s: string, marker: string): string {
    match Find(s, marker)
    case Some(i) => s[..i]
    case None => s
  }

  /** The marker loop: one truncation per marker, in list order. */
  function TruncateAll(s: string, markers: seq<string>): string {
    if markers == [] then s else TruncateAll(TruncateAt(s, markers[0]), markers[1..])
  }

  /** The three label substitutions; the third is anchored at the start. */
  function RemoveLabels(text: string): string {
    var t := SubAll(RoleCodeLabel, "", SubAll(CharacterLabel, "", text));
    t[MatchLength(LeadingRole, t)..]
  }

  /** The two rule substitutions, `=` first and `-` second. */
  function CollapseRules(text: string): string {
    SubAll(RuleLine('-'), " ", SubAll(RuleLine('='), " ", text))
  }

  function CollapseSpaces(text: string): string {
    SubAll(SpaceRun, " ", text)
  }

  /** `clean_text(text)`. */
  function CleanText(text: string): string {
    Strip(CollapseSpaces(CollapseRules(TruncateAll(RemoveLabels(text), Markers))))
  }

  // ---------------------------------------------------------------------------
  // What the result looks like

  /** No position of `s` starts a run of `m` or more `c` characters. */
  ghost predicate NoRun(s: string, c: char, m: nat) {
    forall k :: 0 <= k < |s| ==> Span(s[k..], Only(c)) < m
  }

  /** The only whitespace is the plain space, and never two in a row. */
  ghost predicate SingleSpaced(s: string) {
    && (forall i :: 0 <= i < |s| && IsSpace(s[i]) ==> s[i] == ' ')
    && (forall i :: 0 <= i < |s| - 1 && s[i] == ' ' ==> s[i + 1] != ' ')
  }

  ghost predicate Trimmed(s: string) {
    s == [] || (!IsSpace(s[0]) && !IsSpace(s[|s| - 1]))
  }

  /** A cleaned text: trimmed, single-spaced and free of `=====` and `-----`. */
  ghost predicate Tidy(s: string) {
    Trimmed(s) && SingleSpaced(s) && NoRun(s, '=', 5) && NoRun(s, '-', 5)
  }

  /** Whatever goes in, `clean_text` returns a trimmed, single-spaced text with
      no run of five `=` and no run of five `-`. */
  lemma CleanTextTidy(text: string)
    ensures Tidy(CleanText(text))
  {
    var t4 := TruncateAll(RemoveLabels(text), Markers);
    var t5 := SubAll(RuleLine('='), " ", t4);
    var t6 := SubAll(RuleLine('-'), " ", t5);
    var t7 := CollapseSpaces(t6);
    RuleLineNoRun(t4, '=');
    SubAllKeepsNoRun(RuleLine('-'), t5, '=', 5);
    RuleLineNoRun(t5, '-');
    SubAllKeepsNoRun(SpaceRun, t6, '=', 5);
    SubAllKeepsNoRun(SpaceRun, t6, '-', 5);
    CollapseSpacesSingleSpaced(t6);
    StripTidy(t7);
  }

  /** Stripping a single-spaced text free of the two runs gives a tidy text. */
  lemma StripTidy(t: string)
    requires SingleSpaced(t) && NoRun(t, '=', 5) && NoRun(t, '-', 5)
    ensures Tidy(Strip(t))
  {
    var r := Strip(t);
    var a := Span(t, Space);
    StripSpec(t);
    SliceTidy(t, a, a + |r|, r);
  }

  /** A trimmed slice of a single-spaced text free of the two runs is tidy. */
  lemma SliceTidy(t: string, a: nat, b: nat, r: string)
    requires a <= b <= |t| && r == t[a..b] && Trimmed(r)
    requires SingleSpaced(t) && NoRun(t, '=', 5) && NoRun(t, '-', 5)
    ensures Tidy(r)
  {
    SliceSingleSpaced(t, a, b);
    SliceNoRun(t, a, b, '=', 5);
    SliceNoRun(t, a, b, '-', 5);
  }

  /** A replacement by one space never lengthens the run of a non-space
      character at the front. */
  lemma {:induction false} LeadRunBound(rule: Rule, s: string, c: char)
    requires c != ' '
    ensures Span(SubAll(rule, " ", s), Only(c)) <= Span(s, Only(c))
    decreases |s|
  {
    if s != [] {
      var n := MatchLength(rule, s);
      var out := SubAll(rule, " ", s);
      if n > 0 {
        assert out[0] == ' ';
      } else if s[0] == c {
        LeadRunBound(rule, s[1..], c);
        assert out[1..] == SubAll(rule, " ", s[1..]);
      }
    }
  }

  /** Replacing matches by one space creates no new run of a non-space character. */
  lemma {:induction false} SubAllKeepsNoRun(rule: Rule, s: string, c: char, m: nat)
    requires c != ' ' && m >= 1
    requires NoRun(s, c, m)
    ensures NoRun(SubAll(rule, " ", s), c, m)
    decreases |s|
  {
    if s != [] {
      var n := MatchLength(rule, s);
      var skip := if n > 0 then n else 1;
      var head := if n > 0 then ' ' else s[0];
      var rest := SubAll(rule, " ", s[skip..]);
      SubAllHead(rule, s);
      SuffixNoRun(s, skip, c, m);
      SubAllKeepsNoRun(rule, s[skip..], c, m);
      LeadRunBound(rule, s, c);
      assert s[0..] == s;
      ConsNoRun(head, rest, c, m);
    }
  }

  /** One step of the substitution: a match becomes one space, otherwise one
      character is copied. */
  lemma SubAllHead(rule: Rule, s: string)
    requires s != []
    ensures var n := MatchLength(rule, s);
            SubAll(rule, " ", s)
            == [if n > 0 then ' ' else s[0]] + SubAll(rule, " ", s[if n > 0 then n else 1..])
  {
  }

  lemma SuffixNoRun(s: string, a: nat, c: char, m: nat)
    requires a <= |s| && NoRun(s, c, m)
    ensures NoRun(s[a..], c, m)
  {
    SliceNoRun(s, a, |s|, c, m);
    assert s[a..|s|] == s[a..];
  }

  /** Putting one character in front of a text with no long run creates one
      only at the front. */
  lemma ConsNoRun(x: char, r: string, c: char, m: nat)
    requires NoRun(r, c, m)
    requires Span([x] + r, Only(c)) < m
    ensures NoRun([x] + r, c, m)
  {
    var s := [x] + r;
    forall k | 0 <= k < |s|
      ensures Span(s[k..], Only(c)) < m
    {
      if k == 0 {
        assert s[0..] == s;
      } else {
        assert s[k..] == r[k - 1..];
      }
    }
  }

  /** After `\s*c{5,}\s*` is replaced everywhere, no run of five `c` is left. */
  lemma {:induction false} RuleLineNoRun(s: string, c: char)
    requires !IsSpace(c)
    ensures NoRun(SubAll(RuleLine(c), " ", s), c, 5)
    decreases |s|
  {
    if s != [] {
      var n := MatchLength(RuleLine(c), s);
      var skip := if n > 0 then n else 1;
      var rest := SubAll(RuleLine(c), " ", s[skip..]);
      RuleLineNoRun(s[skip..], c);
      if n > 0 {
        ConsNoRun(' ', rest, c, 5);
      } else {
        if s[0] == c {
          assert Span(s, Space) == 0;
          assert s[0..] == s;
        }
        LeadRunBound(RuleLine(c), s, c);
        ConsNoRun(s[0], rest, c, 5);
      }
    }
  }

  /** Collapsing whitespace leaves single spaces only, and a text that starts
      with a non-space character still starts with it. */
  lemma {:induction false} CollapseSpacesSingleSpaced(s: string)
    ensures SingleSpaced(CollapseSpaces(s))
    ensures s != [] && !IsSpace(s[0]) ==> CollapseSpaces(s) != [] && CollapseSpaces(s)[0] == s[0]
    decreases |s|
  {
    if s != [] {
      var n := MatchLength(SpaceRun, s);
      var out := CollapseSpaces(s);
      var skip := if n > 0 then n else 1;
      var rest := CollapseSpaces(s[skip..]);
      CollapseSpacesSingleSpaced(s[skip..]);
      assert out == [out[0]] + rest;
      if n > 0 {
        assert s[skip..] == [] || !IsSpace(s[skip..][0]);
      }
      ConsSingleSpaced(out[0], rest);
    }
  }

  /** `re.sub(r'\s+', ' ', t).strip()` is `' '.join(t.split())`: the words of
      the text, in order, one space apart. */
  lemma CollapseSpacesStrip(s: string)
    ensures Strip(CollapseSpaces(s)) == Join(SplitWords(s), " ")
  {
    var c := CollapseSpaces(s);
    var a := Span(c, Space);
    CollapseSpacesSingleSpaced(s);
    StripSpec(c);
    SliceSingleSpaced(c, a, a + |Strip(c)|);
    JoinSplitSingleSpaced(Strip(c));
    SplitIgnoresStrip(c);
    CollapseSpacesWords(s);
  }

  /** Collapsing whitespace keeps the words: `split()` finds the same ones. */
  lemma {:induction false} CollapseSpacesWords(s: string)
    ensures SplitWords(CollapseSpaces(s)) == SplitWords(s)
    decreases |s|
  {
    if s != [] {
      if IsSpace(s[0]) {
        var n := Span(s, Space);
        var rest := CollapseSpaces(s[n..]);
        assert CollapseSpaces(s) == " " + rest;
        assert (" " + rest)[1..] == rest;
        SplitLeading(s, n);
        CollapseSpacesWords(s[n..]);
      } else {
        var w := Span(s, NonSpace);
        var rest := CollapseSpaces(s[w..]);
        CollapseCopies(s, w);
        if w < |s| {
          SpanIs(s[w..], Space, Span(s[w..], Space));
          assert rest[0] == ' ';
        }
        var x := s[..w] + rest;
        SpanIs(x, NonSpace, w);
        assert x[..w] == s[..w] && x[w..] == rest;
        CollapseSpacesWords(s[w..]);
      }
    }
  }

  /** A run without whitespace is copied as it is. */
  lemma CollapseCopies(s: string, k: nat)
    requires k <= |s| && forall i :: 0 <= i < k ==> !IsSpace(s[i])
    ensures CollapseSpaces(s) == s[..k] + CollapseSpaces(s[k..])
  {
    CollapseCopiesFrom(s, 0, k);
    assert s[0..] == s && s[0..k] == s[..k];
  }

  /** The same, for the suffix of `s` from index `i` on. */
  lemma {:induction false} CollapseCopiesFrom(s: string, i: nat, k: nat)
    requires i <= k <= |s| && forall j :: i <= j < k ==> !IsSpace(s[j])
    ensures CollapseSpaces(s[i..]) == s[i..k] + CollapseSpaces(s[k..])
    decreases k - i
  {
    if i < k {
      assert s[i..][0] == s[i];
      CollapseStep(s[i..]);
      assert s[i..][1..] == s[i + 1..];
      CollapseCopiesFrom(s, i + 1, k);
      assert s[i..k] == [s[i]] + s[i + 1..k];
    } else {
      assert s[i..k] == [];
    }
  }

  /** A character that is not whitespace is copied as it is. */
  lemma CollapseStep(t: string)
    requires t != [] && !IsSpace(t[0])
    ensures CollapseSpaces(t) == [t[0]] + CollapseSpaces(t[1..])
  {
    SpanIs(t, Space, 0);
    SubAllCopies(SpaceRun, " ", t);
  }

  /** A trimmed, single-spaced text is the join of its own words. */
  lemma {:induction false} JoinSplitSingleSpaced(x: string)
    requires Trimmed(x) && SingleSpaced(x)
    ensures Join(SplitWords(x), " ") == x
    decreases |x|
  {
    if x != [] {
      var w := Span(x, NonSpace);
      assert SplitWords(x) == [x[..w]] + SplitWords(x[w..]);
      if w == |x| {
        assert x[w..] == [] && x[..w] == x;
      } else {
        var y := x[w + 1..];
        assert x[w] == ' ' && w + 1 < |x|;
        assert !IsSpace(x[w + 1]);
        assert x[w..][1..] == y;
        assert SplitWords(x[w..]) == SplitWords(y);
        SliceSingleSpaced(x, w + 1, |x|);
        assert x[w + 1..|x|] == y;
        JoinSplitSingleSpaced(y);
        var words := SplitWords(y);
        assert words != [] && ([x[..w]] + words)[1..] == words;
        SplitAround(x, w);
      }
    }
  }

  lemma SplitAround(x: string, w: nat)
    requires w < |x| && x[w] == ' '
    ensures x == x[..w] + " " + x[w + 1..]
  {
    assert [x[w]] == " ";
  }

  lemma ConsSingleSpaced(x: char, r: string)
    requires SingleSpaced(r)
    requires !IsSpace(x) || (x == ' ' && (r == [] || !IsSpace(r[0])))
    ensures SingleSpaced([x] + r)
  {
    var s := [x] + r;
    forall i | 0 <= i < |s| - 1 && s[i] == ' '
      ensures s[i + 1] != ' '
    {
      if i > 0 {
        assert s[i] == r[i - 1] && s[i + 1] == r[i];
      }
    }
  }

  lemma SliceSingleSpaced(s: string, a: nat, b: nat)
    requires a <= b <= |s|
    requires SingleSpaced(s)
    ensures SingleSpaced(s[a..b])
  {
    var t := s[a..b];
    forall i | 0 <= i < |t| - 1 && t[i] == ' '
      ensures t[i + 1] != ' '
    {
      assert t[i] == s[a + i] && t[i + 1] == s[a + i + 1];
    }
  }

  lemma SliceNoRun(s: string, a: nat, b: nat, c: char, m: nat)
    requires a <= b <= |s|
    requires NoRun(s, c, m)
    ensures NoRun(s[a..b], c, m)
  {
    var t := s[a..b];
    forall k | 0 <= k < |t|
      ensures Span(t[k..], Only(c)) < m
    {
      assert t[k..] == s[a + k..b];
      assert s[a + k..b] <= s[a + k..];
      SpanOfPrefix(s[a + k..b], s[a + k..], Only(c));
    }
  }

  // ---------------------------------------------------------------------------
  // The marker loop

  /** One truncation: the result is a prefix without the marker, cut where the
      marker first occurs if it occurs at all. */
  lemma TruncateAtSpec(s: string, marker: string)
    requires marker != []
    ensures |TruncateAt(s, marker)| <= |s|
    ensures TruncateAt(s, marker) == s[..|TruncateAt(s, marker)|]
    ensures !Contains(TruncateAt(s, marker), marker)
    ensures |TruncateAt(s, marker)| < |s| ==> OccursAt(s, marker, |TruncateAt(s, marker)|)
  {
    var t := TruncateAt(s, marker);
    var f := Find(s, marker);
    if f.Some? {
      var i := f.value;
      assert t == s[..i];
      if Contains(t, marker) {
        var k: nat :| OccursAt(t, marker, k);
        OccursInPrefix(s, i, marker, k);
        assert false;
      }
    } else {
      assert t == s;
    }
  }

  /** The marker loop cuts the text at the earliest marker: the result is a
      prefix of its input that contains no marker, and unless it is the whole
      input, a marker starts right where it was cut. */
  lemma {:induction false} TruncateAllSpec(s: string, markers: seq<string>)
    requires forall m :: m in markers ==> m != []
    ensures |TruncateAll(s, markers)| <= |s|
    ensures TruncateAll(s, markers) == s[..|TruncateAll(s, markers)|]
    ensures forall m :: m in markers ==> !Contains(TruncateAll(s, markers), m)
    ensures var r := TruncateAll(s, markers);
            |r| < |s| ==> exists m :: m in markers && OccursAt(s, m, |r|)
  {
    if markers != [] {
      var m0 := markers[0];
      var t := TruncateAt(s, m0);
      var r := TruncateAll(t, markers[1..]);
      assert TruncateAll(s, markers) == r;
      assert m0 in markers;
      assert forall m :: m in markers[1..] ==> m in markers;
      TruncateAtSpec(s, m0);
      TruncateAllSpec(t, markers[1..]);
      ContainsOfPrefix(t, |r|, m0);
      assert t[..|r|] == r;
      assert r == s[..|r|];
      if |r| < |s| {
        if |r| < |t| {
          var m :| m in markers[1..] && OccursAt(t, m, |r|);
          assert t[|r|..|r| + |m|] == s[|r|..|r| + |m|];
          assert m in markers && OccursAt(s, m, |r|);
        } else {
          assert m0 in markers && OccursAt(s, m0, |r|);
        }
      }
    }
  }

  // ---------------------------------------------------------------------------
  // What the label patterns match

  /** `Character\s*\d+:\s*` at the start of a text `Character<ws><digits>:<ws>…`
      matches the whole label, trailing whitespace included. */
  lemma CharacterLabelMatch(ws1: string, digits: string, ws2: string, rest: string)
    requires NoWord(ws1) && NoWord(ws2)
    requires digits != [] && forall i :: 0 <= i < |digits| ==> IsDigit(digits[i])
    requires rest == [] || !IsSpace(rest[0])
    ensures MatchLength(CharacterLabel, "Character" + ws1 + digits + ":" + ws2 + rest)
            == |"Character" + ws1 + digits + ":" + ws2|
  {
    var pre := "Character" + ws1;
    var s := pre + digits + ":" + ws2 + rest;
    assert s[..|pre|] == pre;
    CharacterHead(s, ws1);
    assert pre + [] == pre;
    CodeEndOf(pre, [], digits, ws2, rest, false);
    assert CodeEnd(s, |pre|, false) == |pre + digits + ":" + ws2|;
  }

  /** A text that opens with `Character` and whitespace before a non-space
      passes the first part of `Character\s*`. */
  lemma CharacterHead(s: string, ws: string)
    requires NoWord(ws)
    requires 9 + |ws| < |s| && s[..9 + |ws|] == "Character" + ws && !IsSpace(s[9 + |ws|])
    ensures StartsWith(s, "Character") && Span(s[9..], Space) == |ws|
  {
    var p := "Character" + ws;
    assert s[..9] == p[..9];
    forall i | 0 <= i < |ws| ensures InClass(Space, s[9..][i]) {
      assert s[9..][i] == p[9 + i] == ws[i];
    }
    SpanIs(s[9..], Space, |ws|);
  }

  /** `[A-Z][A-Za-z\s]+:\s*` at the start of `<Upper><role>:<ws>…` matches the
      role name, the colon and the whitespace after it. */
  lemma RoleLengthOf(u: char, role: string, ws: string, rest: string)
    requires IsUpper(u)
    requires role != [] && forall i :: 0 <= i < |role| ==> IsLetter(role[i]) || IsSpace(role[i])
    requires NoWord(ws)
    requires rest == [] || !IsSpace(rest[0])
    ensures RoleLength([u] + role + ":" + ws + rest) == |[u] + role + ":" + ws|
  {
    var s := [u] + role + ":" + ws + rest;
    RoleParts(s, u, role, ws);
    if 2 + |role| + |ws| < |s| {
      assert s[2 + |role| + |ws|] == rest[0];
    }
    RoleLengthAt(s, |role|, |ws|);
  }

  /** The positions of the role name, its colon and the whitespace after it. */
  lemma RoleParts(s: string, u: char, role: string, ws: string)
    requires IsUpper(u) && NoWord(ws)
    requires forall i :: 0 <= i < |role| ==> IsLetter(role[i]) || IsSpace(role[i])
    requires |[u] + role + ":" + ws| <= |s| && s[..|[u] + role + ":" + ws|] == [u] + role + ":" + ws
    ensures IsUpper(s[0]) && s[1 + |role|] == ':'
    ensures forall i :: 1 <= i < 1 + |role| ==> IsLetter(s[i]) || IsSpace(s[i])
    ensures forall i :: 2 + |role| <= i < 2 + |role| + |ws| ==> IsSpace(s[i])
  {
    var p := [u] + role + ":" + ws;
    assert s[0] == p[0];
    assert s[1 + |role|] == p[1 + |role|];
    forall i | 1 <= i < 1 + |role| ensures IsLetter(s[i]) || IsSpace(s[i]) {
      assert s[i] == p[i] == role[i - 1];
    }
    forall i | 2 + |role| <= i < 2 + |role| + |ws| ensures IsSpace(s[i]) {
      assert s[i] == p[i] == ws[i - 2 - |role|];
    }
  }

  /** `RoleLength` from the extent of the role name and the whitespace after
      its colon. */
  lemma RoleLengthAt(s: string, r: nat, w: nat)
    requires 2 + r + w <= |s|
    requires IsUpper(s[0]) && r > 0
    requires forall i :: 1 <= i < 1 + r ==> IsLetter(s[i]) || IsSpace(s[i])
    requires s[1 + r] == ':'
    requires forall i :: 2 + r <= i < 2 + r + w ==> IsSpace(s[i])
    requires 2 + r + w < |s| ==> !IsSpace(s[2 + r + w])
    ensures RoleLength(s) == 2 + r + w
  {
    SpanIs(s[1..], LetterOrSpace, r);
    SpanIs(s[2 + r..], Space, w);
  }

  /** `[A-Z][A-Za-z\s]+:\s*[A-Z]?\d+:\s*` at the start of
      `<Upper><role>:<ws><code letter?><digits>:<ws>…` matches the whole label,
      as in `Customer Support: D2: `. */
  lemma RoleCodeLabelMatch(u: char, role: string, ws1: string, code: string, digits: string, ws2: string, rest: string)
    requires IsUpper(u)
    requires role != [] && forall i :: 0 <= i < |role| ==> IsLetter(role[i]) || IsSpace(role[i])
    requires NoWord(ws1) && NoWord(ws2)
    requires code == [] || (|code| == 1 && IsUpper(code[0]))
    requires digits != [] && forall i :: 0 <= i < |digits| ==> IsDigit(digits[i])
    requires rest == [] || !IsSpace(rest[0])
    ensures MatchLength(RoleCodeLabel, [u] + role + ":" + ws1 + code + digits + ":" + ws2 + rest)
            == |[u] + role + ":" + ws1 + code + digits + ":" + ws2|
  {
    var pre := [u] + role + ":" + ws1;
    var s := pre + code + digits + ":" + ws2 + rest;
    assert s[..|pre|] == pre;
    RoleParts(s, u, role, ws1);
    assert s[|pre|] == if code == [] then digits[0] else code[0];
    RoleLengthAt(s, |role|, |ws1|);
    assert RoleLength(s) == |pre|;
    CodeEndOf(pre, code, digits, ws2, rest, true);
    assert CodeEnd(s, |pre|, true) == |pre + code + digits + ":" + ws2|;
  }

  /** `[A-Z]?\d+:\s*` (or `\d+:\s*` without the letter) right after `pre`. */
  lemma CodeEndOf(pre: string, code: string, digits: string, ws: string, rest: string, letter: bool)
    requires code == [] || (letter && |code| == 1 && IsUpper(code[0]))
    requires digits != [] && forall i :: 0 <= i < |digits| ==> IsDigit(digits[i])
    requires NoWord(ws)
    requires rest == [] || !IsSpace(rest[0])
    ensures CodeEnd(pre + code + digits + ":" + ws + rest, |pre|, letter) == |pre + code + digits + ":" + ws|
  {
    var s := pre + code + digits + ":" + ws + rest;
    var a := |pre|;
    var u := |code|;
    var b := a + u + |digits|;
    assert s[a] == if code == [] then digits[0] else code[0];
    forall i | a + u <= i < b ensures IsDigit(s[i]) {
      assert s[i] == digits[i - a - u];
    }
    assert s[b] == ':';
    forall i | b + 1 <= i < b + 1 + |ws| ensures IsSpace(s[i]) {
      assert s[i] == ws[i - b - 1];
    }
    if b + 1 + |ws| < |s| {
      assert s[b + 1 + |ws|] == rest[0];
    }
    CodeEndAt(s, a, letter, u, |digits|, |ws|);
  }

  /** `CodeEnd` from the extent of its optional letter, digit run and
      trailing whitespace. */
  lemma CodeEndAt(s: string, a: nat, letter: bool, u: nat, d: nat, w: nat)
    requires a + u + d + 1 + w <= |s|
    requires u == if letter && a < |s| && IsUpper(s[a]) then 1 else 0
    requires d > 0 && forall i :: a + u <= i < a + u + d ==> IsDigit(s[i])
    requires s[a + u + d] == ':'
    requires forall i :: a + u + d + 1 <= i < a + u + d + 1 + w ==> IsSpace(s[i])
    requires a + u + d + 1 + w < |s| ==> !IsSpace(s[a + u + d + 1 + w])
    ensures CodeEnd(s, a, letter) == a + u + d + 1 + w
  {
    SpanIs(s[a + u..], Digit, d);
    SpanIs(s[a + u + d + 1..], Space, w);
  }

  // ---------------------------------------------------------------------------
  // Text that holds nothing to remove

  /** Each label pattern ends in `:`, so it cannot match a text without one. */
  lemma LabelNeedsColon(rule: Rule, s: string)
    requires rule.CharacterLabel? || rule.RoleCodeLabel? || rule.LeadingRole?
    requires ':' !in s
    ensures MatchLength(rule, s) == 0
  {
    if rule.CharacterLabel? && StartsWith(s, "Character") {
      CodeEndNeedsColon(s, 9 + Span(s[9..], Space), false);
    } else if rule.RoleCodeLabel? && RoleLength(s) > 0 {
      CodeEndNeedsColon(s, RoleLength(s), true);
    }
  }

  lemma CodeEndNeedsColon(s: string, a: nat, letter: bool)
    requires a <= |s| && ':' !in s
    ensures CodeEnd(s, a, letter) == 0
  {
    var u := if letter && a < |s| && IsUpper(s[a]) then 1 else 0;
    var b := a + u + Span(s[a + u..], Digit);
    if b < |s| {
      assert s[b] in s;
    }
  }

  /** A label substitution leaves a text without `:` unchanged. */
  lemma {:induction false} SubAllWithoutColon(rule: Rule, s: string)
    requires rule.CharacterLabel? || rule.RoleCodeLabel?
    requires ':' !in s
    ensures SubAll(rule, "", s) == s
    decreases |s|
  {
    if s != [] {
      LabelNeedsColon(rule, s);
      assert forall x :: x in s[1..] ==> x in s;
      SubAllWithoutColon(rule, s[1..]);
      assert s == [s[0]] + s[1..];
    }
  }

  /** A rule substitution leaves a text without a run of five `c` unchanged. */
  lemma {:induction false} SubAllWithoutRun(s: string, c: char)
    requires !IsSpace(c)
    requires NoRun(s, c, 5)
    ensures SubAll(RuleLine(c), " ", s) == s
    decreases |s|
  {
    if s != [] {
      RuleLineNoMatch(s, c);
      SubAllCopies(RuleLine(c), " ", s);
      SuffixNoRun(s, 1, c, 5);
      SubAllWithoutRun(s[1..], c);
      assert s == [s[0]] + s[1..];
    }
  }

  /** Without a run of five `c`, the rule for `c` matches nowhere. */
  lemma RuleLineNoMatch(s: string, c: char)
    requires !IsSpace(c)
    requires NoRun(s, c, 5)
    ensures MatchLength(RuleLine(c), s) == 0
  {
    var a := Span(s, Space);
    if a < |s| {
      assert Span(s[a..], Only(c)) < 5;
    } else {
      assert s[a..] == [];
    }
  }

  /** Where the rule does not match, the substitution copies one character. */
  lemma SubAllCopies(rule: Rule, repl: string, s: string)
    requires s != [] && MatchLength(rule, s) == 0
    ensures SubAll(rule, repl, s) == [s[0]] + SubAll(rule, repl, s[1..])
  {
  }

  /** A text with no `:` and no run of five `=` or `-` is only cut at the
      first marker and then has its whitespace collapsed and trimmed: nothing
      else in it, bracketed direction tags included, is touched. */
  lemma CleanTextPlain(text: string)
    requires ':' !in text
    requires NoRun(text, '=', 5) && NoRun(text, '-', 5)
    ensures CleanText(text) == Strip(CollapseSpaces(TruncateAll(text, Markers)))
    ensures CleanText(text) == Join(SplitWords(TruncateAll(text, Markers)), " ")
  {
    RemoveLabelsPlain(text);
    TruncatedNoRun(text);
    CollapseRulesPlain(TruncateAll(text, Markers));
    CollapseSpacesStrip(TruncateAll(text, Markers));
  }

  /** Without a `:` there is no label to remove. */
  lemma RemoveLabelsPlain(text: string)
    requires ':' !in text
    ensures RemoveLabels(text) == text
  {
    SubAllWithoutColon(CharacterLabel, text);
    SubAllWithoutColon(RoleCodeLabel, text);
    LabelNeedsColon(LeadingRole, text);
  }

  /** Cutting at a marker keeps a text free of the two runs. */
  lemma TruncatedNoRun(text: string)
    requires NoRun(text, '=', 5) && NoRun(text, '-', 5)
    ensures NoRun(TruncateAll(text, Markers), '=', 5) && NoRun(TruncateAll(text, Markers), '-', 5)
  {
    var t := TruncateAll(text, Markers);
    TruncateAllSpec(text, Markers);
    SliceNoRun(text, 0, |t|, '=', 5);
    SliceNoRun(text, 0, |t|, '-', 5);
    assert text[0..|t|] == t;
  }

  /** Without a run of five `=` or `-` there is no rule to collapse. */
  lemma CollapseRulesPlain(t: string)
    requires NoRun(t, '=', 5) && NoRun(t, '-', 5)
    ensures CollapseRules(t) == t
  {
    SubAllWithoutRun(t, '=');
    SubAllWithoutRun(t, '-');
  }

  /** Without a marker either, only the whitespace changes. */
  lemma CleanTextPlainNoMarker(text: string)
    requires ':' !in text
    requires NoRun(text, '=', 5) && NoRun(text, '-', 5)
    requires forall m :: m in Markers ==> !Contains(text, m)
    ensures CleanText(text) == Strip(CollapseSpaces(text))
    ensures CleanText(text) == Join(SplitWords(text), " ")
  {
    RemoveLabelsPlain(text);
    MarkersNonEmpty();
    TruncateAllWithoutMarker(text, Markers);
    CollapseRulesPlain(text);
    CollapseSpacesStrip(text);
  }

  lemma MarkersNonEmpty()
    ensures forall m :: m in Markers ==> m != []
  {
  }

  lemma TruncateAllWithoutMarker(s: string, markers: seq<string>)
    requires forall m :: m in markers ==> m != [] && !Contains(s, m)
    ensures TruncateAll(s, markers) == s
  {
    TruncateAllSpec(s, markers);
  }

  /** Collapsing whitespace changes nothing in a single-spaced text. */
  lemma {:induction false} CollapseSpacesIdentity(s: string)
    requires SingleSpaced(s)
    ensures CollapseSpaces(s) == s
    decreases |s|
  {
    if s != [] {
      var n := MatchLength(SpaceRun, s);
      if n > 0 {
        assert s[0] == ' ';
        assert |s| > 1 ==> !IsSpace(s[1]);
        SpanIs(s, Space, 1);
      }
      var rest := s[1..];
      assert SingleSpaced(rest) by {
        forall i | 0 <= i < |rest| - 1 && rest[i] == ' '
          ensures rest[i + 1] != ' '
        {
          assert rest[i] == s[i + 1] && rest[i + 1] == s[i + 2];
        }
      }
      CollapseSpacesIdentity(rest);
      assert s == [s[0]] + rest;
    }
  }

  /** The last four steps of `clean_text` leave a tidy text without markers as
      it is. */
  lemma TailIdentity(t: string)
    requires Tidy(t)
    requires forall m :: m in Markers ==> !Contains(t, m)
    ensures Strip(CollapseSpaces(CollapseRules(TruncateAll(t, Markers)))) == t
  {
    TruncateAllWithoutMarker(t, Markers);
    SubAllWithoutRun(t, '=');
    SubAllWithoutRun(t, '-');
    CollapseSpacesIdentity(t);
    StripTrimmed(t);
  }

  /** `clean_text` is not idempotent, but a second pass over a cleaned text can
      only change it by removing a label or cutting at a marker: when neither
      applies, the second pass returns its input. */
  lemma CleanTextStable(text: string)
    requires RemoveLabels(CleanText(text)) == CleanText(text)
    requires forall m :: m in Markers ==> !Contains(CleanText(text), m)
    ensures CleanText(CleanText(text)) == CleanText(text)
  {
    CleanTextTidy(text);
    TailIdentity(CleanText(text));
  }
}
