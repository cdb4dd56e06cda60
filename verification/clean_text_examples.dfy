/** Worked inputs for `clean_text`: a line cut off at a role-play instruction,
    and a line with two speaker labels, on which a second cleaning pass changes
    the result (so `clean_text` is not idempotent). */
module CleanTextExamples {
  import opened Strings
  import opened TextCleaning

  // ---------------------------------------------------------------------------
  // General facts the examples rest on

  /** A substitution whose pattern matches nowhere leaves the text alone. */
  lemma SubAllIdentity(rule: Rule, repl: string, s: string)
    requires forall k :: 0 <= k < |s| ==> MatchLength(rule, s[k..]) == 0
    ensures SubAll(rule, repl, s) == s
  {
    SubAllIdentityFrom(rule, repl, s, 0);
    assert s[0..] == s;
  }

  /** The same, for the suffix of `s` from index `i` on. */
  lemma {:induction false} SubAllIdentityFrom(rule: Rule, repl: string, s: string, i: nat)
    requires i <= |s|
    requires forall k :: i <= k < |s| ==> MatchLength(rule, s[k..]) == 0
    ensures SubAll(rule, repl, s[i..]) == s[i..]
    decreases |s| - i
  {
    if i < |s| {
      assert s[i..] == [s[i]] + s[i + 1..];
      assert s[i..][1..] == s[i + 1..];
      SubAllCopies(rule, repl, s[i..]);
      SubAllIdentityFrom(rule, repl, s, i + 1);
    }
  }

  /** Without a `C` there is no `Character` label to remove. */
  lemma WithoutCharacterLabel(s: string)
    requires 'C' !in s
    ensures SubAll(CharacterLabel, "", s) == s
  {
    forall k | 0 <= k < |s| ensures MatchLength(CharacterLabel, s[k..]) == 0 {
      assert s[k..][0] == s[k];
    }
    SubAllIdentity(CharacterLabel, "", s);
  }

  lemma AbsentNoRun(s: string, c: char, m: nat)
    requires c !in s && m >= 1
    ensures NoRun(s, c, m)
  {
    forall k | 0 <= k < |s| ensures Span(s[k..], Only(c)) < m {
      assert s[k..][0] == s[k];
    }
  }

  /** Every marker starts with `I` or `Y`. */
  lemma MarkerHeads()
    ensures forall m :: m in Markers ==> m != [] && (m[0] == 'I' || m[0] == 'Y')
  {
  }

  lemma WithoutMarker(s: string)
    requires 'I' !in s && 'Y' !in s
    ensures forall m :: m in Markers ==> !Contains(s, m)
  {
    MarkerHeads();
  }

  /** A trimmed, single-spaced text without `=`, `-`, `I` or `Y` passes the last
      four steps of `clean_text` unchanged. */
  lemma PlainTail(s: string)
    requires Trimmed(s) && SingleSpaced(s)
    requires '=' !in s && '-' !in s && 'I' !in s && 'Y' !in s
    ensures Strip(CollapseSpaces(CollapseRules(TruncateAll(s, Markers)))) == s
  {
    AbsentNoRun(s, '=', 5);
    AbsentNoRun(s, '-', 5);
    WithoutMarker(s);
    TailIdentity(s);
  }

  /** When a marker `b` follows `a`, and no marker can start anywhere else in
      `a + b + c`, truncation keeps exactly `a`. */
  lemma {:induction false} TruncateAtOnly(a: string, b: string, c: string, markers: seq<string>)
    requires b != [] && b in markers
    requires forall m :: m in markers ==> m != [] && m[0] !in a && m[0] !in b[1..] && m[0] !in c
    ensures TruncateAll(a + b + c, markers) == a
  {
    var s := a + b + c;
    TruncateAllSpec(s, markers);
    var r := TruncateAll(s, markers);
    assert OccursAt(s, b, |a|) by {
      assert s[|a|..|a| + |b|] == b;
    }
    assert Contains(s, b) && !Contains(r, b);
    assert r != s;
    var m :| m in markers && OccursAt(s, m, |r|);
    assert s[|r|] == m[0];
    assert r == s[..|a|] == a;
  }

  lemma TruncateBeforeMarker(a: string, b: string, c: string)
    requires b != [] && b in Markers
    requires 'I' !in a && 'Y' !in a && 'I' !in b[1..] && 'Y' !in b[1..] && 'I' !in c && 'Y' !in c
    ensures TruncateAll(a + b + c, Markers) == a
  {
    MarkerHeads();
    TruncateAtOnly(a, b, c, Markers);
  }

  // ---------------------------------------------------------------------------
  // "Go now. You are A; continue the scene." cleans to "Go now."

  /** The text before the instruction. */
  lemma GoHead(a: string)
    requires a == "Go now. "
    ensures ':' !in a && '=' !in a && '-' !in a && 'I' !in a && 'Y' !in a
  {
  }

  /** The instruction, which is one of the markers. */
  lemma GoMarker(b: string)
    requires b == "You are A;"
    ensures b in Markers && b[1..] == "ou are A;"
    ensures ':' !in b && '=' !in b && '-' !in b && 'I' !in b[1..] && 'Y' !in b[1..]
  {
  }

  /** The text after the instruction. */
  lemma GoRest(c: string)
    requires c == " continue the scene."
    ensures ':' !in c && '=' !in c && '-' !in c && 'I' !in c && 'Y' !in c
  {
  }

  lemma GoTail(t: string)
    requires t == "Go now. "
    ensures Strip(CollapseSpaces(t)) == "Go now."
  {
    assert SingleSpaced(t);
    CollapseSpacesIdentity(t);
    SpanIs(t, Space, 0);
    var r := Strip(t);
    assert !IsSpace(t[6]) && IsSpace(t[7]);
    assert |r| == 7;
  }

  /** The instruction `You are A;` and everything after it are cut off, and the
      space before it is stripped. */
  lemma GoNow(s: string, a: string, b: string, c: string)
    requires s == "Go now. You are A; continue the scene."
    requires a == "Go now. " && b == "You are A;" && c == " continue the scene."
    ensures CleanText(s) == "Go now."
  {
    assert s == a + b + c;
    GoNowPieces(a, b, c);
  }

  lemma GoNowPieces(a: string, b: string, c: string)
    requires a == "Go now. " && b == "You are A;" && c == " continue the scene."
    ensures CleanText(a + b + c) == "Go now."
  {
    var s := a + b + c;
    GoHead(a);
    GoMarker(b);
    GoRest(c);
    AbsentNoRun(s, '=', 5);
    AbsentNoRun(s, '-', 5);
    CleanTextPlain(s);
    TruncateBeforeMarker(a, b, c);
    GoTail(a);
  }

  // ---------------------------------------------------------------------------
  // The two label forms the source's comments name

  /** A capitalised word holds no role label: neither label pattern can match
      anywhere in it, since `:` never follows. */
  lemma CapitalisedWord(t: string)
    requires t != [] && IsUpper(t[0]) && forall i :: 1 <= i < |t| ==> 'a' <= t[i] <= 'z'
    ensures SubAll(RoleCodeLabel, "", t) == t && MatchLength(LeadingRole, t) == 0
  {
    SpanIs(t[1..], LetterOrSpace, |t| - 1);
    forall k | 0 < k < |t| ensures MatchLength(RoleCodeLabel, t[k..]) == 0 {
      assert t[k..][0] == t[k];
    }
    assert t[0..] == t;
    SubAllIdentity(RoleCodeLabel, "", t);
  }

  /** `Customer Support: D2: ` is a role-and-code label of 22 characters. */
  lemma CustomerSupportLabel(s: string)
    requires s == "Customer Support: D2: Hello"
    ensures MatchLength(RoleCodeLabel, s) == 22
  {
    assert s == ['C'] + "ustomer Support" + ":" + " " + "D" + "2" + ":" + " " + "Hello";
    RoleCodeLabelMatch('C', "ustomer Support", " ", "D", "2", " ", "Hello");
  }

  /** Only a `C` followed by `h` can start a `Character` label. */
  lemma NotCharacterHere(t: string)
    requires t == [] || t[0] != 'C' || (|t| > 1 && t[1] != 'h')
    ensures MatchLength(CharacterLabel, t) == 0
  {
    if |t| >= 9 {
      assert t[..9][0] == t[0] && t[..9][1] == t[1];
    }
  }

  lemma NoCharacterAfterHead(s: string)
    requires |s| > 1 && s[1] != 'h' && 'C' !in s[1..]
    ensures SubAll(CharacterLabel, "", s) == s
  {
    forall k | 0 <= k < |s| ensures MatchLength(CharacterLabel, s[k..]) == 0 {
      if k == 0 {
        assert s[0..][1] == s[1];
      } else {
        assert s[k..][0] == s[1..][k - 1];
      }
      NotCharacterHere(s[k..]);
    }
    SubAllIdentity(CharacterLabel, "", s);
  }

  /** Where the pattern matches at the start, the match is replaced. */
  lemma SubAllMatch(rule: Rule, repl: string, s: string, n: nat)
    requires s != [] && n > 0 && MatchLength(rule, s) == n
    ensures SubAll(rule, repl, s) == repl + SubAll(rule, repl, s[n..])
  {
  }

  lemma CustomerNoCharacter(s: string)
    requires s == "Customer Support: D2: Hello"
    ensures SubAll(CharacterLabel, "", s) == s
  {
    assert 'C' !in s[1..];
    NoCharacterAfterHead(s);
  }

  lemma CustomerNoCode(s: string)
    requires s == "Customer Support: D2: Hello"
    ensures SubAll(RoleCodeLabel, "", s) == "Hello"
  {
    CustomerSupportLabel(s);
    SubAllMatch(RoleCodeLabel, "", s, 22);
    assert s[22..] == "Hello";
    HelloWord("Hello");
  }

  lemma HelloWord(t: string)
    requires t == "Hello"
    ensures SubAll(RoleCodeLabel, "", t) == t && MatchLength(LeadingRole, t) == 0
  {
    assert forall i :: 1 <= i < |t| ==> 'a' <= t[i] <= 'z';
    CapitalisedWord(t);
  }

  lemma HelloPlain(t: string)
    requires t == "Hello"
    ensures Trimmed(t) && SingleSpaced(t)
    ensures '=' !in t && '-' !in t && 'I' !in t && 'Y' !in t
  {
  }

  /** The label is removed and the line cleans to its words. */
  lemma CustomerSupportClean(s: string)
    requires s == "Customer Support: D2: Hello"
    ensures RemoveLabels(s) == "Hello" && CleanText(s) == "Hello"
  {
    CustomerNoCharacter(s);
    CustomerNoCode(s);
    HelloWord("Hello");
    HelloPlain("Hello");
    PlainTail("Hello");
  }

  /** `Character 3: ` is a character label of 13 characters. */
  lemma CharacterThreeLabel(s: string)
    requires s == "Character 3: Hi"
    ensures MatchLength(CharacterLabel, s) == 13
  {
    assert s == "Character" + " " + "3" + ":" + " " + "Hi";
    CharacterLabelMatch(" ", "3", " ", "Hi");
  }

  lemma CharacterThreeNoLabel(s: string)
    requires s == "Character 3: Hi"
    ensures SubAll(CharacterLabel, "", s) == "Hi"
  {
    CharacterThreeLabel(s);
    assert s[13..] == "Hi";
    WithoutCharacterLabel("Hi");
  }

  lemma HiPlain(t: string)
    requires t == "Hi"
    ensures Trimmed(t) && SingleSpaced(t)
    ensures '=' !in t && '-' !in t && 'I' !in t && 'Y' !in t
  {
  }

  /** The label is removed and the line cleans to its words. */
  lemma CharacterThreeClean(s: string)
    requires s == "Character 3: Hi"
    ensures RemoveLabels(s) == "Hi" && CleanText(s) == "Hi"
  {
    CharacterThreeNoLabel(s);
    CapitalisedWord("Hi");
    HiPlain("Hi");
    PlainTail("Hi");
  }

  // ---------------------------------------------------------------------------
  // "Narrator: Foo: bar" cleans to "Foo: bar", which cleans to "bar"

  lemma FooLabels(s: string)
    requires s == "Foo: bar"
    ensures MatchLength(RoleCodeLabel, s) == 0
    ensures MatchLength(LeadingRole, s) == 5
  {
    SpanIs(s[1..], LetterOrSpace, 2);
    SpanIs(s[4..], Space, 1);
    SpanIs(s[5..], Digit, 0);
  }

  lemma FooNoCode(s: string)
    requires s == "Foo: bar"
    ensures SubAll(RoleCodeLabel, "", s) == s
  {
    FooLabels(s);
    forall k | 0 < k < |s| ensures MatchLength(RoleCodeLabel, s[k..]) == 0 {
      assert s[k..][0] == s[k];
    }
    SubAllIdentity(RoleCodeLabel, "", s);
  }

  lemma FooRemoveLabels(s: string)
    requires s == "Foo: bar"
    ensures RemoveLabels(s) == "bar"
  {
    WithoutCharacterLabel(s);
    FooNoCode(s);
    FooLabels(s);
  }

  lemma BarPlain(t: string)
    requires t == "bar"
    ensures Trimmed(t) && SingleSpaced(t)
    ensures '=' !in t && '-' !in t && 'I' !in t && 'Y' !in t
  {
  }

  /** One leading `Foo: ` label is removed. */
  lemma FooClean(s: string)
    requires s == "Foo: bar"
    ensures CleanText(s) == "bar"
  {
    FooRemoveLabels(s);
    BarPlain("bar");
    PlainTail("bar");
  }

  lemma NarratorName(s: string)
    requires s == "Narrator: Foo: bar"
    ensures Span(s[1..], LetterOrSpace) == 7 && s[8] == ':'
  {
    var t := s[1..];
    assert forall i :: 0 <= i < 7 ==> t[i] == s[i + 1];
    assert forall i :: 0 <= i < 7 ==> IsLetter(t[i]);
    assert t[7] == ':';
    SpanIs(t, LetterOrSpace, 7);
  }

  lemma NarratorLabels(s: string)
    requires s == "Narrator: Foo: bar"
    ensures MatchLength(RoleCodeLabel, s) == 0 && MatchLength(LeadingRole, s) == 10
  {
    NarratorNoRoleCode(s);
    NarratorLeadingRole(s);
  }

  lemma NarratorNoRoleCode(s: string)
    requires s == "Narrator: Foo: bar"
    ensures MatchLength(RoleCodeLabel, s) == 0
  {
    NarratorLeadingRole(s);
    assert IsUpper(s[10]);
    SpanIs(s[11..], Digit, 0);
  }

  lemma NarratorLeadingRole(s: string)
    requires s == "Narrator: Foo: bar"
    ensures MatchLength(LeadingRole, s) == 10
  {
    NarratorName(s);
    SpanIs(s[9..], Space, 1);
  }

  lemma NarratorTail(s1: string, s2: string)
    requires s1 == "Narrator: Foo: bar" && s2 == "Foo: bar"
    ensures s1[10..] == s2
  {
  }

  lemma NarratorLowerCase(s: string)
    requires s == "Narrator: Foo: bar"
    ensures forall k :: 0 < k < |s| && k != 10 ==> MatchLength(RoleCodeLabel, s[k..]) == 0
  {
    forall k | 0 < k < |s| && k != 10 ensures MatchLength(RoleCodeLabel, s[k..]) == 0 {
      assert !IsUpper(s[k]);
      assert s[k..][0] == s[k];
    }
  }

  lemma NarratorNoCode(s: string)
    requires s == "Narrator: Foo: bar"
    ensures SubAll(RoleCodeLabel, "", s) == s
  {
    NarratorLabels(s);
    NarratorTail(s, "Foo: bar");
    FooLabels("Foo: bar");
    NarratorLowerCase(s);
    assert s[0..] == s;
    SubAllIdentity(RoleCodeLabel, "", s);
  }

  /** Only the first label is removed: the slice happens once. */
  lemma NarratorRemoveLabels(s1: string, s2: string)
    requires s1 == "Narrator: Foo: bar" && s2 == "Foo: bar"
    ensures RemoveLabels(s1) == s2
  {
    WithoutCharacterLabel(s1);
    NarratorNoCode(s1);
    NarratorLabels(s1);
    NarratorTail(s1, s2);
  }

  lemma FooTail(s2: string)
    requires s2 == "Foo: bar"
    ensures Strip(CollapseSpaces(CollapseRules(TruncateAll(s2, Markers)))) == s2
  {
    assert Trimmed(s2);
    assert SingleSpaced(s2);
    PlainTail(s2);
  }

  /** `clean_text` is not idempotent: cleaning a cleaned text can remove another
      speaker label. */
  lemma NotIdempotent(s1: string, s2: string)
    requires s1 == "Narrator: Foo: bar" && s2 == "Foo: bar"
    ensures CleanText(s1) == s2 && CleanText(s2) == "bar"
    ensures CleanText(CleanText(s1)) != CleanText(s1)
  {
    NarratorRemoveLabels(s1, s2);
    FooTail(s2);
    FooClean(s2);
  }
}
