/** The aggregation done by `process_files`
    (Austin_cs_tagless/numbering_script.py:57-201): per input file, the
    monologue entries, the fallback `SCENARIO` entries that do not repeat a
    number, and the collected numbered lines are appended to one list; the
    list is sorted by number, the first entry of every number is kept, each
    kept text is cleaned, and the non-empty ones are written one per line as
    `<number>  <text>`. */
module Aggregate {
  import opened Strings
  import opened Decimal
  import opened TextCleaning
  import opened Entries
  import opened Collector

  // ---------------------------------------------------------------------------
  // Captured bodies

  /** One match of a monologue or `SCENARIO` pattern: the number in group 1
      and the body in group 2. */
  datatype Capture = Capture(num: nat, body: string)

  /** `' '.join(body.strip().split())`: the words of the body, one space
      apart. The `strip()` cannot change the words `split()` finds, so it is
      left to `WordsIgnoreStrip`. */
  function Words(body: string): string {
    Join(SplitWords(body), " ")
  }

  lemma WordsIgnoreStrip(body: string)
    ensures Join(SplitWords(Strip(body)), " ") == Words(body)
  {
    SplitIgnoresStrip(body);
  }

  /** Words joined by single spaces have no whitespace at either end and no
      whitespace but single spaces. */
  lemma {:induction false} JoinWordsShape(words: seq<string>)
    requires forall i :: 0 <= i < |words| ==> words[i] != [] && NoSpace(words[i])
    ensures var s := Join(words, " ");
            Trimmed(s) && SingleSpaced(s) && (words != [] ==> s != [])
  {
    if |words| == 1 {
      assert NoSpace(Join(words, " "));
    } else if |words| > 1 {
      var w := words[0];
      var r := Join(words[1..], " ");
      JoinWordsShape(words[1..]);
      var s := w + " " + r;
      assert Join(words, " ") == s;
      assert r != [] && !IsSpace(r[0]) && !IsSpace(r[|r| - 1]);
      forall i | 0 <= i < |s| && IsSpace(s[i]) ensures s[i] == ' ' {
        if i > |w| {
          assert s[i] == r[i - |w| - 1];
        }
      }
      forall i | 0 <= i < |s| - 1 && s[i] == ' ' ensures s[i + 1] != ' ' {
        if i > |w| {
          assert s[i] == r[i - |w| - 1] && s[i + 1] == r[i - |w|];
        }
      }
      assert s[|s| - 1] == r[|r| - 1];
    }
  }

  /** The joined text has the same words as the body, and is trimmed and
      single-spaced. */
  lemma WordsSpec(body: string)
    ensures SplitWords(Words(body)) == SplitWords(body)
    ensures Trimmed(Words(body)) && SingleSpaced(Words(body))
  {
    var words := SplitWords(body);
    SplitWordsAreWords(body);
    SplitJoinWords(words);
    JoinWordsShape(words);
  }

  /** The entry a match appends: its number and its body's words. */
  function CaptureEntry(c: Capture): Entry {
    Entry(c.num, Words(c.body))
  }

  /** The entries the monologue loops (lines 94-103) append, in match order. */
  function FromCaptures(captures: seq<Capture>): (r: seq<Entry>)
    ensures |r| == |captures|
    ensures forall i :: 0 <= i < |r| ==> r[i] == CaptureEntry(captures[i])
  {
    seq(|captures|, i requires 0 <= i < |captures| => CaptureEntry(captures[i]))
  }

  function CaptureNumbers(captures: seq<Capture>): set<nat> {
    set c | c in captures :: c.num
  }

  /** Each match gives one entry, in match order, with the match's number and
      the words of its body as a trimmed, single-spaced text; the entries'
      numbers are the matches' numbers. */
  lemma FromCapturesSpec(captures: seq<Capture>)
    ensures |FromCaptures(captures)| == |captures|
    ensures forall i :: 0 <= i < |captures| ==>
              var e := FromCaptures(captures)[i];
              e.num == captures[i].num && Trimmed(e.text) && SingleSpaced(e.text)
              && SplitWords(e.text) == SplitWords(captures[i].body)
    ensures Numbers(FromCaptures(captures)) == CaptureNumbers(captures)
  {
    var r := FromCaptures(captures);
    forall i | 0 <= i < |captures|
      ensures Trimmed(r[i].text) && SingleSpaced(r[i].text)
      ensures SplitWords(r[i].text) == SplitWords(captures[i].body)
    {
      WordsSpec(captures[i].body);
    }
    forall n | n in Numbers(r) ensures n in CaptureNumbers(captures) {
      var i :| 0 <= i < |r| && r[i].num == n;
      assert captures[i] in captures;
    }
    forall n | n in CaptureNumbers(captures) ensures n in Numbers(r) {
      var i :| 0 <= i < |captures| && captures[i].num == n;
      assert r[i] in r;
    }
  }

  // ---------------------------------------------------------------------------
  // The fallback pass, lines 105-110

  /** The fallback matches in order: each one is appended, with its body's
      words, unless an entry collected so far (including one appended by an
      earlier fallback match) already has its number. */
  function WithScenarios(entries: seq<Entry>, scenarios: seq<Capture>): (r: seq<Entry>)
    ensures |entries| <= |r| && r[..|entries|] == entries
    ensures forall k :: |entries| <= k < |r| ==> r[k].num !in Numbers(r[..k])
    ensures forall k :: |entries| <= k < |r| ==> r[k] in FromCaptures(scenarios)
    ensures Numbers(r) == Numbers(entries) + CaptureNumbers(scenarios)
    decreases |scenarios|
  {
    if scenarios == [] then entries
    else
      var before := WithScenarios(entries, scenarios[..|scenarios| - 1]);
      var e := CaptureEntry(scenarios[|scenarios| - 1]);
      var r := if e.num in Numbers(before) then before else before + [e];
      FallbackStep(entries, scenarios, before, e, r);
      r
  }

  /** The step of `WithScenarios` for the last match, on its own. */
  lemma FallbackStep(entries: seq<Entry>, scenarios: seq<Capture>, before: seq<Entry>, e: Entry, r: seq<Entry>)
    requires scenarios != []
    requires e == FromCaptures(scenarios)[|scenarios| - 1]
    requires |entries| <= |before| && before[..|entries|] == entries
    requires forall k :: |entries| <= k < |before| ==> before[k].num !in Numbers(before[..k])
    requires forall k :: |entries| <= k < |before| ==> before[k] in FromCaptures(scenarios[..|scenarios| - 1])
    requires Numbers(before) == Numbers(entries) + CaptureNumbers(scenarios[..|scenarios| - 1])
    requires r == if e.num in Numbers(before) then before else before + [e]
    ensures |entries| <= |r| && r[..|entries|] == entries
    ensures forall k :: |entries| <= k < |r| ==> r[k].num !in Numbers(r[..k])
    ensures forall k :: |entries| <= k < |r| ==> r[k] in FromCaptures(scenarios)
    ensures Numbers(r) == Numbers(entries) + CaptureNumbers(scenarios)
  {
    CapturesSnoc(scenarios);
    if e.num !in Numbers(before) {
      NumbersSnoc(before, e);
      AppendFresh(before, e, |entries|);
    }
  }

  /** The last match adds its number and its entry. */
  lemma CapturesSnoc(scenarios: seq<Capture>)
    requires scenarios != []
    ensures var init, last := scenarios[..|scenarios| - 1], scenarios[|scenarios| - 1];
            && CaptureNumbers(scenarios) == CaptureNumbers(init) + {last.num}
            && forall x :: x in FromCaptures(init) ==> x in FromCaptures(scenarios)
  {
    var init := scenarios[..|scenarios| - 1];
    assert scenarios == init + [scenarios[|scenarios| - 1]];
    assert forall i :: 0 <= i < |init| ==> FromCaptures(init)[i] == FromCaptures(scenarios)[i];
  }

  /** Appending an entry with a fresh number keeps every appended number fresh. */
  lemma AppendFresh(before: seq<Entry>, e: Entry, base: nat)
    requires base <= |before|
    requires forall k :: base <= k < |before| ==> before[k].num !in Numbers(before[..k])
    requires e.num !in Numbers(before)
    ensures (before + [e])[..base] == before[..base]
    ensures forall k :: base <= k < |before| + 1 ==> (before + [e])[k].num !in Numbers((before + [e])[..k])
  {
    var r := before + [e];
    assert r[..|before|] == before;
    forall k | base <= k < |before| ensures r[k].num !in Numbers(r[..k]) {
      assert r[..k] == before[..k];
    }
  }

  /** The entries of `s` whose number is not in `seen`, in their order in `s`. */
  function Unseen(s: seq<Entry>, seen: set<nat>): (r: seq<Entry>)
    ensures forall x :: x in r <==> x in s && x.num !in seen
    decreases |s|
  {
    if s == [] then []
    else
      var init, e := s[..|s| - 1], s[|s| - 1];
      assert s == init + [e];
      Unseen(init, seen) + (if e.num in seen then [] else [e])
  }

  lemma FromCapturesInit(captures: seq<Capture>)
    requires captures != []
    ensures FromCaptures(captures)[..|captures| - 1] == FromCaptures(captures[..|captures| - 1])
    ensures FromCaptures(captures)[|captures| - 1] == CaptureEntry(captures[|captures| - 1])
  {
  }

  /** For every number, `Unseen` keeps all its entries, in order, or none of
      them: it is a filter on the number. */
  lemma {:induction false} UnseenWithNumber(s: seq<Entry>, seen: set<nat>, n: nat)
    ensures WithNumber(Unseen(s, seen), n) == if n in seen then [] else WithNumber(s, n)
    decreases |s|
  {
    if s != [] {
      var init, e := s[..|s| - 1], s[|s| - 1];
      var u := Unseen(init, seen);
      assert WithNumber(s, n) == WithNumber(init, n) + (if e.num == n then [e] else []);
      UnseenWithNumber(init, seen, n);
      if e.num in seen {
        assert Unseen(s, seen) == u + [];
        assert u + [] == u;
      } else {
        assert Unseen(s, seen) == u + [e];
        WithNumberSnoc(u, e, n);
      }
    }
  }

  /** Filtering by number distributes over concatenation. */
  lemma {:induction false} UnseenConcat(a: seq<Entry>, b: seq<Entry>, seen: set<nat>)
    ensures Unseen(a + b, seen) == Unseen(a, seen) + Unseen(b, seen)
    decreases |b|
  {
    if b == [] {
      assert a + b == a;
    } else {
      var init, e := b[..|b| - 1], b[|b| - 1];
      assert b == init + [e];
      assert a + b == (a + init) + [e];
      assert (a + b)[..|a + b| - 1] == a + init;
      UnseenConcat(a, init, seen);
      Concat3(Unseen(a, seen), Unseen(init, seen), if e.num in seen then [] else [e]);
    }
  }

  /** Which fallback entries are appended, and in what order: of the matches
      whose number was not collected before the pass, the first one of every
      number, in match order. */
  lemma {:induction false} WithScenariosFirst(entries: seq<Entry>, scenarios: seq<Capture>)
    ensures WithScenarios(entries, scenarios)
            == entries + FirstOccurrences(Unseen(FromCaptures(scenarios), Numbers(entries)))
    decreases |scenarios|
  {
    if scenarios != [] {
      var init := scenarios[..|scenarios| - 1];
      var e := CaptureEntry(scenarios[|scenarios| - 1]);
      var seen := Numbers(entries);
      var u := Unseen(FromCaptures(init), seen);
      var f := FromCaptures(scenarios);
      var before := WithScenarios(entries, init);
      WithScenariosFirst(entries, init);
      assert before == entries + FirstOccurrences(u);
      assert WithScenarios(entries, scenarios) == if e.num in Numbers(before) then before else before + [e];
      FromCapturesInit(scenarios);
      NumbersConcat(entries, FirstOccurrences(u));
      assert Numbers(before) == seen + Numbers(u);
      if e.num in seen {
        assert Unseen(f, seen) == u;
      } else {
        var v := u + [e];
        assert Unseen(f, seen) == v;
        FirstOccurrencesSnoc(u, e);
        if e.num !in Numbers(u) {
          Concat3(entries, FirstOccurrences(u), [e]);
        }
      }
    }
  }

  /** The loop of lines 105-110. */
  method AppendScenarios(entries: seq<Entry>, scenarios: seq<Capture>) returns (r: seq<Entry>)
    ensures r == WithScenarios(entries, scenarios)
  {
    r := entries;
    for k := 0 to |scenarios|
      invariant r == WithScenarios(entries, scenarios[..k])
    {
      assert scenarios[..k + 1][..k] == scenarios[..k];
      var m := scenarios[k];
      if m.num !in Numbers(r) {
        r := r + [CaptureEntry(m)];
      }
    }
    assert scenarios[..|scenarios|] == scenarios;
  }

  // ---------------------------------------------------------------------------
  // The per-file loop

  /** What the regular expressions of lines 77-132 produce for one file: the
      monologue matches of both patterns (pattern 1's first), the fallback
      `SCENARIO` matches, and the text left for the line collector. */
  datatype FileScan = FileScan(monologues: seq<Capture>, scenarios: seq<Capture>, cleaned: string)

  /** A file listed by the glob that no longer exists is skipped (lines 60-63). */
  datatype InputFile = Missing | Present(scan: FileScan)

  /** One iteration of the file loop: what it appends to `all_entries`. */
  function AfterFile(all: seq<Entry>, file: InputFile): seq<Entry> {
    match file
    case Missing => all
    case Present(scan) =>
      WithScenarios(all + FromCaptures(scan.monologues), scan.scenarios) + Collected(SplitLines(scan.cleaned))
  }

  /** `all_entries` after the file loop. */
  function Gathered(files: seq<InputFile>): seq<Entry>
    decreases |files|
  {
    if files == [] then [] else AfterFile(Gathered(files[..|files| - 1]), files[|files| - 1])
  }

  // ---------------------------------------------------------------------------
  // Output, lines 193-201

  /** `clean` applied to every text, keeping those with content left. The
      filter does not depend on what the cleaning does, so it is stated for
      any cleaning function. */
  function CleanedWith(unique: seq<Entry>, clean: string -> string): seq<Entry>
    decreases |unique|
  {
    if unique == [] then []
    else
      var init := CleanedWith(unique[..|unique| - 1], clean);
      var e := unique[|unique| - 1];
      var cleaned := clean(e.text);
      if cleaned != [] then init + [Entry(e.num, cleaned)] else init
  }

  /** `clean_text` applied to every text, keeping those with content left. */
  function CleanedEntries(unique: seq<Entry>): seq<Entry> {
    CleanedWith(unique, CleanText)
  }

  /** `f"{num}  {cleaned}"` */
  function FormatLine(e: Entry): string {
    ShowNat(e.num) + "  " + e.text
  }

  /** Every entry formatted, in order. */
  function FormatAll(entries: seq<Entry>): (lines: seq<string>)
    ensures |lines| == |entries|
    ensures forall i :: 0 <= i < |lines| ==> lines[i] == FormatLine(entries[i])
  {
    seq(|entries|, i requires 0 <= i < |entries| => FormatLine(entries[i]))
  }

  /** Formatting distributes over concatenation. */
  lemma FormatAppend(a: seq<Entry>, b: seq<Entry>)
    ensures FormatAll(a + b) == FormatAll(a) + FormatAll(b)
  {
    var l, r := FormatAll(a + b), FormatAll(a) + FormatAll(b);
    assert |l| == |r|;
    forall i | 0 <= i < |l| ensures l[i] == r[i] {
      if i < |a| {
        assert (a + b)[i] == a[i];
      } else {
        assert (a + b)[i] == b[i - |a|];
      }
    }
  }

  /** The lines written: the cleaned entries, formatted. */
  function OutputLines(unique: seq<Entry>): (lines: seq<string>)
    ensures |lines| == |CleanedEntries(unique)|
    ensures forall i :: 0 <= i < |lines| ==> lines[i] == FormatLine(CleanedEntries(unique)[i])
  {
    FormatAll(CleanedEntries(unique))
  }

  /** Reading an output line back: the leading digit run, two spaces, and the
      text. */
  function ParseOutputLine(line: string): (r: Option<Entry>)
    ensures r.Some? ==> |line| >= 3
  {
    var d := Span(line, Digit);
    if d == 0 || !OccursAt(line, "  ", d) then None
    else Some(Entry(DigitsValue(line[..d]), line[d + 2..]))
  }

  /** A digit run, two spaces and a text read back as the run's value and the
      text. */
  lemma ParseDigitsLine(digits: string, text: string)
    requires digits != [] && AllDigits(digits)
    ensures ParseOutputLine(digits + "  " + text) == Some(Entry(DigitsValue(digits), text))
  {
    var line := digits + "  " + text;
    assert line == digits + ("  " + text);
    SpanIs(line, Digit, |digits|);
    assert line[..|digits|] == digits;
    assert line[|digits|..|digits| + 2] == "  ";
    assert line[|digits| + 2..] == text;
  }

  /** Every formatted line reads back as the entry it was made from. */
  lemma FormatParse(e: Entry)
    ensures ParseOutputLine(FormatLine(e)) == Some(e)
  {
    ParseDigitsLine(ShowNat(e.num), e.text);
  }

  /** One more entry through the cleaning filter. */
  lemma CleanedSnoc(unique: seq<Entry>, k: nat, clean: string -> string)
    requires k < |unique|
    ensures CleanedWith(unique[..k + 1], clean)
         == CleanedWith(unique[..k], clean)
            + (if clean(unique[k].text) != [] then [Entry(unique[k].num, clean(unique[k].text))] else [])
  {
    assert unique[..k + 1][..k] == unique[..k];
  }

  /** One more entry through the cleaning filter, formatted. */
  lemma OutputLinesSnoc(unique: seq<Entry>, k: nat, clean: string -> string)
    requires k < |unique|
    ensures FormatAll(CleanedWith(unique[..k + 1], clean))
         == FormatAll(CleanedWith(unique[..k], clean))
            + (if clean(unique[k].text) != [] then [FormatLine(Entry(unique[k].num, clean(unique[k].text)))] else [])
  {
    CleanedSnoc(unique, k, clean);
    var cleaned := clean(unique[k].text);
    var tail := if cleaned != [] then [Entry(unique[k].num, cleaned)] else [];
    FormatAppend(CleanedWith(unique[..k], clean), tail);
  }

  /** The loop of lines 193-197. */
  method FormatOutput(unique: seq<Entry>) returns (outputLines: seq<string>)
    ensures outputLines == OutputLines(unique)
  {
    outputLines := [];
    for k := 0 to |unique|
      invariant outputLines == FormatAll(CleanedWith(unique[..k], CleanText))
    {
      OutputLinesSnoc(unique, k, CleanText);
      var e := unique[k];
      var cleaned := CleanText(e.text);
      if cleaned != [] {
        outputLines := outputLines + [FormatLine(Entry(e.num, cleaned))];
      }
    }
    assert unique[..|unique|] == unique;
  }

  /** Every cleaned entry is the cleaning, not empty, of an entry given. */
  lemma {:induction false} CleanedFrom(unique: seq<Entry>, clean: string -> string, x: Entry)
    requires x in CleanedWith(unique, clean)
    ensures exists y :: y in unique && clean(y.text) != [] && x == Entry(y.num, clean(y.text))
    decreases |unique|
  {
    var init, e := unique[..|unique| - 1], unique[|unique| - 1];
    if x in CleanedWith(init, clean) {
      CleanedFrom(init, clean, x);
      var y :| y in init && clean(y.text) != [] && x == Entry(y.num, clean(y.text));
      InPrefix(unique, |unique| - 1, y);
    } else {
      assert x == Entry(e.num, clean(e.text));
    }
  }

  /** An element of a prefix is an element of the whole sequence. */
  lemma InPrefix(s: seq<Entry>, k: nat, y: Entry)
    requires k <= |s| && y in s[..k]
    ensures y in s
  {
    var j :| 0 <= j < k && s[..k][j] == y;
    assert s[j] == y;
  }

  /** Every text written is non-empty and tidy. */
  lemma CleanedTidy(unique: seq<Entry>, x: Entry)
    requires x in CleanedEntries(unique)
    ensures x.text != [] && Tidy(x.text)
  {
    CleanedFrom(unique, CleanText, x);
    var y :| y in unique && CleanText(y.text) != [] && x == Entry(y.num, CleanText(y.text));
    CleanTextTidy(y.text);
  }

  /** Every entry given whose text cleans to something is kept, cleaned. */
  lemma {:induction false} CleanedKeeps(unique: seq<Entry>, clean: string -> string)
    ensures forall y :: y in unique && clean(y.text) != [] ==>
              Entry(y.num, clean(y.text)) in CleanedWith(unique, clean)
    decreases |unique|
  {
    if unique != [] {
      var init, e := unique[..|unique| - 1], unique[|unique| - 1];
      assert unique == init + [e];
      CleanedKeeps(init, clean);
    }
  }

  /** Cleaning keeps the order of the numbers. */
  lemma {:induction false} CleanedIncreasing(unique: seq<Entry>, clean: string -> string)
    requires StrictlyIncreasing(unique)
    ensures StrictlyIncreasing(CleanedWith(unique, clean))
    decreases |unique|
  {
    if unique != [] {
      var init, e := unique[..|unique| - 1], unique[|unique| - 1];
      assert unique == init + [e];
      CleanedIncreasing(init, clean);
      var c0 := CleanedWith(init, clean);
      forall x | x in c0 ensures x.num < e.num {
        CleanedFrom(init, clean, x);
        var y :| y in init && clean(y.text) != [] && x == Entry(y.num, clean(y.text));
        var k :| 0 <= k < |init| && init[k] == y;
        assert unique[k] == y;
      }
      var cleaned := clean(e.text);
      if cleaned != [] {
        SnocIncreasing(c0, Entry(e.num, cleaned));
      }
    }
  }

  /** A line made of a number and a cleaned text has no newline. */
  lemma FormatLineNoNewline(e: Entry)
    requires SingleSpaced(e.text)
    ensures NoNewline(FormatLine(e))
  {
    var digits := ShowNat(e.num);
    assert FormatLine(e) == digits + "  " + e.text;
    forall i | 0 <= i < |FormatLine(e)| ensures FormatLine(e)[i] != '\n' {
      if i >= |digits| + 2 {
        assert FormatLine(e)[i] == e.text[i - |digits| - 2];
      }
    }
  }

  /** After sorting and deduplicating, every kept entry is the first one
      gathered with its number, and the first one of every number is kept. */
  lemma KeptAreFirst(all: seq<Entry>)
    ensures var unique := FirstOccurrences(SortByNumber(all));
            && StrictlyIncreasing(unique)
            && (forall y :: y in unique ==> WithNumber(all, y.num) != [] && y == WithNumber(all, y.num)[0])
            && (forall n :: WithNumber(all, n) != [] ==> WithNumber(all, n)[0] in unique)
  {
    var unique := FirstOccurrences(SortByNumber(all));
    SortDeduplicate(all);
    forall y | y in unique ensures WithNumber(all, y.num) != [] && y == WithNumber(all, y.num)[0] {
      WithNumberHas(unique, y);
      WithNumberPresent(all, y.num);
    }
    forall n | WithNumber(all, n) != [] ensures WithNumber(all, n)[0] in unique {
      WithNumberPresent(all, n);
      WithNumberMembers(unique, n);
      assert WithNumber(all, n)[0] in WithNumber(unique, n);
    }
  }

  /** What one output line says about the gathered entries: it reads back as
      a number and a non-empty, tidy text, and that text is the cleaning of
      the first entry gathered with that number. */
  ghost predicate ReportsFirst(all: seq<Entry>, line: string) {
    match ParseOutputLine(line)
    case None => false
    case Some(e) =>
      && e.text != [] && Tidy(e.text)
      && WithNumber(all, e.num) != []
      && e.text == CleanText(WithNumber(all, e.num)[0].text)
  }

  function LineNumber(line: string): nat {
    match ParseOutputLine(line)
    case None => 0
    case Some(e) => e.num
  }

  /** Every output line reads back as the cleaned first entry of its number. */
  lemma OutputReports(all: seq<Entry>, i: nat)
    requires i < |OutputLines(FirstOccurrences(SortByNumber(all)))|
    ensures var unique := FirstOccurrences(SortByNumber(all));
            var line := OutputLines(unique)[i];
            NoNewline(line) && ReportsFirst(all, line) && LineNumber(line) == CleanedEntries(unique)[i].num
  {
    var unique := FirstOccurrences(SortByNumber(all));
    var c := CleanedEntries(unique);
    var x := c[i];
    assert x in c;
    KeptAreFirst(all);
    CleanedFrom(unique, CleanText, x);
    CleanedTidy(unique, x);
    FormatParse(x);
    FormatLineNoNewline(x);
  }

  /** Every number whose first entry cleans to something has an output line. */
  lemma OutputComplete(all: seq<Entry>, n: nat)
    requires WithNumber(all, n) != [] && CleanText(WithNumber(all, n)[0].text) != []
    ensures exists i :: 0 <= i < |OutputLines(FirstOccurrences(SortByNumber(all)))| &&
                        LineNumber(OutputLines(FirstOccurrences(SortByNumber(all)))[i]) == n
  {
    var unique := FirstOccurrences(SortByNumber(all));
    assert OutputLines(unique) == FormatAll(CleanedWith(unique, CleanText));
    CompleteWith(all, n, CleanText);
  }

  /** `OutputComplete` for any cleaning function. */
  lemma CompleteWith(all: seq<Entry>, n: nat, clean: string -> string)
    requires WithNumber(all, n) != [] && clean(WithNumber(all, n)[0].text) != []
    ensures exists i :: 0 <= i < |FormatAll(CleanedWith(FirstOccurrences(SortByNumber(all)), clean))| &&
                        LineNumber(FormatAll(CleanedWith(FirstOccurrences(SortByNumber(all)), clean))[i]) == n
  {
    var unique := FirstOccurrences(SortByNumber(all));
    var c := CleanedWith(unique, clean);
    var lines := FormatAll(c);
    KeptAreFirst(all);
    CleanedKeeps(unique, clean);
    var y := WithNumber(all, n)[0];
    assert Entry(y.num, clean(y.text)) in c;
    var k :| 0 <= k < |c| && c[k] == Entry(y.num, clean(y.text));
    WithNumberMembers(all, n);
    assert y in WithNumber(all, n);
    FormatParse(c[k]);
    assert LineNumber(lines[k]) == n;
  }

  /** Lines 184-201 end to end: every output line reports the first entry of
      its number, numbers strictly increase from line to line, every number
      whose first entry cleans to something has its line, and the lines come
      back from the written text by splitting it at newlines. */
  lemma OutputSpec(all: seq<Entry>)
    ensures var lines := OutputLines(FirstOccurrences(SortByNumber(all)));
      && (forall i :: 0 <= i < |lines| ==> NoNewline(lines[i]) && ReportsFirst(all, lines[i]))
      && (forall i, j :: 0 <= i < j < |lines| ==> LineNumber(lines[i]) < LineNumber(lines[j]))
      && (forall n :: WithNumber(all, n) != [] && CleanText(WithNumber(all, n)[0].text) != [] ==>
            exists i :: 0 <= i < |lines| && LineNumber(lines[i]) == n)
      && (lines != [] ==> SplitLines(JoinLines(lines)) == lines)
  {
    var unique := FirstOccurrences(SortByNumber(all));
    var c := CleanedEntries(unique);
    var lines := OutputLines(unique);
    forall i | 0 <= i < |lines|
      ensures NoNewline(lines[i]) && ReportsFirst(all, lines[i]) && LineNumber(lines[i]) == c[i].num
    {
      OutputReports(all, i);
    }
    KeptAreFirst(all);
    CleanedIncreasing(unique, CleanText);
    forall n | WithNumber(all, n) != [] && CleanText(WithNumber(all, n)[0].text) != []
      ensures exists i :: 0 <= i < |lines| && LineNumber(lines[i]) == n
    {
      OutputComplete(all, n);
    }
    if lines != [] {
      SplitJoin(lines);
    }
  }

  /** The text written to the output file. */
  function Output(files: seq<InputFile>): string {
    JoinLines(OutputLines(FirstOccurrences(SortByNumber(Gathered(files)))))
  }

  /** `process_files` without its I/O. */
  method ProcessFiles(files: seq<InputFile>) returns (output: string)
    ensures output == Output(files)
  {
    var all: seq<Entry> := [];
    for f := 0 to |files|
      invariant all == Gathered(files[..f])
    {
      assert files[..f + 1][..f] == files[..f];
      match files[f]
      case Missing =>
      case Present(scan) =>
        all := all + FromCaptures(scan.monologues);
        all := AppendScenarios(all, scan.scenarios);
        var collected := CollectNumbered(scan.cleaned);
        all := all + collected;
    }
    assert files[..|files|] == files;
    var sorted := SortByNumber(all);
    var unique := Deduplicate(sorted);
    var outputLines := FormatOutput(unique);
    output := JoinLines(outputLines);
  }
}
