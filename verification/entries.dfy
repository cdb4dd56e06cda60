/** The `(line_num, text)` pairs `process_files` accumulates in `all_entries`,
    the stable sort by number and the first-occurrence-wins deduplication that
    follow (Austin_cs_tagless/numbering_script.py:184-190). */
module Entries {

  /** One collected line: its number and its (not yet cleaned) text. */
  datatype Entry = Entry(num: nat, text: string)

  /** The numbers present in `s`: `[e[0] for e in s]` as a set. */
  function Numbers(s: seq<Entry>): set<nat> {
    set e | e in s :: e.num
  }

  /** The entries of `s` carrying number `n`, in their order in `s`. */
  function WithNumber(s: seq<Entry>, n: nat): seq<Entry> {
    if s == [] then []
    else WithNumber(s[..|s| - 1], n) + (if s[|s| - 1].num == n then [s[|s| - 1]] else [])
  }

  predicate SortedByNumber(s: seq<Entry>) {
    forall i, j :: 0 <= i < j < |s| ==> s[i].num <= s[j].num
  }

  predicate StrictlyIncreasing(s: seq<Entry>) {
    forall i, j :: 0 <= i < j < |s| ==> s[i].num < s[j].num
  }

  predicate DistinctNumbers(s: seq<Entry>) {
    forall i, j :: 0 <= i < j < |s| ==> s[i].num != s[j].num
  }

  // ---------------------------------------------------------------------------
  // Facts about Numbers and WithNumber

  lemma NumbersSnoc(s: seq<Entry>, e: Entry)
    ensures Numbers(s + [e]) == Numbers(s) + {e.num}
  {
    forall n | n in Numbers(s + [e]) ensures n in Numbers(s) + {e.num} {
      var x :| x in s + [e] && x.num == n;
      if x != e {
        assert x in s;
      }
    }
  }

  lemma NumbersConcat(a: seq<Entry>, b: seq<Entry>)
    ensures Numbers(a + b) == Numbers(a) + Numbers(b)
  {
    forall n | n in Numbers(a + b) ensures n in Numbers(a) + Numbers(b) {
      var x :| x in a + b && x.num == n;
    }
    forall n | n in Numbers(a) + Numbers(b) ensures n in Numbers(a + b) {
      var x :| (x in a || x in b) && x.num == n;
      assert x in a + b;
    }
  }

  lemma WithNumberSnoc(s: seq<Entry>, e: Entry, n: nat)
    ensures WithNumber(s + [e], n) == WithNumber(s, n) + (if e.num == n then [e] else [])
  {
    assert (s + [e])[..|s|] == s;
  }

  /** Filtering distributes over concatenation. */
  lemma {:induction false} WithNumberConcat(a: seq<Entry>, b: seq<Entry>, n: nat)
    ensures WithNumber(a + b, n) == WithNumber(a, n) + WithNumber(b, n)
    decreases |b|
  {
    if b == [] {
      assert a + b == a;
    } else {
      var init, e := b[..|b| - 1], b[|b| - 1];
      assert b == init + [e];
      assert a + b == (a + init) + [e];
      WithNumberConcat(a, init, n);
      WithNumberSnoc(a + init, e, n);
      WithNumberSnoc(init, e, n);
    }
  }

  lemma WithNumberCons(x: Entry, t: seq<Entry>, n: nat)
    ensures WithNumber([x] + t, n) == (if x.num == n then [x] else []) + WithNumber(t, n)
  {
    WithNumberConcat([x], t, n);
    WithNumberSnoc([], x, n);
    assert [] + [x] == [x];
  }

  /** A number is present exactly when some entry carries it. */
  lemma {:induction false} WithNumberPresent(s: seq<Entry>, n: nat)
    ensures WithNumber(s, n) != [] <==> n in Numbers(s)
    decreases |s|
  {
    if s != [] {
      var init, e := s[..|s| - 1], s[|s| - 1];
      assert s == init + [e];
      WithNumberPresent(init, n);
      NumbersSnoc(init, e);
    }
  }

  /** Every entry returned by WithNumber is an entry of `s` with number `n`. */
  lemma {:induction false} WithNumberMembers(s: seq<Entry>, n: nat)
    ensures forall x :: x in WithNumber(s, n) ==> x in s && x.num == n
    decreases |s|
  {
    if s != [] {
      var init, e := s[..|s| - 1], s[|s| - 1];
      assert s == init + [e];
      WithNumberMembers(init, n);
    }
  }

  /** Every entry is among those carrying its own number. */
  lemma {:induction false} WithNumberHas(s: seq<Entry>, x: Entry)
    requires x in s
    ensures x in WithNumber(s, x.num)
    decreases |s|
  {
    var init, e := s[..|s| - 1], s[|s| - 1];
    assert s == init + [e];
    if x != e {
      WithNumberHas(init, x);
    }
  }

  /** An entry whose number exceeds every number so far can be appended. */
  lemma SnocIncreasing(s: seq<Entry>, x: Entry)
    requires StrictlyIncreasing(s)
    requires forall y :: y in s ==> y.num < x.num
    ensures StrictlyIncreasing(s + [x])
  {
    var r := s + [x];
    forall i, j | 0 <= i < j < |r| ensures r[i].num < r[j].num {
      assert r[i] == s[i];
    }
  }

  // ---------------------------------------------------------------------------
  // all_entries.sort(key=lambda x: x[0])

  lemma SortedHead(t: seq<Entry>)
    requires SortedByNumber(t) && t != []
    ensures forall y :: y in t ==> t[0].num <= y.num
  {
    forall y | y in t ensures t[0].num <= y.num {
      var k :| 0 <= k < |t| && t[k] == y;
    }
  }

  lemma SortedCons(a: Entry, t: seq<Entry>)
    requires SortedByNumber(t)
    requires forall y :: y in t ==> a.num <= y.num
    ensures SortedByNumber([a] + t)
  {
    var r := [a] + t;
    forall i, j | 0 <= i < j < |r| ensures r[i].num <= r[j].num {
      if i == 0 {
        assert r[j] == t[j - 1];
        assert r[j] in t;
      } else {
        assert r[i] == t[i - 1] && r[j] == t[j - 1];
      }
    }
  }

  /** Puts `x` in front of the first entry whose number is not smaller, so it
      stays ahead of the entries with its own number that follow it in the
      input. */
  function Insert(x: Entry, t: seq<Entry>): (r: seq<Entry>)
    requires SortedByNumber(t)
    ensures SortedByNumber(r)
    ensures multiset(r) == multiset([x] + t)
    ensures forall y :: y in r ==> y == x || y in t
  {
    if t == [] then [x]
    else if x.num <= t[0].num then
      SortedHead(t);
      SortedCons(x, t);
      [x] + t
    else
      assert t == [t[0]] + t[1..];
      assert SortedByNumber(t[1..]);
      var rest := Insert(x, t[1..]);
      SortedHead(t);
      SortedCons(t[0], rest);
      [t[0]] + rest
  }

  /** Inserting keeps every number's entries in order, `x` ahead of those that
      follow it. */
  lemma {:induction false} InsertWithNumber(x: Entry, t: seq<Entry>, n: nat)
    requires SortedByNumber(t)
    ensures WithNumber(Insert(x, t), n) == WithNumber([x] + t, n)
    decreases |t|
  {
    if t == [] {
      assert [x] + t == [x];
    } else if x.num > t[0].num {
      var t0, tail := t[0], t[1..];
      assert t == [t0] + tail;
      var rest := Insert(x, tail);
      assert Insert(x, t) == [t0] + rest;
      InsertWithNumber(x, tail, n);
      WithNumberCons(t0, rest, n);
      WithNumberCons(x, tail, n);
      WithNumberCons(x, t, n);
      WithNumberCons(t0, tail, n);
      SwapDistinct(t0, x, WithNumber(tail, n), n);
    }
  }

  /** Two entries with different numbers cannot both be kept, so their order
      does not matter to `WithNumber`. */
  lemma SwapDistinct(a: Entry, b: Entry, w: seq<Entry>, n: nat)
    requires a.num != b.num
    ensures (if a.num == n then [a] else []) + ((if b.num == n then [b] else []) + w)
         == (if b.num == n then [b] else []) + ((if a.num == n then [a] else []) + w)
  {
    if a.num == n {
      assert [] + w == w;
    } else if b.num == n {
      assert [] + w == w;
    } else {
      assert [] + ([] + w) == w;
    }
  }

  /** Python's stable sort by number: ordered by number, with the same
      entries. */
  function SortByNumber(s: seq<Entry>): (r: seq<Entry>)
    ensures SortedByNumber(r)
    ensures multiset(r) == multiset(s)
  {
    if s == [] then []
    else
      assert s == [s[0]] + s[1..];
      Insert(s[0], SortByNumber(s[1..]))
  }

  /** The sort is stable: each number's entries keep their input order. */
  lemma {:induction false} SortByNumberStable(s: seq<Entry>, n: nat)
    ensures WithNumber(SortByNumber(s), n) == WithNumber(s, n)
    decreases |s|
  {
    if s != [] {
      assert s == [s[0]] + s[1..];
      SortByNumberStable(s[1..], n);
      InsertWithNumber(s[0], SortByNumber(s[1..]), n);
      WithNumberCons(s[0], SortByNumber(s[1..]), n);
      WithNumberCons(s[0], s[1..], n);
    }
  }

  lemma SortByNumberNumbers(s: seq<Entry>)
    ensures Numbers(SortByNumber(s)) == Numbers(s)
  {
    var r := SortByNumber(s);
    assert forall e :: e in r <==> e in multiset(r);
    assert forall e :: e in s <==> e in multiset(s);
  }

  // ---------------------------------------------------------------------------
  // The `seen` / `unique_entries` loop

  /** Keeps an entry only if no earlier entry has its number. */
  function FirstOccurrences(s: seq<Entry>): (r: seq<Entry>)
    ensures forall x :: x in r ==> x in s
    ensures Numbers(r) == Numbers(s)
  {
    if s == [] then []
    else
      var init, e := s[..|s| - 1], s[|s| - 1];
      assert s == init + [e];
      NumbersSnoc(init, e);
      if e.num in Numbers(init) then FirstOccurrences(init)
      else
        NumbersSnoc(FirstOccurrences(init), e);
        FirstOccurrences(init) + [e]
  }

  /** One more entry is kept exactly when its number is new. */
  lemma FirstOccurrencesSnoc(s: seq<Entry>, e: Entry)
    ensures FirstOccurrences(s + [e])
            == if e.num in Numbers(s) then FirstOccurrences(s) else FirstOccurrences(s) + [e]
  {
    assert (s + [e])[..|s|] == s;
  }

  /** The loop of lines 185-190: a `seen` set and an appended list. */
  method Deduplicate(entries: seq<Entry>) returns (unique: seq<Entry>)
    ensures unique == FirstOccurrences(entries)
  {
    var seen: set<nat> := {};
    unique := [];
    for i := 0 to |entries|
      invariant unique == FirstOccurrences(entries[..i])
      invariant seen == Numbers(entries[..i])
    {
      var e := entries[i];
      assert entries[..i + 1] == entries[..i] + [e];
      NumbersSnoc(entries[..i], e);
      if e.num !in seen {
        seen := seen + {e.num};
        unique := unique + [e];
      }
    }
    assert entries[..|entries|] == entries;
  }

  /** Of every number present, exactly one entry is kept: the first one. */
  lemma {:induction false} FirstOccurrencesWithNumber(s: seq<Entry>, n: nat)
    ensures n in Numbers(s) ==>
              WithNumber(s, n) != [] && WithNumber(FirstOccurrences(s), n) == [WithNumber(s, n)[0]]
    ensures n !in Numbers(s) ==> WithNumber(FirstOccurrences(s), n) == []
    decreases |s|
  {
    WithNumberPresent(s, n);
    if s != [] {
      var init, e := s[..|s| - 1], s[|s| - 1];
      assert s == init + [e];
      FirstOccurrencesWithNumber(init, n);
      WithNumberPresent(init, n);
      NumbersSnoc(init, e);
      if e.num !in Numbers(init) {
        WithNumberSnoc(FirstOccurrences(init), e, n);
      }
    }
  }

  /** No number is kept twice. */
  lemma {:induction false} FirstOccurrencesDistinct(s: seq<Entry>)
    ensures DistinctNumbers(FirstOccurrences(s))
    decreases |s|
  {
    if s != [] {
      var init, e := s[..|s| - 1], s[|s| - 1];
      assert s == init + [e];
      FirstOccurrencesDistinct(init);
      var f := FirstOccurrences(init);
      if e.num !in Numbers(init) {
        forall i | 0 <= i < |f| ensures f[i].num != e.num {
          assert f[i] in f;
        }
      }
    }
  }

  lemma SortedUpToLast(s: seq<Entry>)
    requires SortedByNumber(s) && s != []
    ensures forall x :: x in s ==> x.num <= s[|s| - 1].num
  {
    forall x | x in s ensures x.num <= s[|s| - 1].num {
      var k :| 0 <= k < |s| && s[k] == x;
    }
  }

  /** Deduplicating a sorted list leaves the numbers strictly increasing. */
  lemma {:induction false} FirstOccurrencesIncreasing(s: seq<Entry>)
    requires SortedByNumber(s)
    ensures StrictlyIncreasing(FirstOccurrences(s))
    decreases |s|
  {
    if s != [] {
      var init, e := s[..|s| - 1], s[|s| - 1];
      assert s == init + [e];
      assert SortedByNumber(init);
      FirstOccurrencesIncreasing(init);
      var f := FirstOccurrences(init);
      if e.num !in Numbers(init) {
        SortedUpToLast(s);
        forall i | 0 <= i < |f| ensures f[i].num < e.num {
          assert f[i] in f;
          assert f[i] in s;
        }
      }
    }
  }

  /** Sorting then deduplicating, as lines 184-190 do: one entry per number in
      strictly increasing order, and the entry kept for each number is the
      first one appended with that number. */
  lemma SortDeduplicate(all: seq<Entry>)
    ensures StrictlyIncreasing(FirstOccurrences(SortByNumber(all)))
    ensures Numbers(FirstOccurrences(SortByNumber(all))) == Numbers(all)
    ensures forall n :: n in Numbers(all) ==>
              WithNumber(all, n) != [] &&
              WithNumber(FirstOccurrences(SortByNumber(all)), n) == [WithNumber(all, n)[0]]
  {
    var sorted := SortByNumber(all);
    FirstOccurrencesIncreasing(sorted);
    SortByNumberNumbers(all);
    forall n | n in Numbers(all)
      ensures WithNumber(all, n) != [] &&
              WithNumber(FirstOccurrences(sorted), n) == [WithNumber(all, n)[0]]
    {
      FirstOccurrencesWithNumber(sorted, n);
      SortByNumberStable(all, n);
    }
  }
}
