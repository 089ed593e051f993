/**
 * The expectation query the handler runs on every request:
 * `find({ activate: true })` followed by
 * `compoundsort([["priority", true], ["createTime", false]])`,
 * i.e. keep the active expectations, then order them by priority descending and
 * creation time ascending. The collection's natural order is the sequence order;
 * the sort keeps that order among expectations equal on both keys.
 */
module ExpectationQuery {
  import opened Expectations

  /** `a` may be scanned before `b`: higher priority, or equal priority and created no later. */
  predicate RanksBefore(a: Expectation, b: Expectation) {
    a.priority > b.priority || (a.priority == b.priority && a.createTime <= b.createTime)
  }

  /** Every earlier element ranks before every later one. */
  predicate Sorted(s: seq<Expectation>) {
    forall i, j :: 0 <= i < j < |s| ==> RanksBefore(s[i], s[j])
  }

  lemma RanksBeforeTotalPreorder(a: Expectation, b: Expectation, d: Expectation)
    ensures RanksBefore(a, a)
    ensures RanksBefore(a, b) || RanksBefore(b, a)
    ensures RanksBefore(a, b) && RanksBefore(b, d) ==> RanksBefore(a, d)
  {
  }

  /** `find({ activate: true })`: the active expectations, in collection order. */
  function FilterActive(s: seq<Expectation>): seq<Expectation>
    decreases |s|
  {
    if |s| == 0 then []
    else (if s[0].activate then [s[0]] else []) + FilterActive(s[1..])
  }

  /** Inserts `x` before the first element it ranks before (ties: `x` goes first). */
  function Insert(x: Expectation, t: seq<Expectation>): seq<Expectation>
    decreases |t|
  {
    if |t| == 0 || RanksBefore(x, t[0]) then [x] + t
    else [t[0]] + Insert(x, t[1..])
  }

  /** `compoundsort`, as a stable insertion sort on the rank order. */
  function SortByRank(s: seq<Expectation>): seq<Expectation>
    decreases |s|
  {
    if |s| == 0 then [] else Insert(s[0], SortByRank(s[1..]))
  }

  /** The candidate list the handler scans. */
  function ActiveSorted(store: seq<Expectation>): seq<Expectation> {
    SortByRank(FilterActive(store))
  }

  /** The filter keeps exactly the active expectations, with their multiplicity. */
  lemma {:induction false} FilterActiveKeepsActive(s: seq<Expectation>)
    ensures forall e :: multiset(FilterActive(s))[e] == if e.activate then multiset(s)[e] else 0
    decreases |s|
  {
    if |s| > 0 {
      FilterActiveKeepsActive(s[1..]);
      assert s == [s[0]] + s[1..];
      assert multiset(s) == multiset{s[0]} + multiset(s[1..]);
    }
  }

  /**
   * An inactive expectation, wherever it sits in the store (appended, or switched
   * off in place), does not change what the filter returns.
   */
  lemma {:induction false} FilterActiveIgnoresInactive(s1: seq<Expectation>, e: Expectation, s2: seq<Expectation>)
    requires !e.activate
    ensures FilterActive(s1 + [e] + s2) == FilterActive(s1 + s2)
    decreases |s1|
  {
    if |s1| == 0 {
      assert s1 + [e] + s2 == [e] + s2;
      assert ([e] + s2)[1..] == s2;
      assert s1 + s2 == s2;
    } else {
      assert (s1 + [e] + s2)[0] == s1[0] && (s1 + s2)[0] == s1[0];
      assert (s1 + [e] + s2)[1..] == s1[1..] + [e] + s2;
      assert (s1 + s2)[1..] == s1[1..] + s2;
      FilterActiveIgnoresInactive(s1[1..], e, s2);
    }
  }

  /** Every element of `Insert(x, t)` is `x` or an element of `t`. */
  lemma {:induction false} InsertElements(x: Expectation, t: seq<Expectation>)
    ensures forall y :: y in Insert(x, t) ==> y == x || y in t
    decreases |t|
  {
    if |t| > 0 && !RanksBefore(x, t[0]) {
      InsertElements(x, t[1..]);
    }
  }

  /** A lower bound of `x` and of all of `t` is a lower bound of `Insert(x, t)`. */
  lemma InsertBounded(b: Expectation, x: Expectation, t: seq<Expectation>)
    requires RanksBefore(b, x)
    requires forall j :: 0 <= j < |t| ==> RanksBefore(b, t[j])
    ensures forall k :: 0 <= k < |Insert(x, t)| ==> RanksBefore(b, Insert(x, t)[k])
  {
    InsertElements(x, t);
    forall k | 0 <= k < |Insert(x, t)| ensures RanksBefore(b, Insert(x, t)[k]) {
      var y := Insert(x, t)[k];
      assert y in Insert(x, t);
      if y != x {
        var j :| 0 <= j < |t| && t[j] == y;
      }
    }
  }

  lemma {:induction false} InsertSorted(x: Expectation, t: seq<Expectation>)
    requires Sorted(t)
    ensures Sorted(Insert(x, t))
    ensures multiset(Insert(x, t)) == multiset(t) + multiset{x}
    decreases |t|
  {
    if |t| == 0 || RanksBefore(x, t[0]) {
      forall j | 0 <= j < |t| ensures RanksBefore(x, t[j]) {
        RanksBeforeTotalPreorder(x, t[0], t[j]);
      }
    } else {
      var rest := Insert(x, t[1..]);
      InsertSorted(x, t[1..]);
      assert t == [t[0]] + t[1..];
      RanksBeforeTotalPreorder(t[0], x, x);
      InsertBounded(t[0], x, t[1..]);
      var r := Insert(x, t);
      assert r == [t[0]] + rest;
      forall i, j | 0 <= i < j < |r| ensures RanksBefore(r[i], r[j]) {
        assert r[j] == rest[j - 1];
        if i > 0 {
          assert r[i] == rest[i - 1];
        }
      }
    }
  }

  lemma {:induction false} SortByRankSorts(s: seq<Expectation>)
    ensures Sorted(SortByRank(s))
    ensures multiset(SortByRank(s)) == multiset(s)
    decreases |s|
  {
    if |s| > 0 {
      SortByRankSorts(s[1..]);
      InsertSorted(s[0], SortByRank(s[1..]));
      assert s == [s[0]] + s[1..];
    }
  }

  /**
   * The candidate list is sorted by rank and holds exactly the active
   * expectations of the store, each as often as it occurs there.
   */
  lemma ActiveSortedSpec(store: seq<Expectation>)
    ensures Sorted(ActiveSorted(store))
    ensures forall e :: multiset(ActiveSorted(store))[e] == if e.activate then multiset(store)[e] else 0
    ensures forall e :: e in ActiveSorted(store) <==> e in store && e.activate
  {
    FilterActiveKeepsActive(store);
    SortByRankSorts(FilterActive(store));
    forall e ensures e in ActiveSorted(store) <==> e in store && e.activate {
      assert e in ActiveSorted(store) <==> e in multiset(ActiveSorted(store));
      assert e in store <==> e in multiset(store);
    }
  }
}
