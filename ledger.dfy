/** Operations on a list of transactions that the service, the dashboard and the
    report share: `filter`, `findIndex` by id, the newest-first sort and the
    per-kind totals that the `reduce` calls compute. */
module Ledger {
  import opened Types

  // ---------------------------------------------------------------------------
  // Filtering
  // ---------------------------------------------------------------------------

  /** `s.filter(keep)`: the elements that satisfy `keep`, in their original order. */
  function Filter<T(!new)>(s: seq<T>, keep: T -> bool): (r: seq<T>)
    ensures |r| <= |s|
    ensures forall x :: x in r <==> x in s && keep(x)
  {
    if s == [] then []
    else (if keep(s[0]) then [s[0]] else []) + Filter(s[1..], keep)
  }

  /** `r` can be obtained from `s` by deleting elements: the survivors keep their order. */
  ghost predicate IsSubsequence<T>(r: seq<T>, s: seq<T>)
    decreases |s|
  {
    r == [] ||
    (s != [] && ((r[0] == s[0] && IsSubsequence(r[1..], s[1..])) || IsSubsequence(r, s[1..])))
  }

  lemma {:induction false} FilterIsSubsequence<T(!new)>(s: seq<T>, keep: T -> bool)
    ensures IsSubsequence(Filter(s, keep), s)
  {
    if s != [] {
      FilterIsSubsequence(s[1..], keep);
      var r := Filter(s, keep);
      if keep(s[0]) {
        assert r[0] == s[0] && r[1..] == Filter(s[1..], keep);
      } else {
        assert r == Filter(s[1..], keep);
      }
    }
  }

  /** Filtering a concatenation filters each part: the filter keeps order and looks at
      every element on its own. */
  lemma {:induction false} FilterConcat<T(!new)>(a: seq<T>, b: seq<T>, keep: T -> bool)
    ensures Filter(a + b, keep) == Filter(a, keep) + Filter(b, keep)
  {
    if a == [] {
      assert a + b == b;
    } else {
      assert (a + b)[0] == a[0] && (a + b)[1..] == a[1..] + b;
      FilterConcat(a[1..], b, keep);
    }
  }

  /** A list none of whose elements is dropped passes through the filter unchanged. */
  lemma {:induction false} FilterKeepsAll<T(!new)>(s: seq<T>, keep: T -> bool)
    requires forall x :: x in s ==> keep(x)
    ensures Filter(s, keep) == s
  {
    if s != [] {
      FilterKeepsAll(s[1..], keep);
      assert [s[0]] + s[1..] == s;
    }
  }

  /** Filtering twice with the same test is filtering once. */
  lemma FilterTwice<T(!new)>(s: seq<T>, keep: T -> bool)
    ensures Filter(Filter(s, keep), keep) == Filter(s, keep)
  {
    FilterKeepsAll(Filter(s, keep), keep);
  }

  /** The test `tx.id !== id` of the two delete operations. */
  function OtherThan(id: string): Transaction -> bool
  {
    (tx: Transaction) => tx.id != id
  }

  /** `transactions.filter(tx => tx.id !== id)`: every record except those with this id. */
  function WithoutId(s: seq<Transaction>, id: string): (r: seq<Transaction>)
    ensures forall x :: x in r <==> x in s && x.id != id
    ensures IsSubsequence(r, s)
  {
    FilterIsSubsequence(s, OtherThan(id));
    Filter(s, OtherThan(id))
  }

  /** Deleting an id that is already gone changes nothing, so deleting twice is deleting once. */
  lemma DeleteTwice(s: seq<Transaction>, id: string)
    ensures WithoutId(WithoutId(s, id), id) == WithoutId(s, id)
  {
    FilterTwice(s, OtherThan(id));
  }

  // ---------------------------------------------------------------------------
  // findIndex
  // ---------------------------------------------------------------------------

  /** `s.findIndex(tx => tx.id === id)`, with `None` for the source's -1. */
  function FindIndex(s: seq<Transaction>, id: string): (r: Option<nat>)
    ensures r.Some? ==> r.value < |s| && s[r.value].id == id
    ensures r.Some? ==> forall j :: 0 <= j < r.value ==> s[j].id != id
    ensures r.None? <==> forall j :: 0 <= j < |s| ==> s[j].id != id
  {
    if s == [] then None
    else if s[0].id == id then Some(0)
    else match FindIndex(s[1..], id) {
      case None => None
      case Some(i) => Some(i + 1)
    }
  }

  // ---------------------------------------------------------------------------
  // Newest-first order
  // ---------------------------------------------------------------------------

  /** Sorted by `date`, newest first: what the comparator `b.date.getTime() - a.date.getTime()` asks for. */
  predicate NewestFirst(s: seq<Transaction>)
  {
    forall i, j :: 0 <= i < j < |s| ==> s[i].date.millis >= s[j].date.millis
  }

  /** Puts `x` behind every record of `sorted` that is at least as new as `x` and in
      front of the older ones: an insertion step of a stable sort, since `x` comes
      after the records of `sorted` in the input. */
  function InsertByDate(sorted: seq<Transaction>, x: Transaction): (r: seq<Transaction>)
    ensures |r| == |sorted| + 1
  {
    if sorted == [] || sorted[|sorted| - 1].date.millis >= x.date.millis then sorted + [x]
    else InsertByDate(sorted[..|sorted| - 1], x) + [sorted[|sorted| - 1]]
  }

  /** Inserting adds exactly the one record. */
  lemma {:induction false} InsertByDateContents(sorted: seq<Transaction>, x: Transaction)
    ensures |InsertByDate(sorted, x)| == |sorted| + 1
    ensures multiset(InsertByDate(sorted, x)) == multiset(sorted) + multiset{x}
  {
    if !(sorted == [] || sorted[|sorted| - 1].date.millis >= x.date.millis) {
      InsertByDateContents(sorted[..|sorted| - 1], x);
      assert sorted == sorted[..|sorted| - 1] + [sorted[|sorted| - 1]];
    }
  }

  lemma {:induction false} InsertByDateKeepsOrder(sorted: seq<Transaction>, x: Transaction)
    requires NewestFirst(sorted)
    ensures NewestFirst(InsertByDate(sorted, x))
  {
    if sorted == [] || sorted[|sorted| - 1].date.millis >= x.date.millis {
    } else {
      var init, last := sorted[..|sorted| - 1], sorted[|sorted| - 1];
      InsertByDateKeepsOrder(init, x);
      InsertByDateContents(init, x);
      var front := InsertByDate(init, x);
      forall i | 0 <= i < |front|
        ensures front[i].date.millis >= last.date.millis
      {
        assert front[i] in multiset(init) + multiset{x};
        if front[i] != x {
          assert front[i] in init;
        }
      }
    }
  }

  /** The stable newest-first sort of the source's `sort` calls (JavaScript's sort is
      stable), as an insertion sort that takes the records in input order. */
  function SortNewestFirst(s: seq<Transaction>): (r: seq<Transaction>)
    ensures |r| == |s|
  {
    if s == [] then [] else InsertByDate(SortNewestFirst(s[..|s| - 1]), s[|s| - 1])
  }

  /** The sort returns the same records, as many times each, newest first. */
  lemma SortNewestFirstSpec(s: seq<Transaction>)
    ensures |SortNewestFirst(s)| == |s|
    ensures multiset(SortNewestFirst(s)) == multiset(s)
    ensures NewestFirst(SortNewestFirst(s))
  {
    SortNewestFirstContents(s);
    SortNewestFirstOrder(s);
  }

  lemma {:induction false} SortNewestFirstContents(s: seq<Transaction>)
    ensures |SortNewestFirst(s)| == |s|
    ensures multiset(SortNewestFirst(s)) == multiset(s)
  {
    if s != [] {
      var init, last := s[..|s| - 1], s[|s| - 1];
      SortNewestFirstContents(init);
      InsertByDateContents(SortNewestFirst(init), last);
      assert s == init + [last];
    }
  }

  lemma {:induction false} SortNewestFirstOrder(s: seq<Transaction>)
    ensures NewestFirst(SortNewestFirst(s))
  {
    if s != [] {
      SortNewestFirstOrder(s[..|s| - 1]);
      InsertByDateKeepsOrder(SortNewestFirst(s[..|s| - 1]), s[|s| - 1]);
    }
  }

  /** Sorting a list that is already newest first leaves it as it is. */
  lemma {:induction false} SortSorted(s: seq<Transaction>)
    requires NewestFirst(s)
    ensures SortNewestFirst(s) == s
  {
    if s != [] {
      var init, last := s[..|s| - 1], s[|s| - 1];
      assert NewestFirst(init) by {
        forall i, j | 0 <= i < j < |init|
          ensures init[i].date.millis >= init[j].date.millis
        {
          assert init[i] == s[i] && init[j] == s[j];
        }
      }
      SortSorted(init);
      assert init == [] || init[|init| - 1].date.millis >= last.date.millis;
      assert InsertByDate(init, last) == init + [last];
      assert s == init + [last];
    }
  }

  /** Filtering keeps a newest-first list newest first. */
  lemma {:induction false} FilterKeepsNewestFirst(s: seq<Transaction>, keep: Transaction -> bool)
    requires NewestFirst(s)
    ensures NewestFirst(Filter(s, keep))
  {
    if s != [] {
      assert NewestFirst(s[1..]);
      FilterKeepsNewestFirst(s[1..], keep);
      var rest := Filter(s[1..], keep);
      forall j | 0 <= j < |rest|
        ensures s[0].date.millis >= rest[j].date.millis
      {
        assert rest[j] in s[1..];
      }
    }
  }

  // ---------------------------------------------------------------------------
  // Totals
  // ---------------------------------------------------------------------------

  /** The sum of the amounts of the records of kind `k`, accumulated from the left
      as `reduce` does. */
  function Total(s: seq<Transaction>, k: Kind): int
  {
    if s == [] then 0
    else Total(s[..|s| - 1], k) + (if s[|s| - 1].kind == k then s[|s| - 1].amount else 0)
  }

  /** A kind no record has totals 0, and amounts that are never negative give a total
      that is never negative. */
  lemma {:induction false} TotalSigns(s: seq<Transaction>, k: Kind)
    ensures (forall t :: t in s ==> t.kind != k) ==> Total(s, k) == 0
    ensures (forall t :: t in s ==> t.amount >= 0) ==> Total(s, k) >= 0
  {
    if s != [] {
      var init := s[..|s| - 1];
      TotalSigns(init, k);
      assert forall t :: t in init ==> t in s;
    }
  }

  lemma {:induction false} TotalConcat(a: seq<Transaction>, b: seq<Transaction>, k: Kind)
    ensures Total(a + b, k) == Total(a, k) + Total(b, k)
  {
    if b == [] {
      assert a + b == a;
    } else {
      var init := b[..|b| - 1];
      assert (a + b)[..|a + b| - 1] == a + init;
      TotalConcat(a, init, k);
    }
  }

  /** Taking the same record out of two lists with the same records leaves two lists
      with the same records. */
  lemma RemoveSameRecord(s: seq<Transaction>, t: seq<Transaction>, i: nat)
    requires multiset(s) == multiset(t) && s != [] && i < |t| && t[i] == s[|s| - 1]
    ensures multiset(s[..|s| - 1]) == multiset(t[..i] + t[i + 1..])
  {
    var init, x := s[..|s| - 1], s[|s| - 1];
    assert s == init + [x];
    assert t == t[..i] + [x] + t[i + 1..];
    calc {
      multiset(t[..i] + t[i + 1..]) + multiset{x};
      multiset(t[..i]) + multiset{x} + multiset(t[i + 1..]);
      multiset(t);
      multiset(init) + multiset{x};
    }
    assert multiset(t[..i] + t[i + 1..]) == multiset(t[..i] + t[i + 1..]) + multiset{x} - multiset{x};
    assert multiset(init) == multiset(init) + multiset{x} - multiset{x};
  }

  /** One record's share of a total, wherever it stands in the list. */
  lemma TotalWithout(t: seq<Transaction>, i: nat, k: Kind)
    requires i < |t|
    ensures Total(t, k) == Total(t[..i] + t[i + 1..], k) + (if t[i].kind == k then t[i].amount else 0)
  {
    var p, x, q := t[..i], t[i], t[i + 1..];
    assert t == (p + [x]) + q;
    assert (p + [x])[..|p|] == p;
    TotalConcat(p + [x], q, k);
    TotalConcat(p, q, k);
  }

  /** The totals depend only on which records there are, not on their order. */
  lemma {:induction false} TotalIgnoresOrder(s: seq<Transaction>, t: seq<Transaction>, k: Kind)
    requires multiset(s) == multiset(t)
    ensures Total(s, k) == Total(t, k)
    decreases |s|
  {
    if s == [] {
      assert |t| == |multiset(t)| == 0;
    } else {
      var init, x := s[..|s| - 1], s[|s| - 1];
      assert x in multiset(s);
      var i :| 0 <= i < |t| && t[i] == x;
      RemoveSameRecord(s, t, i);
      TotalIgnoresOrder(init, t[..i] + t[i + 1..], k);
      TotalWithout(t, i, k);
    }
  }
}
