/** The monthly report of src/app/reports/page.tsx: the records of the selected month,
    their totals, and the table of them sorted newest first. */
module Reports {
  import opened Types
  import opened Ledger

  /** The month test of the `filteredTransactions` memo. The month select only offers
      the values "0" to "11", so comparing `getMonth().toString()` with the selected
      string is comparing month indices. */
  function DatedIn(m: Month): Transaction -> bool
  {
    (tx: Transaction) => tx.date.localMonth == m
  }

  /** `filteredTransactions`: the records dated in month `m`, in their original order. */
  function InMonth(s: seq<Transaction>, m: Month): (r: seq<Transaction>)
    ensures forall x :: x in r <==> x in s && x.date.localMonth == m
    ensures IsSubsequence(r, s)
  {
    FilterIsSubsequence(s, DatedIn(m));
    Filter(s, DatedIn(m))
  }

  /** The month filter looks at each record on its own: filtering a concatenation
      filters each part, and a single record is kept exactly when it is dated in the month. */
  lemma InMonthConcat(a: seq<Transaction>, b: seq<Transaction>, m: Month)
    ensures InMonth(a + b, m) == InMonth(a, m) + InMonth(b, m)
    ensures forall t :: InMonth([t], m) == if t.date.localMonth == m then [t] else []
  {
    FilterConcat(a, b, DatedIn(m));
  }

  /** The accumulator of the `summary` reduce. */
  datatype Summary = Summary(totalIn: int, totalOut: int, netBalance: int)

  /** The `summary` memo: one pass over the month's records; cash in goes to `totalIn`,
      anything else to `totalOut`, and `netBalance` is recomputed after every step. */
  method Summarize(filtered: seq<Transaction>) returns (acc: Summary)
    ensures acc.totalIn == Total(filtered, In)
    ensures acc.totalOut == Total(filtered, Out)
    ensures acc.netBalance == acc.totalIn - acc.totalOut
  {
    acc := Summary(0, 0, 0);
    for i := 0 to |filtered|
      invariant acc.totalIn == Total(filtered[..i], In)
      invariant acc.totalOut == Total(filtered[..i], Out)
      invariant acc.netBalance == acc.totalIn - acc.totalOut
    {
      var tx := filtered[i];
      assert filtered[..i + 1][..i] == filtered[..i];
      if tx.kind == In {
        acc := acc.(totalIn := acc.totalIn + tx.amount);
      } else {
        acc := acc.(totalOut := acc.totalOut + tx.amount);
      }
      acc := acc.(netBalance := acc.totalIn - acc.totalOut);
    }
    assert filtered[..|filtered|] == filtered;
  }

  /** One step of the in-place sort: moves `a[i]` towards the front past the strictly
      older records, which is inserting it into the sorted prefix `a[..i]`. */
  method InsertAt(a: array<Transaction>, i: nat)
    requires i < a.Length
    modifies a
    ensures a[..i + 1] == InsertByDate(old(a[..i]), old(a[i]))
    ensures forall k :: i < k < a.Length ==> a[k] == old(a[k])
  {
    ghost var sorted, x := a[..i], a[i];
    var j := i;
    while j > 0 && a[j - 1].date.millis < a[j].date.millis
      invariant 0 <= j <= i
      invariant a[j] == x
      invariant forall k :: 0 <= k < j ==> a[k] == sorted[k]
      invariant forall k :: j < k <= i ==> a[k] == sorted[k - 1]
      invariant forall k :: j <= k < i ==> sorted[k].date.millis < x.date.millis
      invariant forall k :: i < k < a.Length ==> a[k] == old(a[k])
    {
      a[j - 1], a[j] := a[j], a[j - 1];
      j := j - 1;
    }
    InsertionPoint(sorted, x, j, a[..i + 1]);
  }

  /** A list that holds `sorted` with `x` placed at index `j`, behind the records at
      least as new as `x` and in front of the strictly older ones, is the insertion. */
  lemma InsertionPoint(sorted: seq<Transaction>, x: Transaction, j: nat, r: seq<Transaction>)
    requires j <= |sorted| && |r| == |sorted| + 1 && r[j] == x
    requires forall k :: 0 <= k < j ==> r[k] == sorted[k]
    requires forall k :: j < k < |r| ==> r[k] == sorted[k - 1]
    requires j == 0 || sorted[j - 1].date.millis >= x.date.millis
    requires forall k :: j <= k < |sorted| ==> sorted[k].date.millis < x.date.millis
    ensures r == InsertByDate(sorted, x)
  {
    var p, q := sorted[..j], sorted[j..];
    SplicedAt(sorted, x, j, r);
    assert p + q == sorted;
    InsertBehindNewer(p, q, x);
  }

  /** The array contents after the moves: `x` at index `j` of `sorted`. */
  lemma SplicedAt(sorted: seq<Transaction>, x: Transaction, j: nat, r: seq<Transaction>)
    requires j <= |sorted| && |r| == |sorted| + 1 && r[j] == x
    requires forall k :: 0 <= k < j ==> r[k] == sorted[k]
    requires forall k :: j < k < |r| ==> r[k] == sorted[k - 1]
    ensures r == sorted[..j] + [x] + sorted[j..]
  {
    var spliced := sorted[..j] + [x] + sorted[j..];
    forall k | 0 <= k < |r|
      ensures r[k] == spliced[k]
    {
      if k > j {
        assert spliced[k] == sorted[j..][k - j - 1];
      }
    }
  }

  /** Inserting into `p + q` where every record of `q` is strictly older than `x` and
      the last record of `p` is not: `x` lands between the two. */
  lemma {:induction false} InsertBehindNewer(p: seq<Transaction>, q: seq<Transaction>, x: Transaction)
    requires p == [] || p[|p| - 1].date.millis >= x.date.millis
    requires forall k :: 0 <= k < |q| ==> q[k].date.millis < x.date.millis
    ensures InsertByDate(p + q, x) == p + [x] + q
  {
    if q == [] {
      assert p + q == p;
    } else {
      var init, older := q[..|q| - 1], q[|q| - 1];
      InsertBehindNewer(p, init, x);
      assert (p + q)[..|p + q| - 1] == p + init && (p + q)[|p + q| - 1] == older;
      assert InsertByDate(p + q, x) == InsertByDate(p + init, x) + [older];
      assert (p + [x] + init) + [older] == p + [x] + q;
    }
  }

  /** `filteredTransactions.sort((a, b) => b.date.getTime() - a.date.getTime())`: an
      in-place stable sort, newest first, here an insertion sort. */
  method SortInPlace(a: array<Transaction>)
    modifies a
    ensures a[..] == SortNewestFirst(old(a[..]))
  {
    ghost var orig := a[..];
    for i := 0 to a.Length
      invariant a[..i] == SortNewestFirst(orig[..i])
      invariant forall k :: i <= k < a.Length ==> a[k] == orig[k]
    {
      SortOneMore(orig, i);
      InsertAt(a, i);
    }
    assert orig[..a.Length] == orig;
  }

  /** Sorting one more record of the input is inserting it into the sorted prefix. */
  lemma SortOneMore(s: seq<Transaction>, i: nat)
    requires i < |s|
    ensures SortNewestFirst(s[..i + 1]) == InsertByDate(SortNewestFirst(s[..i]), s[i])
  {
    assert s[..i + 1][..i] == s[..i];
  }

  /** What the report page shows for a month: the totals of its records and the table
      of them newest first. Sorting after summing does not change the totals. */
  method MonthlyReport(all: seq<Transaction>, selectedMonth: Month)
    returns (summary: Summary, rows: seq<Transaction>)
    ensures summary.totalIn == Total(InMonth(all, selectedMonth), In)
    ensures summary.totalOut == Total(InMonth(all, selectedMonth), Out)
    ensures summary.netBalance == summary.totalIn - summary.totalOut
    ensures NewestFirst(rows) && multiset(rows) == multiset(InMonth(all, selectedMonth))
    ensures summary.totalIn == Total(rows, In) && summary.totalOut == Total(rows, Out)
  {
    var filtered := InMonth(all, selectedMonth);
    summary := Summarize(filtered);
    rows := SortedCopy(filtered);
    SortedRows(filtered);
  }

  /** The table's rows: the month's records copied into an array and sorted there. */
  method SortedCopy(filtered: seq<Transaction>) returns (rows: seq<Transaction>)
    ensures rows == SortNewestFirst(filtered)
  {
    var a := new Transaction[|filtered|](k requires 0 <= k < |filtered| => filtered[k]);
    assert a[..] == filtered;
    SortInPlace(a);
    rows := a[..];
  }

  /** The sorted table holds the month's records newest first, with the same totals. */
  lemma SortedRows(filtered: seq<Transaction>)
    ensures var rows := SortNewestFirst(filtered);
            NewestFirst(rows) && multiset(rows) == multiset(filtered) &&
            Total(rows, In) == Total(filtered, In) && Total(rows, Out) == Total(filtered, Out)
  {
    SortNewestFirstSpec(filtered);
    TotalIgnoresOrder(filtered, SortNewestFirst(filtered), In);
    TotalIgnoresOrder(filtered, SortNewestFirst(filtered), Out);
  }

  /** Two March records, 1000 in and 300 out, and one January record of 2000 in: the
      March report lists the first two and sums to 1000 in, 300 out, 700 net. */
  lemma MarchExample(a: Transaction, b: Transaction, c: Transaction)
    requires a.kind == In && a.amount == 1000 && a.date.localMonth == 2
    requires b.kind == Out && b.amount == 300 && b.date.localMonth == 2
    requires c.kind == In && c.amount == 2000 && c.date.localMonth == 0
    ensures InMonth([a, b, c], 2) == [a, b]
    ensures Total([a, b], In) == 1000 && Total([a, b], Out) == 300
  {
    InMonthConcat([a, b], [c], 2);
    InMonthConcat([a], [b], 2);
    assert [a, b, c] == [a, b] + [c] && [a, b] == [a] + [b];
    assert [a, b][..1] == [a];
    assert [a][..0] == [];
    assert Total([a], In) == 1000 && Total([a], Out) == 0;
  }
}
