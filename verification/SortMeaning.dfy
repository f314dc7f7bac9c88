/** What ORDER BY means, key by key and direction by direction, and that sorting delivers it
    (`sort_rows` in engine/executor.rs). */
module SortMeaning {
  import opened Bytes
  import opened Values
  import opened Sequences
  import opened IndexScans
  import opened StableSort

  /** The rows agree on the keys before `k` and differ on key `k`. */
  ghost predicate FirstDifference(s: Sorter, a: Row, b: Row, k: nat)
    requires s.Fits(a) && s.Fits(b)
  {
    && k < |s.keys| && OrderValues(s.fpu, a[s.keys[k].0], b[s.keys[k].0]) != Equal
    && forall m :: 0 <= m < k ==> OrderValues(s.fpu, a[s.keys[m].0], b[s.keys[m].0]) == Equal
  }

  /** On the first key where they differ, `a` holds the smaller value, or the greater one if that key is
      descending. */
  ghost predicate InKeyOrder(s: Sorter, a: Row, b: Row)
    requires s.Fits(a) && s.Fits(b)
  {
    forall k: nat :: FirstDifference(s, a, b, k) ==>
      OrderValues(s.fpu, a[s.keys[k].0], b[s.keys[k].0]) == if s.keys[k].1 then GreaterThan else LessThan
  }

  /** The rows agree on every key. */
  predicate SameKeys(s: Sorter, a: Row, b: Row)
    requires s.Fits(a) && s.Fits(b)
  {
    forall k :: 0 <= k < |s.keys| ==> OrderValues(s.fpu, a[s.keys[k].0], b[s.keys[k].0]) == Equal
  }

  ghost predicate AllFit(s: Sorter, rows: seq<Row>) { forall row :: row in rows ==> s.Fits(row) }

  /** The rows with the same keys as `k`, in the order they come. */
  ghost function WithKeysOf(s: Sorter, k: Row, rows: seq<Row>): seq<Row>
    requires s.Fits(k) && AllFit(s, rows)
  {
    if rows == [] then []
    else (if SameKeys(s, rows[0], k) then [rows[0]] else []) + WithKeysOf(s, k, rows[1..])
  }

  /** `out` is `rows` in ORDER BY order: the same rows, each pair in key order, and rows with the same keys
      as they came. */
  ghost predicate IsOrderBy(s: Sorter, rows: seq<Row>, out: seq<Row>)
    requires AllFit(s, rows)
  {
    && AllFit(s, out) && multiset(out) == multiset(rows)
    && (forall i, j :: 0 <= i < j < |out| ==> InKeyOrder(s, out[i], out[j]))
    && (forall k :: s.Fits(k) ==> WithKeysOf(s, k, out) == WithKeysOf(s, k, rows))
  }

  function Rest(s: Sorter): Sorter
    requires s.keys != []
  {
    s.(keys := s.keys[1..])
  }

  lemma RestFits(s: Sorter, row: Row)
    requires s.keys != [] && s.Fits(row)
    ensures Rest(s).Fits(row)
  {
    assert forall i :: 0 <= i < |s.keys[1..]| ==> s.keys[1..][i] == s.keys[i + 1];
  }

  /** Dropping an equal first key moves the first difference by one. */
  lemma FirstDifferenceShift(s: Sorter, a: Row, b: Row, k: nat)
    requires s.keys != [] && s.Fits(a) && s.Fits(b) && Rest(s).Fits(a) && Rest(s).Fits(b)
    requires OrderValues(s.fpu, a[s.keys[0].0], b[s.keys[0].0]) == Equal
    ensures FirstDifference(s, a, b, k + 1) <==> FirstDifference(Rest(s), a, b, k)
    ensures !FirstDifference(s, a, b, 0)
  {
    hide OrderValues;
    var rest := s.keys[1..];
    assert forall m :: 0 <= m < |rest| ==> rest[m] == s.keys[m + 1];
    assert forall m :: 0 < m < |s.keys| ==> s.keys[m] == rest[m - 1];
  }

  /** The comparator is what ORDER BY means. */
  lemma {:induction false} ComparatorMeaning(s: Sorter, a: Row, b: Row)
    requires s.Fits(a) && s.Fits(b)
    ensures CompareRows(s.fpu, s.keys, a, b) != GreaterThan <==> InKeyOrder(s, a, b)
    ensures CompareRows(s.fpu, s.keys, a, b) == Equal <==> SameKeys(s, a, b)
    decreases |s.keys|
  {
    hide OrderValues;
    if s.keys != [] {
      RestFits(s, a);
      RestFits(s, b);
      if OrderValues(s.fpu, a[s.keys[0].0], b[s.keys[0].0]) == Equal {
        ComparatorMeaning(Rest(s), a, b);
        forall k: nat ensures FirstDifference(s, a, b, k + 1) <==> FirstDifference(Rest(s), a, b, k) { FirstDifferenceShift(s, a, b, k); }
        EqualFirstKey(s, a, b);
      } else {
        DifferentFirstKey(s, a, b);
      }
    }
  }

  lemma EqualFirstKey(s: Sorter, a: Row, b: Row)
    requires s.keys != [] && s.Fits(a) && s.Fits(b) && Rest(s).Fits(a) && Rest(s).Fits(b)
    requires OrderValues(s.fpu, a[s.keys[0].0], b[s.keys[0].0]) == Equal
    ensures InKeyOrder(s, a, b) <==> InKeyOrder(Rest(s), a, b)
    ensures SameKeys(s, a, b) <==> SameKeys(Rest(s), a, b)
  {
    hide OrderValues, FirstDifference;
    var rest := Rest(s);
    forall k: nat ensures FirstDifference(s, a, b, k + 1) <==> FirstDifference(rest, a, b, k) { FirstDifferenceShift(s, a, b, k); }
    assert !FirstDifference(s, a, b, 0) by { FirstDifferenceShift(s, a, b, 0); }
    assert forall m :: 0 <= m < |rest.keys| ==> rest.keys[m] == s.keys[m + 1];
    assert forall m :: 0 < m < |s.keys| ==> s.keys[m] == rest.keys[m - 1];
    if InKeyOrder(s, a, b) {
      forall k: nat | FirstDifference(rest, a, b, k)
        ensures k < |rest.keys|
        ensures OrderValues(s.fpu, a[rest.keys[k].0], b[rest.keys[k].0]) == if rest.keys[k].1 then GreaterThan else LessThan
      {
        DifferenceInRange(rest, a, b, k);
        assert FirstDifference(s, a, b, k + 1);
      }
    }
    if InKeyOrder(rest, a, b) {
      forall k: nat | FirstDifference(s, a, b, k)
        ensures k < |s.keys|
        ensures OrderValues(s.fpu, a[s.keys[k].0], b[s.keys[k].0]) == if s.keys[k].1 then GreaterThan else LessThan
      {
        DifferenceInRange(s, a, b, k);
        assert FirstDifference(rest, a, b, k - 1);
      }
    }
  }

  lemma DifferenceInRange(s: Sorter, a: Row, b: Row, k: nat)
    requires s.Fits(a) && s.Fits(b) && FirstDifference(s, a, b, k)
    ensures k < |s.keys|
  {
  }

  lemma DifferentFirstKey(s: Sorter, a: Row, b: Row)
    requires s.keys != [] && s.Fits(a) && s.Fits(b)
    requires OrderValues(s.fpu, a[s.keys[0].0], b[s.keys[0].0]) != Equal
    ensures forall k: nat :: FirstDifference(s, a, b, k) <==> k == 0
    ensures !SameKeys(s, a, b)
  {
    hide OrderValues;
  }

  lemma LeMeaning(s: Sorter, a: Row, b: Row)
    requires s.Fits(a) && s.Fits(b)
    ensures Le(s, a, b) <==> InKeyOrder(s, a, b)
    ensures Ties(s, a, b) <==> SameKeys(s, a, b)
  {
    ComparatorMeaning(s, a, b);
    CompareRowsReverse(s.fpu, s.keys, s.types, a, b);
    hide CompareRows, InKeyOrder, SameKeys;
  }

  // ---------------------------------------------------------------- sorting

  lemma {:induction false} InsertCounts(s: Sorter, x: Row, ys: seq<Row>)
    ensures multiset(Insert(s, x, ys)) == multiset{x} + multiset(ys)
  {
    hide Le;
    if ys != [] {
      assert ys == [ys[0]] + ys[1..];
      if !Le(s, x, ys[0]) { InsertCounts(s, x, ys[1..]); }
    }
  }

  lemma {:induction false} SortCounts(s: Sorter, xs: seq<Row>)
    ensures multiset(Sort(s, xs)) == multiset(xs)
  {
    if xs != [] {
      SortCounts(s, xs[1..]);
      InsertCounts(s, xs[0], Sort(s, xs[1..]));
      assert xs == [xs[0]] + xs[1..];
    }
  }

  lemma {:induction false} TiedIsSameKeys(s: Sorter, k: Row, rows: seq<Row>)
    requires s.Fits(k) && AllFit(s, rows)
    ensures Tied(s, k, rows) == WithKeysOf(s, k, rows)
  {
    hide Ties, SameKeys, Sorter.Fits;
    if rows != [] {
      assert rows[0] in rows;
      LeMeaning(s, rows[0], k);
      TiedIsSameKeys(s, k, rows[1..]);
    }
  }

  /** Sorting is ORDER BY: the same rows, ordered by the first key on which they differ, in its direction,
      and otherwise as they came. */
  lemma SortIsOrderBy(s: Sorter, rows: seq<Row>)
    requires AllFit(s, rows)
    ensures IsOrderBy(s, rows, Sort(s, rows))
  {
    hide Le, InKeyOrder, Tied, WithKeysOf, Sorter.Fits, Sort;
    var out := Sort(s, rows);
    SortCounts(s, rows);
    SortIsStable(s, rows);
    forall row | row in out ensures s.Fits(row) { assert row in multiset(out) && row in multiset(rows); }
    forall i, j | 0 <= i < j < |out| ensures InKeyOrder(s, out[i], out[j]) { LeMeaning(s, out[i], out[j]); }
    forall k | s.Fits(k) ensures WithKeysOf(s, k, out) == WithKeysOf(s, k, rows) {
      TiedIsSameKeys(s, k, out);
      TiedIsSameKeys(s, k, rows);
    }
  }

  /** `ORDER BY x DESC` over 2, 1 leaves them so; ascending, it turns them round. */
  lemma DescendingExample(fpu: Fpu, descending: bool)
    ensures Sort(Sorter(fpu, [(0, descending)], [IntType]), [[Int(2)], [Int(1)]]) == if descending then [[Int(2)], [Int(1)]] else [[Int(1)], [Int(2)]]
  {
    var s := Sorter(fpu, [(0, descending)], [IntType]);
    var a: Row, b: Row := [Int(2)], [Int(1)];
    assert s.Fits(a) && s.Fits(b);
    assert CompareRows(fpu, s.keys, a, b) == if descending then LessThan else GreaterThan;
    hide CompareRows, Sorter.Fits;
    assert [a, b][1..] == [b] && [b][1..] == [];
    assert Sort(s, [b]) == [b];
    assert Sort(s, [a, b]) == Insert(s, a, [b]);
  }
}
