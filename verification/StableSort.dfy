/** Stable sorting of rows, what characterises it, and merging of sorted runs
    (`sort_rows` and the merge order of engine/executor.rs). */
module StableSort {
  import opened Bytes
  import opened Values
  import opened Sequences
  import opened IndexScans

  /** Sort keys over rows of the given column types. */
  datatype Sorter = Sorter(fpu: Fpu, keys: seq<(nat, bool)>, types: seq<Type>) {

    predicate Valid() { forall i :: 0 <= i < |keys| ==> keys[i].0 < |types| }

    predicate Fits(row: Row) { Valid() && RowHasTypes(row, types) }
  }

  /** `a` may precede `b`. Rows of another shape, which a scan never yields, are put last. */
  predicate Le(s: Sorter, a: Row, b: Row) {
    if !s.Fits(b) then true
    else if !s.Fits(a) then false
    else CompareRows(s.fpu, s.keys, a, b) != GreaterThan
  }

  predicate Ties(s: Sorter, a: Row, b: Row) { Le(s, a, b) && Le(s, b, a) }

  // ---------------------------------------------------------------- the comparator

  ghost predicate KeysFit(keys: seq<(nat, bool)>, types: seq<Type>) {
    forall i :: 0 <= i < |keys| ==> keys[i].0 < |types|
  }

  lemma {:induction false} CompareRowsReverse(fpu: Fpu, keys: seq<(nat, bool)>, types: seq<Type>, a: Row, b: Row)
    requires KeysFit(keys, types) && RowHasTypes(a, types) && RowHasTypes(b, types)
    ensures CompareRows(fpu, keys, b, a) == CompareRows(fpu, keys, a, b).Reverse()
  {
    hide OrderValues;
    if keys != [] {
      OrderValuesAntisymmetric(fpu, a[keys[0].0], b[keys[0].0], types[keys[0].0]);
      CompareRowsReverse(fpu, keys[1..], types, a, b);
    }
  }

  /** One column: order is transitive, with equal values interchangeable. */
  lemma OrderValuesChain(fpu: Fpu, a: Value, b: Value, c: Value, ty: Type)
    requires HasType(a, ty) && HasType(b, ty) && HasType(c, ty)
    ensures OrderValues(fpu, a, b) == Equal ==> a == b
    ensures OrderValues(fpu, b, c) == Equal ==> b == c
    ensures OrderValues(fpu, a, a) == Equal
    ensures OrderValues(fpu, a, b) == LessThan && OrderValues(fpu, b, c) == LessThan ==> OrderValues(fpu, a, c) == LessThan
    ensures OrderValues(fpu, a, b) == GreaterThan && OrderValues(fpu, b, c) == GreaterThan ==> OrderValues(fpu, a, c) == GreaterThan
  {
    OrderValuesReflexive(fpu, a);
    OrderValuesAntisymmetric(fpu, a, b, ty);
    OrderValuesAntisymmetric(fpu, b, c, ty);
    OrderValuesAntisymmetric(fpu, a, c, ty);
    if OrderValues(fpu, a, b) == LessThan && OrderValues(fpu, b, c) == LessThan { OrderValuesTransitive(fpu, a, b, c, ty); }
    if OrderValues(fpu, a, b) == GreaterThan && OrderValues(fpu, b, c) == GreaterThan { OrderValuesTransitive(fpu, c, b, a, ty); }
  }

  lemma {:induction false} CompareRowsTransitive(fpu: Fpu, keys: seq<(nat, bool)>, types: seq<Type>, a: Row, b: Row, c: Row)
    requires KeysFit(keys, types) && RowHasTypes(a, types) && RowHasTypes(b, types) && RowHasTypes(c, types)
    requires CompareRows(fpu, keys, a, b) != GreaterThan && CompareRows(fpu, keys, b, c) != GreaterThan
    ensures CompareRows(fpu, keys, a, c) != GreaterThan
  {
    if keys != [] {
      var k := keys[0].0;
      OrderValuesChain(fpu, a[k], b[k], c[k], types[k]);
      hide OrderValues, HasType;
      if OrderValues(fpu, a[k], b[k]) == Equal && OrderValues(fpu, b[k], c[k]) == Equal {
        CompareRowsTransitive(fpu, keys[1..], types, a, b, c);
      }
    }
  }

  /** The sort order is a total preorder. */
  lemma LeTotal(s: Sorter, a: Row, b: Row)
    ensures Le(s, a, b) || Le(s, b, a)
  {
    if s.Fits(a) && s.Fits(b) { CompareRowsReverse(s.fpu, s.keys, s.types, a, b); }
  }

  lemma LeTransitive(s: Sorter, a: Row, b: Row, c: Row)
    requires Le(s, a, b) && Le(s, b, c)
    ensures Le(s, a, c)
  {
    if s.Fits(c) { CompareRowsTransitive(s.fpu, s.keys, s.types, a, b, c); }
  }

  // ---------------------------------------------------------------- stable sort

  function Insert(s: Sorter, x: Row, ys: seq<Row>): seq<Row> {
    if ys == [] then [x]
    else if Le(s, x, ys[0]) then [x] + ys
    else [ys[0]] + Insert(s, x, ys[1..])
  }

  /** What one stable `sort_by` over the whole sequence returns. */
  function Sort(s: Sorter, xs: seq<Row>): seq<Row> {
    if xs == [] then [] else Insert(s, xs[0], Sort(s, xs[1..]))
  }

  ghost predicate Sorted(s: Sorter, xs: seq<Row>) {
    forall i, j :: 0 <= i < j < |xs| ==> Le(s, xs[i], xs[j])
  }

  /** The rows that tie with `k`, in the order they come. */
  function Tied(s: Sorter, k: Row, xs: seq<Row>): seq<Row> {
    if xs == [] then []
    else (if Ties(s, xs[0], k) then [xs[0]] else []) + Tied(s, k, xs[1..])
  }

  /** Same rows, and rows that tie keep their relative order. */
  ghost predicate SameTies(s: Sorter, xs: seq<Row>, ys: seq<Row>) {
    forall k :: Tied(s, k, xs) == Tied(s, k, ys)
  }

  lemma {:induction false} TiedConcat(s: Sorter, k: Row, xs: seq<Row>, ys: seq<Row>)
    ensures Tied(s, k, xs + ys) == Tied(s, k, xs) + Tied(s, k, ys)
  {
    hide Ties;
    if xs == [] { assert xs + ys == ys; }
    else {
      TiedConcat(s, k, xs[1..], ys);
      assert (xs + ys)[1..] == xs[1..] + ys;
      ConcatAssoc(if Ties(s, xs[0], k) then [xs[0]] else [], Tied(s, k, xs[1..]), Tied(s, k, ys));
    }
  }

  lemma {:induction false} NothingTied(s: Sorter, k: Row, xs: seq<Row>)
    requires forall x :: x in xs ==> !Ties(s, x, k)
    ensures Tied(s, k, xs) == []
  {
    if xs != [] { NothingTied(s, k, xs[1..]); }
  }

  lemma {:induction false} TiedMembers(s: Sorter, k: Row, xs: seq<Row>, x: Row)
    ensures x in Tied(s, k, xs) <==> x in xs && Ties(s, x, k)
  {
    hide Ties;
    if xs != [] { TiedMembers(s, k, xs[1..], x); }
  }

  /** Rows that tie with the same row tie with each other. */
  lemma TiesShared(s: Sorter, a: Row, b: Row, k: Row)
    ensures Ties(s, a, k) && Ties(s, b, k) ==> Le(s, a, b) && Le(s, b, a)
  {
    if Ties(s, a, k) && Ties(s, b, k) {
      LeTransitive(s, a, k, b);
      LeTransitive(s, b, k, a);
    }
  }

  lemma {:induction false} InsertKeepsTies(s: Sorter, k: Row, x: Row, ys: seq<Row>)
    ensures Tied(s, k, Insert(s, x, ys)) == Tied(s, k, [x] + ys)
  {
    if ys != [] && !Le(s, x, ys[0]) {
      TiesShared(s, x, ys[0], k);
      hide Le, Ties;
      InsertKeepsTies(s, k, x, ys[1..]);
      assert ([x] + ys)[1..] == ys && ([x] + ys[1..])[1..] == ys[1..];
      assert ([ys[0]] + Insert(s, x, ys[1..]))[1..] == Insert(s, x, ys[1..]);
    }
  }

  lemma {:induction false} InsertSorted(s: Sorter, x: Row, ys: seq<Row>)
    requires Sorted(s, ys)
    ensures Sorted(s, Insert(s, x, ys))
    ensures forall y :: y in Insert(s, x, ys) <==> y == x || y in ys
  {
    hide Le;
    if ys == [] {
    } else if Le(s, x, ys[0]) {
      forall j | 0 <= j < |ys| ensures Le(s, x, ys[j]) { if j > 0 { LeTransitive(s, x, ys[0], ys[j]); } }
      assert forall y :: y in [x] + ys <==> y == x || y in ys;
    } else {
      LeTotal(s, x, ys[0]);
      InsertSorted(s, x, ys[1..]);
      var rest := Insert(s, x, ys[1..]);
      forall j | 0 <= j < |rest| ensures Le(s, ys[0], rest[j]) { assert rest[j] in rest; }
      assert forall y :: y in ys <==> y == ys[0] || y in ys[1..];
    }
  }

  /** Sorting orders the rows and keeps ties in input order. */
  lemma {:induction false} SortIsStable(s: Sorter, xs: seq<Row>)
    ensures Sorted(s, Sort(s, xs)) && SameTies(s, Sort(s, xs), xs)
  {
    hide Le, Ties;
    if xs != [] {
      SortIsStable(s, xs[1..]);
      InsertSorted(s, xs[0], Sort(s, xs[1..]));
      forall k ensures Tied(s, k, Sort(s, xs)) == Tied(s, k, xs) {
        InsertKeepsTies(s, k, xs[0], Sort(s, xs[1..]));
        TiedConcat(s, k, [xs[0]], Sort(s, xs[1..]));
        TiedConcat(s, k, [xs[0]], xs[1..]);
        assert xs == [xs[0]] + xs[1..];
      }
    }
  }

  lemma HeadTies(s: Sorter, xs: seq<Row>, ys: seq<Row>)
    requires Sorted(s, xs) && Sorted(s, ys) && SameTies(s, xs, ys) && xs != []
    ensures ys != [] && Le(s, ys[0], xs[0])
  {
    hide Le;
    LeTotal(s, xs[0], xs[0]);
    TiedMembers(s, xs[0], xs, xs[0]);
    TiedMembers(s, xs[0], ys, xs[0]);
    assert Tied(s, xs[0], xs) == Tied(s, xs[0], ys);
    var j :| 0 <= j < |ys| && ys[j] == xs[0];
    if j == 0 { LeTotal(s, xs[0], ys[0]); }
  }

  lemma TailTies(s: Sorter, xs: seq<Row>, ys: seq<Row>)
    requires xs != [] && ys != [] && xs[0] == ys[0] && SameTies(s, xs, ys)
    ensures SameTies(s, xs[1..], ys[1..])
  {
    hide Ties;
    forall k ensures Tied(s, k, xs[1..]) == Tied(s, k, ys[1..]) {
      var head := if Ties(s, xs[0], k) then [xs[0]] else [];
      assert Tied(s, k, xs) == Tied(s, k, ys);
      assert head + Tied(s, k, xs[1..]) == head + Tied(s, k, ys[1..]);
      assert Tied(s, k, xs[1..]) == (head + Tied(s, k, xs[1..]))[|head|..];
    }
  }

  /** Order and stability determine the result: two sorted sequences with the same ties are equal. */
  lemma {:induction false} StableSortUnique(s: Sorter, xs: seq<Row>, ys: seq<Row>)
    requires Sorted(s, xs) && Sorted(s, ys) && SameTies(s, xs, ys)
    ensures xs == ys
  {
    hide Le;
    if xs == [] {
      if ys != [] { HeadTies(s, ys, xs); }
    } else {
      HeadTies(s, xs, ys);
      HeadTies(s, ys, xs);
      assert Ties(s, ys[0], xs[0]);
      LeTotal(s, xs[0], xs[0]);
      assert Tied(s, xs[0], xs)[0] == xs[0] && Tied(s, xs[0], ys)[0] == ys[0];
      TailTies(s, xs, ys);
      StableSortUnique(s, xs[1..], ys[1..]);
    }
  }

  // ---------------------------------------------------------------- merging runs

  /** The run whose head leaves the heap next: the least head, the lowest run on ties. */
  ghost predicate IsPick(s: Sorter, runs: seq<seq<Row>>, id: nat) {
    && id < |runs| && runs[id] != []
    && forall j :: 0 <= j < |runs| && runs[j] != [] ==>
         Le(s, runs[id][0], runs[j][0]) && (j < id ==> !Le(s, runs[j][0], runs[id][0]))
  }

  function Pick(s: Sorter, runs: seq<seq<Row>>): (r: Option<nat>)
    ensures r.None? ==> forall i :: 0 <= i < |runs| ==> runs[i] == []
    ensures r.Some? ==> IsPick(s, runs, r.value)
  {
    if runs == [] then None
    else
      var rest := Pick(s, runs[1..]);
      if runs[0] == [] then PickShift(s, runs, rest); Shift(rest)
      else if rest.None? || Le(s, runs[0][0], runs[1..][rest.value][0]) then PickFirst(s, runs, rest); Some(0)
      else LeTotal(s, runs[0][0], runs[1..][rest.value][0]); PickShift(s, runs, rest); Shift(rest)
  }

  function Shift(r: Option<nat>): Option<nat> {
    if r.None? then None else Some(r.value + 1)
  }

  lemma PickFirst(s: Sorter, runs: seq<seq<Row>>, rest: Option<nat>)
    requires runs != [] && runs[0] != []
    requires rest.None? ==> forall i :: 0 <= i < |runs[1..]| ==> runs[1..][i] == []
    requires rest.Some? ==> IsPick(s, runs[1..], rest.value) && Le(s, runs[0][0], runs[1..][rest.value][0])
    ensures IsPick(s, runs, 0)
  {
    hide Le;
    LeTotal(s, runs[0][0], runs[0][0]);
    forall j | 1 <= j < |runs| && runs[j] != [] ensures Le(s, runs[0][0], runs[j][0]) {
      assert runs[1..][j - 1] == runs[j];
      LeTransitive(s, runs[0][0], runs[1..][rest.value][0], runs[j][0]);
    }
  }

  lemma PickShift(s: Sorter, runs: seq<seq<Row>>, rest: Option<nat>)
    requires runs != []
    requires rest.Some? ==> IsPick(s, runs[1..], rest.value)
    requires rest.Some? && runs[0] != [] ==>
               (Le(s, runs[1..][rest.value][0], runs[0][0]) && !Le(s, runs[0][0], runs[1..][rest.value][0]))
    ensures rest.Some? ==> IsPick(s, runs, rest.value + 1)
  {
    hide Le;
    if rest.Some? {
      forall j | 1 <= j < |runs| && runs[j] != []
        ensures Le(s, runs[rest.value + 1][0], runs[j][0]) && (j < rest.value + 1 ==> !Le(s, runs[j][0], runs[rest.value + 1][0]))
      {
        assert runs[1..][j - 1] == runs[j];
      }
    }
  }

  lemma PickUnique(s: Sorter, runs: seq<seq<Row>>, a: nat, b: nat)
    requires IsPick(s, runs, a) && IsPick(s, runs, b)
    ensures a == b
  {
    hide Le;
  }

  function TotalLength(runs: seq<seq<Row>>): nat {
    if runs == [] then 0 else |runs[0]| + TotalLength(runs[1..])
  }

  lemma {:induction false} PopShortens(runs: seq<seq<Row>>, id: nat)
    requires id < |runs| && runs[id] != []
    ensures TotalLength(runs[id := runs[id][1..]]) < TotalLength(runs)
  {
    if id > 0 {
      PopShortens(runs[1..], id - 1);
      assert runs[id := runs[id][1..]][1..] == runs[1..][id - 1 := runs[id][1..]];
    } else {
      assert runs[0 := runs[0][1..]][1..] == runs[1..];
    }
  }

  /** The rows the merge emits: pop the pick, refill from its run, repeat. */
  function Merge(s: Sorter, runs: seq<seq<Row>>): seq<Row>
    decreases TotalLength(runs)
  {
    match Pick(s, runs)
    case None => []
    case Some(id) =>
      PopShortens(runs, id);
      [runs[id][0]] + Merge(s, runs[id := runs[id][1..]])
  }

  ghost predicate AllSorted(s: Sorter, runs: seq<seq<Row>>) {
    forall i :: 0 <= i < |runs| ==> Sorted(s, runs[i])
  }

  ghost predicate AllAbove(s: Sorter, h: Row, runs: seq<seq<Row>>) {
    forall i, j :: 0 <= i < |runs| && 0 <= j < |runs[i]| ==> Le(s, h, runs[i][j])
  }

  lemma PickBelowAll(s: Sorter, runs: seq<seq<Row>>, id: nat)
    requires AllSorted(s, runs) && IsPick(s, runs, id)
    ensures AllAbove(s, runs[id][0], runs)
    ensures forall i, j :: 0 <= i < id && 0 <= j < |runs[i]| ==> !Le(s, runs[i][j], runs[id][0])
  {
    hide Le;
    var h := runs[id][0];
    forall i, j | 0 <= i < |runs| && 0 <= j < |runs[i]|
      ensures Le(s, h, runs[i][j]) && (i < id ==> !Le(s, runs[i][j], h))
    {
      if j > 0 {
        assert Sorted(s, runs[i]) && Le(s, runs[i][0], runs[i][j]);
        LeTransitive(s, h, runs[i][0], runs[i][j]);
        if Le(s, runs[i][j], h) { LeTransitive(s, runs[i][0], runs[i][j], h); }
      }
    }
  }

  lemma PopKeepsSorted(s: Sorter, runs: seq<seq<Row>>, id: nat, h: Row)
    requires AllSorted(s, runs) && id < |runs| && runs[id] != []
    ensures AllSorted(s, runs[id := runs[id][1..]])
    ensures AllAbove(s, h, runs) ==> AllAbove(s, h, runs[id := runs[id][1..]])
  {
    hide Le;
    var popped := runs[id := runs[id][1..]];
    forall i | 0 <= i < |popped| ensures Sorted(s, popped[i]) { assert Sorted(s, runs[i]); }
    if AllAbove(s, h, runs) {
      forall i, j | 0 <= i < |popped| && 0 <= j < |popped[i]| ensures Le(s, h, popped[i][j]) {
        assert popped[i][j] == if i == id then runs[i][j + 1] else runs[i][j];
      }
    }
  }

  lemma {:induction false} MergeAbove(s: Sorter, runs: seq<seq<Row>>, h: Row)
    requires AllSorted(s, runs) && AllAbove(s, h, runs)
    ensures forall i :: 0 <= i < |Merge(s, runs)| ==> Le(s, h, Merge(s, runs)[i])
    decreases TotalLength(runs)
  {
    hide Le;
    match Pick(s, runs)
    case None =>
    case Some(id) =>
      PopShortens(runs, id);
      PopKeepsSorted(s, runs, id, h);
      MergeAbove(s, runs[id := runs[id][1..]], h);
  }

  lemma {:induction false} MergeSorted(s: Sorter, runs: seq<seq<Row>>)
    requires AllSorted(s, runs)
    ensures Sorted(s, Merge(s, runs))
    decreases TotalLength(runs)
  {
    hide Le;
    match Pick(s, runs)
    case None =>
    case Some(id) =>
      var h, popped := runs[id][0], runs[id := runs[id][1..]];
      PopShortens(runs, id);
      PickBelowAll(s, runs, id);
      PopKeepsSorted(s, runs, id, h);
      MergeSorted(s, popped);
      MergeAbove(s, popped, h);
  }

  lemma {:induction false} FlattenMembers(runs: seq<seq<Row>>, x: Row)
    requires x in Flatten(runs)
    ensures exists i, j :: 0 <= i < |runs| && 0 <= j < |runs[i]| && runs[i][j] == x
  {
    if x in runs[0] {
      var j :| 0 <= j < |runs[0]| && runs[0][j] == x;
    } else {
      FlattenMembers(runs[1..], x);
      var i, j :| 0 <= i < |runs[1..]| && 0 <= j < |runs[1..][i]| && runs[1..][i][j] == x;
      assert runs[i + 1][j] == x;
    }
  }

  lemma FlattenAt(runs: seq<seq<Row>>, id: nat, r: seq<Row>)
    requires id < |runs|
    ensures Flatten(runs[id := r]) == Flatten(runs[..id]) + r + Flatten(runs[id + 1..])
  {
    assert runs[id := r] == runs[..id] + ([r] + runs[id + 1..]);
    FlattenConcat(runs[..id], [r] + runs[id + 1..]);
    assert ([r] + runs[id + 1..])[1..] == runs[id + 1..];
    assert Flatten([r] + runs[id + 1..]) == r + Flatten(runs[id + 1..]);
  }

  /** Popping the pick takes the first of its ties from the concatenated runs. */
  lemma PopKeepsTies(s: Sorter, runs: seq<seq<Row>>, id: nat, k: Row)
    requires AllSorted(s, runs) && IsPick(s, runs, id)
    ensures Tied(s, k, [runs[id][0]] + Flatten(runs[id := runs[id][1..]])) == Tied(s, k, Flatten(runs))
  {
    var h, t := runs[id][0], runs[id][1..];
    var a, b := Flatten(runs[..id]), Flatten(runs[id + 1..]);
    FlattenAt(runs, id, t);
    FlattenAt(runs, id, runs[id]);
    assert runs[id := runs[id]] == runs && runs[id] == [h] + t;
    PickBelowAll(s, runs, id);
    if Ties(s, h, k) {
      forall x | x in a ensures !Ties(s, x, k) {
        FlattenMembers(runs[..id], x);
        TiesShared(s, x, h, k);
      }
      NothingTied(s, k, a);
    }
    hide *;
    TiedPieces(s, k, h, a, t, b);
  }

  lemma TiedPieces(s: Sorter, k: Row, h: Row, a: seq<Row>, t: seq<Row>, b: seq<Row>)
    requires Ties(s, h, k) ==> Tied(s, k, a) == []
    ensures Tied(s, k, [h] + (a + t + b)) == Tied(s, k, a + ([h] + t) + b)
  {
    hide Ties;
    TiedConcat(s, k, [h], a + t + b);
    TiedConcat(s, k, a + t, b);
    TiedConcat(s, k, a, t);
    TiedConcat(s, k, a + ([h] + t), b);
    TiedConcat(s, k, a, [h] + t);
    TiedConcat(s, k, [h], t);
    assert Ties(s, h, k) || Tied(s, k, [h]) == [];
  }

  lemma {:induction false} MergeKeepsTies(s: Sorter, runs: seq<seq<Row>>, k: Row)
    requires AllSorted(s, runs)
    ensures Tied(s, k, Merge(s, runs)) == Tied(s, k, Flatten(runs))
    decreases TotalLength(runs)
  {
    hide Le, Ties;
    match Pick(s, runs)
    case None => FlattenEmpty(runs);
    case Some(id) =>
      var popped := runs[id := runs[id][1..]];
      PopShortens(runs, id);
      PopKeepsSorted(s, runs, id, runs[id][0]);
      MergeKeepsTies(s, popped, k);
      PopKeepsTies(s, runs, id, k);
      TiedConcat(s, k, [runs[id][0]], Merge(s, popped));
      TiedConcat(s, k, [runs[id][0]], Flatten(popped));
  }

  lemma {:induction false} FlattenEmpty(runs: seq<seq<Row>>)
    requires forall i :: 0 <= i < |runs| ==> runs[i] == []
    ensures Flatten(runs) == []
  {
    if runs != [] { FlattenEmpty(runs[1..]); }
  }

  // ---------------------------------------------------------------- external sort

  function SortedRuns(s: Sorter, chunks: seq<seq<Row>>): (r: seq<seq<Row>>)
    ensures |r| == |chunks| && forall i :: 0 <= i < |r| ==> r[i] == Sort(s, chunks[i])
  {
    seq(|chunks|, i requires 0 <= i < |chunks| => Sort(s, chunks[i]))
  }

  lemma {:induction false} ChunksKeepTies(s: Sorter, chunks: seq<seq<Row>>, k: Row)
    ensures Tied(s, k, Flatten(SortedRuns(s, chunks))) == Tied(s, k, Flatten(chunks))
  {
    hide Ties, Sort;
    if chunks != [] {
      var runs := SortedRuns(s, chunks);
      assert runs[1..] == SortedRuns(s, chunks[1..]);
      ChunksKeepTies(s, chunks[1..], k);
      SortIsStable(s, chunks[0]);
      TiedConcat(s, k, runs[0], Flatten(runs[1..]));
      TiedConcat(s, k, chunks[0], Flatten(chunks[1..]));
    }
  }

  /** However the input is cut into runs, sorting each and merging them is one stable sort of the whole. */
  lemma ExternalSortIsStableSort(s: Sorter, chunks: seq<seq<Row>>)
    ensures Merge(s, SortedRuns(s, chunks)) == Sort(s, Flatten(chunks))
  {
    hide Le, Ties, Merge, Sort, Sorted, Tied, Flatten;
    var runs := SortedRuns(s, chunks);
    forall i | 0 <= i < |runs| ensures Sorted(s, runs[i]) { SortIsStable(s, chunks[i]); }
    MergeSorted(s, runs);
    SortIsStable(s, Flatten(chunks));
    forall k ensures Tied(s, k, Merge(s, runs)) == Tied(s, k, Sort(s, Flatten(chunks))) {
      MergeKeepsTies(s, runs, k);
      ChunksKeepTies(s, chunks, k);
    }
    StableSortUnique(s, Merge(s, runs), Sort(s, Flatten(chunks)));
  }
}
