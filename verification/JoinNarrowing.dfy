/** Joins that offer a left row fewer candidates than the nested loop does: when they still yield its
    rows, and the hash join in particular (engine/executor.rs). */
module JoinNarrowing {
  import opened Bytes
  import opened Values
  import opened Expressions
  import opened IndexKeys
  import opened Sequences
  import opened JoinSpec

  // ---------------------------------------------------------------- from matches to rows

  lemma {:induction false} PairsSameCounts(l: Row, a: seq<Row>, b: seq<Row>)
    requires multiset(a) == multiset(b)
    ensures multiset(Pairs(l, a)) == multiset(Pairs(l, b))
    decreases |a|
  {
    if a != [] {
      var k := RemoveShared(a, b);
      var rest := b[..k] + b[k + 1..];
      assert a == [a[0]] + a[1..];
      PairsSameCounts(l, a[1..], rest);
      PairsConcat(l, b[..k], [b[k]] + b[k + 1..]);
      PairsConcat(l, b[..k], b[k + 1..]);
      assert ([b[k]] + b[k + 1..])[1..] == b[k + 1..];
    } else {
      assert b == [] by { assert |multiset(b)| == 0; }
    }
  }

  lemma {:induction false} PairsConcat(l: Row, a: seq<Row>, b: seq<Row>)
    ensures Pairs(l, a + b) == Pairs(l, a) + Pairs(l, b)
  {
    if a == [] { assert a + b == b; }
    else {
      PairsConcat(l, a[1..], b);
      assert (a + b)[1..] == a[1..] + b;
      ConcatAssoc([l + a[0]], Pairs(l, a[1..]), Pairs(l, b));
    }
  }

  lemma DeclaredSameCounts(j: Join, l: Row, a: seq<Row>, b: seq<Row>)
    requires multiset(a) == multiset(b)
    ensures multiset(Declared(j, l, a)) == multiset(Declared(j, l, b))
  {
    assert |a| == |multiset(a)| && |b| == |multiset(b)|;
    PairsSameCounts(l, a, b);
  }

  /** What one left row contributes to a join. */
  function Contribution(j: Join, src: Source, l: Row): Stream {
    Emit(j, l, Candidates(src, l), false)
  }

  ghost function Counts(s: Stream): multiset<Row> { multiset(s.rows) }

  lemma JoinStreamStep(j: Join, ls: seq<Row>, src: Source)
    requires ls != [] && !JoinStream(j, ls, src).fails
    ensures !JoinStream(j, ls[1..], src).fails
    ensures Counts(JoinStream(j, ls, src)) == Counts(JoinStream(j, ls[1..], src)) + Counts(Contribution(j, src, ls[0]))
  {
    hide Emit, Candidates;
  }

  // ---------------------------------------------------------------- counting pairs

  /** The row was made from a match: column `c` of the joined table holds a value. */
  predicate Paired(c: nat, row: Row) { c < |row| && !row[c].Null? }

  ghost function PairCount(c: nat, rows: seq<Row>): nat { |Filter(row => Paired(c, row), rows)| }

  /** Every left row has its width, and every match a value in `column`. */
  ghost predicate MatchesFill(j: Join, l: Row, rs: seq<Row>, column: nat) {
    && |l| + j.rightWidth == |j.scope| && column < j.rightWidth
    && forall r :: r in Matching(j, l, rs) ==> Paired(column, r)
  }

  lemma {:induction false} PairsAllCount(l: Row, ms: seq<Row>, column: nat)
    requires forall r :: r in ms ==> Paired(column, r)
    ensures PairCount(|l| + column, Pairs(l, ms)) == |ms|
  {
    if ms != [] {
      assert ms[0] in ms && forall r :: r in ms[1..] ==> r in ms;
      PairsAllCount(l, ms[1..], column);
      assert (l + ms[0])[|l| + column] == ms[0][column];
      var rest := Pairs(l, ms[1..]);
      assert ([l + ms[0]] + rest)[1..] == rest;
    }
  }

  /** Of what a pairing join yields for a left row, exactly the matches count. */
  lemma DeclaredCount(j: Join, l: Row, ms: seq<Row>, column: nat)
    requires PairsUp(j) && column < j.rightWidth && forall r :: r in ms ==> Paired(column, r)
    ensures PairCount(|l| + column, Declared(j, l, ms)) == |ms|
  {
    PairsAllCount(l, ms, column);
    if j.kind == LeftJoin && ms == [] {
      var padded: Row := l + Nulls(j.rightWidth);
      assert padded[|l| + column] == Null;
      var one: seq<Row> := [padded];
      assert one[1..] == [];
    }
  }

  function MatchTotal(j: Join, ls: seq<Row>, src: Source): nat {
    if ls == [] then 0 else |Matching(j, ls[0], Candidates(src, ls[0]))| + MatchTotal(j, ls[1..], src)
  }

  ghost predicate AllFill(j: Join, ls: seq<Row>, src: Source, column: nat) {
    forall l :: l in ls ==> MatchesFill(j, l, Candidates(src, l), column)
  }

  lemma {:induction false} StreamCount(j: Join, ls: seq<Row>, src: Source, column: nat)
    requires PairsUp(j) && !JoinStream(j, ls, src).fails && AllFill(j, ls, src, column)
    requires j.rightWidth <= |j.scope|
    ensures PairCount(|j.scope| - j.rightWidth + column, JoinStream(j, ls, src).rows) == MatchTotal(j, ls, src)
  {
    hide Emit, Candidates, Matching, Declared;
    if ls != [] {
      var l, c := ls[0], |j.scope| - j.rightWidth + column;
      assert l in ls && forall x :: x in ls[1..] ==> x in ls;
      var first := Emit(j, l, Candidates(src, l), false);
      EmitFailsIff(j, l, Candidates(src, l), false);
      EmitMeaning(j, l, Candidates(src, l));
      assert MatchesFill(j, l, Candidates(src, l), column);
      DeclaredCount(j, l, Matching(j, l, Candidates(src, l)), column);
      StreamCount(j, ls[1..], src, column);
      FilterConcat(row => Paired(c, row), first.rows, JoinStream(j, ls[1..], src).rows);
    }
  }

  // ---------------------------------------------------------------- fewer candidates

  /** The candidates `cs` are among `rs`, and their matches among those of `rs` with multiplicity. */
  ghost predicate Narrows(j: Join, l: Row, cs: seq<Row>, rs: seq<Row>) {
    (forall r :: r in cs ==> r in rs) && multiset(Matching(j, l, cs)) <= multiset(Matching(j, l, rs))
  }

  ghost predicate SameMatches(j: Join, l: Row, cs: seq<Row>, rs: seq<Row>) {
    multiset(Matching(j, l, cs)) == multiset(Matching(j, l, rs))
  }

  ghost predicate AllNarrow(j: Join, ls: seq<Row>, fast: Source, full: Source) {
    forall l :: l in ls ==> Narrows(j, l, Candidates(fast, l), Candidates(full, l))
  }

  ghost predicate AllSame(j: Join, ls: seq<Row>, fast: Source, full: Source) {
    forall l :: l in ls ==> SameMatches(j, l, Candidates(fast, l), Candidates(full, l))
  }

  lemma {:induction false} NarrowTotals(j: Join, ls: seq<Row>, fast: Source, full: Source)
    requires AllNarrow(j, ls, fast, full)
    ensures MatchTotal(j, ls, fast) <= MatchTotal(j, ls, full)
    ensures MatchTotal(j, ls, fast) == MatchTotal(j, ls, full) ==> AllSame(j, ls, fast, full)
  {
    hide Candidates, Matching;
    if ls != [] {
      var l := ls[0];
      assert l in ls && forall x :: x in ls <==> x == l || x in ls[1..];
      assert Narrows(j, l, Candidates(fast, l), Candidates(full, l));
      NarrowTotals(j, ls[1..], fast, full);
      SubsetSize(Matching(j, l, Candidates(fast, l)), Matching(j, l, Candidates(full, l)));
    }
  }

  lemma {:induction false} NarrowFills(j: Join, ls: seq<Row>, fast: Source, full: Source, column: nat)
    requires AllNarrow(j, ls, fast, full) && AllFill(j, ls, full, column)
    ensures AllFill(j, ls, fast, column)
  {
    hide Candidates, Matching;
    forall l | l in ls ensures MatchesFill(j, l, Candidates(fast, l), column) {
      var few, all := Matching(j, l, Candidates(fast, l)), Matching(j, l, Candidates(full, l));
      assert Narrows(j, l, Candidates(fast, l), Candidates(full, l)) && MatchesFill(j, l, Candidates(full, l), column);
      forall r | r in few ensures r in all { assert r in multiset(few) && r in multiset(all); }
    }
  }

  lemma {:induction false} NarrowNoFailure(j: Join, ls: seq<Row>, fast: Source, full: Source)
    requires PairsUp(j) && AllNarrow(j, ls, fast, full) && !JoinStream(j, ls, full).fails
    ensures !JoinStream(j, ls, fast).fails
    ensures AllSame(j, ls, fast, full) ==> Counts(JoinStream(j, ls, fast)) == Counts(JoinStream(j, ls, full))
  {
    if ls != [] {
      hide Emit, Candidates, Matching, Declared;
      var l := ls[0];
      assert l in ls && forall x :: x in ls <==> x == l || x in ls[1..];
      var few, all := Candidates(fast, l), Candidates(full, l);
      assert Narrows(j, l, few, all);
      EmitFailsIff(j, l, all, false);
      EmitMeaning(j, l, all);
      EmitMeaning(j, l, few);
      NarrowNoFailure(j, ls[1..], fast, full);
      assert AllSame(j, ls, fast, full) ==> SameMatches(j, l, few, all);
      if SameMatches(j, l, few, all) { DeclaredSameCounts(j, l, Matching(j, l, few), Matching(j, l, all)); }
    }
  }

  /** A pairing join over fewer candidates raises no error the nested loop does not, and yields its rows,
      with multiplicity, exactly when every left row keeps all its matches. */
  lemma NarrowJoinSameIff(j: Join, ls: seq<Row>, fast: Source, full: Source, column: nat)
    requires PairsUp(j) && j.rightWidth <= |j.scope|
    requires AllNarrow(j, ls, fast, full) && AllFill(j, ls, full, column) && !JoinStream(j, ls, full).fails
    ensures !JoinStream(j, ls, fast).fails
    ensures multiset(JoinStream(j, ls, fast).rows) == multiset(JoinStream(j, ls, full).rows) <==> AllSame(j, ls, fast, full)
  {
    hide JoinStream, AllNarrow, AllFill, AllSame;
    NarrowNoFailure(j, ls, fast, full);
    NarrowFills(j, ls, fast, full, column);
    NarrowTotals(j, ls, fast, full);
    StreamCount(j, ls, fast, column);
    StreamCount(j, ls, full, column);
    var c := |j.scope| - j.rightWidth + column;
    var few, all := JoinStream(j, ls, fast).rows, JoinStream(j, ls, full).rows;
    if multiset(few) == multiset(all) { FilterSameCount(row => Paired(c, row), few, all); }
  }

  // ---------------------------------------------------------------- hash join

  /** Left rows of their width, and pairs of the columns' types. */
  ghost predicate TypedInputs(j: Join, ls: seq<Row>, rs: seq<Row>) {
    forall l :: l in ls ==> |l| + j.rightWidth == |j.scope| && TypedPairs(j, l, rs)
  }

  ghost predicate TypedPairs(j: Join, l: Row, rs: seq<Row>) {
    forall r :: r in rs ==> TypedPair(j, l, r)
  }

  /** A pair ON accepts although its key columns hold opposite zeros. */
  ghost predicate Lost(j: Join, l: Row, r: Row, probe: nat, build: nat) {
    OnResult(j, l, r) == Ok(true) && ZerosOpposed(l, r, probe, build)
  }

  ghost predicate NoneLost(j: Join, l: Row, rs: seq<Row>, probe: nat, build: nat) {
    forall r :: r in rs ==> !Lost(j, l, r, probe, build)
  }

  /** ON accepts no pair with opposite zeros in the equated columns. */
  ghost predicate NoOpposedPair(j: Join, ls: seq<Row>, rs: seq<Row>, probe: nat, build: nat) {
    forall l :: l in ls ==> NoneLost(j, l, rs, probe, build)
  }

  /** The matches a bucket keeps: all of them, unless one is lost, and then fewer. */
  lemma {:induction false} BucketMatches(j: Join, l: Row, rs: seq<Row>, probe: nat, build: nat, key: ByteString)
    requires EquiOn(j, probe, build) && TypedPairs(j, l, rs) && KeyAt(l, probe) == Some(key)
    ensures Narrows(j, l, Bucket(rs, build, key), rs)
    ensures NoneLost(j, l, rs, probe, build) ==> Matching(j, l, Bucket(rs, build, key)) == Matching(j, l, rs)
    ensures |Matching(j, l, Bucket(rs, build, key))| <= |Matching(j, l, rs)|
    ensures !NoneLost(j, l, rs, probe, build) ==> |Matching(j, l, Bucket(rs, build, key))| < |Matching(j, l, rs)|
  {
    hide OnResult, KeyAt, TypedPair, EquiOn, ZerosOpposed;
    if rs != [] {
      assert rs[0] in rs && forall r :: r in rs <==> r == rs[0] || r in rs[1..];
      BucketMatches(j, l, rs[1..], probe, build, key);
      if OnResult(j, l, rs[0]) == Ok(true) { MatchSharesKey(j, l, rs[0], probe, build); }
      BucketUnfold(j, l, rs, build, key);
      hide Matching, Bucket;
    }
  }

  lemma BucketUnfold(j: Join, l: Row, rs: seq<Row>, build: nat, key: ByteString)
    requires rs != []
    ensures var few, all := Bucket(rs[1..], build, key), Matching(j, l, rs[1..]);
            var kept, matches := KeyAt(rs[0], build) == Some(key), OnResult(j, l, rs[0]) == Ok(true);
            && Bucket(rs, build, key) == (if kept then [rs[0]] else []) + few
            && Matching(j, l, rs) == (if matches then [rs[0]] else []) + all
            && Matching(j, l, Bucket(rs, build, key)) == (if kept && matches then [rs[0]] else []) + Matching(j, l, few)
  {
    hide OnResult, KeyAt;
    var few := Bucket(rs[1..], build, key);
    assert ([rs[0]] + few)[1..] == few;
  }

  lemma NullKeyMatchesNothing(j: Join, l: Row, rs: seq<Row>, probe: nat, build: nat)
    requires EquiOn(j, probe, build) && TypedPairs(j, l, rs) && KeyAt(l, probe).None?
    ensures Matching(j, l, rs) == [] && Matching(j, l, []) == [] && NoneLost(j, l, rs, probe, build)
  {
    hide OnResult, KeyAt, TypedPair, EquiOn, ZerosOpposed;
    MatchesAreAccepted(j, l, rs);
    var ms := Matching(j, l, rs);
    assert ms != [] ==> ms[0] in ms;
    forall r | r in rs && OnResult(j, l, r) == Ok(true) ensures false { MatchSharesKey(j, l, r, probe, build); }
  }

  /** Probing one left row's bucket. */
  lemma ProbeNarrows(j: Join, l: Row, rs: seq<Row>, probe: nat, build: nat)
    requires EquiOn(j, probe, build) && TypedPairs(j, l, rs)
    ensures var cs := Candidates(Bucketed(rs, build, probe), l);
            Narrows(j, l, cs, rs) && (SameMatches(j, l, cs, rs) <==> NoneLost(j, l, rs, probe, build)) &&
            (NoneLost(j, l, rs, probe, build) ==> Matching(j, l, cs) == Matching(j, l, rs))
  {
    hide Matching, Lost, TypedPair, EquiOn, KeyAt, Bucket;
    var cs := Candidates(Bucketed(rs, build, probe), l);
    if KeyAt(l, probe).Some? {
      BucketMatches(j, l, rs, probe, build, KeyAt(l, probe).value);
      SameCountSameSize(Matching(j, l, cs), Matching(j, l, rs));
    } else {
      NullKeyMatchesNothing(j, l, rs, probe, build);
    }
  }

  lemma KeysFill(j: Join, l: Row, rs: seq<Row>, probe: nat, build: nat)
    requires EquiOn(j, probe, build) && TypedPairs(j, l, rs) && |l| + j.rightWidth == |j.scope|
    ensures Matching(j, l, rs) != [] ==> build < j.rightWidth
    ensures build < j.rightWidth ==> MatchesFill(j, l, rs, build)
  {
    hide OnResult, EquiOn, EncodeValue, Matching;
    MatchesAreAccepted(j, l, rs);
    forall r | r in Matching(j, l, rs) ensures build < j.rightWidth && Paired(build, r) {
      MatchSharesKey(j, l, r, probe, build);
    }
    if Matching(j, l, rs) != [] { assert Matching(j, l, rs)[0] in Matching(j, l, rs); }
  }

  /** One left row: with no pair lost, probing its bucket yields what trying every row yields. */
  lemma ProbeEqualsLoop(j: Join, l: Row, rs: seq<Row>, probe: nat, build: nat)
    requires EquiOn(j, probe, build) && TypedPairs(j, l, rs) && NoErrors(j, l, rs) && NoneLost(j, l, rs, probe, build)
    ensures Emit(j, l, Candidates(Bucketed(rs, build, probe), l), false) == Emit(j, l, rs, false)
  {
    hide Emit, Matching, Declared, EquiOn, TypedPairs, NoneLost, OnResult, Candidates;
    ProbeNarrows(j, l, rs, probe, build);
    EmitMeaning(j, l, rs);
    EmitMeaning(j, l, Candidates(Bucketed(rs, build, probe), l));
  }

  lemma {:induction false} SameSequence(j: Join, ls: seq<Row>, rs: seq<Row>, probe: nat, build: nat)
    requires PairsUp(j) && EquiOn(j, probe, build) && TypedInputs(j, ls, rs) && NoOpposedPair(j, ls, rs, probe, build)
    requires !JoinStream(j, ls, Whole(rs)).fails
    ensures JoinStream(j, ls, Bucketed(rs, build, probe)) == JoinStream(j, ls, Whole(rs))
  {
    hide Emit, EquiOn, TypedPairs, NoErrors, NoneLost;
    if ls != [] {
      assert ls[0] in ls && forall l :: l in ls[1..] ==> l in ls;
      EmitFailsIff(j, ls[0], rs, false);
      ProbeEqualsLoop(j, ls[0], rs, probe, build);
      SameSequence(j, ls[1..], rs, probe, build);
    }
  }

  lemma AllProbesNarrow(j: Join, ls: seq<Row>, rs: seq<Row>, probe: nat, build: nat)
    requires EquiOn(j, probe, build) && TypedInputs(j, ls, rs)
    ensures AllNarrow(j, ls, Bucketed(rs, build, probe), Whole(rs))
    ensures AllSame(j, ls, Bucketed(rs, build, probe), Whole(rs)) <==> NoOpposedPair(j, ls, rs, probe, build)
    ensures AllFill(j, ls, Whole(rs), build)
  {
    hide EquiOn, TypedPairs, NoneLost, Narrows, SameMatches, MatchesFill;
    var fast, full := Bucketed(rs, build, probe), Whole(rs);
    EquiColumnInRange(j, probe, build);
    forall l | l in ls
      ensures Narrows(j, l, Candidates(fast, l), rs) && MatchesFill(j, l, rs, build)
      ensures SameMatches(j, l, Candidates(fast, l), rs) <==> NoneLost(j, l, rs, probe, build)
    {
      ProbeNarrows(j, l, rs, probe, build);
      KeysFill(j, l, rs, probe, build);
    }
  }

  lemma EquiColumnInRange(j: Join, probe: nat, build: nat)
    requires EquiOn(j, probe, build)
    ensures build < j.rightWidth <= |j.scope|
  {
    hide Resolve;
  }

  /** If the nested loop raises no error the hash join raises none; it yields the same sequence, and even
      the same rows in some order, exactly when ON accepts no pair with opposite zeros in the key columns. */
  lemma HashJoinEqualsNestedLoop(j: Join, ls: seq<Row>, rs: seq<Row>, probe: nat, build: nat)
    requires PairsUp(j) && EquiOn(j, probe, build) && TypedInputs(j, ls, rs)
    requires !JoinStream(j, ls, Whole(rs)).fails
    ensures !JoinStream(j, ls, Bucketed(rs, build, probe)).fails
    ensures JoinStream(j, ls, Bucketed(rs, build, probe)) == JoinStream(j, ls, Whole(rs)) <==> NoOpposedPair(j, ls, rs, probe, build)
    ensures multiset(JoinStream(j, ls, Bucketed(rs, build, probe)).rows) == multiset(JoinStream(j, ls, Whole(rs)).rows)
       <==> NoOpposedPair(j, ls, rs, probe, build)
  {
    hide JoinStream, TypedInputs, EquiOn, NoOpposedPair, AllNarrow, AllSame, AllFill;
    EquiColumnInRange(j, probe, build);
    AllProbesNarrow(j, ls, rs, probe, build);
    NarrowJoinSameIff(j, ls, Bucketed(rs, build, probe), Whole(rs), build);
    if NoOpposedPair(j, ls, rs, probe, build) { SameSequence(j, ls, rs, probe, build); }
  }

  /** `a.x = b.y` over two columns of one type. */
  function PairJoin(fpu: Fpu, ty: Type): Join {
    Join(fpu, Some(Binary(Eq, Column(ColumnRef(None, "x")), Column(ColumnRef(None, "y")))), InnerJoin,
         [ScopedColumn("a", "x", ty), ScopedColumn("b", "y", ty)], 1)
  }

  lemma PairJoinResolves(fpu: Fpu, ty: Type)
    ensures Resolve(PairJoin(fpu, ty).scope, ColumnRef(None, "x")) == Ok(0)
    ensures Resolve(PairJoin(fpu, ty).scope, ColumnRef(None, "y")) == Ok(1)
  {
    var scope, x, y := PairJoin(fpu, ty).scope, ColumnRef(None, "x"), ColumnRef(None, "y");
    ResolveIsOnlyMatch(scope, x);
    ResolveIsOnlyMatch(scope, y);
    assert OnlyMatch(scope, x, 0) && OnlyMatch(scope, y, 1);
  }

  lemma PairJoinIsEquality(fpu: Fpu, ty: Type)
    ensures PairJoin(fpu, ty).kind == InnerJoin && EquiOn(PairJoin(fpu, ty), 0, 0)
  {
    var j := PairJoin(fpu, ty);
    PairJoinResolves(fpu, ty);
    hide Resolve;
    assert j.on.value in Conjuncts(j.on.value) && IsEquality(j.on.value, 1, j.scope, 0, 0);
  }

  lemma PairJoinMatches(fpu: Fpu, ty: Type, a: Value, b: Value)
    requires CompareOp(fpu, Eq, a, b) == Ok(Bool(true)) && !a.Null? && !b.Null?
    ensures OnResult(PairJoin(fpu, ty), [a], [b]) == Ok(true)
  {
    PairJoinResolves(fpu, ty);
    hide Resolve, CompareOp;
    assert [a] + [b] == [a, b];
  }

  /** Keys are compared by their bits: a pair the ON predicate accepts because -0.0 = 0.0 is lost. */
  lemma HashJoinMissesNegativeZero(fpu: Fpu)
    ensures EquiOn(PairJoin(fpu, RealType), 0, 0)
    ensures JoinStream(PairJoin(fpu, RealType), [[Real(0)]], Whole([[Real(TWO_63)]])) == Stream([[Real(0), Real(TWO_63)]], false)
    ensures JoinStream(PairJoin(fpu, RealType), [[Real(0)]], Bucketed([[Real(TWO_63)]], 0, 0)) == Stream([], false)
  {
    var j := PairJoin(fpu, RealType);
    var l, r: Row := [Real(0)], [Real(TWO_63)];
    hide *;
    PairJoinIsEquality(fpu, RealType);
    ZerosCompareEqual(fpu);
    PairJoinMatches(fpu, RealType, Real(0), Real(TWO_63));
    ZeroKeysDiffer();
    assert l + r == [Real(0), Real(TWO_63)];
    OneLeftRow(j, l, Whole([r]));
    OneLeftRow(j, l, Bucketed([r], 0, 0));
    OnePair(j, l, r, 0, 0);
  }

  /** A pair ON accepts is found by the loop, and missed by the hash when the keys differ. */
  lemma OnePair(j: Join, l: Row, r: Row, probe: nat, build: nat)
    requires j.kind == InnerJoin && OnResult(j, l, r) == Ok(true) && KeyAt(l, probe) != KeyAt(r, build)
    ensures Emit(j, l, Candidates(Whole([r]), l), false) == Stream([l + r], false)
    ensures Emit(j, l, Candidates(Bucketed([r], build, probe), l), false) == Stream([], false)
  {
    hide OnResult, KeyAt;
    assert [r][1..] == [];
    assert KeyAt(l, probe).Some? ==> Bucket([r], build, KeyAt(l, probe).value) == [];
  }

  lemma OneLeftRow(j: Join, l: Row, src: Source)
    ensures JoinStream(j, [l], src) == Emit(j, l, Candidates(src, l), false)
  {
    hide Emit, Candidates;
    assert [l][1..] == [];
    var e := Emit(j, l, Candidates(src, l), false);
    assert e.rows + [] == e.rows;
  }

  lemma ZerosCompareEqual(fpu: Fpu)
    ensures CompareOp(fpu, Eq, Real(0), Real(TWO_63)) == Ok(Bool(true))
  {
  }

  lemma ZeroKeysDiffer()
    ensures KeyAt([Real(0)], 0) != KeyAt([Real(TWO_63)], 0)
  {
    hide EncodeValue;
    ZerosEncodeApart();
  }

  lemma ZerosEncodeApart()
    ensures EncodeValue(Real(0)) != EncodeValue(Real(TWO_63))
  {
    FixedWidthOrder(IDX_REAL, OrderedBits(0), OrderedBits(TWO_63));
    var a, b := EncodeValue(Real(0)), EncodeValue(Real(TWO_63));
    assert a == b ==> IsPrefix(a, b);
  }
}
