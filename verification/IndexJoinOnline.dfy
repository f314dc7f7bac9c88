/** Joins through an index while it is built: `find_index_join` (engine/executor.rs) does not look at the
    building flag, so a join meets every state the online build goes through. */
module IndexJoinOnline {
  import opened Bytes
  import opened Values
  import opened Expressions
  import opened AccessPaths
  import opened Sequences
  import opened IndexScans
  import opened JoinSpec
  import opened JoinNarrowing
  import opened JoinRefinement
  import OnlineIndex

  /** In every state of every run of writers, builders and the reclaimer, through any index of the catalog:
      the join raises no error the nested loop does not, and yields its rows, with multiplicity, exactly when
      every match is served. Through a finished index with no writer inside a row, exactly when no accepted
      pair has opposite zeros in the equated columns. */
  lemma JoinDuringBuild(states: seq<OnlineIndex.State>, steps: seq<OnlineIndex.Step>, n: nat, root: nat, t: Table,
                        keys: seq<ByteString>, j: Join, ls: seq<Row>, visible: (u64, u64) -> bool, probe: nat)
    requires OnlineIndex.IsRun(states, steps) && n <= |steps| && OnlineIndex.Shows(states[n], root, t, keys)
    requires IndexOn(j, states[n].catalog[root].columns, probe) && PairsUp(j) && forall l :: l in ls ==> TypedTableFor(j, l, t)
    requires !JoinStream(j, ls, Whole(ScannedRows(t, visible))).fails
    ensures var columns := states[n].catalog[root].columns;
            var fast, full := JoinStream(j, ls, Indexed(t, keys, columns, visible, probe)), JoinStream(j, ls, Whole(ScannedRows(t, visible)));
            && !fast.fails
            && (multiset(fast.rows) == multiset(full.rows) <==> EveryMatchServed(j, ls, t, keys, columns, visible, probe))
            && (!states[n].catalog[root].building &&
                (forall w :: w in states[n].pcs && states[n].pcs[w].Writing? ==> states[n].pcs[w].todo == {}) ==>
                (multiset(fast.rows) == multiset(full.rows) <==> NoOpposedPair(j, ls, ScannedRows(t, visible), probe, columns[0])))
  {
    hide JoinStream, EveryMatchServed, NoOpposedPair, TypedTableFor, EquiOn, IndexSound, IndexExact;
    var columns := states[n].catalog[root].columns;
    OnlineIndex.EveryIndexIsSound(states, steps, n, root, t, keys);
    IndexJoinEqualsNestedLoop(j, ls, t, keys, columns, visible, probe);
    if !states[n].catalog[root].building && (forall w :: w in states[n].pcs && states[n].pcs[w].Writing? ==> states[n].pcs[w].todo == {}) {
      OnlineIndex.FinishedIndexServesScans(states, steps, n, root, t, keys);
      ExactIndexServes(j, ls, t, keys, columns, visible, probe);
    }
  }

  // ---------------------------------------------------------------- a join that meets an unfinished index

  /** `b(y INT)` with one committed row. */
  function OneRow(n: i64): Table {
    Table("b", [SchemaColumn("y", IntType, false)], [ROW_KEY], map[ROW_KEY := StoredRow(1, 0, [Int(n)])])
  }

  const BUILDING: Index := Index(5, [0], true)

  function BeforeCreate(n: i64): OnlineIndex.State {
    OnlineIndex.State(1, OneRow(n).rows, map[], map[0 := OnlineIndex.Idle])
  }

  function AfterCreate(n: i64): OnlineIndex.State {
    OnlineIndex.State(1, OneRow(n).rows, map[5 := OnlineIndex.Entry([0], true, {})], map[0 := OnlineIndex.Created(5)])
  }

  lemma CreateRun(n: i64)
    ensures OnlineIndex.IsRun([BeforeCreate(n), AfterCreate(n)], [OnlineIndex.Create(0, 5, [0])])
    ensures OnlineIndex.Shows(AfterCreate(n), 5, OneRow(n), [])
  {
    NoIndexYet(n);
    CreateStep(n);
    NothingIndexed(n);
    hide OnlineIndex.Inv, OnlineIndex.Enabled, OnlineIndex.Apply, OnlineIndex.Shows, OneRow;
  }

  lemma NoIndexYet(n: i64)
    ensures OnlineIndex.Inv(BeforeCreate(n))
  {
  }

  lemma CreateStep(n: i64)
    ensures OnlineIndex.Enabled(BeforeCreate(n), OnlineIndex.Create(0, 5, [0]))
    ensures OnlineIndex.Apply(BeforeCreate(n), OnlineIndex.Create(0, 5, [0])) == AfterCreate(n)
  {
  }

  lemma NothingIndexed(n: i64)
    ensures OnlineIndex.Shows(AfterCreate(n), 5, OneRow(n), [])
  {
  }

  lemma PlannerPicksBuilding(fpu: Fpu)
    ensures FindIndexJoin(PairJoin(fpu, IntType).on.value, 1, PairJoin(fpu, IntType).scope, [BUILDING])
         == Some((Column(ColumnRef(None, "x")), BUILDING))
  {
    PairJoinResolves(fpu, IntType);
    hide Resolve;
  }

  /** After the first phase of CREATE INDEX the planner already picks the index, the table holds a row that
      joins, the nested loop finds it and the index join does not. */
  lemma BuildingIndexMissesRow(fpu: Fpu, n: i64, visible: (u64, u64) -> bool)
    requires visible(1, 0)
    ensures OnlineIndex.IsRun([BeforeCreate(n), AfterCreate(n)], [OnlineIndex.Create(0, 5, [0])])
    ensures OnlineIndex.Shows(AfterCreate(n), 5, OneRow(n), []) && AfterCreate(n).catalog[5].building
    ensures FindIndexJoin(PairJoin(fpu, IntType).on.value, 1, PairJoin(fpu, IntType).scope, [BUILDING])
         == Some((Column(ColumnRef(None, "x")), BUILDING))
    ensures JoinStream(PairJoin(fpu, IntType), [[Int(n)]], Whole(ScannedRows(OneRow(n), visible))) == Stream([[Int(n), Int(n)]], false)
    ensures JoinStream(PairJoin(fpu, IntType), [[Int(n)]], Indexed(OneRow(n), [], [0], visible, 0)) == Stream([], false)
  {
    CreateRun(n);
    PlannerPicksBuilding(fpu);
    ScannedRow(n, visible);
    EmptyLookup(n, visible);
    var j, l: Row := PairJoin(fpu, IntType), [Int(n)];
    assert l + l == [Int(n), Int(n)] && j.kind == InnerJoin;
    hide *;
    IntsEqual(fpu, n);
    PairJoinMatches(fpu, IntType, Int(n), Int(n));
    OneLeftRow(j, l, Whole([l]));
    OneLeftRow(j, l, Indexed(OneRow(n), [], [0], visible, 0));
    OneMatch(j, l, l);
    NoCandidate(j, l);
  }

  lemma IntsEqual(fpu: Fpu, n: i64)
    ensures CompareOp(fpu, Eq, Int(n), Int(n)) == Ok(Bool(true))
  {
  }

  lemma ScannedRow(n: i64, visible: (u64, u64) -> bool)
    requires visible(1, 0)
    ensures ScannedRows(OneRow(n), visible) == [[Int(n)]]
  {
    var t := OneRow(n);
    var f := id => VisibleIn(t, visible, id);
    assert t.ids[0] == ROW_KEY && t.ids[1..] == [] && f(ROW_KEY);
    assert Filter(f, t.ids) == [ROW_KEY] + Filter(f, t.ids[1..]);
    assert VisibleIds(t, visible, t.ids) == [ROW_KEY];
  }

  lemma EmptyLookup(n: i64, visible: (u64, u64) -> bool)
    ensures Candidates(Indexed(OneRow(n), [], [0], visible, 0), [Int(n)]) == []
  {
  }

  lemma OneMatch(j: Join, l: Row, r: Row)
    requires j.kind == InnerJoin && OnResult(j, l, r) == Ok(true)
    ensures Emit(j, l, Candidates(Whole([r]), l), false) == Stream([l + r], false)
  {
    hide OnResult;
    assert [r][1..] == [];
  }

  lemma NoCandidate(j: Join, l: Row)
    requires j.kind == InnerJoin
    ensures Emit(j, l, [], false) == Stream([], false)
  {
  }
}
