/** The rows of a left-deep INNER chain, and why every order and every sound placement of its predicates
    yields the same rows (`reorder_inner_chain` in engine/planner.rs). */
module JoinChain {
  import opened Bytes
  import opened Values
  import opened Expressions
  import opened AccessPaths
  import opened Sequences
  import opened JoinSpec
  import opened JoinOrder
  import opened JoinReorder

  /** A chain: its tables, the order they are joined in, and the ON clause of each step after the first. */
  datatype Chain = Chain(fpu: Fpu, tables: seq<ChainTable>, ord: seq<nat>, ons: seq<Expr>)

  ghost predicate ValidChain(c: Chain) {
    ValidTables(c.tables) && c.ord != [] && |c.ons| == |c.ord| - 1 && PartialOrder(c.ord, |c.tables|)
  }

  function RowsAtSlot(c: Chain, s: nat): seq<Row> {
    if s < |c.ord| && c.ord[s] < |c.tables| then c.tables[c.ord[s]].rows else []
  }

  /** The join of step `s`: everything before it on the left, table `ord[s]` on the right. */
  ghost function StepJoin(c: Chain, s: nat): Join
    requires ValidChain(c) && 1 <= s < |c.ord|
  {
    Join(c.fpu, Some(c.ons[s - 1]), InnerJoin, ScopeOf(Take(c.tables, c.ord[..s + 1])), |c.tables[c.ord[s]].schema|)
  }

  /** The first `k` tables joined; an error anywhere makes the chain fail. */
  ghost function ChainStream(c: Chain, k: nat): Stream
    requires ValidChain(c) && 1 <= k <= |c.ord|
  {
    if k == 1 then Stream(RowsAtSlot(c, 0), false)
    else
      var left := ChainStream(c, k - 1);
      var joined := JoinStream(StepJoin(c, k - 1), left.rows, Whole(RowsAtSlot(c, k - 1)));
      Stream(joined.rows, left.fails || joined.fails)
  }

  // ---------------------------------------------------------------- positions

  /** A choice of one row position in each of the first `|p|` tables of the order. */
  ghost predicate InRange(c: Chain, p: seq<nat>) {
    |p| <= |c.ord| && forall s :: 0 <= s < |p| ==> p[s] < |RowsAtSlot(c, s)|
  }

  ghost function PartsAt(c: Chain, p: seq<nat>): (r: seq<Row>)
    requires InRange(c, p)
    ensures |r| == |p| && forall s :: 0 <= s < |r| ==> r[s] == RowsAtSlot(c, s)[p[s]]
  {
    seq(|p|, s requires 0 <= s < |p| => RowsAtSlot(c, s)[p[s]])
  }

  ghost function RowAt(c: Chain, p: seq<nat>): Row {
    if InRange(c, p) then Flatten(PartsAt(c, p)) else []
  }

  ghost function RowsAt(c: Chain, ps: seq<seq<nat>>): (r: seq<Row>)
    ensures |r| == |ps| && forall i :: 0 <= i < |r| ==> r[i] == RowAt(c, ps[i])
  {
    seq(|ps|, i requires 0 <= i < |ps| => RowAt(c, ps[i]))
  }

  /** Step `s` accepts row `r` of its table after the choice `p`. */
  ghost predicate Accepts(c: Chain, s: nat, p: seq<nat>, r: nat)
    requires ValidChain(c) && 1 <= s < |c.ord| && r < |RowsAtSlot(c, s)|
  {
    OnResult(StepJoin(c, s), RowAt(c, p), RowsAtSlot(c, s)[r]) == Ok(true)
  }

  ghost function ExtendFrom(c: Chain, s: nat, p: seq<nat>, r: nat): seq<seq<nat>>
    requires ValidChain(c) && 1 <= s < |c.ord| && r <= |RowsAtSlot(c, s)|
    decreases |RowsAtSlot(c, s)| - r
  {
    if r == |RowsAtSlot(c, s)| then []
    else if Accepts(c, s, p, r) then [p + [r]] + ExtendFrom(c, s, p, r + 1)
    else ExtendFrom(c, s, p, r + 1)
  }

  ghost function ExtendAll(c: Chain, s: nat, ps: seq<seq<nat>>): seq<seq<nat>>
    requires ValidChain(c) && 1 <= s < |c.ord|
  {
    if ps == [] then [] else ExtendFrom(c, s, ps[0], 0) + ExtendAll(c, s, ps[1..])
  }

  function Singletons(n: nat): (r: seq<seq<nat>>)
    ensures |r| == n && forall i :: 0 <= i < n ==> r[i] == [i]
  {
    seq(n, i requires 0 <= i => [i])
  }

  /** The choices the chain keeps after `k` tables, in the order it yields them. */
  ghost function Kept(c: Chain, k: nat): seq<seq<nat>>
    requires ValidChain(c) && 1 <= k <= |c.ord|
  {
    if k == 1 then Singletons(|RowsAtSlot(c, 0)|) else ExtendAll(c, k - 1, Kept(c, k - 1))
  }

  // ---------------------------------------------------------------- positions yield the rows

  lemma RowAtSnoc(c: Chain, p: seq<nat>, r: nat)
    requires InRange(c, p + [r])
    ensures RowAt(c, p + [r]) == RowAt(c, p) + RowsAtSlot(c, |p|)[r]
  {
    var q := p + [r];
    assert forall s :: 0 <= s < |p| ==> q[s] == p[s];
    assert q[|p|] == r;
    var last := RowsAtSlot(c, |p|)[r];
    assert PartsAt(c, q) == PartsAt(c, p) + [last];
    FlattenConcat(PartsAt(c, p), [last]);
    assert [last][1..] == [] && Flatten([last]) == last;
  }

  lemma {:induction false} ExtendRows(c: Chain, s: nat, p: seq<nat>, r: nat)
    requires ValidChain(c) && 1 <= s < |c.ord| && r <= |RowsAtSlot(c, s)| && InRange(c, p) && |p| == s
    ensures RowsAt(c, ExtendFrom(c, s, p, r)) == Pairs(RowAt(c, p), Matching(StepJoin(c, s), RowAt(c, p), RowsAtSlot(c, s)[r..]))
    decreases |RowsAtSlot(c, s)| - r
  {
    hide RowAt, OnResult, StepJoin, RowsAtSlot, ValidChain;
    var rows, l := RowsAtSlot(c, s), RowAt(c, p);
    if r < |rows| {
      ExtendRows(c, s, p, r + 1);
      assert rows[r..][0] == rows[r] && rows[r..][1..] == rows[r + 1..];
      if Accepts(c, s, p, r) {
        var rest, ms := ExtendFrom(c, s, p, r + 1), Matching(StepJoin(c, s), l, rows[r + 1..]);
        assert InRange(c, p + [r]);
        RowAtSnoc(c, p, r);
        assert RowsAt(c, [p + [r]] + rest) == [RowAt(c, p + [r])] + RowsAt(c, rest);
        assert ([rows[r]] + ms)[1..] == ms;
      }
    }
  }

  lemma {:induction false} ExtendAllRows(c: Chain, s: nat, ps: seq<seq<nat>>)
    requires ValidChain(c) && 1 <= s < |c.ord|
    requires forall i :: 0 <= i < |ps| ==> InRange(c, ps[i]) && |ps[i]| == s
    requires !JoinStream(StepJoin(c, s), RowsAt(c, ps), Whole(RowsAtSlot(c, s))).fails
    ensures RowsAt(c, ExtendAll(c, s, ps)) == JoinStream(StepJoin(c, s), RowsAt(c, ps), Whole(RowsAtSlot(c, s))).rows
  {
    assert StepJoin(c, s).kind == InnerJoin;
    if ps == [] { return; }
    hide *;
    var j, rows, rest := StepJoin(c, s), RowsAtSlot(c, s), RowsAt(c, ps[1..]);
    RowsAtConcat(c, [ps[0]], ps[1..]);
    assert ps == [ps[0]] + ps[1..] && RowsAt(c, [ps[0]]) == [RowAt(c, ps[0])];
    InnerStep(j, RowAt(c, ps[0]), rest, rows);
    ExtendAllRows(c, s, ps[1..]);
    ExtendRows(c, s, ps[0], 0);
    assert rows[0..] == rows;
    ExtendAllStep(c, s, ps);
    RowsAtConcat(c, ExtendFrom(c, s, ps[0], 0), ExtendAll(c, s, ps[1..]));
  }

  lemma ExtendAllStep(c: Chain, s: nat, ps: seq<seq<nat>>)
    requires ValidChain(c) && 1 <= s < |c.ord| && ps != []
    ensures ExtendAll(c, s, ps) == ExtendFrom(c, s, ps[0], 0) + ExtendAll(c, s, ps[1..])
  {
  }

  lemma RowsAtConcat(c: Chain, a: seq<seq<nat>>, b: seq<seq<nat>>)
    ensures RowsAt(c, a + b) == RowsAt(c, a) + RowsAt(c, b)
  {
  }

  /** One left row of an error-free INNER join. */
  lemma InnerStep(j: Join, l: Row, rest: seq<Row>, rows: seq<Row>)
    requires j.kind == InnerJoin && !JoinStream(j, [l] + rest, Whole(rows)).fails
    ensures !JoinStream(j, rest, Whole(rows)).fails
    ensures JoinStream(j, [l] + rest, Whole(rows)).rows == Pairs(l, Matching(j, l, rows)) + JoinStream(j, rest, Whole(rows)).rows
  {
    hide Emit, NoErrors;
    assert ([l] + rest)[1..] == rest && Candidates(Whole(rows), l) == rows;
    EmitFailsIff(j, l, rows, false);
    EmitMeaning(j, l, rows);
  }

  lemma {:induction false} ExtendInRange(c: Chain, s: nat, p: seq<nat>, r: nat, q: seq<nat>)
    requires ValidChain(c) && 1 <= s < |c.ord| && r <= |RowsAtSlot(c, s)| && |p| == s
    ensures q in ExtendFrom(c, s, p, r) <==>
              |q| == s + 1 && q[..s] == p && r <= q[s] < |RowsAtSlot(c, s)| && Accepts(c, s, p, q[s])
    decreases |RowsAtSlot(c, s)| - r
  {
    hide Accepts, RowsAtSlot, ValidChain;
    if r < |RowsAtSlot(c, s)| {
      ExtendInRange(c, s, p, r + 1, q);
      assert |q| == s + 1 && q[..s] == p ==> (q[s] == r <==> q == p + [r]);
      assert q == p + [r] ==> |q| == s + 1 && q[..s] == p && q[s] == r;
    }
  }

  lemma {:induction false} ExtendAllMembers(c: Chain, s: nat, ps: seq<seq<nat>>, q: seq<nat>)
    requires ValidChain(c) && 1 <= s < |c.ord|
    requires forall i :: 0 <= i < |ps| ==> |ps[i]| == s
    ensures q in ExtendAll(c, s, ps) <==>
              |q| == s + 1 && q[..s] in ps && q[s] < |RowsAtSlot(c, s)| && Accepts(c, s, q[..s], q[s])
  {
    hide Accepts, RowsAtSlot, ValidChain, ExtendFrom;
    if ps != [] {
      ExtendInRange(c, s, ps[0], 0, q);
      ExtendAllMembers(c, s, ps[1..], q);
    }
  }

  /** Step `s` accepts the choice `p` makes for it. */
  ghost predicate StepOk(c: Chain, p: seq<nat>, s: nat)
    requires ValidChain(c) && 1 <= s < |c.ord|
  {
    s < |p| && p[s] < |RowsAtSlot(c, s)| && Accepts(c, s, p[..s], p[s])
  }

  /** What the chain keeps after `k` tables: the choices every step accepts. */
  lemma {:induction false} KeptMembers(c: Chain, k: nat, q: seq<nat>)
    requires ValidChain(c) && 1 <= k <= |c.ord|
    ensures q in Kept(c, k) <==> |q| == k && InRange(c, q) && forall s :: 1 <= s < k ==> StepOk(c, q, s)
    ensures forall i :: 0 <= i < |Kept(c, k)| ==> |Kept(c, k)[i]| == k && InRange(c, Kept(c, k)[i])
  {
    hide Accepts, RowsAtSlot, ValidChain;
    if k == 1 {
      assert |q| == 1 ==> q == [q[0]];
      if |q| == 1 && q[0] < |RowsAtSlot(c, 0)| { assert Kept(c, 1)[q[0]] == q; }
    } else {
      var s, ps := k - 1, Kept(c, k - 1);
      KeptMembers(c, s, if |q| == k then q[..s] else []);
      KeptStep(c, s, q);
      forall i | 0 <= i < |Kept(c, k)| ensures |Kept(c, k)[i]| == k && InRange(c, Kept(c, k)[i]) {
        var x := Kept(c, k)[i];
        ExtendAllMembers(c, s, ps, x);
        KeptMembers(c, s, x[..s]);
        assert forall m :: 0 <= m < s ==> x[..s][m] == x[m];
      }
    }
  }

  lemma KeptStep(c: Chain, s: nat, q: seq<nat>)
    requires ValidChain(c) && 1 <= s < |c.ord|
    requires forall i :: 0 <= i < |Kept(c, s)| ==> |Kept(c, s)[i]| == s
    requires |q| == s + 1 ==>
      (q[..s] in Kept(c, s) <==> InRange(c, q[..s]) && forall m :: 1 <= m < s ==> StepOk(c, q[..s], m))
    ensures q in Kept(c, s + 1) <==> |q| == s + 1 && InRange(c, q) && forall m :: 1 <= m < s + 1 ==> StepOk(c, q, m)
  {
    hide Accepts, RowsAtSlot, ValidChain;
    ExtendAllMembers(c, s, Kept(c, s), q);
    if |q| == s + 1 {
      var p := q[..s];
      assert forall m :: 0 <= m < s ==> p[m] == q[m];
      assert forall m :: 0 <= m < s ==> p[..m] == q[..m];
      assert InRange(c, q) <==> InRange(c, p) && q[s] < |RowsAtSlot(c, s)|;
      assert forall m :: 1 <= m < s ==> (StepOk(c, p, m) <==> StepOk(c, q, m));
      assert StepOk(c, q, s) <==> q[s] < |RowsAtSlot(c, s)| && Accepts(c, s, p, q[s]);
    }
  }

  lemma {:induction false} ExtendDistinct(c: Chain, s: nat, p: seq<nat>, r: nat)
    requires ValidChain(c) && 1 <= s < |c.ord| && r <= |RowsAtSlot(c, s)| && |p| == s
    ensures Distinct(ExtendFrom(c, s, p, r))
    decreases |RowsAtSlot(c, s)| - r
  {
    hide Accepts, RowsAtSlot, ValidChain;
    if r < |RowsAtSlot(c, s)| {
      ExtendDistinct(c, s, p, r + 1);
      ExtendInRange(c, s, p, r + 1, p + [r]);
      assert (p + [r])[s] == r;
    }
  }

  lemma {:induction false} ExtendAllDistinct(c: Chain, s: nat, ps: seq<seq<nat>>)
    requires ValidChain(c) && 1 <= s < |c.ord| && Distinct(ps)
    requires forall i :: 0 <= i < |ps| ==> |ps[i]| == s
    ensures Distinct(ExtendAll(c, s, ps))
  {
    hide Accepts, RowsAtSlot, ValidChain, ExtendFrom;
    if ps != [] {
      var a, b := ExtendFrom(c, s, ps[0], 0), ExtendAll(c, s, ps[1..]);
      ExtendDistinct(c, s, ps[0], 0);
      ExtendAllDistinct(c, s, ps[1..]);
      forall i, j | 0 <= i < |a| && 0 <= j < |b| ensures a[i] != b[j] {
        ExtendInRange(c, s, ps[0], 0, a[i]);
        ExtendAllMembers(c, s, ps[1..], b[j]);
      }
    }
  }

  lemma {:induction false} KeptDistinct(c: Chain, k: nat)
    requires ValidChain(c) && 1 <= k <= |c.ord|
    ensures Distinct(Kept(c, k))
  {
    hide RowsAtSlot, ValidChain;
    if k > 1 {
      KeptDistinct(c, k - 1);
      KeptMembers(c, k - 1, []);
      ExtendAllDistinct(c, k - 1, Kept(c, k - 1));
    }
  }

  /** The chain's rows are those of the kept choices, in order. */
  lemma {:induction false} ChainRows(c: Chain, k: nat)
    requires ValidChain(c) && 1 <= k <= |c.ord| && !ChainStream(c, k).fails
    ensures RowsAt(c, Kept(c, k)) == ChainStream(c, k).rows
  {
    hide RowAt, StepJoin, RowsAtSlot, ValidChain, JoinStream;
    if k == 1 {
      forall i | 0 <= i < |RowsAtSlot(c, 0)| ensures RowAt(c, [i]) == RowsAtSlot(c, 0)[i] {
        FirstRow(c, i);
      }
    } else {
      ChainRows(c, k - 1);
      KeptMembers(c, k - 1, []);
      ExtendAllRows(c, k - 1, Kept(c, k - 1));
    }
  }

  lemma FirstRow(c: Chain, i: nat)
    requires ValidChain(c) && i < |RowsAtSlot(c, 0)|
    ensures RowAt(c, [i]) == RowsAtSlot(c, 0)[i]
  {
    assert InRange(c, []) && InRange(c, [] + [i]) && [] + [i] == [i];
    RowAtSnoc(c, [], i);
    assert RowAt(c, []) == [];
  }
}
