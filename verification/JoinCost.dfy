/** What the planner's cost of a join order is (`score_ordering` in engine/planner.rs), and why a tied order
    beats one that starts with a cross product. */
module JoinCost {
  import opened Sequences
  import opened JoinOrder

  /** A table's row count; an empty table counts as one row. */
  function RowCount(sizes: seq<nat>, table: nat): nat {
    if table < |sizes| && sizes[table] > 1 then sizes[table] else 1
  }

  /** The predicate's tables are the one joined at step `s`, at least one joined before, and none joined later. */
  ghost predicate LinksStep(ord: seq<nat>, tables: set<nat>, s: nat)
    requires s < |ord|
  {
    && ord[s] in tables && (exists k :: 0 <= k < s && ord[k] in tables)
    && forall t :: t in tables ==> exists k :: 0 <= k <= s && ord[k] == t
  }

  /** Some predicate links the table joined at step `s` to those before it. */
  ghost predicate TiedStep(ord: seq<nat>, refs: seq<set<nat>>, s: nat) {
    s < |ord| && exists i :: 0 <= i < |refs| && LinksStep(ord, refs[i], s)
  }

  ghost predicate AllTied(ord: seq<nat>, refs: seq<set<nat>>) {
    forall s :: 1 <= s < |ord| ==> TiedStep(ord, refs, s)
  }

  /** 128-bit saturating arithmetic stops at the maximum. */
  function Saturated(n: nat): (r: nat)
    ensures r <= n && r <= U128_MAX && (r == n || r == U128_MAX)
  {
    if n <= U128_MAX then n else U128_MAX
  }

  function Sum(xs: seq<nat>): nat {
    if xs == [] then 0 else Sum(xs[..|xs| - 1]) + xs[|xs| - 1]
  }

  /** The size of the intermediate result after step `s`: a tied table leaves the larger of the two sizes,
      an untied one multiplies. */
  ghost predicate Grows(ord: seq<nat>, sizes: seq<nat>, refs: seq<set<nat>>, est: seq<nat>, s: nat)
    requires 1 <= s < |ord| && s < |est|
  {
    var before, table := est[s - 1], RowCount(sizes, ord[s]);
    if TiedStep(ord, refs, s) then est[s] >= before && est[s] >= table && (est[s] == before || est[s] == table)
    else est[s] == Saturated(before * table)
  }

  /** The sizes of the intermediate results, one per table joined. */
  ghost predicate Estimates(ord: seq<nat>, sizes: seq<nat>, refs: seq<set<nat>>, est: seq<nat>) {
    && |est| <= |ord| && est != [] && est[0] == RowCount(sizes, ord[0])
    && forall s :: 1 <= s < |est| ==> Grows(ord, sizes, refs, est, s)
  }

  lemma JoinedStep(ord: seq<nat>, s: nat)
    requires s + 1 < |ord|
    ensures Joined(ord, s + 1) == Joined(ord, s) + {ord[s + 1]}
  {
  }

  /** The planner's mask test is the tie. */
  lemma ConnectedIsTied(ord: seq<nat>, refs: seq<set<nat>>, s: nat)
    requires 1 <= s < |ord|
    ensures Connected(refs, Joined(ord, s - 1), ord[s]) <==> TiedStep(ord, refs, s)
  {
    var joined := Joined(ord, s - 1);
    assert forall t :: t in joined <==> exists k :: 0 <= k < s && ord[k] == t;
    forall i | 0 <= i < |refs| ensures JoinOrder.Ties(refs[i], joined, ord[s]) <==> LinksStep(ord, refs[i], s) {
      TiesIsLink(ord, refs[i], s);
    }
  }

  lemma TiesIsLink(ord: seq<nat>, r: set<nat>, s: nat)
    requires 1 <= s < |ord|
    ensures JoinOrder.Ties(r, Joined(ord, s - 1), ord[s]) <==> LinksStep(ord, r, s)
  {
    var joined := Joined(ord, s - 1);
    if r * joined != {} {
      var t :| t in r * joined;
      var k :| 0 <= k < s && ord[k] == t;
    }
    if k :| 0 <= k < s && ord[k] in r { assert ord[k] in r * joined; }
    forall t ensures t in joined + {ord[s]} <==> exists k :: 0 <= k <= s && ord[k] == t {
      if k :| 0 <= k <= s && ord[k] == t { assert k < s ==> ord[k] in joined; }
    }
  }

  lemma SaturatedSum(a: nat, b: nat)
    ensures Min(Saturated(a) + b, U128_MAX) == Saturated(a + b)
  {
  }

  lemma SumSnoc(xs: seq<nat>, x: nat)
    ensures Sum(xs + [x]) == Sum(xs) + x
  {
    assert (xs + [x])[..|xs|] == xs;
  }

  /** From step `s` on, the cost loop continues the estimates. */
  lemma {:induction false} CostFromEstimates(ord: seq<nat>, sizes: seq<nat>, refs: seq<set<nat>>, s: nat, est: seq<nat>)
    returns (all: seq<nat>)
    requires 1 <= s <= |ord| && |est| == s && Estimates(ord, sizes, refs, est)
    ensures |all| == |ord| && Estimates(ord, sizes, refs, all)
    ensures CostFrom(ord[s..], sizes, refs, Joined(ord, s - 1), est[s - 1], Saturated(Sum(est[1..]))) == Saturated(Sum(all[1..]))
    decreases |ord| - s
  {
    hide Connected, Estimates, RowCount, SizeOf, Joined, Saturated, Sum;
    if s == |ord| {
      all := est;
      assert ord[s..] == [];
    } else {
      var grown := if Connected(refs, Joined(ord, s - 1), ord[s])
                   then Max(est[s - 1], RowCount(sizes, ord[s])) else Min(est[s - 1] * RowCount(sizes, ord[s]), U128_MAX);
      EstimateStep(ord, sizes, refs, est, grown);
      CostFromStep(ord, sizes, refs, s, est[s - 1], Saturated(Sum(est[1..])));
      SizeIsRowCount(sizes, ord[s]);
      hide CostFrom, Max, Min;
      all := CostFromEstimates(ord, sizes, refs, s + 1, est + [grown]);
      assert (est + [grown])[1..] == est[1..] + [grown];
      SumSnoc(est[1..], grown);
      SaturatedSum(Sum(est[1..]), grown);
    }
  }

  lemma CostFromStep(ord: seq<nat>, sizes: seq<nat>, refs: seq<set<nat>>, s: nat, rows: nat, cost: nat)
    requires 1 <= s < |ord|
    ensures var table := SizeOf(sizes, ord[s]);
            var grown := if Connected(refs, Joined(ord, s - 1), ord[s]) then Max(rows, table) else Min(rows * table, U128_MAX);
            CostFrom(ord[s..], sizes, refs, Joined(ord, s - 1), rows, cost) ==
            CostFrom(ord[s + 1..], sizes, refs, Joined(ord, s), grown, Min(cost + grown, U128_MAX))
  {
    hide Connected, SizeOf;
    JoinedStep(ord, s - 1);
    assert ord[s..][0] == ord[s] && ord[s..][1..] == ord[s + 1..];
  }

  lemma SizeIsRowCount(sizes: seq<nat>, table: nat)
    ensures SizeOf(sizes, table) == RowCount(sizes, table)
  {
  }

  lemma EstimateStep(ord: seq<nat>, sizes: seq<nat>, refs: seq<set<nat>>, est: seq<nat>, grown: nat)
    requires 1 <= |est| < |ord| && Estimates(ord, sizes, refs, est)
    requires var s := |est|; var table := RowCount(sizes, ord[s]);
             grown == if Connected(refs, Joined(ord, s - 1), ord[s]) then Max(est[s - 1], table) else Min(est[s - 1] * table, U128_MAX)
    ensures Estimates(ord, sizes, refs, est + [grown])
  {
    ConnectedIsTied(ord, refs, |est|);
    hide Connected, TiedStep, RowCount;
    var more := est + [grown];
    forall k | 1 <= k < |more| ensures Grows(ord, sizes, refs, more, k) {
      if k < |est| { assert Grows(ord, sizes, refs, est, k); }
    }
  }

  /** The cost of an order is the saturated sum of the sizes of its intermediate results. */
  lemma CostIsSum(ord: seq<nat>, sizes: seq<nat>, refs: seq<set<nat>>) returns (est: seq<nat>)
    requires ord != []
    ensures |est| == |ord| && Estimates(ord, sizes, refs, est)
    ensures Cost(ord, sizes, refs) == Saturated(Sum(est[1..]))
  {
    var first := [RowCount(sizes, ord[0])];
    assert Joined(ord, 0) == {ord[0]};
    assert first[1..] == [] && Sum([]) == 0;
    est := CostFromEstimates(ord, sizes, refs, 1, first);
  }

  // ---------------------------------------------------------------- tied orders

  /** With every step tied an intermediate result is the largest table so far. */
  lemma {:induction false} TiedIsLargest(ord: seq<nat>, sizes: seq<nat>, refs: seq<set<nat>>, est: seq<nat>, s: nat)
    requires Estimates(ord, sizes, refs, est) && AllTied(ord, refs) && s < |est|
    ensures forall k :: 0 <= k <= s ==> RowCount(sizes, ord[k]) <= est[s]
    ensures exists k :: 0 <= k <= s && RowCount(sizes, ord[k]) == est[s]
  {
    hide TiedStep, RowCount;
    if s > 0 {
      TiedIsLargest(ord, sizes, refs, est, s - 1);
      var k :| 0 <= k <= s - 1 && RowCount(sizes, ord[k]) == est[s - 1];
      assert Grows(ord, sizes, refs, est, s) && TiedStep(ord, refs, s);
      assert est[s] == RowCount(sizes, ord[k]) || est[s] == RowCount(sizes, ord[s]);
    }
  }

  lemma {:induction false} SumBound(xs: seq<nat>, bound: nat)
    requires forall i :: 0 <= i < |xs| ==> xs[i] <= bound
    ensures Sum(xs) <= |xs| * bound
  {
    if xs != [] {
      var n := |xs| - 1;
      SumBound(xs[..n], bound);
      assert |xs| * bound == n * bound + bound;
    }
  }

  lemma {:induction false} SumAtLeastFirst(xs: seq<nat>)
    requires xs != []
    ensures xs[0] <= Sum(xs)
  {
    if |xs| > 1 { SumAtLeastFirst(xs[..|xs| - 1]); }
  }

  /** An order whose every step is tied costs the sum of its running largest tables, so at most the number
      of steps times the largest table. */
  lemma TiedOrderCost(ord: seq<nat>, sizes: seq<nat>, refs: seq<set<nat>>, largest: nat) returns (est: seq<nat>)
    requires ord != [] && AllTied(ord, refs) && forall k :: 0 <= k < |ord| ==> RowCount(sizes, ord[k]) <= largest
    ensures |est| == |ord| && Cost(ord, sizes, refs) == Saturated(Sum(est[1..]))
    ensures forall s :: 0 <= s < |est| ==> exists k :: 0 <= k <= s && RowCount(sizes, ord[k]) == est[s]
    ensures forall s, k :: 0 <= k <= s < |est| ==> RowCount(sizes, ord[k]) <= est[s]
    ensures Cost(ord, sizes, refs) <= (|ord| - 1) * largest
  {
    hide Cost, AllTied, Estimates, RowCount;
    est := CostIsSum(ord, sizes, refs);
    forall s | 0 <= s < |est|
      ensures forall k :: 0 <= k <= s ==> RowCount(sizes, ord[k]) <= est[s]
      ensures exists k :: 0 <= k <= s && RowCount(sizes, ord[k]) == est[s]
    {
      TiedIsLargest(ord, sizes, refs, est, s);
    }
    forall i | 0 <= i < |est[1..]| ensures est[1..][i] <= largest {
      var k :| 0 <= k <= i + 1 && RowCount(sizes, ord[k]) == est[i + 1];
    }
    SumBound(est[1..], largest);
  }

  /** An order whose first step is a cross product costs at least the product of its first two tables. */
  lemma CrossProductCost(ord: seq<nat>, sizes: seq<nat>, refs: seq<set<nat>>)
    requires |ord| >= 2 && !TiedStep(ord, refs, 1)
    ensures Cost(ord, sizes, refs) >= Saturated(RowCount(sizes, ord[0]) * RowCount(sizes, ord[1]))
  {
    hide Cost, TiedStep, RowCount;
    var est := CostIsSum(ord, sizes, refs);
    assert Grows(ord, sizes, refs, est, 1);
    SumAtLeastFirst(est[1..]);
  }

  /** When some order is tied throughout and its steps together stay below every product of two tables, a
      cheapest order does not start with a cross product. */
  lemma CheapestStartsTied(best: seq<nat>, tied: seq<nat>, sizes: seq<nat>, refs: seq<set<nat>>, largest: nat)
    requires |best| >= 2 && tied != [] && Cost(best, sizes, refs) <= Cost(tied, sizes, refs)
    requires AllTied(tied, refs) && forall k :: 0 <= k < |tied| ==> RowCount(sizes, tied[k]) <= largest
    requires (|tied| - 1) * largest < RowCount(sizes, best[0]) * RowCount(sizes, best[1])
    requires (|tied| - 1) * largest < U128_MAX
    ensures TiedStep(best, refs, 1)
  {
    hide Cost, AllTied, TiedStep, RowCount;
    var _ := TiedOrderCost(tied, sizes, refs, largest);
    if !TiedStep(best, refs, 1) { CrossProductCost(best, sizes, refs); }
  }

  /** Three tables of ten rows, predicates between the first and the third and between the second and the
      third: starting with the first two costs 200, starting with a tied pair 20. */
  lemma ThreeTables()
    ensures Cost([0, 1, 2], [10, 10, 10], [{0, 2}, {1, 2}]) == 200 && Cost([0, 2, 1], [10, 10, 10], [{0, 2}, {1, 2}]) == 20
  {
    var sizes: seq<nat>, refs: seq<set<nat>> := [10, 10, 10], [{0, 2}, {1, 2}];
    var a: seq<nat>, b: seq<nat> := [0, 1, 2], [0, 2, 1];
    assert a[1..] == [1, 2] && b[1..] == [2, 1] && a[1..][1..] == [2] && b[1..][1..] == [1];
    assert a[1..][1..][1..] == [] && b[1..][1..][1..] == [];
    ThreeTies(refs);
    hide Connected;
    assert {0} + {1} == {0, 1} && {0} + {2} == {0, 2};
    assert Cost(a, sizes, refs) == CostFrom(a[1..], sizes, refs, {0}, 10, 0) == CostFrom([2], sizes, refs, {0, 1}, 100, 100);
    assert Cost(b, sizes, refs) == CostFrom(b[1..], sizes, refs, {0}, 10, 0) == CostFrom([1], sizes, refs, {0, 2}, 10, 10);
    assert CostFrom([2], sizes, refs, {0, 1}, 100, 100) == CostFrom([2][1..], sizes, refs, {0, 1} + {2}, 100, 200) == 200;
  }

  lemma ThreeTies(refs: seq<set<nat>>)
    requires refs == [{0, 2}, {1, 2}]
    ensures !Connected(refs, {0}, 1) && Connected(refs, {0, 1}, 2) && Connected(refs, {0}, 2) && Connected(refs, {0, 2}, 1)
  {
    assert !JoinOrder.Ties(refs[0], {0}, 1) && !JoinOrder.Ties(refs[1], {0}, 1);
    assert 0 in refs[0] * {0, 1} && JoinOrder.Ties(refs[0], {0, 1}, 2);
    assert 0 in refs[0] * {0} && JoinOrder.Ties(refs[0], {0}, 2);
    assert 2 in refs[1] * {0, 2} && JoinOrder.Ties(refs[1], {0, 2}, 1);
  }
}
