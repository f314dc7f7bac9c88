/** Choosing a join order and placing predicates (`permute`, `score_ordering`, `assign_predicates` and
    the search of `reorder_inner_chain` in engine/planner.rs). A bitmask of tables is a set here. */
module JoinOrder {
  import opened Sequences

  const U128_MAX: nat := 0xFFFF_FFFF_FFFF_FFFF_FFFF_FFFF_FFFF_FFFF

  function Min(a: nat, b: nat): nat { if a < b then a else b }
  function Max(a: nat, b: nat): nat { if a < b then b else a }

  // ---------------------------------------------------------------- enumeration

  function Swapped(s: seq<nat>, i: nat, j: nat): (r: seq<nat>)
    requires i < |s| && j < |s|
    ensures |r| == |s|
  {
    s[i := s[j]][j := s[i]]
  }

  /** The orderings `permute(items, k)` visits, in visiting order. */
  function Visits(s: seq<nat>, k: nat): seq<seq<nat>>
    requires k <= |s|
    decreases |s| - k, 1, 0
  {
    if k == |s| then [s] else VisitsFrom(s, k, k)
  }

  /** Those visited once position `k` has taken the elements at `i` and beyond. */
  function VisitsFrom(s: seq<nat>, k: nat, i: nat): seq<seq<nat>>
    requires k < |s| && k <= i <= |s|
    decreases |s| - k, 0, |s| - i
  {
    if i == |s| then [] else Visits(Swapped(s, k, i), k + 1) + VisitsFrom(s, k, i + 1)
  }

  lemma SwapBack(s: seq<nat>, i: nat, j: nat)
    requires i < |s| && j < |s|
    ensures Swapped(Swapped(s, i, j), i, j) == s
  {
  }

  lemma {:induction false} FirstVisited(s: seq<nat>, k: nat)
    requires k <= |s|
    ensures Visits(s, k) != [] && Visits(s, k)[0] == s
    decreases |s| - k
  {
    if k < |s| {
      assert Swapped(s, k, k) == s;
      FirstVisited(s, k + 1);
    }
  }

  lemma VisitedFromMember(s: seq<nat>, k: nat, i: nat, t: seq<nat>)
    requires k < |s| && k <= i < |s| && t in Visits(Swapped(s, k, i), k + 1)
    ensures forall h :: k <= h <= i ==> t in VisitsFrom(s, k, h)
    decreases |s| - i
  {
    forall h | k <= h <= i ensures t in VisitsFrom(s, k, h) { MemberFrom(s, k, h, i, t); }
  }

  lemma {:induction false} MemberFrom(s: seq<nat>, k: nat, h: nat, i: nat, t: seq<nat>)
    requires k < |s| && k <= h <= i < |s| && t in Visits(Swapped(s, k, i), k + 1)
    ensures t in VisitsFrom(s, k, h)
    decreases i - h
  {
    if h < i { MemberFrom(s, k, h + 1, i, t); }
  }

  lemma SwapSuffix(s: seq<nat>, k: nat, i: nat, t: seq<nat>)
    requires k <= i < |s| == |t| && s[..k] == t[..k] && multiset(s[k..]) == multiset(t[k..]) && s[i] == t[k]
    ensures Swapped(s, k, i)[..k + 1] == t[..k + 1]
    ensures multiset(Swapped(s, k, i)[k + 1..]) == multiset(t[k + 1..])
  {
    SwapKeepsSuffix(s, k, i);
    SwapHead(s, k, i);
    hide Swapped;
    SuffixesAgree(Swapped(s, k, i), t, k);
  }

  lemma SwapHead(s: seq<nat>, k: nat, i: nat)
    requires k <= i < |s|
    ensures Swapped(s, k, i)[..k] == s[..k] && Swapped(s, k, i)[k] == s[i]
  {
  }

  lemma SuffixesAgree(w: seq<nat>, t: seq<nat>, k: nat)
    requires k < |w| == |t| && w[..k] == t[..k] && w[k] == t[k] && multiset(w[k..]) == multiset(t[k..])
    ensures w[..k + 1] == t[..k + 1] && multiset(w[k + 1..]) == multiset(t[k + 1..])
  {
    CountsTail(w[k..]);
    CountsTail(t[k..]);
    assert w[k..][1..] == w[k + 1..] && t[k..][1..] == t[k + 1..];
    assert w[..k + 1] == w[..k] + [w[k]] && t[..k + 1] == t[..k] + [t[k]];
  }

  lemma SwapKeepsSuffix(s: seq<nat>, k: nat, i: nat)
    requires k <= i < |s|
    ensures multiset(Swapped(s, k, i)[k..]) == multiset(s[k..])
  {
    var w := Swapped(s, k, i);
    if i == k { assert w == s; }
    else {
      var a, b := s[k + 1..i], s[i + 1..];
      assert s[k..] == [s[k]] + a + [s[i]] + b;
      assert w[k..] == [s[i]] + a + [s[k]] + b;
    }
  }

  /** Every ordering that keeps the first `k` items in place is visited. */
  lemma {:induction false} AllVisited(s: seq<nat>, k: nat, t: seq<nat>)
    requires k <= |s| == |t| && s[..k] == t[..k] && multiset(s[k..]) == multiset(t[k..])
    ensures t in Visits(s, k)
    decreases |s| - k
  {
    if k == |s| {
      assert s == s[..k] && t == t[..k];
    } else {
      assert t[k..][0] == t[k] && t[k] in multiset(t[k..]);
      assert t[k] in multiset(s[k..]);
      var m :| 0 <= m < |s[k..]| && s[k..][m] == t[k];
      var i := k + m;
      SwapSuffix(s, k, i, t);
      AllVisited(Swapped(s, k, i), k + 1, t);
      VisitedFromMember(s, k, i, t);
    }
  }

  /** Nothing but orderings of the items is visited. */
  lemma {:induction false} OnlyOrderingsVisited(s: seq<nat>, k: nat, t: seq<nat>)
    requires k <= |s| && t in Visits(s, k)
    ensures multiset(t) == multiset(s)
    decreases |s| - k, 1, 0
  {
    if k < |s| { OnlyOrderingsFrom(s, k, k, t); }
  }

  lemma {:induction false} OnlyOrderingsFrom(s: seq<nat>, k: nat, i: nat, t: seq<nat>)
    requires k < |s| && k <= i <= |s| && t in VisitsFrom(s, k, i)
    ensures multiset(t) == multiset(s)
    decreases |s| - k, 0, |s| - i
  {
    if t in Visits(Swapped(s, k, i), k + 1) {
      OnlyOrderingsVisited(Swapped(s, k, i), k + 1, t);
      SwapKeepsSuffix(s, k, i);
      var w := Swapped(s, k, i);
      assert w == w[..k] + w[k..] && s == s[..k] + s[k..] && w[..k] == s[..k];
    } else {
      OnlyOrderingsFrom(s, k, i + 1, t);
    }
  }

  // ---------------------------------------------------------------- cost

  function SizeOf(sizes: seq<nat>, i: nat): nat {
    if i < |sizes| then Max(sizes[i], 1) else 1
  }

  /** Some predicate touches the rows joined so far and the new table, and nothing else. */
  predicate Connected(refs: seq<set<nat>>, joined: set<nat>, table: nat) {
    exists i :: 0 <= i < |refs| && Ties(refs[i], joined, table)
  }

  predicate Ties(r: set<nat>, joined: set<nat>, table: nat) {
    r * joined != {} && table in r && r <= joined + {table}
  }

  /** The cost added by the tables of `rest`, saturating at the 128-bit maximum. */
  function CostFrom(rest: seq<nat>, sizes: seq<nat>, refs: seq<set<nat>>, joined: set<nat>, rows: nat, cost: nat): nat {
    if rest == [] then cost
    else
      var grown := if Connected(refs, joined, rest[0]) then Max(rows, SizeOf(sizes, rest[0]))
                   else Min(rows * SizeOf(sizes, rest[0]), U128_MAX);
      CostFrom(rest[1..], sizes, refs, joined + {rest[0]}, grown, Min(cost + grown, U128_MAX))
  }

  function Cost(ord: seq<nat>, sizes: seq<nat>, refs: seq<set<nat>>): nat
    requires ord != []
  {
    CostFrom(ord[1..], sizes, refs, {ord[0]}, SizeOf(sizes, ord[0]), 0)
  }

  method ScoreOrdering(ord: seq<nat>, sizes: seq<nat>, refs: seq<set<nat>>) returns (cost: nat)
    requires ord != []
    ensures cost == Cost(ord, sizes, refs)
  {
    var joined: set<nat>, intermediate: nat := {ord[0]}, SizeOf(sizes, ord[0]);
    cost := 0;
    for k := 1 to |ord|
      invariant CostFrom(ord[k..], sizes, refs, joined, intermediate, cost) == Cost(ord, sizes, refs)
    {
      var table := ord[k];
      assert ord[k..][0] == table && ord[k..][1..] == ord[k + 1..];
      var connected := false;
      for i := 0 to |refs|
        invariant connected <==> exists m :: 0 <= m < i && Ties(refs[m], joined, table)
      {
        if Ties(refs[i], joined, table) { connected := true; }
      }
      assert connected <==> Connected(refs, joined, table);
      if connected {
        intermediate := Max(intermediate, SizeOf(sizes, table));
      } else {
        intermediate := Min(intermediate * SizeOf(sizes, table), U128_MAX);
      }
      cost := Min(cost + intermediate, U128_MAX);
      joined := joined + {table};
    }
  }

  // ---------------------------------------------------------------- the search

  /** Index of the first cheapest ordering among those visited. */
  ghost predicate FirstCheapest(visited: seq<seq<nat>>, costs: seq<nat>, i: nat) {
    && |costs| == |visited| && i < |visited|
    && (forall k :: 0 <= k < |visited| ==> costs[i] <= costs[k])
    && (forall k :: 0 <= k < i ==> costs[i] < costs[k])
  }

  function Costs(visited: seq<seq<nat>>, sizes: seq<nat>, refs: seq<set<nat>>): (r: seq<nat>)
    requires forall k :: 0 <= k < |visited| ==> visited[k] != []
    ensures |r| == |visited| && forall k :: 0 <= k < |r| ==> r[k] == Cost(visited[k], sizes, refs)
  {
    seq(|visited|, k requires 0 <= k < |visited| => Cost(visited[k], sizes, refs))
  }

  /** The visitor handed to `permute`: it remembers the cheapest ordering seen, the earliest on ties. */
  class Search {
    const sizes: seq<nat>
    const refs: seq<set<nat>>
    const start: seq<nat>
    var best: seq<nat>
    var bestCost: nat
    ghost var visited: seq<seq<nat>>

    ghost predicate Valid()
      reads this
    {
      && start != [] && (forall k :: 0 <= k < |visited| ==> visited[k] != [])
      && (visited == [] ==> best == start && bestCost == U128_MAX)
      && (visited != [] ==> visited[0] == start && BestSoFar())
    }

    ghost predicate BestSoFar()
      reads this
      requires forall k :: 0 <= k < |visited| ==> visited[k] != []
    {
      bestCost <= U128_MAX &&
      exists i: nat :: FirstCheapest(visited, Costs(visited, sizes, refs), i) && best == visited[i] &&
                       bestCost == Costs(visited, sizes, refs)[i]
    }

    constructor (s: seq<nat>, p: seq<set<nat>>, items: seq<nat>)
      requires items != []
      ensures Valid() && visited == [] && start == items && sizes == s && refs == p
    {
      sizes, refs, start, best, bestCost, visited := s, p, items, items, U128_MAX, [];
    }

    method Visit(ord: seq<nat>)
      requires Valid() && ord != [] && (visited == [] ==> ord == start)
      modifies this
      ensures Valid() && visited == old(visited) + [ord]
    {
      var cost := ScoreOrdering(ord, sizes, refs);
      CostBound(ord, sizes, refs);
      ghost var costs, all := Costs(visited, sizes, refs), visited + [ord];
      ghost var was: nat := 0;
      if visited != [] {
        was :| FirstCheapest(visited, costs, was) && best == visited[was] && bestCost == costs[was];
      }
      assert Costs(all, sizes, refs) == costs + [cost];
      ghost var i := if visited == [] || cost < bestCost then |visited| else was;
      if cost < bestCost {
        bestCost := cost;
        best := ord;
      }
      visited := all;
      assert FirstCheapest(all, Costs(all, sizes, refs), i) && best == all[i] && bestCost == Costs(all, sizes, refs)[i];
    }
  }

  lemma {:induction false} CostFromBound(rest: seq<nat>, sizes: seq<nat>, refs: seq<set<nat>>, joined: set<nat>, rows: nat, cost: nat)
    requires cost <= U128_MAX
    ensures CostFrom(rest, sizes, refs, joined, rows, cost) <= U128_MAX
  {
    if rest != [] {
      var grown := if Connected(refs, joined, rest[0]) then Max(rows, SizeOf(sizes, rest[0]))
                   else Min(rows * SizeOf(sizes, rest[0]), U128_MAX);
      CostFromBound(rest[1..], sizes, refs, joined + {rest[0]}, grown, Min(cost + grown, U128_MAX));
    }
  }

  lemma CostBound(ord: seq<nat>, sizes: seq<nat>, refs: seq<set<nat>>)
    requires ord != []
    ensures Cost(ord, sizes, refs) <= U128_MAX
  {
    CostFromBound(ord[1..], sizes, refs, {ord[0]}, SizeOf(sizes, ord[0]), 0);
  }

  /** `permute`: swap, recurse, swap back. The array ends as it began and every ordering is visited. */
  method Permute(items: array<nat>, k: nat, search: Search)
    requires k <= items.Length && search.Valid() && items.Length > 0
    requires search.visited == [] ==> items[..] == search.start
    modifies items, search
    ensures items[..] == old(items[..])
    ensures search.Valid() && search.visited == old(search.visited) + Visits(old(items[..]), k)
    decreases items.Length - k
  {
    ghost var s := items[..];
    if k == items.Length {
      search.Visit(items[..]);
      return;
    }
    FirstVisited(s, k);
    for i := k to items.Length
      invariant items[..] == s && search.Valid()
      invariant search.visited + VisitsFrom(s, k, i) == old(search.visited) + Visits(s, k)
      invariant i == k ==> search.visited == old(search.visited)
      invariant i > k ==> search.visited != []
    {
      hide Search.Valid;
      ghost var before := search.visited;
      items[k], items[i] := items[i], items[k];
      assert items[..] == Swapped(s, k, i);
      if before == [] { assert items[..] == s; }
      Permute(items, k + 1, search);
      items[k], items[i] := items[i], items[k];
      SwapBack(s, k, i);
      assert items[..] == s;
      ConcatAssoc(before, Visits(Swapped(s, k, i), k + 1), VisitsFrom(s, k, i + 1));
      FirstVisited(Swapped(s, k, i), k + 1);
    }
  }

  /** The orderings of the items themselves. */
  ghost predicate IsOrdering(ord: seq<nat>, items: seq<nat>) { multiset(ord) == multiset(items) }

  /** The enumeration of `reorder_inner_chain`: the chosen ordering is one of the items, none is cheaper,
      and the given order wins every tie it is part of. */
  method ChooseOrder(items: seq<nat>, sizes: seq<nat>, refs: seq<set<nat>>) returns (best: seq<nat>)
    requires items != []
    ensures IsOrdering(best, items) && best != []
    ensures forall ord :: IsOrdering(ord, items) && ord != [] ==> Cost(best, sizes, refs) <= Cost(ord, sizes, refs)
    ensures Cost(items, sizes, refs) == Cost(best, sizes, refs) ==> best == items
  {
    hide Visits, Cost;
    var a := new nat[|items|](i requires 0 <= i < |items| => items[i]);
    assert a[..] == items;
    var search := new Search(sizes, refs, items);
    Permute(a, 0, search);
    best := search.best;
    ghost var visited := search.visited;
    assert visited == Visits(items, 0) && visited != [] by {
      assert [] + Visits(items, 0) == Visits(items, 0);
      FirstVisited(items, 0);
    }
    ghost var i: nat :| FirstCheapest(visited, Costs(visited, sizes, refs), i) && best == visited[i];
    CheapestOfAll(items, sizes, refs, visited, i);
  }

  lemma CheapestOfAll(items: seq<nat>, sizes: seq<nat>, refs: seq<set<nat>>, visited: seq<seq<nat>>, i: nat)
    requires items != [] && visited == Visits(items, 0)
    requires forall k :: 0 <= k < |visited| ==> visited[k] != []
    requires FirstCheapest(visited, Costs(visited, sizes, refs), i)
    ensures IsOrdering(visited[i], items)
    ensures forall ord :: IsOrdering(ord, items) && ord != [] ==> Cost(visited[i], sizes, refs) <= Cost(ord, sizes, refs)
    ensures Cost(items, sizes, refs) == Cost(visited[i], sizes, refs) ==> visited[i] == items
  {
    hide Visits, Cost;
    OnlyOrderingsVisited(items, 0, visited[i]);
    FirstVisited(items, 0);
    forall ord | IsOrdering(ord, items) && ord != [] ensures Cost(visited[i], sizes, refs) <= Cost(ord, sizes, refs) {
      OrderingVisited(items, ord);
      var k :| 0 <= k < |visited| && visited[k] == ord;
      assert Costs(visited, sizes, refs)[k] == Cost(ord, sizes, refs);
    }
  }

  lemma OrderingVisited(items: seq<nat>, ord: seq<nat>)
    requires IsOrdering(ord, items)
    ensures ord in Visits(items, 0)
  {
    assert |ord| == |multiset(ord)| && |items| == |multiset(items)|;
    assert items[0..] == items && ord[0..] == ord;
    AllVisited(items, 0, ord);
  }

  // ---------------------------------------------------------------- placing predicates

  function Joined(ord: seq<nat>, step: nat): set<nat>
    requires step < |ord|
  {
    set k | 0 <= k <= step :: ord[k]
  }

  /** `step` is the earliest join step at which every table of `refs` is present. */
  ghost predicate Earliest(ord: seq<nat>, refs: set<nat>, step: nat) {
    && 1 <= step < |ord| && refs <= Joined(ord, step)
    && (forall s :: 1 <= s < step ==> !(refs <= Joined(ord, s)))
  }

  /** Predicate `i` is listed at step `step`. */
  predicate PlacedAt(assignments: seq<seq<nat>>, step: nat, i: nat) {
    1 <= step <= |assignments| && i in assignments[step - 1]
  }

  ghost predicate AscendingLists(assignments: seq<seq<nat>>) {
    forall s, a, b :: 0 <= s < |assignments| && 0 <= a < b < |assignments[s]| ==> assignments[s][a] < assignments[s][b]
  }

  /** `assign_predicates`: each predicate is listed once, at the earliest step that has all its tables;
      one whose tables never all appear is listed nowhere. */
  method AssignPredicates(ord: seq<nat>, refs: seq<set<nat>>) returns (assignments: seq<seq<nat>>)
    requires ord != []
    ensures |assignments| == |ord| - 1 && AscendingLists(assignments)
    ensures forall step: nat, i: nat :: PlacedAt(assignments, step, i) <==> i < |refs| && Earliest(ord, refs[i], step)
  {
    assignments := seq(|ord| - 1, _ => []);
    var placed := seq(|refs|, _ => false);
    var joined := {ord[0]};
    for step := 1 to |ord|
      invariant |assignments| == |ord| - 1 && |placed| == |refs|
      invariant joined == Joined(ord, step - 1)
      invariant AscendingLists(assignments)
      invariant forall i :: 0 <= i < |refs| ==> (placed[i] <==> exists s :: 1 <= s < step && refs[i] <= Joined(ord, s))
      invariant forall s: nat, i: nat :: PlacedAt(assignments, s, i) <==> i < |refs| && s < step && Earliest(ord, refs[i], s)
    {
      joined := joined + {ord[step]};
      assert joined == Joined(ord, step);
      var here, nowPlaced := PlaceStep(refs, joined, placed);
      ghost var before := assignments;
      assert before[step - 1] == [] by {
        if before[step - 1] != [] { assert PlacedAt(before, step, before[step - 1][0]); }
      }
      assignments := assignments[step - 1 := here];
      forall s: nat, i: nat
        ensures PlacedAt(assignments, s, i) <==> i < |refs| && s < step + 1 && Earliest(ord, refs[i], s)
      {
        if s != step { assert PlacedAt(assignments, s, i) <==> PlacedAt(before, s, i); }
      }
      placed := nowPlaced;
    }
  }

  /** The inner loop for one step: the unplaced predicates whose tables are all joined, in order. */
  method PlaceStep(refs: seq<set<nat>>, joined: set<nat>, placed: seq<bool>) returns (here: seq<nat>, nowPlaced: seq<bool>)
    requires |placed| == |refs|
    ensures |nowPlaced| == |refs| && forall i :: 0 <= i < |refs| ==> nowPlaced[i] == (placed[i] || refs[i] <= joined)
    ensures forall i: nat :: i in here <==> i < |refs| && !placed[i] && refs[i] <= joined
    ensures forall a, b :: 0 <= a < b < |here| ==> here[a] < here[b]
  {
    here, nowPlaced := [], placed;
    for i := 0 to |refs|
      invariant |nowPlaced| == |refs|
      invariant forall k :: 0 <= k < |refs| ==> nowPlaced[k] == (placed[k] || (k < i && refs[k] <= joined))
      invariant forall k: nat :: k in here <==> k < i && !placed[k] && refs[k] <= joined
      invariant forall a, b :: 0 <= a < b < |here| ==> here[a] < here[b]
    {
      assert forall m :: 0 <= m < |here| ==> here[m] in here;
      if !placed[i] && refs[i] <= joined {
        here := here + [i];
        nowPlaced := nowPlaced[i := true];
      }
    }
  }

  /** Exactly once: a predicate over the ordered tables has one step, and only one. */
  lemma {:induction false} EarliestExists(ord: seq<nat>, refs: set<nat>, step: nat)
    requires 1 <= step < |ord| && refs <= Joined(ord, step)
    ensures exists s: nat :: Earliest(ord, refs, s)
  {
    if forall s :: 1 <= s < step ==> !(refs <= Joined(ord, s)) {
      assert Earliest(ord, refs, step);
    } else {
      var s :| 1 <= s < step && refs <= Joined(ord, s);
      EarliestExists(ord, refs, s);
    }
  }

  lemma EarliestUnique(ord: seq<nat>, refs: set<nat>, a: nat, b: nat)
    requires Earliest(ord, refs, a) && Earliest(ord, refs, b)
    ensures a == b
  {
  }
}
