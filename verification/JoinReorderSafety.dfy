/** The reordered chain yields the user's rows up to a permutation of columns, and is never costlier
    (`reorder_inner_chain` in engine/planner.rs). */
module JoinReorderSafety {
  import opened Bytes
  import opened Values
  import opened Expressions
  import opened Sequences
  import opened JoinSpec
  import opened JoinOrder
  import opened JoinReorder
  import opened JoinChain

  function Identity(n: nat): (r: seq<nat>)
    ensures |r| == n && forall i :: 0 <= i < n ==> r[i] == i
  {
    seq(n, i requires 0 <= i => i)
  }

  /** All tables of the chain, each once. */
  ghost predicate FullOrder(ord: seq<nat>, n: nat) {
    |ord| == n && PartialOrder(ord, n) && forall i :: 0 <= i < n ==> i in ord
  }

  lemma OrderingIsFull(ord: seq<nat>, n: nat)
    requires IsOrdering(ord, Identity(n))
    ensures FullOrder(ord, n)
  {
    var id := Identity(n);
    assert |ord| == |multiset(ord)| && |id| == |multiset(id)|;
    forall i | 0 <= i < n ensures i in ord { assert id[i] == i && i in multiset(id) && i in multiset(ord); }
    forall s | 0 <= s < |ord| ensures ord[s] < n { assert ord[s] in multiset(ord) && ord[s] in multiset(id) && ord[s] in id; }
    forall a, b | 0 <= a < b < |ord| ensures ord[a] != ord[b] {
      DistinctMultiplicity(id, ord[a]);
      if ord[a] == ord[b] { CountedTwice(ord, a, b); }
    }
  }

  lemma CountedTwice(s: seq<nat>, a: nat, b: nat)
    requires a < b < |s| && s[a] == s[b]
    ensures multiset(s)[s[a]] >= 2
  {
    CountsSplit(s, b);
    assert (s[..b] + s[b + 1..])[a] == s[a];
    assert s[a] in multiset(s[..b] + s[b + 1..]);
  }

  // ---------------------------------------------------------------- placements

  ghost predicate AllBelow(att: seq<seq<nat>>, n: nat) { forall s :: 0 <= s < |att| ==> IndicesBelow(att[s], n) }

  ghost predicate Placed(att: seq<seq<nat>>, i: nat) { exists s: nat :: PlacedAt(att, s, i) }

  /** Each predicate is attached somewhere, and only where all its tables are present. */
  ghost predicate SoundPlacement(tables: seq<ChainTable>, preds: seq<Expr>, ord: seq<nat>, att: seq<seq<nat>>) {
    && |att| == |ord| - 1
    && AllBelow(att, |preds|)
    && (forall s, i :: 1 <= s <= |att| && i in att[s - 1] && i < |preds| ==> Covered(tables, preds[i], ord, s))
    && (forall i :: 0 <= i < |preds| ==> Placed(att, i))
  }

  ghost predicate Covered(tables: seq<ChainTable>, e: Expr, ord: seq<nat>, s: nat) {
    s < |ord| && Refs(tables, e).Some? && Refs(tables, e).value <= Joined(ord, s)
  }

  ghost function OnsOf(preds: seq<Expr>, att: seq<seq<nat>>): (r: seq<Expr>)
    requires AllBelow(att, |preds|)
    ensures |r| == |att| && forall s :: 0 <= s < |r| ==> r[s] == OnFor(Take(preds, att[s]))
  {
    seq(|att|, s requires 0 <= s < |att| => OnFor(Take(preds, att[s])))
  }

  ghost function ChainOf(fpu: Fpu, tables: seq<ChainTable>, preds: seq<Expr>, ord: seq<nat>, att: seq<seq<nat>>): Chain
    requires AllBelow(att, |preds|)
  {
    Chain(fpu, tables, ord, OnsOf(preds, att))
  }

  /** The user's chain: predicate `s - 1` at step `s`. */
  function UserPlacement(n: nat): (r: seq<seq<nat>>)
    ensures |r| == n && forall s :: 0 <= s < n ==> r[s] == [s]
  {
    seq(n, s requires 0 <= s => [s])
  }

  lemma UserOns(preds: seq<Expr>)
    ensures OnsOf(preds, UserPlacement(|preds|)) == preds
  {
    forall s | 0 <= s < |preds| ensures OnFor(Take(preds, [s])) == preds[s] {}
  }

  // ---------------------------------------------------------------- choices over all tables

  /** A choice of one row of every table, in the user's order. */
  ghost predicate Choice(tables: seq<ChainTable>, q: seq<nat>) {
    |q| == |tables| && forall i :: 0 <= i < |q| ==> q[i] < |tables[i].rows|
  }

  ghost function Parts(tables: seq<ChainTable>, q: seq<nat>): (r: seq<Row>)
    requires Choice(tables, q)
    ensures |r| == |q| && forall i :: 0 <= i < |r| ==> r[i] == tables[i].rows[q[i]]
  {
    seq(|q|, i requires 0 <= i < |q| => tables[i].rows[q[i]])
  }

  ghost predicate IsTrue(fpu: Fpu, tables: seq<ChainTable>, e: Expr, parts: seq<Row>) {
    |ScopeOf(tables)| == |Flatten(parts)| && Eval(fpu, e, Some(ContextOf(tables, parts))) == Ok(Bool(true))
  }

  ghost predicate AllOf(fpu: Fpu, tables: seq<ChainTable>, es: seq<Expr>, parts: seq<Row>) {
    forall i :: 0 <= i < |es| ==> IsTrue(fpu, tables, es[i], parts)
  }

  ghost predicate AllTrue(fpu: Fpu, tables: seq<ChainTable>, preds: seq<Expr>, q: seq<nat>)
    requires Choice(tables, q)
  {
    AllOf(fpu, tables, preds, Parts(tables, q))
  }

  /** A step accepts a choice exactly when its ON clause is TRUE on the rows chosen so far. */
  lemma StepOkIsOn(c: Chain, q: seq<nat>, s: nat)
    requires ValidChain(c) && FullOrder(c.ord, |c.tables|) && Choice(c.tables, q) && 1 <= s < |c.ord|
    ensures var ts, parts := Take(c.tables, c.ord[..s + 1]), Take(Parts(c.tables, q), c.ord[..s + 1]);
            |Flatten(parts)| == |ScopeOf(ts)| &&
            (StepOk(c, Take<nat>(q, c.ord), s) <==> Eval(c.fpu, c.ons[s - 1], Some(ContextOf(ts, parts))) == Ok(Bool(true)))
  {
    var here := c.ord[..s + 1];
    var ts, parts := Take(c.tables, here), Take(Parts(c.tables, q), here);
    JoinedWidth(ts, parts);
    RowsOfChoice(c, q, s);
    var p: seq<nat> := Take<nat>(q, c.ord);
    var l, r := RowAt(c, p[..s]), RowsAtSlot(c, s)[p[s]];
    hide Eval, Flatten, ScopeOf, RowAt, RowsAtSlot, Take;
    assert |l| + |r| == |l + r| && l + r == Flatten(parts);
    assert OnResult(StepJoin(c, s), l, r) == PassesFilter(c.fpu, Some(c.ons[s - 1]), ScopeOf(ts), Flatten(parts));
    assert StepOk(c, p, s) <==> Accepts(c, s, p[..s], p[s]);
  }

  /** A step accepts a choice exactly when the predicates attached to it are TRUE on the chosen rows. */
  lemma StepOkMeans(fpu: Fpu, tables: seq<ChainTable>, preds: seq<Expr>, ord: seq<nat>, att: seq<seq<nat>>, q: seq<nat>, s: nat)
    requires ValidTables(tables) && FullOrder(ord, |tables|) && SoundPlacement(tables, preds, ord, att) && ord != []
    requires Choice(tables, q) && 1 <= s < |ord|
    ensures IndicesBelow(att[s - 1], |preds|)
    ensures StepOk(ChainOf(fpu, tables, preds, ord, att), Take(q, ord), s) <==>
              AllOf(fpu, tables, Take(preds, att[s - 1]), Parts(tables, q))
  {
    var c, full, here := ChainOf(fpu, tables, preds, ord, att), Parts(tables, q), ord[..s + 1];
    StepOkIsOn(c, q, s);
    hide Eval, Flatten, ScopeOf, Refs, StepOk, IsTrue;
    var ctx := Some(ContextOf(Take(tables, here), Take(full, here)));
    var ids := att[s - 1];
    var es := Take(preds, ids);
    OnForTrue(fpu, es, ctx);
    forall k | 0 <= k < |ids| ensures Eval(fpu, es[k], ctx) == Ok(Bool(true)) <==> IsTrue(fpu, tables, preds[ids[k]], full) {
      assert ids[k] in ids;
      PredicateAtStep(fpu, tables, preds[ids[k]], ord, s, full);
    }
    assert (forall e :: e in es ==> Eval(fpu, e, ctx) == Ok(Bool(true)))
      <==> (forall k :: 0 <= k < |es| ==> Eval(fpu, es[k], ctx) == Ok(Bool(true)));
  }

  lemma PredicateAtStep(fpu: Fpu, tables: seq<ChainTable>, e: Expr, ord: seq<nat>, s: nat, full: seq<Row>)
    requires ValidTables(tables) && FullOrder(ord, |tables|) && 1 <= s < |ord| && Covered(tables, e, ord, s) && PartsFit(tables, full)
    ensures var ts, parts := Take(tables, ord[..s + 1]), Take(full, ord[..s + 1]);
            |Flatten(parts)| == |ScopeOf(ts)| &&
            (Eval(fpu, e, Some(ContextOf(ts, parts))) == Ok(Bool(true)) <==> IsTrue(fpu, tables, e, full))
  {
    hide Eval, Flatten, ScopeOf, Refs;
    var here := ord[..s + 1];
    forall i | i in Refs(tables, e).value ensures i in here {
      assert i in Joined(ord, s);
      var k :| 0 <= k <= s && ord[k] == i;
      assert here[k] == i;
    }
    ValueInAnyOrder(fpu, tables, full, e, here);
  }

  /** The chain's rows for a choice are that choice's parts in chain order. */
  lemma RowsOfChoice(c: Chain, q: seq<nat>, s: nat)
    requires PartialOrder(c.ord, |c.tables|) && Choice(c.tables, q) && s < |c.ord|
    ensures var p: seq<nat> := Take<nat>(q, c.ord);
            InRange(c, p[..s]) && p[s] < |RowsAtSlot(c, s)| &&
            RowAt(c, p[..s]) + RowsAtSlot(c, s)[p[s]] == Flatten(Take(Parts(c.tables, q), c.ord[..s + 1]))
  {
    var p: seq<nat> := Take<nat>(q, c.ord);
    var upto := p[..s + 1];
    assert p[..s] + [p[s]] == upto;
    forall k | 0 <= k <= s ensures upto[k] == q[c.ord[k]] && RowsAtSlot(c, k) == c.tables[c.ord[k]].rows {}
    assert InRange(c, upto) && InRange(c, p[..s]) && |p[..s]| == s;
    RowAtSnoc(c, p[..s], p[s]);
    var parts := Take(Parts(c.tables, q), c.ord[..s + 1]);
    forall k | 0 <= k <= s ensures PartsAt(c, upto)[k] == parts[k] {
      assert parts[k] == Parts(c.tables, q)[c.ord[..s + 1][k]] && c.ord[..s + 1][k] == c.ord[k];
    }
    assert PartsAt(c, upto) == parts;
    assert RowAt(c, upto) == Flatten(parts);
  }

  /** A chain keeps a choice exactly when every predicate is TRUE on it, wherever they are attached. */
  lemma KeptIffAllTrue(fpu: Fpu, tables: seq<ChainTable>, preds: seq<Expr>, ord: seq<nat>, att: seq<seq<nat>>, q: seq<nat>)
    requires ValidTables(tables) && FullOrder(ord, |tables|) && SoundPlacement(tables, preds, ord, att) && ord != []
    requires Choice(tables, q)
    ensures Take(q, ord) in Kept(ChainOf(fpu, tables, preds, ord, att), |ord|) <==> AllTrue(fpu, tables, preds, q)
  {
    var c, p, n := ChainOf(fpu, tables, preds, ord, att), Take(q, ord), |ord|;
    KeptMembers(c, n, p);
    assert InRange(c, p);
    assert forall i :: 0 <= i < |preds| ==> Placed(att, i);
    assert AllBelow(att, |preds|);
    hide *;
    if forall s :: 1 <= s < n ==> StepOk(c, p, s) {
      AllStepsOk(fpu, tables, preds, ord, att, q);
    }
    if AllTrue(fpu, tables, preds, q) {
      forall s | 1 <= s < n ensures StepOk(c, p, s) { TrueStepOk(fpu, tables, preds, ord, att, q, s); }
    }
  }

  lemma TrueStepOk(fpu: Fpu, tables: seq<ChainTable>, preds: seq<Expr>, ord: seq<nat>, att: seq<seq<nat>>, q: seq<nat>, s: nat)
    requires ValidTables(tables) && FullOrder(ord, |tables|) && SoundPlacement(tables, preds, ord, att) && ord != []
    requires Choice(tables, q) && 1 <= s < |ord| && AllTrue(fpu, tables, preds, q)
    ensures StepOk(ChainOf(fpu, tables, preds, ord, att), Take(q, ord), s)
  {
    StepOkMeans(fpu, tables, preds, ord, att, q, s);
    hide StepOk, IsTrue, SoundPlacement, ValidTables, FullOrder;
    assert AllOf(fpu, tables, Take(preds, att[s - 1]), Parts(tables, q));
  }

  lemma AllStepsOk(fpu: Fpu, tables: seq<ChainTable>, preds: seq<Expr>, ord: seq<nat>, att: seq<seq<nat>>, q: seq<nat>)
    requires ValidTables(tables) && FullOrder(ord, |tables|) && SoundPlacement(tables, preds, ord, att) && ord != []
    requires Choice(tables, q)
    requires forall s :: 1 <= s < |ord| ==> StepOk(ChainOf(fpu, tables, preds, ord, att), Take(q, ord), s)
    ensures AllTrue(fpu, tables, preds, q)
  {
    hide StepOk, IsTrue, ValidTables, FullOrder, Choice;
    forall i | 0 <= i < |preds| ensures IsTrue(fpu, tables, preds[i], Parts(tables, q)) {
      assert Placed(att, i);
      var s: nat :| PlacedAt(att, s, i);
      var k :| 0 <= k < |att[s - 1]| && att[s - 1][k] == i;
      StepOkMeans(fpu, tables, preds, ord, att, q, s);
      assert Take(preds, att[s - 1])[k] == preds[i];
    }
  }

  // ---------------------------------------------------------------- between orders

  /** Where table `i` stands in the order. */
  ghost function SlotOf(ord: seq<nat>, i: nat): (s: nat)
    requires i in ord
    ensures s < |ord| && ord[s] == i
  {
    var s: nat :| s < |ord| && ord[s] == i;
    s
  }

  /** The choice in the user's order behind a choice in chain order. */
  ghost function Restored(ord: seq<nat>, p: seq<nat>): (q: seq<nat>)
    requires FullOrder(ord, |p|)
    ensures |q| == |p| && Take(q, ord) == p
  {
    var q := seq(|p|, i requires 0 <= i < |p| => p[SlotOf(ord, i)]);
    assert forall s :: 0 <= s < |p| ==> Take(q, ord)[s] == p[SlotOf(ord, ord[s])];
    q
  }

  lemma TakeInjective(ord: seq<nat>, a: seq<nat>, b: seq<nat>)
    requires |a| == |b| && FullOrder(ord, |a|) && Take(a, ord) == Take(b, ord)
    ensures a == b
  {
    forall i | 0 <= i < |a| ensures a[i] == b[i] {
      var s := SlotOf(ord, i);
      assert Take(a, ord)[s] == a[i] && Take(b, ord)[s] == b[i];
    }
  }

  ghost predicate AllLong(qs: seq<seq<nat>>, ord: seq<nat>) {
    forall k :: 0 <= k < |qs| ==> IndicesBelow(ord, |qs[k]|)
  }

  ghost function TakeAll(qs: seq<seq<nat>>, ord: seq<nat>): (r: seq<seq<nat>>)
    requires AllLong(qs, ord)
    ensures |r| == |qs| && forall k :: 0 <= k < |r| ==> r[k] == Take(qs[k], ord)
  {
    seq(|qs|, k requires 0 <= k < |qs| => Take(qs[k], ord))
  }

  lemma ChoiceInOrder(tables: seq<ChainTable>, c: Chain, p: seq<nat>)
    requires c.tables == tables && FullOrder(c.ord, |tables|) && |p| == |tables|
    ensures InRange(c, p) <==> Choice(tables, Restored(c.ord, p))
  {
    var ord, q := c.ord, Restored(c.ord, p);
    forall s | 0 <= s < |p| ensures p[s] == q[ord[s]] && RowsAtSlot(c, s) == tables[ord[s]].rows { assert Take(q, ord)[s] == p[s]; }
    if InRange(c, p) {
      forall i | 0 <= i < |q| ensures q[i] < |tables[i].rows| { var s := SlotOf(ord, i); }
    }
  }

  lemma KeptIsChoice(tables: seq<ChainTable>, c: Chain, p: seq<nat>)
    requires ValidChain(c) && c.tables == tables && FullOrder(c.ord, |tables|) && p in Kept(c, |c.ord|)
    ensures |p| == |tables| && Choice(tables, Restored(c.ord, p))
  {
    KeptMembers(c, |c.ord|, p);
    ChoiceInOrder(tables, c, p);
  }

  lemma IdentityFacts(n: nat, q: seq<nat>)
    requires |q| == n
    ensures FullOrder(Identity(n), n) && Take(q, Identity(n)) == q
  {
    forall i | 0 <= i < n ensures i in Identity(n) { assert Identity(n)[i] == i; }
  }

  /** The choices kept in one order are those kept in the other, rearranged. */
  lemma SameChoices(fpu: Fpu, tables: seq<ChainTable>, preds: seq<Expr>, ord: seq<nat>, att: seq<seq<nat>>, user: seq<seq<nat>>)
    requires ValidTables(tables) && tables != [] && FullOrder(ord, |tables|)
    requires SoundPlacement(tables, preds, ord, att) && SoundPlacement(tables, preds, Identity(|tables|), user)
    ensures var qs := Kept(ChainOf(fpu, tables, preds, Identity(|tables|), user), |tables|);
            AllLong(qs, ord) &&
            multiset(TakeAll(qs, ord)) == multiset(Kept(ChainOf(fpu, tables, preds, ord, att), |tables|))
  {
    var n, id := |tables|, Identity(|tables|);
    IdentityFacts(n, ord);
    var c, u := ChainOf(fpu, tables, preds, ord, att), ChainOf(fpu, tables, preds, id, user);
    var ps, qs := Kept(c, n), Kept(u, n);
    KeptDistinct(c, n);
    KeptDistinct(u, n);
    KeptMembers(u, n, []);
    hide *;
    assert AllLong(qs, ord) by { KeptLong(u, ord, n); }
    KeptLong(u, ord, n);
    TakenDistinct(qs, ord, n);
    forall p ensures p in TakeAll(qs, ord) <==> p in ps { TakenIffKept(fpu, tables, preds, ord, att, user, p); }
    DistinctSameMembers(TakeAll(qs, ord), ps);
  }

  lemma TakenIffKept(fpu: Fpu, tables: seq<ChainTable>, preds: seq<Expr>, ord: seq<nat>, att: seq<seq<nat>>, user: seq<seq<nat>>, p: seq<nat>)
    requires ValidTables(tables) && tables != [] && FullOrder(ord, |tables|)
    requires SoundPlacement(tables, preds, ord, att) && SoundPlacement(tables, preds, Identity(|tables|), user)
    requires ValidChain(ChainOf(fpu, tables, preds, Identity(|tables|), user)) && ValidChain(ChainOf(fpu, tables, preds, ord, att))
    ensures var qs := Kept(ChainOf(fpu, tables, preds, Identity(|tables|), user), |tables|);
            AllLong(qs, ord) && (p in TakeAll(qs, ord) <==> p in Kept(ChainOf(fpu, tables, preds, ord, att), |tables|))
  {
    var c, u := ChainOf(fpu, tables, preds, ord, att), ChainOf(fpu, tables, preds, Identity(|tables|), user);
    var qs := Kept(u, |tables|);
    KeptLong(u, ord, |tables|);
    hide Kept, SoundPlacement, ValidTables, ValidChain;
    var taken := TakeAll(qs, ord);
    if p in taken {
      var k :| 0 <= k < |qs| && taken[k] == p;
      KeptBoth(fpu, tables, preds, ord, att, user, qs[k]);
    }
    if p in Kept(c, |tables|) {
      KeptIsChoice(tables, c, p);
      var q := Restored(ord, p);
      KeptBoth(fpu, tables, preds, ord, att, user, q);
      var k :| 0 <= k < |qs| && qs[k] == q;
      assert taken[k] == p;
    }
  }

  lemma KeptLong(u: Chain, ord: seq<nat>, n: nat)
    requires ValidChain(u) && |u.ord| == n && FullOrder(ord, n)
    ensures AllLong(Kept(u, n), ord) && forall k :: 0 <= k < |Kept(u, n)| ==> |Kept(u, n)[k]| == n
  {
    KeptMembers(u, n, []);
  }

  lemma TakenDistinct(qs: seq<seq<nat>>, ord: seq<nat>, n: nat)
    requires AllLong(qs, ord) && Distinct(qs) && FullOrder(ord, n) && forall k :: 0 <= k < |qs| ==> |qs[k]| == n
    ensures Distinct(TakeAll(qs, ord))
  {
    var taken := TakeAll(qs, ord);
    hide FullOrder;
    forall a, b | 0 <= a < b < |taken| ensures taken[a] != taken[b] {
      if taken[a] == taken[b] { TakeInjective(ord, qs[a], qs[b]); }
    }
  }

  lemma KeptBoth(fpu: Fpu, tables: seq<ChainTable>, preds: seq<Expr>, ord: seq<nat>, att: seq<seq<nat>>, user: seq<seq<nat>>, q: seq<nat>)
    requires ValidTables(tables) && tables != [] && FullOrder(ord, |tables|) && |q| == |tables|
    requires SoundPlacement(tables, preds, ord, att) && SoundPlacement(tables, preds, Identity(|tables|), user)
    ensures FullOrder(Identity(|tables|), |tables|)
    ensures q in Kept(ChainOf(fpu, tables, preds, Identity(|tables|), user), |tables|)
       <==> Take(q, ord) in Kept(ChainOf(fpu, tables, preds, ord, att), |tables|)
  {
    var n, id := |tables|, Identity(|tables|);
    IdentityFacts(n, q);
    var c, u := ChainOf(fpu, tables, preds, ord, att), ChainOf(fpu, tables, preds, id, user);
    if Choice(tables, q) {
      KeptIffAllTrue(fpu, tables, preds, ord, att, q);
      KeptIffAllTrue(fpu, tables, preds, id, user, q);
    } else {
      hide Kept;
      if q in Kept(u, n) { KeptIsChoice(tables, u, q); TakeInjective(id, q, Restored(id, q)); }
      if Take(q, ord) in Kept(c, n) { KeptIsChoice(tables, c, Take(q, ord)); TakeInjective(ord, q, Restored(ord, Take(q, ord))); }
    }
  }

  // ---------------------------------------------------------------- columns

  /** A joined row in the user's order, cut back into one part per table. */
  function Cut(tables: seq<ChainTable>, row: Row): (r: seq<Row>)
    ensures |r| == |tables|
  {
    if tables == [] then []
    else
      var w := |tables[0].schema|;
      if |row| < w then [row] + Cut(tables[1..], []) else [row[..w]] + Cut(tables[1..], row[w..])
  }

  lemma {:induction false} CutJoined(tables: seq<ChainTable>, parts: seq<Row>)
    requires PartsFit(tables, parts)
    ensures Cut(tables, Flatten(parts)) == parts
  {
    if tables != [] {
      CutJoined(tables[1..], parts[1..]);
      var row := Flatten(parts);
      assert row[..|parts[0]|] == parts[0] && row[|parts[0]|..] == Flatten(parts[1..]);
    }
  }

  /** The same row with its tables' columns in chain order. */
  function Permuted(tables: seq<ChainTable>, ord: seq<nat>, row: Row): Row
    requires IndicesBelow(ord, |tables|)
  {
    Flatten(Take(Cut(tables, row), ord))
  }

  function PermutedAll(tables: seq<ChainTable>, ord: seq<nat>, rows: seq<Row>): (r: seq<Row>)
    requires IndicesBelow(ord, |tables|)
    ensures |r| == |rows| && forall k :: 0 <= k < |r| ==> r[k] == Permuted(tables, ord, rows[k])
  {
    seq(|rows|, k requires 0 <= k < |rows| => Permuted(tables, ord, rows[k]))
  }

  lemma RowOfTaken(c: Chain, u: Chain, q: seq<nat>)
    requires ValidChain(c) && ValidChain(u) && c.tables == u.tables && u.ord == Identity(|u.tables|)
    requires FullOrder(c.ord, |c.tables|) && Choice(c.tables, q)
    ensures RowAt(c, Take(q, c.ord)) == Permuted(c.tables, c.ord, RowAt(u, q))
  {
    var tables, ord := c.tables, c.ord;
    var p := Take(q, ord);
    assert InRange(c, p) && InRange(u, q);
    assert PartsAt(u, q) == Parts(tables, q);
    assert PartsAt(c, p) == Take(Parts(tables, q), ord);
    CutJoined(tables, Parts(tables, q));
  }

  lemma {:induction false} RowsAtSameCounts(c: Chain, a: seq<seq<nat>>, b: seq<seq<nat>>)
    requires multiset(a) == multiset(b)
    ensures multiset(RowsAt(c, a)) == multiset(RowsAt(c, b))
    decreases |a|
  {
    hide *;
    if a != [] {
      var k := RemoveShared(a, b);
      RowsAtSameCounts(c, a[1..], b[..k] + b[k + 1..]);
      RowsAtConcat(c, [a[0]], a[1..]);
      RowsAtConcat(c, b[..k], b[k + 1..]);
      RowsAtConcat(c, b[..k], [b[k]] + b[k + 1..]);
      RowsAtConcat(c, [b[k]], b[k + 1..]);
      assert a == [a[0]] + a[1..] && RowsAt(c, [a[0]]) == [RowAt(c, a[0])] && RowsAt(c, [b[k]]) == [RowAt(c, a[0])];
      var x, ra, r1, r2 := RowAt(c, a[0]), RowsAt(c, a[1..]), RowsAt(c, b[..k]), RowsAt(c, b[k + 1..]);
      assert RowsAt(c, a) == [x] + ra && RowsAt(c, b) == r1 + ([x] + r2);
      SamePieces(x, ra, r1, r2);
    } else {
      assert |multiset(b)| == 0;
    }
  }

  /** For any order and any sound placement of the predicates: if neither chain raises an error, the
      reordered chain yields the user's rows, with multiplicity, up to the permutation of columns. */
  lemma ReorderKeepsRows(fpu: Fpu, tables: seq<ChainTable>, preds: seq<Expr>, ord: seq<nat>, att: seq<seq<nat>>, user: seq<seq<nat>>)
    requires ValidTables(tables) && tables != [] && FullOrder(ord, |tables|)
    requires SoundPlacement(tables, preds, ord, att) && SoundPlacement(tables, preds, Identity(|tables|), user)
    ensures FullOrder(Identity(|tables|), |tables|)
    ensures var c, u := ChainOf(fpu, tables, preds, ord, att), ChainOf(fpu, tables, preds, Identity(|tables|), user);
            !ChainStream(c, |tables|).fails && !ChainStream(u, |tables|).fails ==>
              multiset(ChainStream(c, |tables|).rows) == multiset(PermutedAll(tables, ord, ChainStream(u, |tables|).rows))
  {
    var n, id := |tables|, Identity(|tables|);
    IdentityFacts(n, ord);
    var c, u := ChainOf(fpu, tables, preds, ord, att), ChainOf(fpu, tables, preds, id, user);
    if !ChainStream(c, n).fails && !ChainStream(u, n).fails {
      SameChoices(fpu, tables, preds, ord, att, user);
      var qs := Kept(u, n);
      ChainRows(c, n);
      ChainRows(u, n);
      RowsAtSameCounts(c, TakeAll(qs, ord), Kept(c, n));
      TakenRows(c, u);
    }
  }

  /** Rearranged choices have rearranged rows. */
  lemma TakenRows(c: Chain, u: Chain)
    requires ValidChain(c) && ValidChain(u) && c.tables == u.tables && u.ord == Identity(|u.tables|)
    requires FullOrder(c.ord, |c.tables|) && AllLong(Kept(u, |u.ord|), c.ord)
    ensures RowsAt(c, TakeAll(Kept(u, |u.ord|), c.ord)) == PermutedAll(c.tables, c.ord, RowsAt(u, Kept(u, |u.ord|)))
  {
    var n, qs := |u.tables|, Kept(u, |u.ord|);
    IdentityFacts(n, c.ord);
    hide Kept, RowAt, Permuted;
    forall k | 0 <= k < |qs| ensures RowAt(c, Take(qs[k], c.ord)) == Permuted(c.tables, c.ord, RowAt(u, qs[k])) {
      KeptIsChoice(u.tables, u, qs[k]);
      TakeInjective(u.ord, qs[k], Restored(u.ord, qs[k]));
      RowOfTaken(c, u, qs[k]);
    }
  }

  // ---------------------------------------------------------------- errors

  predicate BoolOrNull(r: Result<Value>) { r.Ok? && (r.value.Bool? || r.value.Null?) }

  /** One row of every table: the chosen ones where the predicate looks, anything that fits elsewhere. */
  ghost predicate RowsWhereRead(tables: seq<ChainTable>, refs: set<nat>, parts: seq<Row>) {
    PartsFit(tables, parts) && forall i :: 0 <= i < |tables| && i in refs ==> parts[i] in tables[i].rows
  }

  /** The predicate evaluates to a boolean or NULL on every choice of rows of the tables it touches. */
  ghost predicate NeverErrs(fpu: Fpu, tables: seq<ChainTable>, e: Expr) {
    Refs(tables, e).Some? &&
    forall parts :: RowsWhereRead(tables, Refs(tables, e).value, parts) ==>
      |ScopeOf(tables)| == |Flatten(parts)| && BoolOrNull(Eval(fpu, e, Some(ContextOf(tables, parts))))
  }

  lemma {:induction false} AndAllOk(fpu: Fpu, es: seq<Expr>, ctx: Option<Context>)
    requires Fits(ctx) && es != [] && forall i :: 0 <= i < |es| ==> BoolOrNull(Eval(fpu, es[i], ctx))
    ensures BoolOrNull(Eval(fpu, AndAll(es), ctx))
  {
    if |es| > 1 {
      var init, last := es[..|es| - 1], es[|es| - 1];
      AndAllOk(fpu, init, ctx);
      assert BoolOrNull(Eval(fpu, last, ctx));
      AndOk(fpu, AndAll(init), last, ctx);
    }
  }

  lemma AndOk(fpu: Fpu, a: Expr, b: Expr, ctx: Option<Context>)
    requires Fits(ctx) && BoolOrNull(Eval(fpu, a, ctx)) && BoolOrNull(Eval(fpu, b, ctx))
    ensures BoolOrNull(Eval(fpu, Binary(And, a, b), ctx))
  {
    hide Resolve, EvalInList, Arithmetic, CompareOp;
  }

  /** A choice for the first tables of the order, filled up with NULL rows. */
  ghost function FilledParts(c: Chain, p: seq<nat>): (r: seq<Row>)
    requires InRange(c, p)
    ensures |r| == |c.tables|
  {
    seq(|c.tables|, i requires 0 <= i < |c.tables| =>
      if i in c.ord[..|p|] && SlotOf(c.ord[..|p|], i) < |p| then PartsAt(c, p)[SlotOf(c.ord[..|p|], i)]
      else Nulls(|c.tables[i].schema|))
  }

  lemma FilledPartsFacts(c: Chain, p: seq<nat>)
    requires ValidChain(c) && InRange(c, p)
    ensures PartsFit(c.tables, FilledParts(c, p))
    ensures IndicesBelow(c.ord[..|p|], |c.tables|) && Take(FilledParts(c, p), c.ord[..|p|]) == PartsAt(c, p)
    ensures forall i :: 0 <= i < |c.tables| && i in c.ord[..|p|] ==> FilledParts(c, p)[i] in c.tables[i].rows
  {
    var here, full := c.ord[..|p|], FilledParts(c, p);
    forall s | 0 <= s < |p| ensures SlotOf(here, here[s]) == s && full[here[s]] == PartsAt(c, p)[s] {
      assert here[s] in here && c.ord[s] == here[s] && c.ord[SlotOf(here, here[s])] == here[s];
    }
    forall i | 0 <= i < |c.tables| && i in here
      ensures |full[i]| == |c.tables[i].schema| && full[i] in c.tables[i].rows
    {
      var s := SlotOf(here, i);
      assert here[s] == i && RowsAtSlot(c, s) == c.tables[i].rows && full[i] == c.tables[i].rows[p[s]];
    }
  }

  /** ON raises no error on any partial choice a step can meet. */
  lemma OnNeverErrs(fpu: Fpu, tables: seq<ChainTable>, preds: seq<Expr>, ord: seq<nat>, att: seq<seq<nat>>, p: seq<nat>, s: nat)
    requires ValidTables(tables) && FullOrder(ord, |tables|) && SoundPlacement(tables, preds, ord, att) && 1 <= s < |ord|
    requires forall i :: 0 <= i < |preds| ==> NeverErrs(fpu, tables, preds[i])
    requires ValidChain(ChainOf(fpu, tables, preds, ord, att))
    requires InRange(ChainOf(fpu, tables, preds, ord, att), p) && |p| == s + 1
    ensures var c := ChainOf(fpu, tables, preds, ord, att);
            OnResult(StepJoin(c, s), RowAt(c, p[..s]), RowsAtSlot(c, s)[p[s]]).Ok?
  {
    var c, here := ChainOf(fpu, tables, preds, ord, att), ord[..s + 1];
    var full := FilledParts(c, p);
    FilledPartsFacts(c, p);
    PartialRow(c, p, s);
    var ctx, es := Some(ContextOf(Take(tables, here), Take(full, here))), Take(preds, att[s - 1]);
    hide Eval, Flatten, ScopeOf, RowAt, RowsAtSlot, FilledParts, Refs, OnResult, StepJoin, NeverErrs, InRange, ValidChain, ValidTables, FullOrder;
    forall k | 0 <= k < |es| ensures BoolOrNull(Eval(fpu, es[k], ctx)) {
      assert att[s - 1][k] in att[s - 1];
      PredicateNeverErrs(fpu, tables, es[k], ord, s, full);
    }
    OnForOk(fpu, es, ctx);
  }

  /** ON at step `s` is evaluated on the parts chosen so far. */
  lemma PartialRow(c: Chain, p: seq<nat>, s: nat)
    requires ValidChain(c) && InRange(c, p) && |p| == s + 1 && 1 <= s < |c.ord|
    requires IndicesBelow(c.ord[..s + 1], |c.tables|) && Take(FilledParts(c, p), c.ord[..s + 1]) == PartsAt(c, p)
    requires PartsFit(c.tables, FilledParts(c, p))
    ensures var ts, parts := Take(c.tables, c.ord[..s + 1]), Take(FilledParts(c, p), c.ord[..s + 1]);
            |Flatten(parts)| == |ScopeOf(ts)| && InRange(c, p[..s]) && p[s] < |RowsAtSlot(c, s)| &&
            (BoolOrNull(Eval(c.fpu, c.ons[s - 1], Some(ContextOf(ts, parts)))) ==>
             OnResult(StepJoin(c, s), RowAt(c, p[..s]), RowsAtSlot(c, s)[p[s]]).Ok?)
  {
    hide FilledParts, Eval;
    var ts, parts := Take(c.tables, c.ord[..s + 1]), Take(FilledParts(c, p), c.ord[..s + 1]);
    JoinedWidth(ts, parts);
    assert p[..s] + [p[s]] == p;
    RowAtSnoc(c, p[..s], p[s]);
    var l, r := RowAt(c, p[..s]), RowsAtSlot(c, s)[p[s]];
    assert RowAt(c, p) == Flatten(parts);
    hide Flatten, ScopeOf, RowAt, RowsAtSlot;
    assert l + r == Flatten(parts) && |l| + |r| == |l + r|;
    assert OnResult(StepJoin(c, s), l, r) == PassesFilter(c.fpu, Some(c.ons[s - 1]), ScopeOf(ts), Flatten(parts));
  }

  lemma OnForOk(fpu: Fpu, es: seq<Expr>, ctx: Option<Context>)
    requires Fits(ctx) && forall i :: 0 <= i < |es| ==> BoolOrNull(Eval(fpu, es[i], ctx))
    ensures BoolOrNull(Eval(fpu, OnFor(es), ctx))
  {
    if es != [] {
      hide Eval;
      AndAllOk(fpu, es, ctx);
    }
  }

  lemma PredicateNeverErrs(fpu: Fpu, tables: seq<ChainTable>, e: Expr, ord: seq<nat>, s: nat, full: seq<Row>)
    requires ValidTables(tables) && FullOrder(ord, |tables|) && 1 <= s < |ord| && Covered(tables, e, ord, s)
    requires NeverErrs(fpu, tables, e) && PartsFit(tables, full)
    requires forall i :: 0 <= i < |tables| && i in ord[..s + 1] ==> full[i] in tables[i].rows
    ensures var ts, parts := Take(tables, ord[..s + 1]), Take(full, ord[..s + 1]);
            |Flatten(parts)| == |ScopeOf(ts)| && BoolOrNull(Eval(fpu, e, Some(ContextOf(ts, parts))))
  {
    hide Eval, Flatten, ScopeOf, Refs;
    var here := ord[..s + 1];
    forall i | i in Refs(tables, e).value ensures i in here {
      assert i in Joined(ord, s);
      var k :| 0 <= k <= s && ord[k] == i;
      assert here[k] == i;
    }
    ValueInAnyOrder(fpu, tables, full, e, here);
    assert RowsWhereRead(tables, Refs(tables, e).value, full);
  }

  lemma {:induction false} NoFailIfAllOk(j: Join, ls: seq<Row>, rows: seq<Row>)
    requires PairsUp(j) && forall l, r :: l in ls && r in rows ==> OnResult(j, l, r).Ok?
    ensures !JoinStream(j, ls, Whole(rows)).fails
  {
    hide Emit, OnResult;
    if ls != [] {
      assert ls[0] in ls && forall l :: l in ls[1..] ==> l in ls;
      NoFailIfAllOk(j, ls[1..], rows);
      EmitFailsIff(j, ls[0], rows, false);
      assert Candidates(Whole(rows), ls[0]) == rows;
    }
  }

  /** If no predicate errs on rows of the tables it touches, no ordering of the chain raises an error. */
  lemma {:induction false} ChainNeverFails(fpu: Fpu, tables: seq<ChainTable>, preds: seq<Expr>, ord: seq<nat>, att: seq<seq<nat>>, k: nat)
    requires ValidTables(tables) && FullOrder(ord, |tables|) && SoundPlacement(tables, preds, ord, att) && 1 <= k <= |ord|
    requires forall i :: 0 <= i < |preds| ==> NeverErrs(fpu, tables, preds[i])
    ensures ValidChain(ChainOf(fpu, tables, preds, ord, att)) && !ChainStream(ChainOf(fpu, tables, preds, ord, att), k).fails
  {
    hide *;
    SoundChain(fpu, tables, preds, ord, att);
    var c := ChainOf(fpu, tables, preds, ord, att);
    if k > 1 {
      ChainNeverFails(fpu, tables, preds, ord, att, k - 1);
      ChainRows(c, k - 1);
      StepNeverFails(fpu, tables, preds, ord, att, k - 1);
    }
    ChainStreamStep(c, k);
  }

  lemma SoundChain(fpu: Fpu, tables: seq<ChainTable>, preds: seq<Expr>, ord: seq<nat>, att: seq<seq<nat>>)
    requires ValidTables(tables) && FullOrder(ord, |tables|) && SoundPlacement(tables, preds, ord, att) && ord != []
    ensures AllBelow(att, |preds|) && ChainOf(fpu, tables, preds, ord, att).ord == ord && ValidChain(ChainOf(fpu, tables, preds, ord, att))
  {
  }

  lemma ChainStreamStep(c: Chain, k: nat)
    requires ValidChain(c) && 1 <= k <= |c.ord|
    ensures k == 1 ==> !ChainStream(c, k).fails
    ensures k > 1 && !ChainStream(c, k - 1).fails &&
            !JoinStream(StepJoin(c, k - 1), ChainStream(c, k - 1).rows, Whole(RowsAtSlot(c, k - 1))).fails ==>
            !ChainStream(c, k).fails
  {
    hide JoinStream, StepJoin, RowsAtSlot, ValidChain;
  }

  lemma StepNeverFails(fpu: Fpu, tables: seq<ChainTable>, preds: seq<Expr>, ord: seq<nat>, att: seq<seq<nat>>, s: nat)
    requires ValidTables(tables) && FullOrder(ord, |tables|) && SoundPlacement(tables, preds, ord, att) && 1 <= s < |ord|
    requires forall i :: 0 <= i < |preds| ==> NeverErrs(fpu, tables, preds[i])
    requires ValidChain(ChainOf(fpu, tables, preds, ord, att))
    ensures var c := ChainOf(fpu, tables, preds, ord, att);
            !JoinStream(StepJoin(c, s), RowsAt(c, Kept(c, s)), Whole(RowsAtSlot(c, s))).fails
  {
    var c := ChainOf(fpu, tables, preds, ord, att);
    KeptMembers(c, s, []);
    var kept, rows := Kept(c, s), RowsAtSlot(c, s);
    assert PairsUp(StepJoin(c, s));
    hide *;
    forall l, r | l in RowsAt(c, kept) && r in rows ensures OnResult(StepJoin(c, s), l, r).Ok? {
      var a :| 0 <= a < |kept| && RowsAt(c, kept)[a] == l;
      var b :| 0 <= b < |rows| && rows[b] == r;
      PairNeverErrs(fpu, tables, preds, ord, att, s, kept[a], b);
    }
    NoFailIfAllOk(StepJoin(c, s), RowsAt(c, kept), rows);
  }

  lemma PairNeverErrs(fpu: Fpu, tables: seq<ChainTable>, preds: seq<Expr>, ord: seq<nat>, att: seq<seq<nat>>, s: nat, p: seq<nat>, b: nat)
    requires ValidTables(tables) && FullOrder(ord, |tables|) && SoundPlacement(tables, preds, ord, att) && 1 <= s < |ord|
    requires forall i :: 0 <= i < |preds| ==> NeverErrs(fpu, tables, preds[i])
    requires ValidChain(ChainOf(fpu, tables, preds, ord, att)) && InRange(ChainOf(fpu, tables, preds, ord, att), p) && |p| == s
    requires b < |RowsAtSlot(ChainOf(fpu, tables, preds, ord, att), s)|
    ensures var c := ChainOf(fpu, tables, preds, ord, att);
            OnResult(StepJoin(c, s), RowAt(c, p), RowsAtSlot(c, s)[b]).Ok?
  {
    assert |ChainOf(fpu, tables, preds, ord, att).ord| == |ord|;
    hide *;
    ExtendedInRange(ChainOf(fpu, tables, preds, ord, att), p, b);
    OnNeverErrs(fpu, tables, preds, ord, att, p + [b], s);
    assert (p + [b])[..s] == p && (p + [b])[s] == b;
  }

  lemma ExtendedInRange(c: Chain, p: seq<nat>, b: nat)
    requires InRange(c, p) && |p| < |c.ord| && b < |RowsAtSlot(c, |p|)|
    ensures InRange(c, p + [b])
  {
    hide RowsAtSlot;
  }

  /** With predicates that never err, the reordered chain raises no error and yields the user's rows, with
      multiplicity, up to the permutation of columns. */
  lemma ReorderKeepsMeaning(fpu: Fpu, tables: seq<ChainTable>, preds: seq<Expr>, ord: seq<nat>, att: seq<seq<nat>>, user: seq<seq<nat>>)
    requires ValidTables(tables) && tables != [] && FullOrder(ord, |tables|)
    requires SoundPlacement(tables, preds, ord, att) && SoundPlacement(tables, preds, Identity(|tables|), user)
    requires forall i :: 0 <= i < |preds| ==> NeverErrs(fpu, tables, preds[i])
    ensures FullOrder(Identity(|tables|), |tables|)
    ensures var c, u := ChainOf(fpu, tables, preds, ord, att), ChainOf(fpu, tables, preds, Identity(|tables|), user);
            !ChainStream(c, |tables|).fails && !ChainStream(u, |tables|).fails &&
            multiset(ChainStream(c, |tables|).rows) == multiset(PermutedAll(tables, ord, ChainStream(u, |tables|).rows))
  {
    IdentityFacts(|tables|, ord);
    hide NeverErrs, SoundPlacement, ChainStream;
    ReorderKeepsRows(fpu, tables, preds, ord, att, user);
    ChainNeverFails(fpu, tables, preds, ord, att, |tables|);
    ChainNeverFails(fpu, tables, preds, Identity(|tables|), user, |tables|);
  }

  // ---------------------------------------------------------------- the planner step

  const REORDER_CAP: nat := 8

  predicate DistinctQualifiers(tables: seq<ChainTable>) {
    forall i, j :: 0 <= i < j < |tables| ==> tables[i].qualifier != tables[j].qualifier
  }

  lemma {:induction false} RefsInRange(tables: seq<ChainTable>, e: Expr)
    ensures Refs(tables, e).Some? ==> forall i :: i in Refs(tables, e).value ==> i < |tables|
  {
    match e
    case Column(ref) => OwnersInRange(tables, ref.name, 0);
    case Unary(_, a) => RefsInRange(tables, a);
    case Binary(_, l, r) => RefsInRange(tables, l); RefsInRange(tables, r);
    case IsNull(a, _) => RefsInRange(tables, a);
    case InList(p, _, _, _) => RefsInRange(tables, p);
    case InSubquery(p, _, _) => RefsInRange(tables, p);
    case _ =>
  }

  /** The tables each predicate touches, or `None` when the analyser gives up on one. */
  method CollectRefs(tables: seq<ChainTable>, preds: seq<Expr>) returns (r: Option<seq<set<nat>>>)
    ensures r.Some? ==> |r.value| == |preds| && forall i :: 0 <= i < |preds| ==> Refs(tables, preds[i]) == Some(r.value[i])
    ensures r.None? ==> exists i :: 0 <= i < |preds| && Refs(tables, preds[i]).None?
  {
    var out: seq<set<nat>> := [];
    for i := 0 to |preds|
      invariant |out| == i && forall k :: 0 <= k < i ==> Refs(tables, preds[k]) == Some(out[k])
    {
      var refs := Refs(tables, preds[i]);
      if refs.None? { return None; }
      out := out + [refs.value];
    }
    r := Some(out);
  }

  /** What a changed chain must satisfy. */
  ghost predicate GoodReorder(tables: seq<ChainTable>, preds: seq<Expr>, ord: seq<nat>, ons: seq<Expr>, att: seq<seq<nat>>) {
    && IsOrdering(ord, Identity(|tables|)) && SoundPlacement(tables, preds, ord, att) && ons == OnsOf(preds, att)
    && (forall i :: 0 <= i < |preds| ==> OnlyStep(tables, preds, ord, att, i))
  }

  /** Predicate `i` is attached at one step only: the earliest that has all its tables. */
  ghost predicate OnlyStep(tables: seq<ChainTable>, preds: seq<Expr>, ord: seq<nat>, att: seq<seq<nat>>, i: nat) {
    i < |preds| && Refs(tables, preds[i]).Some? &&
    forall s: nat :: PlacedAt(att, s, i) <==> Earliest(ord, Refs(tables, preds[i]).value, s)
  }

  ghost predicate Cheapest(ord: seq<nat>, n: nat, sizes: seq<nat>, refs: seq<set<nat>>) {
    && ord != []
    && (forall other :: IsOrdering(other, Identity(n)) && other != [] ==> Cost(ord, sizes, refs) <= Cost(other, sizes, refs))
  }

  /** The tables each predicate touches, one set per predicate. */
  ghost predicate RefsOf(tables: seq<ChainTable>, preds: seq<Expr>, refs: seq<set<nat>>) {
    |refs| == |preds| && forall i :: 0 <= i < |preds| ==> Refs(tables, preds[i]) == Some(refs[i])
  }

  /** The guards under which the planner searches at all. */
  ghost predicate Reorderable(tables: seq<ChainTable>, preds: seq<Expr>) {
    1 < |tables| <= REORDER_CAP && DistinctQualifiers(tables) &&
    forall i :: 0 <= i < |preds| ==> Refs(tables, preds[i]).Some?
  }

  /** The user's own chain. */
  ghost predicate UserChain(tables: seq<ChainTable>, preds: seq<Expr>, ord: seq<nat>, ons: seq<Expr>, att: seq<seq<nat>>) {
    ord == Identity(|tables|) && ons == preds && att == UserPlacement(|preds|)
  }

  /** What the planner hands on: the user's chain when a guard fails. Otherwise a cheapest order, which is
      the user's exactly when none is cheaper, and else one with every predicate attached exactly once,
      where all its tables are present. */
  ghost predicate Planned(tables: seq<ChainTable>, sizes: seq<nat>, preds: seq<Expr>,
                          ord: seq<nat>, ons: seq<Expr>, att: seq<seq<nat>>, refs: seq<set<nat>>) {
    var id := Identity(|tables|);
    && tables != []
    && (Reorderable(tables, preds) || UserChain(tables, preds, ord, ons, att))
    && (Reorderable(tables, preds) ==> RefsOf(tables, preds, refs) && Cheapest(ord, |tables|, sizes, refs))
    && (UserChain(tables, preds, ord, ons, att) ||
        (GoodReorder(tables, preds, ord, ons, att) && Cost(ord, sizes, refs) < Cost(id, sizes, refs)))
  }

  /** `reorder_inner_chain` on an INNER chain. */
  method ReorderInnerChain(tables: seq<ChainTable>, sizes: seq<nat>, preds: seq<Expr>)
    returns (ord: seq<nat>, ons: seq<Expr>, att: seq<seq<nat>>, refs: seq<set<nat>>)
    requires tables != [] && |preds| == |tables| - 1
    ensures Planned(tables, sizes, preds, ord, ons, att, refs)
  {
    var n, id := |tables|, Identity(|tables|);
    ord, ons, att, refs := id, preds, UserPlacement(|preds|), [];
    if n == 1 || n > REORDER_CAP || !DistinctQualifiers(tables) { return; }
    var collected := CollectRefs(tables, preds);
    if collected.None? { return; }
    refs := collected.value;
    hide Cost, Refs;
    var best := ChooseOrder(id, sizes, refs);
    assert IsOrdering(id, id);
    if best == id { return; }
    var assignments := AssignPredicates(best, refs);
    OrderingIsFull(best, n);
    AssignmentsAreSound(tables, preds, refs, best, assignments);
    ord, att := best, assignments;
    ons := [];
    for s := 0 to |assignments|
      invariant |ons| == s && forall k :: 0 <= k < s ==> IndicesBelow(assignments[k], |preds|) && ons[k] == OnFor(Take(preds, assignments[k]))
    {
      ons := ons + [OnFor(Take(preds, assignments[s]))];
    }
    assert ons == OnsOf(preds, att);
  }

  /** Whatever the planner hands on, the planned chain raises no error and yields the rows of the chain the
      user wrote, with multiplicity, up to the permutation of columns, for every chain whose ON clauses
      mention only tables already joined and never err. */
  lemma PlannedKeepsMeaning(fpu: Fpu, tables: seq<ChainTable>, sizes: seq<nat>, preds: seq<Expr>,
                            ord: seq<nat>, ons: seq<Expr>, att: seq<seq<nat>>, refs: seq<set<nat>>)
    requires ValidTables(tables) && |preds| == |tables| - 1 && Planned(tables, sizes, preds, ord, ons, att, refs)
    requires forall i :: 0 <= i < |preds| ==> Covered(tables, preds[i], Identity(|tables|), i + 1)
    requires forall i :: 0 <= i < |preds| ==> NeverErrs(fpu, tables, preds[i])
    ensures FullOrder(Identity(|tables|), |tables|) && FullOrder(ord, |tables|)
    ensures var c, u := Chain(fpu, tables, ord, ons), Chain(fpu, tables, Identity(|tables|), preds);
            ValidChain(c) && ValidChain(u) &&
            !ChainStream(c, |tables|).fails && !ChainStream(u, |tables|).fails &&
            multiset(ChainStream(c, |tables|).rows) == multiset(PermutedAll(tables, ord, ChainStream(u, |tables|).rows))
  {
    hide Cost, NeverErrs, Covered, ChainStream, GoodReorder, RefsOf, Reorderable, Cheapest, ValidChain;
    var user := UserPlacement(|preds|);
    UserPlacementSound(tables, preds);
    IdentityFacts(|tables|, Identity(|tables|));
    if !UserChain(tables, preds, ord, ons, att) { GoodReorderFacts(tables, preds, ord, ons, att); }
    SoundChain(fpu, tables, preds, ord, att);
    SoundChain(fpu, tables, preds, Identity(|tables|), user);
    ReorderKeepsMeaning(fpu, tables, preds, ord, att, user);
  }

  lemma GoodReorderFacts(tables: seq<ChainTable>, preds: seq<Expr>, ord: seq<nat>, ons: seq<Expr>, att: seq<seq<nat>>)
    requires GoodReorder(tables, preds, ord, ons, att)
    ensures FullOrder(ord, |tables|) && SoundPlacement(tables, preds, ord, att) && ons == OnsOf(preds, att)
  {
    OrderingIsFull(ord, |tables|);
  }

  lemma AssignmentsAreSound(tables: seq<ChainTable>, preds: seq<Expr>, refs: seq<set<nat>>, ord: seq<nat>, att: seq<seq<nat>>)
    requires |refs| == |preds| && forall i :: 0 <= i < |preds| ==> Refs(tables, preds[i]) == Some(refs[i])
    requires FullOrder(ord, |tables|) && |ord| >= 2 && |att| == |ord| - 1
    requires forall step: nat, i: nat :: PlacedAt(att, step, i) <==> i < |refs| && Earliest(ord, refs[i], step)
    ensures SoundPlacement(tables, preds, ord, att)
    ensures forall i :: 0 <= i < |preds| ==> OnlyStep(tables, preds, ord, att, i)
  {
    hide Refs;
    forall s, k | 0 <= s < |att| && 0 <= k < |att[s]| ensures att[s][k] < |preds| {
      assert PlacedAt(att, s + 1, att[s][k]);
    }
    forall s, i | 1 <= s <= |att| && i in att[s - 1] && i < |preds| ensures Covered(tables, preds[i], ord, s) {
      assert PlacedAt(att, s, i) && Earliest(ord, refs[i], s);
    }
    forall i | 0 <= i < |preds| ensures Placed(att, i) {
      RefsInRange(tables, preds[i]);
      forall t | t in refs[i] ensures t in Joined(ord, |ord| - 1) {
        assert t in Refs(tables, preds[i]).value && t in ord;
        var k :| 0 <= k < |ord| && ord[k] == t;
      }
      EarliestExists(ord, refs[i], |ord| - 1);
      var s: nat :| Earliest(ord, refs[i], s);
      assert PlacedAt(att, s, i);
    }
  }

  /** The user's own placement is sound when every predicate mentions only tables already joined. */
  lemma UserPlacementSound(tables: seq<ChainTable>, preds: seq<Expr>)
    requires tables != [] && |preds| == |tables| - 1
    requires forall i :: 0 <= i < |preds| ==> Covered(tables, preds[i], Identity(|tables|), i + 1)
    ensures SoundPlacement(tables, preds, Identity(|tables|), UserPlacement(|preds|))
    ensures OnsOf(preds, UserPlacement(|preds|)) == preds
  {
    var att := UserPlacement(|preds|);
    hide Covered;
    forall i | 0 <= i < |preds| ensures Placed(att, i) { assert PlacedAt(att, i + 1, i); }
    UserOns(preds);
  }
}
