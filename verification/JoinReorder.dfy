/** Reordering an INNER join chain keeps its meaning (`reorder_inner_chain` in engine/planner.rs). */
module JoinReorder {
  import opened Bytes
  import opened Values
  import opened Expressions
  import opened AccessPaths
  import opened Sequences
  import opened ScopeChange
  import opened JoinOrder

  /** A table of the chain: its qualifier, its columns and the rows its scan yields. */
  datatype ChainTable = ChainTable(qualifier: string, schema: Schema, rows: seq<Row>)

  ghost predicate ValidTables(tables: seq<ChainTable>) {
    && (forall i, j :: 0 <= i < j < |tables| ==> tables[i].qualifier != tables[j].qualifier)
    && (forall i, k :: 0 <= i < |tables| && 0 <= k < |tables[i].rows| ==> |tables[i].rows[k]| == |tables[i].schema|)
  }

  function TableScope(t: ChainTable): (r: Scope)
    ensures |r| == |t.schema|
  {
    SingleScope(t.qualifier, t.schema)
  }

  /** The scope of tables joined left to right. */
  function ScopeOf(ts: seq<ChainTable>): Scope {
    if ts == [] then [] else TableScope(ts[0]) + ScopeOf(ts[1..])
  }

  /** One row per table. */
  ghost predicate PartsFit(ts: seq<ChainTable>, parts: seq<Row>) {
    |ts| == |parts| && forall i :: 0 <= i < |ts| ==> |parts[i]| == |ts[i].schema|
  }

  lemma {:induction false} JoinedWidth(ts: seq<ChainTable>, parts: seq<Row>)
    requires PartsFit(ts, parts)
    ensures |Flatten(parts)| == |ScopeOf(ts)|
  {
    if ts != [] { JoinedWidth(ts[1..], parts[1..]); }
  }

  function ContextOf(ts: seq<ChainTable>, parts: seq<Row>): Context { Context(ScopeOf(ts), Flatten(parts)) }

  predicate IndicesBelow(ids: seq<nat>, n: nat) { forall s :: 0 <= s < |ids| ==> ids[s] < n }

  /** The elements of `xs` at the given positions. */
  function Take<T>(xs: seq<T>, ord: seq<nat>): (r: seq<T>)
    requires IndicesBelow(ord, |xs|)
    ensures |r| == |ord| && forall s :: 0 <= s < |r| ==> r[s] == xs[ord[s]]
  {
    seq(|ord|, s requires 0 <= s < |ord| => xs[ord[s]])
  }

  // ---------------------------------------------------------------- predicates and their tables

  function QualifierIndex(tables: seq<ChainTable>, q: string): (r: Option<nat>)
    ensures r.Some? ==> r.value < |tables| && tables[r.value].qualifier == q
  {
    if tables == [] then None
    else if tables[0].qualifier == q then Some(0)
    else
      match QualifierIndex(tables[1..], q)
      case Some(i) => Some(i + 1)
      case None => None
  }

  /** One entry per column of that name in a schema. */
  function NamedIn(schema: Schema, name: string): nat {
    if schema == [] then 0 else (if schema[0].name == name then 1 else 0) + NamedIn(schema[1..], name)
  }

  /** The tables holding a column of that name, one entry per such column. */
  function Owners(tables: seq<ChainTable>, name: string, i: nat): seq<nat>
    requires i <= |tables|
    decreases |tables| - i
  {
    if i == |tables| then []
    else seq(NamedIn(tables[i].schema, name), _ => i) + Owners(tables, name, i + 1)
  }

  /** `collect_predicate_refs`: the tables a predicate touches; `None` when the analyser gives up. */
  function Refs(tables: seq<ChainTable>, e: Expr): Option<set<nat>> {
    match e
    case Column(ref) =>
      (match ref.table
       case Some(q) => (match QualifierIndex(tables, q) case Some(i) => Some({i}) case None => None)
       case None =>
         var owners := Owners(tables, ref.name, 0);
         if |owners| == 1 then Some({owners[0]}) else None)
    case Aggregate => None
    case Unary(_, a) => Refs(tables, a)
    case Binary(_, l, r) =>
      (match (Refs(tables, l), Refs(tables, r))
       case (Some(a), Some(b)) => Some(a + b)
       case _ => None)
    case IsNull(a, _) => Refs(tables, a)
    case InList(p, _, _, _) => Refs(tables, p)
    case InSubquery(p, _, _) => Refs(tables, p)
    case Exists(_) => None
    case OpaqueSubquery => None
    case _ => Some({})
  }

  lemma {:induction false} NamedInCounts(schema: Schema, name: string, k: nat)
    requires k < |schema| && schema[k].name == name
    ensures NamedIn(schema, name) > 0
  {
    if k > 0 { NamedInCounts(schema[1..], name, k - 1); }
  }

  lemma {:induction false} OwnersHas(tables: seq<ChainTable>, name: string, i: nat, t: nat)
    requires i <= t < |tables| && NamedIn(tables[t].schema, name) > 0
    ensures t in Owners(tables, name, i)
    decreases |tables| - i
  {
    if i == t { assert seq(NamedIn(tables[t].schema, name), _ => t)[0] == t; }
    else { OwnersHas(tables, name, i + 1, t); }
  }

  lemma {:induction false} OwnersInRange(tables: seq<ChainTable>, name: string, i: nat)
    requires i <= |tables|
    ensures forall k :: 0 <= k < |Owners(tables, name, i)| ==> i <= Owners(tables, name, i)[k] < |tables|
    decreases |tables| - i
  {
    if i < |tables| { OwnersInRange(tables, name, i + 1); }
  }

  /** A column the analyser attributes to table `i` matches in no other table. */
  lemma ColumnHasOneTable(tables: seq<ChainTable>, ref: ColumnRef, i: nat)
    requires ValidTables(tables) && Refs(tables, Column(ref)) == Some({i})
    ensures i < |tables|
    ensures forall t :: 0 <= t < |tables| && t != i ==> NoMatch(TableScope(tables[t]), ref)
  {
    assert i in {i};
    if ref.table.Some? {
      var q := QualifierIndex(tables, ref.table.value).value;
      assert q in {i};
      forall t | 0 <= t < |tables| && t != i ensures NoMatch(TableScope(tables[t]), ref) {
        assert tables[t].qualifier != tables[i].qualifier;
      }
    } else {
      var owners := Owners(tables, ref.name, 0);
      OwnersInRange(tables, ref.name, 0);
      assert owners[0] in {i};
      forall t | 0 <= t < |tables| && t != i ensures NoMatch(TableScope(tables[t]), ref) {
        forall c | 0 <= c < |tables[t].schema| ensures !Matches(TableScope(tables[t])[c], ref) {
          NotOwned(tables, ref, t, c);
        }
      }
    }
  }

  lemma NotOwned(tables: seq<ChainTable>, ref: ColumnRef, t: nat, c: nat)
    requires ref.table.None? && t < |tables| && c < |tables[t].schema|
    requires |Owners(tables, ref.name, 0)| == 1 && t != Owners(tables, ref.name, 0)[0]
    ensures tables[t].schema[c].name != ref.name
  {
    if tables[t].schema[c].name == ref.name {
      NamedInCounts(tables[t].schema, ref.name, c);
      OwnersHas(tables, ref.name, 0, t);
    }
  }

  lemma {:induction false} RefsOfColumns(tables: seq<ChainTable>, e: Expr, ref: ColumnRef)
    requires Refs(tables, e).Some? && ref in Columns(e)
    ensures Refs(tables, Column(ref)).Some? && Refs(tables, Column(ref)).value <= Refs(tables, e).value
    ensures exists i: nat :: Refs(tables, Column(ref)) == Some({i})
  {
    match e
    case Column(r) =>
      if r.table.Some? { assert Refs(tables, e) == Some({QualifierIndex(tables, r.table.value).value}); }
      else { assert Refs(tables, e) == Some({Owners(tables, r.name, 0)[0]}); }
    case Unary(_, x) => RefsOfColumns(tables, x, ref);
    case Binary(_, l, r) => if ref in Columns(l) { RefsOfColumns(tables, l, ref); } else { RefsOfColumns(tables, r, ref); }
    case IsNull(x, _) => RefsOfColumns(tables, x, ref);
    case InList(p, _, _, _) => RefsOfColumns(tables, p, ref);
  }

  // ---------------------------------------------------------------- what the analyser finds

  ghost predicate NamedAt(schema: Schema, name: string, c: nat) { c < |schema| && schema[c].name == name }

  ghost predicate NeverNamed(schema: Schema, name: string) { forall c: nat :: !NamedAt(schema, name, c) }

  ghost predicate OnceNamed(schema: Schema, name: string, c: nat) {
    NamedAt(schema, name, c) && forall d: nat :: NamedAt(schema, name, d) ==> d == c
  }

  lemma NamedShift(schema: Schema, name: string)
    requires schema != []
    ensures forall c: nat :: NamedAt(schema, name, c + 1) <==> NamedAt(schema[1..], name, c)
    ensures forall c: nat :: c > 0 && NamedAt(schema, name, c) ==> NamedAt(schema[1..], name, c - 1)
  {
  }

  lemma OnceShift(schema: Schema, name: string)
    requires schema != [] && schema[0].name != name
    ensures NeverNamed(schema, name) <==> NeverNamed(schema[1..], name)
    ensures (exists c: nat :: OnceNamed(schema, name, c)) <==> (exists c: nat :: OnceNamed(schema[1..], name, c))
  {
    var rest := schema[1..];
    NamedShift(schema, name);
    assert !NamedAt(schema, name, 0);
    hide NamedAt;
    if NeverNamed(rest, name) {
      forall c: nat ensures !NamedAt(schema, name, c) { if c > 0 { assert !NamedAt(rest, name, c - 1); } }
    }
    if NeverNamed(schema, name) {
      forall c: nat ensures !NamedAt(rest, name, c) { assert !NamedAt(schema, name, c + 1); }
    }
    if c: nat :| OnceNamed(rest, name, c) {
      forall d: nat | NamedAt(schema, name, d) ensures d == c + 1 { assert d > 0 && NamedAt(rest, name, d - 1); }
      assert OnceNamed(schema, name, c + 1);
    }
    if c: nat :| OnceNamed(schema, name, c) {
      assert c > 0;
      forall d: nat | NamedAt(rest, name, d) ensures d == c - 1 { assert NamedAt(schema, name, d + 1); }
      assert OnceNamed(rest, name, c - 1);
    }
  }

  lemma FirstOnly(schema: Schema, name: string)
    requires schema != [] && schema[0].name == name
    ensures !NeverNamed(schema, name)
    ensures (exists c: nat :: OnceNamed(schema, name, c)) <==> NeverNamed(schema[1..], name)
  {
    var rest := schema[1..];
    NamedShift(schema, name);
    assert NamedAt(schema, name, 0);
    assert forall d: nat :: NamedAt(rest, name, d) ==> NamedAt(schema, name, d + 1);
    hide NamedAt;
    if NeverNamed(rest, name) {
      assert OnceNamed(schema, name, 0);
    }
    if c: nat :| OnceNamed(schema, name, c) {
      assert c == 0;
    }
  }

  /** The count of a name's columns tells none and one from more. */
  lemma {:induction false} NamedInMeaning(schema: Schema, name: string)
    ensures NamedIn(schema, name) == 0 <==> NeverNamed(schema, name)
    ensures NamedIn(schema, name) == 1 <==> exists c: nat :: OnceNamed(schema, name, c)
  {
    if schema != [] {
      NamedInMeaning(schema[1..], name);
      if schema[0].name == name { FirstOnly(schema, name); } else { OnceShift(schema, name); }
      hide NeverNamed, OnceNamed;
    }
  }

  /** Among the tables from `i` on, one column has the name, and it is table `t`'s. */
  ghost predicate OwnedOnce(tables: seq<ChainTable>, name: string, i: nat, t: nat) {
    i <= t < |tables| && NamedIn(tables[t].schema, name) == 1 &&
    forall u :: i <= u < |tables| && u != t ==> NamedIn(tables[u].schema, name) == 0
  }

  lemma {:induction false} OwnersMeaning(tables: seq<ChainTable>, name: string, i: nat)
    requires i <= |tables|
    ensures Owners(tables, name, i) == [] <==> forall u :: i <= u < |tables| ==> NamedIn(tables[u].schema, name) == 0
    ensures forall t: nat :: Owners(tables, name, i) == [t] <==> OwnedOnce(tables, name, i, t)
    decreases |tables| - i
  {
    hide NamedIn;
    if i < |tables| {
      OwnersMeaning(tables, name, i + 1);
      var here, rest := seq(NamedIn(tables[i].schema, name), _ => i), Owners(tables, name, i + 1);
      forall t: nat ensures here + rest == [t] <==> OwnedOnce(tables, name, i, t) {
        if |here| == 0 { assert here + rest == rest; }
        else if |here| == 1 { assert here == [i] && (here + rest)[0] == i && (rest == [] ==> here + rest == [i]); }
        else { assert |here + rest| > 1; }
      }
    }
  }

  /** The table a column reference belongs to: the one its qualifier names, or for a bare name the only one
      with such a column, which it has once. */
  ghost predicate BelongsTo(tables: seq<ChainTable>, ref: ColumnRef, t: nat) {
    match ref.table
    case Some(q) => t < |tables| && tables[t].qualifier == q
    case None => OwnedOnce(tables, ref.name, 0, t)
  }

  lemma {:induction false} QualifierIndexMeaning(tables: seq<ChainTable>, q: string, t: nat)
    requires forall i, j :: 0 <= i < j < |tables| ==> tables[i].qualifier != tables[j].qualifier
    ensures QualifierIndex(tables, q) == Some(t) <==> t < |tables| && tables[t].qualifier == q
  {
    if tables != [] && t > 0 { QualifierIndexMeaning(tables[1..], q, t - 1); }
  }

  /** The analyser attributes a column to a table exactly when it belongs there. */
  lemma ColumnRefsMeaning(tables: seq<ChainTable>, ref: ColumnRef, t: nat)
    requires forall i, j :: 0 <= i < j < |tables| ==> tables[i].qualifier != tables[j].qualifier
    ensures Refs(tables, Column(ref)) == Some({t}) <==> BelongsTo(tables, ref, t)
  {
    hide QualifierIndex, Owners;
    match ref.table
    case Some(q) =>
      QualifierIndexMeaning(tables, q, t);
      if QualifierIndex(tables, q).Some? { SingletonsEqual(QualifierIndex(tables, q).value, t); }
    case None =>
      OwnersMeaning(tables, ref.name, 0);
      var owners := Owners(tables, ref.name, 0);
      if |owners| == 1 {
        assert owners == [owners[0]];
        SingletonsEqual(owners[0], t);
      }
  }

  lemma SingletonsEqual(a: nat, b: nat)
    ensures Some({a}) == Some({b}) <==> a == b
  {
    assert a in {a};
  }

  /** No aggregate, no EXISTS and no opaque subquery, at any depth outside IN's list. */
  predicate Analysable(e: Expr) {
    match e
    case Aggregate => false
    case Exists(_) => false
    case OpaqueSubquery => false
    case Unary(_, a) => Analysable(a)
    case Binary(_, l, r) => Analysable(l) && Analysable(r)
    case IsNull(a, _) => Analysable(a)
    case InList(p, _, _, _) => Analysable(p)
    case InSubquery(p, _, _) => Analysable(p)
    case _ => true
  }

  /** The column references of an expression outside its subqueries. */
  function OuterColumns(e: Expr): set<ColumnRef> {
    match e
    case Column(ref) => {ref}
    case Unary(_, a) => OuterColumns(a)
    case Binary(_, l, r) => OuterColumns(l) + OuterColumns(r)
    case IsNull(a, _) => OuterColumns(a)
    case InList(p, _, _, _) => OuterColumns(p)
    case InSubquery(p, _, _) => OuterColumns(p)
    case _ => {}
  }

  /** A predicate is analysed exactly when it is of such a shape and all its columns are attributed, and it
      then touches exactly their tables. */
  lemma {:induction false} RefsMeaning(tables: seq<ChainTable>, e: Expr)
    ensures Refs(tables, e).Some? <==> Analysable(e) && forall ref :: ref in OuterColumns(e) ==> Refs(tables, Column(ref)).Some?
    ensures Refs(tables, e).Some? ==> forall t :: t in Refs(tables, e).value <==> Touches(tables, e, t)
  {
    match e
    case Column(ref) => assert ref in OuterColumns(e);
    case Unary(_, a) => RefsMeaning(tables, a);
    case Binary(_, l, r) => RefsMeaning(tables, l); RefsMeaning(tables, r);
    case IsNull(a, _) => RefsMeaning(tables, a);
    case InList(p, _, _, _) => RefsMeaning(tables, p);
    case InSubquery(p, _, _) => RefsMeaning(tables, p);
    case _ =>
  }

  ghost predicate Touches(tables: seq<ChainTable>, e: Expr, t: nat) {
    exists ref :: ref in OuterColumns(e) && Refs(tables, Column(ref)).Some? && t in Refs(tables, Column(ref)).value
  }

  // ---------------------------------------------------------------- evaluation in any order

  /** A column that matches in one joined table only is read from that table's part. */
  lemma {:induction false} ColumnInSlot(fpu: Fpu, ts: seq<ChainTable>, parts: seq<Row>, ref: ColumnRef, s: nat)
    requires PartsFit(ts, parts) && s < |ts|
    requires forall u :: 0 <= u < |ts| && u != s ==> NoMatch(TableScope(ts[u]), ref)
    ensures |Flatten(parts)| == |ScopeOf(ts)|
    ensures Eval(fpu, Column(ref), Some(ContextOf(ts, parts))) == Eval(fpu, Column(ref), Some(Context(TableScope(ts[s]), parts[s])))
  {
    hide Eval, TableScope;
    JoinedWidth(ts, parts);
    JoinedWidth(ts[1..], parts[1..]);
    var head, rest := TableScope(ts[0]), ScopeOf(ts[1..]);
    if s == 0 {
      NoMatchInAny(ts[1..], ref);
      ColumnInLeft(fpu, head, parts[0], rest, Flatten(parts[1..]), ref);
    } else {
      ColumnInSlot(fpu, ts[1..], parts[1..], ref, s - 1);
      ColumnInRight(fpu, head, parts[0], rest, Flatten(parts[1..]), ref);
    }
  }

  lemma {:induction false} NoMatchInAny(ts: seq<ChainTable>, ref: ColumnRef)
    requires forall u :: 0 <= u < |ts| ==> NoMatch(TableScope(ts[u]), ref)
    ensures NoMatch(ScopeOf(ts), ref)
  {
    hide Matches, TableScope;
    if ts != [] {
      NoMatchInAny(ts[1..], ref);
      var a, b := TableScope(ts[0]), ScopeOf(ts[1..]);
      assert forall i :: 0 <= i < |a + b| ==> (a + b)[i] == if i < |a| then a[i] else b[i - |a|];
    }
  }

  /** Distinct tables of the chain, in some order. */
  ghost predicate PartialOrder(ord: seq<nat>, n: nat) {
    Distinct(ord) && IndicesBelow(ord, n)
  }

  /** A predicate has the same value on any ordering of any tables that include those it touches. */
  lemma ValueInAnyOrder(fpu: Fpu, tables: seq<ChainTable>, full: seq<Row>, e: Expr, ord: seq<nat>)
    requires ValidTables(tables) && PartsFit(tables, full) && PartialOrder(ord, |tables|)
    requires Refs(tables, e).Some? && forall i :: i in Refs(tables, e).value ==> i in ord
    ensures |Flatten(Take(full, ord))| == |ScopeOf(Take(tables, ord))| && |Flatten(full)| == |ScopeOf(tables)|
    ensures Eval(fpu, e, Some(ContextOf(Take(tables, ord), Take(full, ord)))) == Eval(fpu, e, Some(ContextOf(tables, full)))
  {
    hide Eval, Refs, ScopeOf, Flatten, Columns;
    var ts, parts := Take(tables, ord), Take(full, ord);
    JoinedWidth(ts, parts);
    JoinedWidth(tables, full);
    forall ref | ref in Columns(e) ensures SameColumn(fpu, ContextOf(ts, parts), ContextOf(tables, full), ref) {
      RefsOfColumns(tables, e, ref);
      var i: nat :| Refs(tables, Column(ref)) == Some({i});
      ColumnHasOneTable(tables, ref, i);
      assert i in Refs(tables, Column(ref)).value;
      var s :| 0 <= s < |ord| && ord[s] == i;
      ColumnInSlot(fpu, ts, parts, ref, s);
      ColumnInSlot(fpu, tables, full, ref, i);
    }
    SameColumnsSameValue(fpu, ContextOf(ts, parts), ContextOf(tables, full), e);
  }

  // ---------------------------------------------------------------- attaching predicates

  /** `and_all`, left-associated. */
  function AndAll(es: seq<Expr>): Expr
    requires es != []
  {
    if |es| == 1 then es[0] else Binary(And, AndAll(es[..|es| - 1]), es[|es| - 1])
  }

  /** The ON clause of a step: its predicates, or TRUE when it has none. */
  function OnFor(es: seq<Expr>): Expr {
    if es == [] then BoolLit(true) else AndAll(es)
  }

  lemma {:induction false} AndAllTrue(fpu: Fpu, es: seq<Expr>, ctx: Option<Context>)
    requires Fits(ctx) && es != []
    ensures Eval(fpu, AndAll(es), ctx) == Ok(Bool(true)) <==> forall e :: e in es ==> Eval(fpu, e, ctx) == Ok(Bool(true))
  {
    hide Eval;
    if |es| > 1 {
      var init, last := es[..|es| - 1], es[|es| - 1];
      AndAllTrue(fpu, init, ctx);
      AndIsTrue(fpu, AndAll(init), last, ctx);
      assert es == init + [last];
    }
  }

  lemma OnForTrue(fpu: Fpu, es: seq<Expr>, ctx: Option<Context>)
    requires Fits(ctx)
    ensures Eval(fpu, OnFor(es), ctx) == Ok(Bool(true)) <==> forall e :: e in es ==> Eval(fpu, e, ctx) == Ok(Bool(true))
  {
    if es != [] {
      hide Eval;
      AndAllTrue(fpu, es, ctx);
    }
  }
}
