/** Evaluating an expression in a wider scope: only the columns it refers to matter
    (`Scope::resolve` and the evaluator of engine/executor.rs). */
module ScopeChange {
  import opened Bytes
  import opened Values
  import opened Expressions

  ghost predicate NoMatch(scope: Scope, ref: ColumnRef) {
    forall i :: 0 <= i < |scope| ==> !Matches(scope[i], ref)
  }

  lemma {:induction false} ResolveFromError(scope: Scope, ref: ColumnRef, i: nat, found: Option<nat>)
    requires i <= |scope|
    ensures ResolveFrom(scope, ref, i, found).Err? ==> ResolveFrom(scope, ref, i, found) == Err(Exec)
    decreases |scope| - i
  {
    hide Matches;
    if i < |scope| {
      ResolveFromError(scope, ref, i + 1, found);
      ResolveFromError(scope, ref, i + 1, Some(i));
    }
  }

  lemma OnlyMatchLeft(a: Scope, b: Scope, ref: ColumnRef, k: nat)
    requires NoMatch(b, ref)
    ensures OnlyMatch(a + b, ref, k) <==> OnlyMatch(a, ref, k)
  {
    hide Matches;
    var s := a + b;
    assert forall j :: 0 <= j < |a| ==> s[j] == a[j];
    assert forall j :: |a| <= j < |s| ==> s[j] == b[j - |a|];
  }

  lemma OnlyMatchRight(a: Scope, b: Scope, ref: ColumnRef, k: nat)
    requires NoMatch(a, ref)
    ensures OnlyMatch(a + b, ref, k) <==> k >= |a| && OnlyMatch(b, ref, k - |a|)
  {
    hide Matches;
    var s := a + b;
    assert forall j :: 0 <= j < |a| ==> s[j] == a[j];
    assert forall j :: 0 <= j < |b| ==> s[|a| + j] == b[j];
    assert forall j :: |a| <= j < |s| ==> s[j] == b[j - |a|];
  }

  /** The value a reference denotes: the only match, or the one error resolution raises. */
  lemma ColumnValue(fpu: Fpu, scope: Scope, row: Row, ref: ColumnRef)
    requires |scope| == |row|
    ensures forall k: nat :: OnlyMatch(scope, ref, k) ==> Eval(fpu, Column(ref), Some(Context(scope, row))) == Ok(row[k])
    ensures (forall k: nat :: !OnlyMatch(scope, ref, k)) ==> Eval(fpu, Column(ref), Some(Context(scope, row))) == Err(Exec)
  {
    ResolveIsOnlyMatch(scope, ref);
    ResolveFromError(scope, ref, 0, None);
    hide OnlyMatch;
    var r := Resolve(scope, ref);
    if r.Ok? { assert OnlyMatch(scope, ref, r.value); }
  }

  lemma ColumnInLeft(fpu: Fpu, a: Scope, x: Row, b: Scope, y: Row, ref: ColumnRef)
    requires |a| == |x| && |b| == |y| && NoMatch(b, ref)
    ensures Eval(fpu, Column(ref), Some(Context(a + b, x + y))) == Eval(fpu, Column(ref), Some(Context(a, x)))
  {
    hide Eval;
    ColumnValue(fpu, a, x, ref);
    ColumnValue(fpu, a + b, x + y, ref);
    forall k: nat ensures OnlyMatch(a + b, ref, k) <==> OnlyMatch(a, ref, k) { OnlyMatchLeft(a, b, ref, k); }
    if k: nat :| OnlyMatch(a, ref, k) { assert (x + y)[k] == x[k]; }
  }

  lemma ColumnInRight(fpu: Fpu, a: Scope, x: Row, b: Scope, y: Row, ref: ColumnRef)
    requires |a| == |x| && |b| == |y| && NoMatch(a, ref)
    ensures Eval(fpu, Column(ref), Some(Context(a + b, x + y))) == Eval(fpu, Column(ref), Some(Context(b, y)))
  {
    hide Eval;
    ColumnValue(fpu, b, y, ref);
    ColumnValue(fpu, a + b, x + y, ref);
    forall k: nat ensures OnlyMatch(a + b, ref, k) <==> k >= |a| && OnlyMatch(b, ref, k - |a|) { OnlyMatchRight(a, b, ref, k); }
    if k: nat :| OnlyMatch(b, ref, k) {
      assert (x + y)[|a| + k] == y[k] && OnlyMatch(a + b, ref, |a| + k);
    } else {
      forall k: nat ensures !OnlyMatch(a + b, ref, k) { if k >= |a| { assert !OnlyMatch(b, ref, k - |a|); } }
    }
  }

  // ---------------------------------------------------------------- expressions

  /** The column references of an expression that evaluation reads from the row. */
  function Columns(e: Expr): set<ColumnRef> {
    match e
    case Column(ref) => {ref}
    case Unary(_, a) => Columns(a)
    case Binary(_, l, r) => Columns(l) + Columns(r)
    case IsNull(a, _) => Columns(a)
    case InList(p, _, _, _) => Columns(p)
    case _ => {}
  }

  /** Two contexts give a reference the same meaning. */
  ghost predicate SameColumn(fpu: Fpu, a: Context, b: Context, ref: ColumnRef) {
    |a.scope| == |a.values| && |b.scope| == |b.values| &&
    Eval(fpu, Column(ref), Some(a)) == Eval(fpu, Column(ref), Some(b))
  }

  /** Contexts that agree on an expression's columns agree on the expression. */
  lemma {:induction false} SameColumnsSameValue(fpu: Fpu, a: Context, b: Context, e: Expr)
    requires |a.scope| == |a.values| && |b.scope| == |b.values|
    requires forall ref :: ref in Columns(e) ==> SameColumn(fpu, a, b, ref)
    ensures Eval(fpu, e, Some(a)) == Eval(fpu, e, Some(b))
  {
    hide EvalUnary, EvalBinary, EvalInList, Resolve;
    match e
    case Column(ref) => assert SameColumn(fpu, a, b, ref);
    case Unary(_, x) => SameColumnsSameValue(fpu, a, b, x);
    case Binary(_, l, r) =>
      SameColumnsSameValue(fpu, a, b, l);
      SameColumnsSameValue(fpu, a, b, r);
    case IsNull(x, _) => SameColumnsSameValue(fpu, a, b, x);
    case InList(p, _, _, _) => SameColumnsSameValue(fpu, a, b, p);
    case _ =>
  }
}
