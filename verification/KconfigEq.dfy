/** Comparing expressions by cancelling what they have in common.

    `expr_eq` compares conjunctions and disjunctions by removing equal operands
    from copies of both sides, where operands are compared by `expr_eq` again.
    The mutual recursion ends because splitting a connective makes the pair
    smaller and cancelling never makes it larger.
  */
module KconfigEq {
  import opened KconfigExpr

  function Size(e: Expr): (n: nat)
    ensures n >= 1
  {
    match e
    case Sym(_) => 1
    case Not(a) => 1 + Size(a)
    case Bin(_, l, r) => 1 + Size(l) + Size(r)
    case Equal(_, _) => 1
    case Unequal(_, _) => 1
  }

  predicate Is(e: Expr, j: Join) {
    e.Bin? && e.j == j
  }

  predicate SameType(e1: Expr, e2: Expr) {
    match e1
    case Sym(_) => e2.Sym?
    case Not(_) => e2.Not?
    case Bin(j, _, _) => Is(e2, j)
    case Equal(_, _) => e2.Equal?
    case Unequal(_, _) => e2.Unequal?
  }

  predicate YesOrNo(e: Expr) {
    e == Sym(SymbolYes) || e == Sym(SymbolNo)
  }

  /** `__expr_eliminate_eq`: both sides after cancelling equal operands of `j`. */
  function Cancel(j: Join, e1: Expr, e2: Expr): (r: (Expr, Expr))
    ensures Size(r.0) <= Size(e1) && Size(r.1) <= Size(e2)
    decreases Size(e1) + Size(e2), if Is(e1, j) || Is(e2, j) then 0 else 3
  {
    if Is(e1, j) then
      var (l, e2') := Cancel(j, e1.l, e2);
      var (r, e2'') := Cancel(j, e1.r, e2');
      (Bin(j, l, r), e2'')
    else if Is(e2, j) then
      var (e1', l) := Cancel(j, e1, e2.l);
      var (e1'', r) := Cancel(j, e1', e2.r);
      (e1'', Bin(j, l, r))
    else if e1 == e2 && YesOrNo(e1) then (e1, e2)
    else if !ExprEq(e1, e2) then (e1, e2)
    else (Sym(Neutral(j)), Sym(Neutral(j)))
  }

  /** `expr_eliminate_eq`. */
  function EliminateEq(e1: Expr, e2: Expr): (Expr, Expr)
    decreases Size(e1) + Size(e2), 1
  {
    var (a, b) := if e1.Bin? then Cancel(e1.j, e1, e2) else (e1, e2);
    var (c, d) := if !SameType(a, b) && b.Bin? then Cancel(b.j, a, b) else (a, b);
    (EliminateYn(c), EliminateYn(d))
  }

  function ExprEq(e1: Expr, e2: Expr): bool
    decreases Size(e1) + Size(e2), 2
  {
    SameType(e1, e2) &&
    match e1
    case Equal(_, _) => e1 == e2
    case Unequal(_, _) => e1 == e2
    case Sym(_) => e1 == e2
    case Not(a) => ExprEq(a, e2.e)
    case Bin(_, _, _) =>
      var (a, b) := EliminateEq(e1, e2);
      a.Sym? && a == b
  }

  lemma Regroup(j: Join, a: Tri, b: Tri, f1: Tri, f2: Tri)
    ensures Combine(j, Combine(j, a, f1), Combine(j, b, f2)) == Combine(j, Combine(j, a, b), Combine(j, f1, f2))
  {}

  lemma Gather(j: Join, x: Tri, f1: Tri, f2: Tri)
    ensures Combine(j, Combine(j, x, f2), f1) == Combine(j, x, Combine(j, f1, f2))
  {}

  /** Cancelling takes the same factor out of both sides. */
  lemma {:induction false} CancelSound(j: Join, e1: Expr, e2: Expr, v: Values) returns (f: Tri)
    requires Sane(v)
    ensures var r := Cancel(j, e1, e2);
            Value(e1, v) == Combine(j, Value(r.0, v), f) && Value(e2, v) == Combine(j, Value(r.1, v), f)
    decreases Size(e1) + Size(e2), if Is(e1, j) || Is(e2, j) then 0 else 3
  {
    if Is(e1, j) {
      var (_, e2') := Cancel(j, e1.l, e2);
      var f1 := CancelSound(j, e1.l, e2, v);
      var f2 := CancelSound(j, e1.r, e2', v);
      f := Combine(j, f1, f2);
      var (l, _) := Cancel(j, e1.l, e2);
      var (r, e2'') := Cancel(j, e1.r, e2');
      Regroup(j, Value(l, v), Value(r, v), f1, f2);
      Gather(j, Value(e2'', v), f1, f2);
    } else if Is(e2, j) {
      var (e1', l) := Cancel(j, e1, e2.l);
      var f1 := CancelSound(j, e1, e2.l, v);
      var f2 := CancelSound(j, e1', e2.r, v);
      f := Combine(j, f1, f2);
      var (e1'', r) := Cancel(j, e1', e2.r);
      Regroup(j, Value(l, v), Value(r, v), f1, f2);
      Gather(j, Value(e1'', v), f1, f2);
    } else if (e1 == e2 && YesOrNo(e1)) || !ExprEq(e1, e2) {
      f := v.tri(Neutral(j));
    } else {
      ExprEqSound(e1, e2, v);
      f := Value(e1, v);
    }
  }

  lemma {:induction false} EliminateEqSound(e1: Expr, e2: Expr, v: Values)
    requires Sane(v)
    ensures var r := EliminateEq(e1, e2);
            Value(r.0, v) == Value(r.1, v) ==> Value(e1, v) == Value(e2, v)
    decreases Size(e1) + Size(e2), 1
  {
    var (a, b) := if e1.Bin? then Cancel(e1.j, e1, e2) else (e1, e2);
    var (c, d) := if !SameType(a, b) && b.Bin? then Cancel(b.j, a, b) else (a, b);
    if e1.Bin? {
      var f := CancelSound(e1.j, e1, e2, v);
    }
    if !SameType(a, b) && b.Bin? {
      var f := CancelSound(b.j, a, b, v);
    }
    EliminateYnKeepsValue(c, v);
    EliminateYnKeepsValue(d, v);
  }

  /** Expressions that compare equal have the same value under every assignment,
      tristates included. */
  lemma {:induction false} ExprEqSound(e1: Expr, e2: Expr, v: Values)
    requires Sane(v) && ExprEq(e1, e2)
    ensures Value(e1, v) == Value(e2, v)
    decreases Size(e1) + Size(e2), 2
  {
    match e1
    case Not(a) => ExprEqSound(a, e2.e, v);
    case Bin(_, _, _) => EliminateEqSound(e1, e2, v);
    case _ =>
  }
}
