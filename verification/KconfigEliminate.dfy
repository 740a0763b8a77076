/** The second phase of removing duplicates, and the loop around both phases. */
module KconfigEliminate {
  import opened KconfigExpr
  import opened KconfigEq
  import opened KconfigJoin
  import opened KconfigDups

  // ----------------------------------------------------------- expr_extract_eq

  /** `expr_extract_eq`: both sides after taking out equal operands of `j`, and
      whether there were any. */
  function Extract(j: Join, e1: Expr, e2: Expr): (r: (Expr, Expr, bool))
    ensures Size(r.0) <= Size(e1) && Size(r.1) <= Size(e2)
    decreases Size(e1) + Size(e2)
  {
    if Is(e1, j) then
      var (l, a, m) := Extract(j, e1.l, e2);
      var (r, b, n) := Extract(j, e1.r, a);
      (Bin(j, l, r), b, m || n)
    else if Is(e2, j) then
      var (a, l, m) := Extract(j, e1, e2.l);
      var (b, r, n) := Extract(j, a, e2.r);
      (b, Bin(j, l, r), m || n)
    else if ExprEq(e1, e2) then (Sym(Neutral(j)), Sym(Neutral(j)), true)
    else (e1, e2, false)
  }

  /** The same factor is taken out of both sides. */
  lemma {:induction false} ExtractSound(j: Join, e1: Expr, e2: Expr, v: Values) returns (f: Tri)
    requires Sane(v)
    ensures var r := Extract(j, e1, e2);
            Value(e1, v) == Combine(j, Value(r.0, v), f) && Value(e2, v) == Combine(j, Value(r.1, v), f)
    decreases Size(e1) + Size(e2)
  {
    if Is(e1, j) {
      var (l, a, _) := Extract(j, e1.l, e2);
      var f1 := ExtractSound(j, e1.l, e2, v);
      var f2 := ExtractSound(j, e1.r, a, v);
      f := Combine(j, f1, f2);
      var (r, b, _) := Extract(j, e1.r, a);
      Regroup(j, Value(l, v), Value(r, v), f1, f2);
      Gather(j, Value(b, v), f1, f2);
    } else if Is(e2, j) {
      var (a, l, _) := Extract(j, e1, e2.l);
      var f1 := ExtractSound(j, e1, e2.l, v);
      var f2 := ExtractSound(j, a, e2.r, v);
      f := Combine(j, f1, f2);
      var (b, r, _) := Extract(j, a, e2.r);
      Regroup(j, Value(l, v), Value(r, v), f1, f2);
      Gather(j, Value(b, v), f1, f2);
    } else if ExprEq(e1, e2) {
      ExprEqSound(e1, e2, v);
      f := Value(e1, v);
    } else {
      f := v.tri(Neutral(j));
    }
  }

  /** Nothing but the neutral constant is left of `t` without the operands of `z`. */
  predicate Covered(j: Join, t: Expr, z: Expr) {
    var (a, _, found) := Extract(j, t, z);
    (if found then EliminateYn(a) else a) == Sym(Neutral(j))
  }

  /** Every operand of `!y` is an operand of `z`. */
  predicate Refuted(j: Join, y: Expr, z: Expr) {
    Covered(j, Transform(Not(y)), z)
  }

  lemma {:induction false} CoveredBound(j: Join, t: Expr, z: Expr, v: Values)
    requires Sane(v) && Covered(j, t, z)
    ensures Combine(j, Value(t, v), Value(z, v)) == Value(z, v)
  {
    var (a, b, _) := Extract(j, t, z);
    var f := ExtractSound(j, t, z, v);
    EliminateYnKeepsValue(a, v);
    assert Value(Sym(Neutral(j)), v) == v.tri(Neutral(j));
    FactorBound(j, Value(a, v), Value(b, v), f, v);
  }

  lemma {:induction false} RefutedBound(j: Join, y: Expr, z: Expr, v: Values)
    requires Sane(v) && Refuted(j, y, z)
    ensures Combine(j, 2 - Value(y, v), Value(z, v)) == Value(z, v)
  {
    NegationValue(y, v);
    CoveredBound(j, Transform(Not(y)), z, v);
    Transport(j, Value(Transform(Not(y)), v), 2 - Value(y, v), Value(z, v));
  }

  lemma Transport(j: Join, a: Tri, b: Tri, c: Tri)
    requires a == b && Combine(j, a, c) == c
    ensures Combine(j, b, c) == c
  {}

  lemma {:induction false} NegationValue(y: Expr, v: Values)
    requires Sane(v)
    ensures Value(Transform(Not(y)), v) == 2 - Value(y, v)
  {
    TransformKeepsValue(Not(y), v);
  }

  lemma FactorBound(j: Join, a: Tri, b: Tri, f: Tri, v: Values)
    requires Sane(v) && a == v.tri(Neutral(j))
    ensures Combine(j, Combine(j, a, f), Combine(j, b, f)) == Combine(j, b, f)
  {}

  // ------------------------------------------------------ expr_eliminate_dups2

  lemma {:induction false} SpineBound(j: Join, e: Expr, q: Slot, v: Values)
    requires Sane(v) && Spine(j, e, q)
    ensures Combine(j, Value(At(j, e, q), v), Value(e, v)) == Value(e, v)
  {
    HoleValue(j, e, q, At(j, e, q), v);
    PutBack(j, e, q);
  }

  /** Replacing a refuted operand by the absorbing constant is right exactly
      where the whole connective is not `m`. */
  lemma {:induction false} RefutedStepIff(j: Join, e: Expr, p: Slot, q: Slot, v: Values)
    requires Sane(v) && Operand(j, e, p) && Spine(j, e, q) && Refuted(j, At(j, e, p), At(j, e, q))
    ensures Value(Put(j, e, p, Sym(Absorbing(j))), v) == Value(e, v) <==> Value(e, v) != mod
  {
    SpineBound(j, e, p, v);
    SpineBound(j, e, q, v);
    RefutedBound(j, At(j, e, p), At(j, e, q), v);
    HoleValue(j, e, p, Sym(Absorbing(j)), v);
  }

  /** Put `y` in the place of the operand at `p`, or the absorbing constant if the
      node at `q` refutes it. */
  function Refute(j: Join, e: Expr, p: Slot, q: Slot, y: Expr): (r: (Expr, nat))
    requires Operand(j, e, p) && Spine(j, e, q) && !Is(y, j) && Size(y) <= Size(At(j, e, p))
    ensures Size(r.0) <= Size(e) && SameSpine(j, e, r.0)
  {
    PutOperand(j, e, p, y);
    var a := Put(j, e, p, y);
    SameSpineAt(j, e, a, q);
    if Refuted(j, y, At(j, a, q)) then
      PutOperand(j, a, p, Sym(Absorbing(j)));
      SameSpineTransitive(j, e, a, Put(j, a, p, Sym(Absorbing(j))));
      (Put(j, a, p, Sym(Absorbing(j))), 1)
    else (a, 0)
  }

  /** The tree after `expr_eliminate_dups2(j, p, q)`, and by how much it has
      increased `trans_count`. The case of a connective at `q` does not return, so
      the operand at `p` is compared with that whole connective too. */
  function Dups2(j: Join, e: Expr, p: Slot, q: Slot): (r: (Expr, nat))
    requires Spine(j, e, p) && Spine(j, e, q)
    ensures Size(r.0) <= Size(e) && SameSpine(j, e, r.0)
    decreases Size(e), SpineSize(j, At(j, e, p)) + SpineSize(j, At(j, e, q)), 1
  {
    if Is(At(j, e, p), j) then
      Below(j, e, p, Left);
      var (a, n) := Dups2(j, e, p + [Left], q);
      SameSpineAt(j, e, a, p); SameSpineAt(j, e, a, q);
      Below(j, a, p, Right);
      var (b, m) := Dups2(j, a, p + [Right], q);
      SameSpineTransitive(j, e, a, b);
      (b, n + m)
    else
      var (b, n) := Deeper2(j, e, p, q);
      SameSpineAt(j, e, b, p); SameSpineAt(j, e, b, q);
      if p == q || !At(j, b, p).Bin? then (b, n)
      else
        var x := At(j, b, p);
        assert |p| > 0;
        OperandSize(j, b, p);
        var (y, m) := Dups2(x.j, x, [], []);
        var (c, k) := Refute(j, b, p, q, y);
        SameSpineTransitive(j, e, b, c);
        (c, n + m + k)
  }

  /** The recursion into a connective at `q`. */
  function Deeper2(j: Join, e: Expr, p: Slot, q: Slot): (r: (Expr, nat))
    requires Operand(j, e, p) && Spine(j, e, q)
    ensures Size(r.0) <= Size(e) && SameSpine(j, e, r.0)
    decreases Size(e), SpineSize(j, At(j, e, p)) + SpineSize(j, At(j, e, q)), 0
  {
    if Is(At(j, e, q), j) then
      Below(j, e, q, Left);
      var (a, n) := Dups2(j, e, p, q + [Left]);
      SameSpineAt(j, e, a, p); SameSpineAt(j, e, a, q);
      Below(j, a, q, Right);
      var (b, m) := Dups2(j, a, p, q + [Right]);
      SameSpineTransitive(j, e, a, b);
      (b, n + m)
    else
      SameSpineReflexive(j, e);
      (e, 0)
  }

  /** A value that is not `m` stays, and if no symbol of the first tree is `m` on
      its own, neither is one of the second. */
  predicate Firm(e: Expr, f: Expr, v: Values) {
    && (Value(e, v) != mod ==> Value(f, v) == Value(e, v))
    && (Crisp(e, v) ==> Crisp(f, v))
  }

  lemma FirmHole(j: Join, a: Tri, b: Tri, rest: Tri)
    requires a != mod ==> b == a
    ensures Combine(j, a, rest) != mod ==> Combine(j, b, rest) == Combine(j, a, rest)
  {}

  /** What an operand loses at `m` does not show where the whole is not `m`. */
  lemma {:induction false} OperandFirm(j: Join, e: Expr, p: Slot, x: Expr, v: Values)
    requires Sane(v) && Spine(j, e, p) && Firm(At(j, e, p), x, v)
    ensures Firm(e, Put(j, e, p, x), v)
  {
    HoleValue(j, e, p, x, v);
    HoleValue(j, e, p, At(j, e, p), v);
    PutBack(j, e, p);
    FirmHole(j, Value(At(j, e, p), v), Value(x, v), Rest(j, e, p, v));
    if Crisp(e, v) {
      OperandCrisp(j, e, p, x, v);
    }
  }

  lemma {:induction false} RefuteKeepsValue(j: Join, e: Expr, p: Slot, q: Slot, y: Expr, v: Values)
    requires Operand(j, e, p) && Spine(j, e, q) && !Is(y, j) && Size(y) <= Size(At(j, e, p))
    requires Sane(v) && Firm(At(j, e, p), y, v)
    ensures Firm(e, Refute(j, e, p, q, y).0, v)
  {
    PutOperand(j, e, p, y);
    var a := Put(j, e, p, y);
    SameSpineAt(j, e, a, q);
    OperandFirm(j, e, p, y, v);
    if Refuted(j, y, At(j, a, q)) {
      RefutedStepIff(j, a, p, q, v);
      if Crisp(a, v) {
        OperandCrisp(j, a, p, Sym(Absorbing(j)), v);
      }
    }
  }

  /** The second phase keeps every value but `m`. */
  lemma {:induction false} Dups2KeepsValue(j: Join, e: Expr, p: Slot, q: Slot, v: Values)
    requires Sane(v) && Spine(j, e, p) && Spine(j, e, q)
    ensures Firm(e, Dups2(j, e, p, q).0, v)
    decreases Size(e), SpineSize(j, At(j, e, p)) + SpineSize(j, At(j, e, q)), 1
  {
    if Is(At(j, e, p), j) {
      Below(j, e, p, Left);
      Dups2KeepsValue(j, e, p + [Left], q, v);
      var a := Dups2(j, e, p + [Left], q).0;
      SameSpineAt(j, e, a, p); SameSpineAt(j, e, a, q);
      Below(j, a, p, Right);
      Dups2KeepsValue(j, a, p + [Right], q, v);
    } else {
      Deeper2KeepsValue(j, e, p, q, v);
      var b := Deeper2(j, e, p, q).0;
      SameSpineAt(j, e, b, p); SameSpineAt(j, e, b, q);
      if p != q && At(j, b, p).Bin? {
        var x := At(j, b, p);
        OperandSize(j, b, p);
        Dups2KeepsValue(x.j, x, [], [], v);
        RefuteKeepsValue(j, b, p, q, Dups2(x.j, x, [], []).0, v);
      }
    }
  }

  lemma {:induction false} Deeper2KeepsValue(j: Join, e: Expr, p: Slot, q: Slot, v: Values)
    requires Sane(v) && Operand(j, e, p) && Spine(j, e, q)
    ensures Firm(e, Deeper2(j, e, p, q).0, v)
    decreases Size(e), SpineSize(j, At(j, e, p)) + SpineSize(j, At(j, e, q)), 0
  {
    if Is(At(j, e, q), j) {
      Below(j, e, q, Left);
      Dups2KeepsValue(j, e, p, q + [Left], v);
      var a := Dups2(j, e, p, q + [Left]).0;
      SameSpineAt(j, e, a, p); SameSpineAt(j, e, a, q);
      Below(j, a, q, Right);
      Dups2KeepsValue(j, a, p, q + [Right], v);
    }
  }

  /** Where an operand of the result is the absorbing constant, as it is where one
      has been refuted, `m` is the only value that is lost. */
  lemma {:induction false} Dups2LosesIff(j: Join, e: Expr, p: Slot, q: Slot, at: Slot, v: Values)
    requires Sane(v) && Spine(j, e, p) && Spine(j, e, q)
    requires var r := Dups2(j, e, p, q).0; Operand(j, r, at) && At(j, r, at) == Sym(Absorbing(j))
    ensures Value(Dups2(j, e, p, q).0, v) == Value(e, v) <==> Value(e, v) != mod
  {
    Dups2KeepsValue(j, e, p, q, v);
    SpineBound(j, Dups2(j, e, p, q).0, at, v);
  }

  lemma {:induction false} RefuteCounted(j: Join, e: Expr, p: Slot, q: Slot, y: Expr, n: nat)
    requires Operand(j, e, p) && Spine(j, e, q) && |p| > 0 && !Is(y, j) && Size(y) <= Size(At(j, e, p))
    requires At(j, e, p).Bin? && Counted(At(j, e, p), (y, n))
    ensures var r := Refute(j, e, p, q, y); Counted(e, (r.0, n + r.1))
  {
    PutOperand(j, e, p, y);
    var a := Put(j, e, p, y);
    SameSpineAt(j, e, a, q);
    PutBack(j, e, p);
    if Refuted(j, y, At(j, a, q)) {
      PutOperand(j, a, p, Sym(Absorbing(j)));
      ConstantOperand(j, Put(j, a, p, Sym(Absorbing(j))), p);
    } else if n > 0 {
      ConstantInside(j, e, p, y);
    }
  }

  lemma {:induction false} Dups2Counted(j: Join, e: Expr, p: Slot, q: Slot)
    requires Spine(j, e, p) && Spine(j, e, q)
    ensures Counted(e, Dups2(j, e, p, q))
    decreases Size(e), SpineSize(j, At(j, e, p)) + SpineSize(j, At(j, e, q)), 1
  {
    if Is(At(j, e, p), j) {
      Below(j, e, p, Left);
      Dups2Counted(j, e, p + [Left], q);
      var a := Dups2(j, e, p + [Left], q).0;
      SameSpineAt(j, e, a, p); SameSpineAt(j, e, a, q);
      Below(j, a, p, Right);
      Dups2Counted(j, a, p + [Right], q);
    } else {
      Deeper2Counted(j, e, p, q);
      var (b, n) := Deeper2(j, e, p, q);
      SameSpineAt(j, e, b, p); SameSpineAt(j, e, b, q);
      if p != q && At(j, b, p).Bin? {
        var x := At(j, b, p);
        OperandSize(j, b, p);
        Dups2Counted(x.j, x, [], []);
        var (y, m) := Dups2(x.j, x, [], []);
        RefuteCounted(j, b, p, q, y, m);
      }
    }
  }

  lemma {:induction false} Deeper2Counted(j: Join, e: Expr, p: Slot, q: Slot)
    requires Operand(j, e, p) && Spine(j, e, q)
    ensures Counted(e, Deeper2(j, e, p, q))
    decreases Size(e), SpineSize(j, At(j, e, p)) + SpineSize(j, At(j, e, q)), 0
  {
    if Is(At(j, e, q), j) {
      Below(j, e, q, Left);
      Dups2Counted(j, e, p, q + [Left]);
      var a := Dups2(j, e, p, q + [Left]).0;
      SameSpineAt(j, e, a, p); SameSpineAt(j, e, a, q);
      Below(j, a, q, Right);
      Dups2Counted(j, a, p, q + [Right]);
    }
  }

  // ------------------------------------------------------- expr_eliminate_dups

  lemma {:induction false} EliminateYnSmaller(e: Expr)
    ensures Size(EliminateYn(e)) <= Size(e) && (!YnFree(e) ==> Size(EliminateYn(e)) < Size(e))
  {
    match e
    case Bin(_, l, r) => EliminateYnSmaller(l); EliminateYnSmaller(r);
    case _ =>
  }

  lemma {:induction false} EliminateYnCrisp(e: Expr, v: Values)
    requires Sane(v) && Crisp(e, v)
    ensures Crisp(EliminateYn(e), v)
  {
    match e
    case Bin(_, l, r) => EliminateYnCrisp(l, v); EliminateYnCrisp(r, v);
    case _ =>
  }

  /** Whatever value is not `m` is kept under every assignment, and no symbol
      becomes `m`. */
  ghost predicate Simplified(e: Expr, r: Expr) {
    forall v :: Sane(v) ==> Firm(e, r, v)
  }

  /** Neither phase finds anything more to do. */
  predicate Settled(e: Expr) {
    e.Bin? ==> Dups1(e.j, e, [], []) == (e, 0) && Dups2(e.j, e, [], []) == (e, 0)
  }

  /** The tree after both phases, and what each of them has counted. */
  function Round(e: Expr): (r: (Expr, nat, nat))
    requires e.Bin?
    ensures Size(r.0) <= Size(e) && r.0.Bin?
    ensures r.1 + r.2 == 0 ==> r.0 == e
    ensures r.1 + r.2 > 0 ==> Size(EliminateYn(r.0)) < Size(e)
  {
    var (a, n) := Dups1(e.j, e, [], []);
    var (b, m) := Dups2(e.j, a, [], []);
    Dups1Counted(e.j, e, [], []);
    Dups2Counted(e.j, a, [], []);
    EliminateYnSmaller(b);
    (b, n, m)
  }

  /** `expr_eliminate_dups`: rounds of both phases until nothing is counted.  Each
      round that counts something leaves a constant operand behind, so that the
      tree gets smaller. */
  function Eliminated(e: Expr): Expr
    decreases Size(e)
  {
    if !e.Bin? then e
    else
      var (b, n, m) := Round(e);
      if n + m == 0 then b else Eliminated(EliminateYn(b))
  }

  /** Some round refutes an operand. */
  predicate Refutes(e: Expr)
    decreases Size(e)
  {
    e.Bin? && var (b, n, m) := Round(e); m > 0 || (n > 0 && Refutes(EliminateYn(b)))
  }

  lemma {:induction false} RoundSimplifies(e: Expr, v: Values)
    requires Sane(v) && e.Bin?
    ensures var (b, n, m) := Round(e);
            Firm(e, b, v) && Firm(e, EliminateYn(b), v)
            && (m == 0 ==> Value(b, v) == Value(e, v) && Value(EliminateYn(b), v) == Value(e, v))
  {
    var a := Dups1(e.j, e, [], []).0;
    var b := Round(e).0;
    Dups1KeepsValue(e.j, e, [], [], v);
    Dups2KeepsValue(e.j, a, [], [], v);
    Dups2Counted(e.j, a, [], []);
    EliminateYnKeepsValue(b, v);
    if Crisp(b, v) {
      EliminateYnCrisp(b, v);
    }
  }

  /** No value but `m` is lost, and not even that one if nothing is refuted. */
  lemma {:induction false} EliminatedKeepsValue(e: Expr, v: Values)
    requires Sane(v)
    ensures Firm(e, Eliminated(e), v)
    ensures !Refutes(e) ==> Value(Eliminated(e), v) == Value(e, v)
    decreases Size(e)
  {
    if e.Bin? {
      var (b, n, m) := Round(e);
      RoundSimplifies(e, v);
      if n + m > 0 {
        EliminatedKeepsValue(EliminateYn(b), v);
      }
    }
  }

  /** Where no symbol is `m` on its own, no value is lost at all. */
  lemma {:induction false} EliminatedCrisp(e: Expr, v: Values)
    requires Sane(v) && Crisp(e, v)
    ensures Kept(e, Eliminated(e), v)
  {
    CrispValue(e, v);
    EliminatedKeepsValue(e, v);
  }

  /** An expression that becomes a constant has lost the value `m`, and nothing
      else. */
  lemma {:induction false} ConstantLosesIff(e: Expr, v: Values)
    requires Sane(v) && YesOrNo(Eliminated(e))
    ensures Value(Eliminated(e), v) == Value(e, v) <==> Value(e, v) != mod
  {
    EliminatedKeepsValue(e, v);
  }

  lemma {:induction false} EliminatedSettled(e: Expr)
    ensures Settled(Eliminated(e)) && Size(Eliminated(e)) <= Size(e)
    decreases Size(e)
  {
    if e.Bin? {
      var (b, n, m) := Round(e);
      if n + m > 0 {
        EliminatedSettled(EliminateYn(b));
      } else {
        Dups1Counted(e.j, e, [], []);
      }
    }
  }

  /** The loop ends, because whatever is counted leaves a constant operand behind,
      which `EliminateYn` removes; every value but `m` is kept under every
      assignment, all are if nothing is refuted, and simplifying the result again
      changes nothing. */
  method EliminateDups(e: Expr) returns (r: Expr)
    ensures r == Eliminated(e) && Settled(r) && Size(r) <= Size(e)
    ensures Simplified(e, r)
    ensures !Refutes(e) ==> forall v :: Sane(v) ==> Value(r, v) == Value(e, v)
  {
    r := e;
    while true
      invariant Eliminated(r) == Eliminated(e)
      decreases Size(r)
    {
      var transCount := 0;
      if r.Bin? {
        ghost var before := r;
        var (a, n) := Dups1(r.j, r, [], []);
        var (b, m) := Dups2(r.j, a, [], []);
        assert Round(before) == (b, n, m);
        transCount := n + m;
        r := b;
      }
      if transCount == 0 {
        break;
      }
      r := EliminateYn(r);
    }
    EliminatedSettled(e);
    forall v | Sane(v) ensures Firm(e, r, v) && (!Refutes(e) ==> Value(r, v) == Value(e, v)) {
      EliminatedKeepsValue(e, v);
    }
  }

  // ------------------------------------------------------------------- tristates

  /** `a` is `m`, and every other symbol but the constants is `n`. */
  function OneMod(a: Symbol): Values {
    var tri: Symbol -> Tri :=
      (s: Symbol) => if s == SymbolYes then yes else if s == SymbolMod || s == a then mod else no;
    Values(tri, (s: Symbol) => if s.Literal? then s.text else TriString(tri(s)))
  }

  /** Where no two operands are joined and none changes on its own, the first
      phase does nothing. */
  ghost predicate Unjoinable(j: Join, e: Expr) {
    forall p: Slot :: Operand(j, e, p) ==>
      && (|p| > 0 && At(j, e, p).Bin? ==> Dups1(At(j, e, p).j, At(j, e, p), [], []) == (At(j, e, p), 0))
      && forall q: Slot :: Operand(j, e, q) && q != p ==> JoinPair(j, At(j, e, p), At(j, e, q)).None?
  }

  lemma {:induction false} Dups1Nothing(j: Join, e: Expr, p: Slot, q: Slot)
    requires Unjoinable(j, e) && Spine(j, e, p) && Spine(j, e, q)
    ensures Dups1(j, e, p, q) == (e, 0)
    decreases Size(e), SpineSize(j, At(j, e, p)) + SpineSize(j, At(j, e, q))
  {
    if Is(At(j, e, p), j) {
      Below(j, e, p, Left);
      Below(j, e, p, Right);
      Dups1Nothing(j, e, p + [Left], q);
      Dups1Nothing(j, e, p + [Right], q);
    } else if Is(At(j, e, q), j) {
      Below(j, e, q, Left);
      Below(j, e, q, Right);
      Dups1Nothing(j, e, p, q + [Left]);
      Dups1Nothing(j, e, p, q + [Right]);
    } else if p != q {
      assert |p| > 0;
      PutBack(j, e, p);
    }
  }

  /** The second phase looks at operands that are connectives only. */
  predicate Leaves(j: Join, e: Expr) {
    if Is(e, j) then Leaves(j, e.l) && Leaves(j, e.r) else !e.Bin?
  }

  lemma {:induction false} Dups2Nothing(j: Join, e: Expr, p: Slot, q: Slot)
    requires Spine(j, e, p) && Spine(j, e, q) && Leaves(j, At(j, e, p))
    ensures Dups2(j, e, p, q) == (e, 0)
    ensures !Is(At(j, e, p), j) ==> Deeper2(j, e, p, q) == (e, 0)
    decreases Size(e), SpineSize(j, At(j, e, p)) + SpineSize(j, At(j, e, q))
  {
    if Is(At(j, e, p), j) {
      Below(j, e, p, Left);
      Below(j, e, p, Right);
      Dups2Nothing(j, e, p + [Left], q);
      Dups2Nothing(j, e, p + [Right], q);
    } else if Is(At(j, e, q), j) {
      Below(j, e, q, Left);
      Below(j, e, q, Right);
      Dups2Nothing(j, e, p, q + [Left]);
      Dups2Nothing(j, e, p, q + [Right]);
    }
  }

  // --------------------------------------------------- unfolding, step by step

  lemma ExtractLeft(j: Join, e1: Expr, e2: Expr, l: Expr, a: Expr, m: bool, r: Expr, b: Expr, n: bool)
    requires Is(e1, j) && Extract(j, e1.l, e2) == (l, a, m) && Extract(j, e1.r, a) == (r, b, n)
    ensures Extract(j, e1, e2) == (Bin(j, l, r), b, m || n)
  {}

  lemma ExtractRight(j: Join, e1: Expr, e2: Expr, a: Expr, l: Expr, m: bool, b: Expr, r: Expr, n: bool)
    requires !Is(e1, j) && Is(e2, j) && Extract(j, e1, e2.l) == (a, l, m) && Extract(j, a, e2.r) == (b, r, n)
    ensures Extract(j, e1, e2) == (b, Bin(j, l, r), m || n)
  {}

  lemma ExtractLeaves(j: Join, e1: Expr, e2: Expr)
    requires !Is(e1, j) && !Is(e2, j)
    ensures Extract(j, e1, e2)
         == if ExprEq(e1, e2) then (Sym(Neutral(j)), Sym(Neutral(j)), true) else (e1, e2, false)
  {}

  lemma ExprEqLiterals(s: Symbol, t: Symbol)
    ensures ExprEq(Sym(s), Sym(t)) <==> s == t
    ensures ExprEq(Not(Sym(s)), Not(Sym(t))) <==> s == t
    ensures !ExprEq(Not(Sym(s)), Sym(t)) && !ExprEq(Sym(s), Not(Sym(t)))
  {}

  lemma AtNil(j: Join, e: Expr, p: Slot, x: Expr)
    requires p == []
    ensures Spine(j, e, p) && At(j, e, p) == e && Put(j, e, p, x) == x
  {}

  lemma {:induction false} AtSide(j: Join, e: Expr, s: Side, p: Slot, x: Expr)
    requires Is(e, j) && p == [s]
    ensures Spine(j, e, p) && At(j, e, p) == Child(e, s)
    ensures Put(j, e, p, x) == if s.Left? then Bin(j, x, e.r) else Bin(j, e.l, x)
  {
    AtNil(j, Child(e, s), p[1..], x);
  }

  lemma {:induction false} AtSides(j: Join, e: Expr, s: Side, s': Side, p: Slot)
    requires Is(e, j) && Is(Child(e, s), j) && p == [s] + [s']
    ensures Spine(j, e, p) && At(j, e, p) == Child(Child(e, s), s')
  {
    assert p[1..] == [s'];
    AtSide(j, Child(e, s), s', p[1..], e);
  }

  lemma Deeper2Leaf(j: Join, e: Expr, p: Slot, q: Slot)
    requires Operand(j, e, p) && Spine(j, e, q) && !Is(At(j, e, q), j)
    ensures Deeper2(j, e, p, q) == (e, 0)
  {}

  lemma Deeper2Node(j: Join, e: Expr, p: Slot, q: Slot, l: Slot, r: Slot, a: Expr, n: nat, b: Expr, m: nat)
    requires Operand(j, e, p) && Spine(j, e, q) && Is(At(j, e, q), j) && l == q + [Left] && r == q + [Right]
    requires Spine(j, e, l) && Dups2(j, e, p, l) == (a, n)
    requires Spine(j, a, p) && Spine(j, a, r) && Dups2(j, a, p, r) == (b, m)
    ensures Deeper2(j, e, p, q) == (b, n + m)
  {}

  lemma Dups2Node(j: Join, e: Expr, p: Slot, q: Slot, l: Slot, r: Slot, a: Expr, n: nat, b: Expr, m: nat)
    requires Spine(j, e, p) && Spine(j, e, q) && Is(At(j, e, p), j) && l == p + [Left] && r == p + [Right]
    requires Spine(j, e, l) && Dups2(j, e, l, q) == (a, n)
    requires Spine(j, a, r) && Spine(j, a, q) && Dups2(j, a, r, q) == (b, m)
    ensures Dups2(j, e, p, q) == (b, n + m)
  {}

  /** An operand that the recursion into the other one leaves as it was, and that
      does not change on its own. */
  lemma Dups2Operand(j: Join, e: Expr, p: Slot, q: Slot)
    requires Operand(j, e, p) && Spine(j, e, q) && Deeper2(j, e, p, q) == (e, 0)
    requires p != q && |p| > 0 && At(j, e, p).Bin?
    requires Dups2(At(j, e, p).j, At(j, e, p), [], []) == (At(j, e, p), 0) && Put(j, e, p, At(j, e, p)) == e
    ensures Dups2(j, e, p, q)
         == if Refuted(j, At(j, e, p), At(j, e, q)) then (Put(j, e, p, Sym(Absorbing(j))), 1) else (e, 0)
  {}

  /** An operand that is no connective after that. */
  lemma Dups2Plain(j: Join, e: Expr, p: Slot, q: Slot, b: Expr, n: nat)
    requires Operand(j, e, p) && Spine(j, e, q) && Deeper2(j, e, p, q) == (b, n)
    requires Spine(j, b, p) && (p == q || !At(j, b, p).Bin?)
    ensures Dups2(j, e, p, q) == (b, n)
  {}

  // -------------------------------------------------------------- the example

  function Either(a: Symbol, b: Symbol): Expr { Bin(OR, Sym(a), Sym(b)) }
  function Neither(a: Symbol, b: Symbol): Expr { Bin(AND, Not(Sym(a)), Not(Sym(b))) }

  /** `(A || B) && (!A && !B)` */
  function Contradiction(a: Symbol, b: Symbol): Expr { Bin(AND, Either(a, b), Neither(a, b)) }

  predicate TwoTristates(a: Symbol, b: Symbol) {
    a.Config? && b.Config? && a.ty == b.ty == S_TRISTATE && a != b
  }

  lemma {:induction false} NotEither(a: Symbol, b: Symbol)
    requires TwoTristates(a, b)
    ensures Transform(Not(Either(a, b))) == Neither(a, b)
  {
    NormalIsFixed(Either(a, b));
    NormalIsFixed(Neither(a, b));
  }

  /** Its first operand is refuted by the second. */
  lemma {:induction false} EitherRefuted(a: Symbol, b: Symbol)
    requires TwoTristates(a, b)
    ensures Refuted(AND, Either(a, b), Neither(a, b))
  {
    var z, na, nb, one := Neither(a, b), Not(Sym(a)), Not(Sym(b)), Sym(SymbolYes);
    NotEither(a, b);
    ExprEqLiterals(a, a);
    ExprEqLiterals(b, b);
    ExprEqLiterals(b, SymbolYes);
    ExtractLeaves(AND, na, na);
    ExtractLeaves(AND, one, nb);
    ExtractRight(AND, na, z, one, one, true, one, nb, false);
    ExtractLeaves(AND, nb, one);
    ExtractLeaves(AND, nb, nb);
    ExtractRight(AND, nb, Bin(AND, one, nb), nb, one, false, one, one, true);
    ExtractLeft(AND, z, z, one, Bin(AND, one, nb), true, one, Bin(AND, one, one), true);
    assert EliminateYn(Bin(AND, one, one)) == one;
  }

  /** ... but not by either half of the second. */
  lemma {:induction false} EitherNotRefuted(a: Symbol, b: Symbol)
    requires TwoTristates(a, b)
    ensures !Refuted(AND, Either(a, b), Not(Sym(a))) && !Refuted(AND, Either(a, b), Not(Sym(b)))
  {
    var z, na, nb, one := Neither(a, b), Not(Sym(a)), Not(Sym(b)), Sym(SymbolYes);
    NotEither(a, b);
    ExprEqLiterals(a, a);
    ExprEqLiterals(a, b);
    ExprEqLiterals(b, b);
    ExprEqLiterals(b, SymbolYes);
    ExtractLeaves(AND, na, na);
    ExtractLeaves(AND, nb, one);
    ExtractLeft(AND, z, na, one, one, true, nb, one, false);
    ExtractLeaves(AND, na, nb);
    ExtractLeaves(AND, nb, nb);
    ExtractLeft(AND, z, nb, na, nb, false, one, one, true);
    assert EliminateYn(nb) == nb && EliminateYn(na) == na;
    assert EliminateYn(Bin(AND, one, nb)) == nb && EliminateYn(Bin(AND, na, one)) == na;
  }

  lemma {:induction false} OnlyOperand(j: Join, e: Expr, p: Slot)
    requires !Is(e, j) && Spine(j, e, p)
    ensures p == [] && At(j, e, p) == e
  {
  }

  lemma {:induction false} TwoOperands(j: Join, e: Expr, p: Slot)
    requires Is(e, j) && !Is(e.l, j) && !Is(e.r, j) && Operand(j, e, p)
    ensures (p == [Left] && At(j, e, p) == e.l) || (p == [Right] && At(j, e, p) == e.r)
  {
    assert |p| > 0 && p == [p[0]] + p[1..];
    OnlyOperand(j, Child(e, p[0]), p[1..]);
  }

  lemma {:induction false} ThreeOperands(a: Symbol, b: Symbol, p: Slot)
    requires TwoTristates(a, b) && Operand(AND, Contradiction(a, b), p)
    ensures var x := At(AND, Contradiction(a, b), p);
            || (p == [Left] && x == Either(a, b))
            || (p == [Right, Left] && x == Not(Sym(a)))
            || (p == [Right, Right] && x == Not(Sym(b)))
  {
    assert |p| > 0 && p == [p[0]] + p[1..];
    if p[0] == Left {
      OnlyOperand(AND, Either(a, b), p[1..]);
    } else {
      TwoOperands(AND, Neither(a, b), p[1..]);
    }
  }

  lemma {:induction false} NotJoined(a: Symbol, b: Symbol)
    requires TwoTristates(a, b)
    ensures JoinPair(OR, Sym(a), Sym(b)).None?
    ensures JoinPair(AND, Either(a, b), Not(Sym(a))).None? && JoinPair(AND, Not(Sym(a)), Either(a, b)).None?
    ensures JoinPair(AND, Not(Sym(a)), Not(Sym(b))).None?
  {
    assert !ExprEq(Sym(a), Sym(b)) && !ExprEq(Not(Sym(a)), Not(Sym(b)));
    assert !ExprEq(Either(a, b), Not(Sym(a))) && !ExprEq(Not(Sym(a)), Either(a, b));
  }

  lemma {:induction false} FirstPhaseNothing(a: Symbol, b: Symbol)
    requires TwoTristates(a, b)
    ensures Dups1(AND, Contradiction(a, b), [], []) == (Contradiction(a, b), 0)
  {
    var y, e := Either(a, b), Contradiction(a, b);
    NotJoined(a, b);
    NotJoined(b, a);
    forall p: Slot | Operand(OR, y, p) ensures (p == [Left] && At(OR, y, p) == Sym(a)) ||
                                               (p == [Right] && At(OR, y, p) == Sym(b)) {
      TwoOperands(OR, y, p);
    }
    assert Unjoinable(OR, y);
    Dups1Nothing(OR, y, [], []);
    ContradictionUnjoinable(a, b);
    Dups1Nothing(AND, e, [], []);
  }

  lemma {:induction false} ContradictionUnjoinable(a: Symbol, b: Symbol)
    requires TwoTristates(a, b) && Dups1(OR, Either(a, b), [], []) == (Either(a, b), 0)
    ensures Unjoinable(AND, Contradiction(a, b))
  {
    var e := Contradiction(a, b);
    forall p: Slot | Operand(AND, e, p)
      ensures |p| > 0 && At(AND, e, p).Bin? ==> Dups1(At(AND, e, p).j, At(AND, e, p), [], []) == (At(AND, e, p), 0)
      ensures forall q: Slot ::
                Operand(AND, e, q) && q != p ==> JoinPair(AND, At(AND, e, p), At(AND, e, q)).None?
    {
      ThreeOperands(a, b, p);
      forall q: Slot | Operand(AND, e, q) && q != p
        ensures JoinPair(AND, At(AND, e, p), At(AND, e, q)).None?
      {
        ThreeOperands(a, b, q);
        NotJoined(a, b);
        NotJoinedEither(a, b);
      }
    }
  }

  lemma {:induction false} NotJoinedEither(a: Symbol, b: Symbol)
    requires TwoTristates(a, b)
    ensures JoinPair(AND, Either(a, b), Not(Sym(b))).None? && JoinPair(AND, Not(Sym(b)), Either(a, b)).None?
    ensures JoinPair(AND, Not(Sym(b)), Not(Sym(a))).None?
  {
    assert !ExprEq(Not(Sym(b)), Not(Sym(a)));
    assert !ExprEq(Either(a, b), Not(Sym(b))) && !ExprEq(Not(Sym(b)), Either(a, b));
  }

  /** With its first operand replaced. */
  function Falsified(a: Symbol, b: Symbol): Expr { Bin(AND, Sym(SymbolNo), Neither(a, b)) }

  lemma {:induction false} Places(a: Symbol, b: Symbol)
    ensures var e := Contradiction(a, b);
            && Operand(AND, e, [Left]) && At(AND, e, [Left]) == Either(a, b)
            && Spine(AND, e, [Right]) && At(AND, e, [Right]) == Neither(a, b)
            && Spine(AND, e, [Right] + [Left]) && At(AND, e, [Right] + [Left]) == Not(Sym(a))
            && Spine(AND, e, [Right] + [Right]) && At(AND, e, [Right] + [Right]) == Not(Sym(b))
            && Put(AND, e, [Left], Either(a, b)) == e
            && Put(AND, e, [Left], Sym(SymbolNo)) == Falsified(a, b)
  {
    var e := Contradiction(a, b);
    AtSide(AND, e, Left, [Left], Either(a, b));
    AtSide(AND, e, Left, [Left], Sym(SymbolNo));
    AtSide(AND, e, Right, [Right], e);
    AtSides(AND, e, Right, Left, [Right] + [Left]);
    AtSides(AND, e, Right, Right, [Right] + [Right]);
  }

  lemma {:induction false} EitherStays(y: Expr, p: Slot)
    requires Is(y, OR) && y.l.Sym? && y.r.Sym? && p == []
    ensures Dups2(OR, y, p, p) == (y, 0)
  {
    AtNil(OR, y, p, y);
    Dups2Nothing(OR, y, p, p);
  }

  /** The first operand against an operand of the second: nothing happens. */
  lemma {:induction false} SecondPhasePair(a: Symbol, b: Symbol, p: Slot, q: Slot)
    requires TwoTristates(a, b) && p == [Left] && (q == [Right] + [Left] || q == [Right] + [Right])
    ensures Operand(AND, Contradiction(a, b), p) && Spine(AND, Contradiction(a, b), q)
    ensures Dups2(AND, Contradiction(a, b), p, q) == (Contradiction(a, b), 0)
  {
    var e := Contradiction(a, b);
    Places(a, b);
    EitherStays(Either(a, b), []);
    EitherNotRefuted(a, b);
    Deeper2Leaf(AND, e, p, q);
    Dups2Operand(AND, e, p, q);
  }

  /** ... and then, because the recursion does not return, against the second as a
      whole. */
  lemma {:induction false} SecondPhaseWhole(a: Symbol, b: Symbol, p: Slot, q: Slot)
    requires TwoTristates(a, b) && p == [Left] && q == [Right]
    ensures Operand(AND, Contradiction(a, b), p) && Spine(AND, Contradiction(a, b), q)
    ensures Dups2(AND, Contradiction(a, b), p, q) == (Falsified(a, b), 1)
  {
    var e := Contradiction(a, b);
    Places(a, b);
    EitherStays(Either(a, b), []);
    EitherRefuted(a, b);
    SecondPhasePair(a, b, p, q + [Left]);
    SecondPhasePair(a, b, p, q + [Right]);
    Deeper2Node(AND, e, p, q, q + [Left], q + [Right], e, 0, e, 0);
    Dups2Operand(AND, e, p, q);
  }

  lemma {:induction false} SecondPhaseSame(a: Symbol, b: Symbol, p: Slot)
    requires TwoTristates(a, b) && p == [Left]
    ensures Operand(AND, Contradiction(a, b), p)
    ensures Dups2(AND, Contradiction(a, b), p, p) == (Contradiction(a, b), 0)
  {
    Places(a, b);
    Deeper2Leaf(AND, Contradiction(a, b), p, p);
    Dups2Plain(AND, Contradiction(a, b), p, p, Contradiction(a, b), 0);
  }

  lemma {:induction false} SecondPhaseFirst(a: Symbol, b: Symbol, p: Slot, q: Slot)
    requires TwoTristates(a, b) && p == [Left] && q == []
    ensures Operand(AND, Contradiction(a, b), p) && Spine(AND, Contradiction(a, b), q)
    ensures Dups2(AND, Contradiction(a, b), p, q) == (Falsified(a, b), 1)
  {
    var e, f := Contradiction(a, b), Falsified(a, b);
    assert q + [Left] == [Left] && q + [Right] == [Right];
    SecondPhaseSame(a, b, p);
    SecondPhaseWhole(a, b, p, q + [Right]);
    AtNil(AND, e, q, e);
    AtSide(AND, f, Left, p, f);
    Deeper2Node(AND, e, p, q, q + [Left], q + [Right], e, 0, f, 1);
    Dups2Plain(AND, e, p, q, f, 1);
  }

  lemma {:induction false} SecondPhaseRefutes(a: Symbol, b: Symbol, p: Slot)
    requires TwoTristates(a, b) && p == []
    ensures Dups2(AND, Contradiction(a, b), p, p) == (Falsified(a, b), 1)
  {
    var e, f := Contradiction(a, b), Falsified(a, b);
    assert p + [Left] == [Left] && p + [Right] == [Right];
    SecondPhaseFirst(a, b, p + [Left], p);
    AtNil(AND, e, p, e);
    AtNil(AND, f, p, f);
    AtSide(AND, f, Right, p + [Right], f);
    Dups2Nothing(AND, f, p + [Right], p);
    Dups2Node(AND, e, p, p, p + [Left], p + [Right], f, 1, f, 0);
  }

  /** `(A || B) && (!A && !B)` is `m` when `A` is, but it becomes `n`. */
  lemma {:induction false} ContradictionLosesMod(a: Symbol, b: Symbol)
    requires TwoTristates(a, b)
    ensures Eliminated(Contradiction(a, b)) == Sym(SymbolNo)
    ensures Refutes(Contradiction(a, b))
    ensures Sane(OneMod(a)) && Value(Contradiction(a, b), OneMod(a)) == mod
  {
    var e := Contradiction(a, b);
    FirstPhaseNothing(a, b);
    SecondPhaseRefutes(a, b, []);
    assert Round(e) == (Falsified(a, b), 0, 1);
    assert EliminateYn(Falsified(a, b)) == Sym(SymbolNo);
    ContradictionIsMod(a, b);
  }

  lemma {:induction false} ContradictionIsMod(a: Symbol, b: Symbol)
    requires TwoTristates(a, b)
    ensures Sane(OneMod(a)) && Value(Contradiction(a, b), OneMod(a)) == mod
  {
    var v := OneMod(a);
    assert Value(Sym(a), v) == mod && Value(Sym(b), v) == no;
    assert Value(Not(Sym(a)), v) == mod && Value(Not(Sym(b)), v) == yes;
    assert Value(Either(a, b), v) == mod && Value(Neither(a, b), v) == mod;
  }
}
