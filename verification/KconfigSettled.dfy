/** What simplifying leaves.

    `ExprEq` holds of every expression and itself, although it cancels operands in
    copies.  So nothing is left twice: `NothingTwice` says of the simplified
    expression, at every level, that no two operands are equal and that no two
    tests of one symbol are left that could be one.
  */
module KconfigSettled {
  import opened KconfigExpr
  import opened KconfigEq
  import opened KconfigJoin
  import opened KconfigDups
  import opened KconfigEliminate

  // -------------------------------------------------- an expression equals itself

  predicate AllConstant(j: Join, e: Expr) {
    if Is(e, j) then AllConstant(j, e.l) && AllConstant(j, e.r) else YesOrNo(e)
  }

  /** With every operand cancelled that can be. */
  function Clear(j: Join, e: Expr): (r: Expr)
    ensures AllConstant(j, r)
  {
    if Is(e, j) then Bin(j, Clear(j, e.l), Clear(j, e.r))
    else if YesOrNo(e) then e
    else Sym(Neutral(j))
  }

  /** In `e` all operands to the left of `x` have been cancelled, and in `e'` also
      those of `x`. */
  predicate NextIs(j: Join, e: Expr, x: Expr, e': Expr) {
    || (e == x && e' == Clear(j, x))
    || (Is(e, j) && Is(e', j)
        && (|| (NextIs(j, e.l, x, e'.l) && e'.r == e.r)
            || (AllConstant(j, e.l) && e'.l == e.l && NextIs(j, e.r, x, e'.r))))
  }

  lemma {:induction false} ConstantCancelsNothing(j: Join, c: Expr, e: Expr)
    requires YesOrNo(c)
    ensures Cancel(j, c, e) == (c, e)
  {
    if Is(e, j) {
      ConstantCancelsNothing(j, c, e.l);
      ConstantCancelsNothing(j, c, e.r);
    }
  }

  lemma {:induction false} NothingToCancel(j: Join, x: Expr, e: Expr)
    requires !Is(x, j) && !YesOrNo(x) && AllConstant(j, e)
    ensures Cancel(j, x, e) == (x, e)
  {
    if Is(e, j) {
      NothingToCancel(j, x, e.l);
      NothingToCancel(j, x, e.r);
    }
  }

  lemma {:induction false} OperandCancels(j: Join, x: Expr, e: Expr, e': Expr)
    requires !Is(x, j) && !YesOrNo(x) && ExprEq(x, x) && NextIs(j, e, x, e')
    ensures Cancel(j, x, e) == (Sym(Neutral(j)), e')
    decreases e
  {
    if e == x && e' == Clear(j, x) {
    } else if NextIs(j, e.l, x, e'.l) && e'.r == e.r {
      OperandCancels(j, x, e.l, e'.l);
      ConstantCancelsNothing(j, Sym(Neutral(j)), e.r);
    } else {
      NothingToCancel(j, x, e.l);
      OperandCancels(j, x, e.r, e'.r);
    }
  }

  lemma {:induction false} ConstantStays(j: Join, x: Expr, e: Expr, e': Expr)
    requires YesOrNo(x) && NextIs(j, e, x, e')
    ensures e' == e
    decreases e
  {
    if e == x && e' == Clear(j, x) {
    } else if NextIs(j, e.l, x, e'.l) && e'.r == e.r {
      ConstantStays(j, x, e.l, e'.l);
    } else {
      ConstantStays(j, x, e.r, e'.r);
    }
  }

  /** Cancelling a connective is cancelling its left side and then its right side. */
  lemma {:induction false} Halves(j: Join, e: Expr, x: Expr, e': Expr) returns (half: Expr)
    requires Is(x, j) && NextIs(j, e, x, e')
    ensures NextIs(j, e, x.l, half) && NextIs(j, half, x.r, e')
    decreases e
  {
    if e == x && e' == Clear(j, x) {
      half := Bin(j, Clear(j, x.l), x.r);
    } else if NextIs(j, e.l, x, e'.l) && e'.r == e.r {
      var l := Halves(j, e.l, x, e'.l);
      half := Bin(j, l, e.r);
    } else {
      var r := Halves(j, e.r, x, e'.r);
      half := Bin(j, e.l, r);
    }
  }

  lemma {:induction false} CancelsItself(j: Join, x: Expr, e: Expr, e': Expr)
    requires NextIs(j, e, x, e')
    ensures Cancel(j, x, e) == (Clear(j, x), e')
    decreases Size(x), 1
  {
    if Is(x, j) {
      var half := Halves(j, e, x, e');
      CancelsItself(j, x.l, e, half);
      CancelsItself(j, x.r, half, e');
    } else if YesOrNo(x) {
      ConstantCancelsNothing(j, x, e);
      ConstantStays(j, x, e, e');
    } else {
      ExprEqReflexive(x);
      OperandCancels(j, x, e, e');
    }
  }

  lemma {:induction false} ConstantsReduce(j: Join, e: Expr)
    requires AllConstant(j, e)
    ensures YesOrNo(EliminateYn(e))
  {
    if Is(e, j) {
      ConstantsReduce(j, e.l);
      ConstantsReduce(j, e.r);
    }
  }

  /** Every expression equals itself. */
  lemma {:induction false} ExprEqReflexive(e: Expr)
    ensures ExprEq(e, e)
    decreases Size(e), 0
  {
    match e
    case Sym(_) =>
    case Equal(_, _) =>
    case Unequal(_, _) =>
    case Not(a) => ExprEqReflexive(a);
    case Bin(j, l, r) =>
      var half := Halves(j, e, e, Clear(j, e));
      CancelsItself(j, l, e, half);
      CancelsItself(j, r, half, Clear(j, e));
      assert Cancel(j, e, e) == (Clear(j, e), Clear(j, e));
      ConstantsReduce(j, Clear(j, e));
  }

  // ------------------------------------------------------- and any rearrangement

  /** The operands that are not `y` or `n`. */
  function Operands(j: Join, e: Expr): multiset<Expr> {
    if Is(e, j) then Operands(j, e.l) + Operands(j, e.r)
    else if YesOrNo(e) then multiset{}
    else multiset{e}
  }

  /** The absorbing constant is among them. */
  predicate Absorbs(j: Join, e: Expr) {
    if Is(e, j) then Absorbs(j, e.l) || Absorbs(j, e.r) else e == Sym(Absorbing(j))
  }

  lemma CancelRight(j: Join, x: Expr, e: Expr, a: Expr, l: Expr, b: Expr, r: Expr)
    requires !Is(x, j) && Is(e, j) && Cancel(j, x, e.l) == (a, l) && Cancel(j, a, e.r) == (b, r)
    ensures Cancel(j, x, e) == (b, Bin(j, l, r))
  {}

  lemma CancelLeft(j: Join, e: Expr, f: Expr, l: Expr, f': Expr, r: Expr, f'': Expr)
    requires Is(e, j) && Cancel(j, e.l, f) == (l, f') && Cancel(j, e.r, f') == (r, f'')
    ensures Cancel(j, e, f) == (Bin(j, l, r), f'')
  {}

  lemma CancelLeaves(j: Join, x: Expr, e: Expr)
    requires !Is(x, j) && !Is(e, j) && !YesOrNo(x)
    ensures Cancel(j, x, e) == if ExprEq(x, e) then (Sym(Neutral(j)), Sym(Neutral(j))) else (x, e)
    ensures YesOrNo(e) ==> !ExprEq(x, e)
  {}

  /** `c` is `e` without the operands `a`. */
  predicate Without(j: Join, e: Expr, a: multiset<Expr>, c: Expr) {
    && a <= Operands(j, e) && Operands(j, c) == Operands(j, e) - a
    && Absorbs(j, c) == Absorbs(j, e) && Is(c, j) == Is(e, j)
  }

  lemma WithoutLeft(j: Join, e: Expr, a: multiset<Expr>, l: Expr)
    requires Is(e, j) && Without(j, e.l, a, l)
    ensures Without(j, e, a, Bin(j, l, e.r))
  {}

  lemma WithoutRight(j: Join, e: Expr, a: multiset<Expr>, r: Expr)
    requires Is(e, j) && Without(j, e.r, a, r)
    ensures Without(j, e, a, Bin(j, e.l, r))
  {}

  lemma TakeTwice(all: multiset<Expr>, a: multiset<Expr>, b: multiset<Expr>)
    requires a <= all && b <= all - a
    ensures a + b <= all && (all - a) - b == all - (a + b)
  {}

  lemma {:induction false} WithoutTwice(j: Join, e: Expr, a: multiset<Expr>, b: multiset<Expr>, c: Expr, d: Expr)
    requires Without(j, e, a, c) && Without(j, c, b, d)
    ensures Without(j, e, a + b, d)
  {
    TakeTwice(Operands(j, e), a, b);
  }

  predicate Tells(j: Join, x: Expr, e: Expr) {
    forall y :: y in Operands(j, e) && ExprEq(x, y) ==> y == x
  }

  lemma TellsParts(j: Join, x: Expr, e: Expr)
    requires Is(e, j) && Tells(j, x, e)
    ensures Tells(j, x, e.l) && Tells(j, x, e.r)
    ensures x in Operands(j, e) <==> x in Operands(j, e.l) || x in Operands(j, e.r)
  {}

  /** Where an operand is not, it cancels nothing. */
  lemma {:induction false} OperandMissed(j: Join, x: Expr, e: Expr)
    requires !Is(x, j) && !YesOrNo(x) && Tells(j, x, e) && x !in Operands(j, e)
    ensures Cancel(j, x, e) == (x, e)
  {
    if Is(e, j) {
      TellsParts(j, x, e);
      OperandMissed(j, x, e.l);
      OperandMissed(j, x, e.r);
      CancelRight(j, x, e, x, e.l, x, e.r);
    } else {
      CancelLeaves(j, x, e);
    }
  }

  /** Where it is, it cancels itself. */
  lemma {:induction false} OperandFound(j: Join, x: Expr, e: Expr) returns (c: Expr)
    requires !Is(x, j) && !YesOrNo(x) && Tells(j, x, e) && x in Operands(j, e)
    ensures Cancel(j, x, e) == (Sym(Neutral(j)), c) && Without(j, e, multiset{x}, c)
  {
    var y := Sym(Neutral(j));
    if !Is(e, j) {
      CancelLeaves(j, x, e);
      ExprEqReflexive(x);
      c := y;
    } else {
      TellsParts(j, x, e);
      if x in Operands(j, e.l) {
        var l := OperandFound(j, x, e.l);
        ConstantCancelsNothing(j, y, e.r);
        CancelRight(j, x, e, y, l, y, e.r);
        WithoutLeft(j, e, multiset{x}, l);
        c := Bin(j, l, e.r);
      } else {
        OperandMissed(j, x, e.l);
        var r := OperandFound(j, x, e.r);
        CancelRight(j, x, e, x, e.l, y, r);
        WithoutRight(j, e, multiset{x}, r);
        c := Bin(j, e.l, r);
      }
    }
  }

  ghost predicate TellsAll(j: Join, e1: Expr, e2: Expr) {
    forall x :: x in Operands(j, e1) ==> Tells(j, x, e2)
  }

  lemma TellsAllLeft(j: Join, e1: Expr, e2: Expr)
    requires Is(e1, j) && TellsAll(j, e1, e2)
    ensures TellsAll(j, e1.l, e2)
  {}

  lemma TellsAllRight(j: Join, e1: Expr, e2: Expr, f: Expr)
    requires Is(e1, j) && TellsAll(j, e1, e2) && Operands(j, f) <= Operands(j, e2)
    ensures TellsAll(j, e1.r, f)
  {}

  lemma Parts(a: multiset<Expr>, b: multiset<Expr>, c: multiset<Expr>)
    requires a + b <= c
    ensures a <= c && b <= c - a
  {}

  /** What is left of one side when all its operands have been found. */
  predicate Emptied(j: Join, e: Expr, c: Expr) {
    AllConstant(j, c) && Absorbs(j, c) == Absorbs(j, e) && Is(c, j) == Is(e, j)
  }

  lemma {:induction false} OperandsFound(j: Join, e1: Expr, e2: Expr) returns (c: Expr, d: Expr)
    requires Operands(j, e1) <= Operands(j, e2) && TellsAll(j, e1, e2)
    ensures Cancel(j, e1, e2) == (c, d) && Emptied(j, e1, c) && Without(j, e2, Operands(j, e1), d)
  {
    if Is(e1, j) {
      Parts(Operands(j, e1.l), Operands(j, e1.r), Operands(j, e2));
      TellsAllLeft(j, e1, e2);
      var l, f := OperandsFound(j, e1.l, e2);
      TellsAllRight(j, e1, e2, f);
      var r, d' := OperandsFound(j, e1.r, f);
      CancelLeft(j, e1, e2, l, f, r, d');
      WithoutTwice(j, e2, Operands(j, e1.l), Operands(j, e1.r), f, d');
      c, d := Bin(j, l, r), d';
    } else if YesOrNo(e1) {
      ConstantCancelsNothing(j, e1, e2);
      c, d := e1, e2;
    } else {
      assert e1 in Operands(j, e1);
      var d' := OperandFound(j, e1, e2);
      c, d := Sym(Neutral(j)), d';
    }
  }

  lemma {:induction false} NoOperands(j: Join, e: Expr)
    ensures Operands(j, e) == multiset{} ==> AllConstant(j, e)
  {
    if Is(e, j) {
      assert Operands(j, e.l) <= Operands(j, e) && Operands(j, e.r) <= Operands(j, e);
      NoOperands(j, e.l);
      NoOperands(j, e.r);
    } else if !YesOrNo(e) {
      assert e in Operands(j, e);
    }
  }

  lemma {:induction false} ConstantsReduceTo(j: Join, e: Expr)
    requires AllConstant(j, e)
    ensures EliminateYn(e) == Sym(if Absorbs(j, e) then Absorbing(j) else Neutral(j))
  {
    if Is(e, j) {
      ConstantsReduceTo(j, e.l);
      ConstantsReduceTo(j, e.r);
    }
  }

  lemma EqualIfReduced(j: Join, e1: Expr, e2: Expr, a: Expr, b: Expr)
    requires Is(e1, j) && Is(e2, j) && Cancel(j, e1, e2) == (a, b) && Is(a, j) && Is(b, j)
    requires EliminateYn(a) == EliminateYn(b) && YesOrNo(EliminateYn(a))
    ensures ExprEq(e1, e2)
  {}

  /** Connectives of the same operands are equal in whatever order and grouping, as
      long as no two different operands are. */
  lemma {:induction false} ExprEqRearranged(j: Join, e1: Expr, e2: Expr)
    requires Is(e1, j) && Is(e2, j) && Operands(j, e1) == Operands(j, e2) && Absorbs(j, e1) == Absorbs(j, e2)
    requires TellsAll(j, e1, e2)
    ensures ExprEq(e1, e2)
  {
    var a, b := OperandsFound(j, e1, e2);
    NoOperands(j, b);
    ConstantsReduceTo(j, a);
    ConstantsReduceTo(j, b);
    EqualIfReduced(j, e1, e2, a, b);
  }

  // ------------------------------------------------------- the first phase is done

  /** The operand at `p` has nothing more to do with the one at `q`, nor on its own. */
  ghost predicate PairDone(j: Join, e: Expr, p: Slot, q: Slot)
    requires Operand(j, e, p) && Operand(j, e, q)
  {
    && JoinPair(j, At(j, e, p), At(j, e, q)).None?
    && (At(j, e, p).Bin? ==> Dups1(At(j, e, p).j, At(j, e, p), [], []).1 == 0)
  }

  lemma {:induction false} SideOf(j: Join, e: Expr, p: Slot, p': Slot)
    requires Spine(j, e, p) && Is(At(j, e, p), j) && p <= p' && Operand(j, e, p')
    ensures p + [Left] <= p' || p + [Right] <= p'
  {
    if p' == p {
      assert false;
    }
    assert p'[|p|] == Left || p'[|p|] == Right;
  }

  lemma {:induction false} OnlyItself(j: Join, e: Expr, p: Slot, p': Slot)
    requires Spine(j, e, p) && !Is(At(j, e, p), j) && p <= p' && Spine(j, e, p')
    ensures p' == p
    decreases |p|
  {
    if |p| > 0 {
      OnlyItself(j, Child(e, p[0]), p[1..], p'[1..]);
    }
  }

  /** What counts nothing has looked at every pair of operands in vain. */
  lemma {:induction false} NothingCounted(j: Join, e: Expr, p: Slot, q: Slot, p': Slot, q': Slot)
    requires Spine(j, e, p) && Spine(j, e, q) && Dups1(j, e, p, q).1 == 0
    requires p <= p' && q <= q' && Operand(j, e, p') && Operand(j, e, q') && p' != q'
    ensures PairDone(j, e, p', q')
    decreases Size(e), SpineSize(j, At(j, e, p)) + SpineSize(j, At(j, e, q))
  {
    if Is(At(j, e, p), j) {
      SideOf(j, e, p, p');
      Below(j, e, p, Left);
      Below(j, e, p, Right);
      Dups1Counted(j, e, p + [Left], q);
      NothingCounted(j, e, if p + [Left] <= p' then p + [Left] else p + [Right], q, p', q');
    } else if Is(At(j, e, q), j) {
      SideOf(j, e, q, q');
      Below(j, e, q, Left);
      Below(j, e, q, Right);
      Dups1Counted(j, e, p, q + [Left]);
      NothingCounted(j, e, p, if q + [Left] <= q' then q + [Left] else q + [Right], p', q');
    } else {
      OnlyItself(j, e, p, p');
      OnlyItself(j, e, q, q');
      var (x, n) := Inner1(j, e, p, q);
      if At(j, e, p).Bin? {
        OperandSize(j, e, p);
        Dups1Counted(At(j, e, p).j, At(j, e, p), [], []);
      }
      assert x == At(j, e, p);
      PutBack(j, e, p);
    }
  }

  /** What counts nothing in the second phase has refuted no operand. */
  ghost predicate NotRefuted(j: Join, e: Expr, p: Slot, q: Slot)
    requires Operand(j, e, p) && Spine(j, e, q)
  {
    At(j, e, p).Bin? ==>
      && !Refuted(j, At(j, e, p), At(j, e, q))
      && Dups2(At(j, e, p).j, At(j, e, p), [], []).1 == 0
  }

  lemma {:induction false} NothingRefuted(j: Join, e: Expr, p: Slot, q: Slot, p': Slot, q': Slot)
    requires Spine(j, e, p) && Spine(j, e, q) && Dups2(j, e, p, q).1 == 0
    requires p <= p' && q <= q' && Operand(j, e, p') && Spine(j, e, q') && p' != q'
    ensures NotRefuted(j, e, p', q')
    decreases Size(e), SpineSize(j, At(j, e, p)) + SpineSize(j, At(j, e, q))
  {
    if Is(At(j, e, p), j) {
      SideOf(j, e, p, p');
      Below(j, e, p, Left);
      Below(j, e, p, Right);
      Dups2Counted(j, e, p + [Left], q);
      NothingRefuted(j, e, if p + [Left] <= p' then p + [Left] else p + [Right], q, p', q');
    } else {
      OnlyItself(j, e, p, p');
      Deeper2Counted(j, e, p, q);
      if q' != q {
        RefutedBelow(j, e, p, q, q');
      } else if At(j, e, p).Bin? {
        OperandSize(j, e, p);
        Dups2Counted(At(j, e, p).j, At(j, e, p), [], []);
        PutBack(j, e, p);
      }
    }
  }

  /** The recursion into the second operand. */
  lemma {:induction false} RefutedBelow(j: Join, e: Expr, p: Slot, q: Slot, q': Slot)
    requires Operand(j, e, p) && Spine(j, e, q) && Dups2(j, e, p, q).1 == 0
    requires q <= q' && q != q' && Spine(j, e, q') && p != q'
    ensures NotRefuted(j, e, p, q')
    decreases Size(e), SpineSize(j, At(j, e, p)) + SpineSize(j, At(j, e, q)), 0
  {
    SpineBelow(j, e, q, q');
    Below(j, e, q, Left);
    Below(j, e, q, Right);
    Dups2Counted(j, e, p, q + [Left]);
    NothingRefuted(j, e, p, if q + [Left] <= q' then q + [Left] else q + [Right], p, q');
  }

  lemma {:induction false} SpineBelow(j: Join, e: Expr, q: Slot, q': Slot)
    requires Spine(j, e, q) && q <= q' && q != q' && Spine(j, e, q')
    ensures Is(At(j, e, q), j) && (q + [Left] <= q' || q + [Right] <= q')
  {
    if |q| > 0 {
      SpineBelow(j, Child(e, q[0]), q[1..], q'[1..]);
    }
    assert q'[|q|] == Left || q'[|q|] == Right;
  }

  // ---------------------------------------------------------- nothing is left twice

  predicate IsTristate(s: Symbol) { s.Config? && s.ty == S_TRISTATE }

  /** Two operands that could be one: equal ones, and tests of one symbol that
      together come down to a single test. */
  predicate CouldBeOne(j: Join, x: Expr, y: Expr) {
    || ExprEq(x, y)
    || (j == OR && x.Equal? && y.Equal? && x.a == y.a && IsTristate(x.a)
        && IsConstant(x.b) && IsConstant(y.b) && x.b != y.b)
    || (j == OR && x.Sym? && IsBoolean(x.s) && y == Not(x))
    || (j == AND && x.Unequal? && y.Unequal? && x.a == y.a && IsTristate(x.a)
        && IsConstant(x.b) && IsConstant(y.b) && x.b != y.b)
    || (j == AND && x.Equal? && y.Unequal? && x.a == y.a && IsTristate(x.a) && !x.b.Config? && !y.b.Config?)
    || (j == AND && x.Sym? && (IsBoolean(x.s) || IsTristate(x.s))
        && y in {Equal(x.s, SymbolYes), Unequal(x.s, SymbolNo), Unequal(x.s, SymbolMod)})
  }

  lemma CouldBeOneJoins(j: Join, x: Expr, y: Expr)
    requires CouldBeOne(j, x, y)
    ensures JoinPair(j, x, y).Some?
  {}

  /** No two operands of the connective could be one, and none is refuted by others. */
  ghost predicate Apart(j: Join, e: Expr) {
    && (forall p: Slot, q: Slot :: Operand(j, e, p) && Operand(j, e, q) && p != q ==>
          At(j, e, p) != At(j, e, q) && !CouldBeOne(j, At(j, e, p), At(j, e, q)))
    && forall p: Slot, q: Slot :: Operand(j, e, p) && Spine(j, e, q) && p != q && At(j, e, p).Bin? ==>
         !Refuted(j, At(j, e, p), At(j, e, q))
  }

  /** So for all connectives, one inside another. */
  ghost predicate NothingTwice(e: Expr)
    decreases e, 0
  {
    e.Bin? ==> Apart(e.j, e) && InnerApart(e.j, e.l) && InnerApart(e.j, e.r)
  }

  ghost predicate InnerApart(j: Join, e: Expr)
    decreases e, 1
  {
    if Is(e, j) then InnerApart(j, e.l) && InnerApart(j, e.r) else NothingTwice(e)
  }

  predicate Idle(e: Expr) {
    e.Bin? ==> Dups1(e.j, e, [], []).1 == 0 && Dups2(e.j, e, [], []).1 == 0
  }

  lemma {:induction false} IdleApart(e: Expr)
    requires e.Bin? && Idle(e)
    ensures Apart(e.j, e)
  {
    forall p: Slot, q: Slot | Operand(e.j, e, p) && Operand(e.j, e, q) && p != q
      ensures At(e.j, e, p) != At(e.j, e, q) && !CouldBeOne(e.j, At(e.j, e, p), At(e.j, e, q))
    {
      NothingCounted(e.j, e, [], [], p, q);
      ExprEqReflexive(At(e.j, e, p));
      if CouldBeOne(e.j, At(e.j, e, p), At(e.j, e, q)) {
        CouldBeOneJoins(e.j, At(e.j, e, p), At(e.j, e, q));
      }
    }
    forall p: Slot, q: Slot | Operand(e.j, e, p) && Spine(e.j, e, q) && p != q && At(e.j, e, p).Bin?
      ensures !Refuted(e.j, At(e.j, e, p), At(e.j, e, q))
    {
      NothingRefuted(e.j, e, [], [], p, q);
    }
  }

  /** A path to some operand. */
  lemma {:induction false} SomeOperand(j: Join, e: Expr) returns (p: Slot)
    ensures Operand(j, e, p)
  {
    if Is(e, j) {
      var rest := SomeOperand(j, e.l);
      p := [Left] + rest;
      assert p[1..] == rest;
    } else {
      p := [];
    }
  }

  /** A connective at an operand has had its turn, because there is another operand. */
  lemma {:induction false} InnerIdle(e: Expr, p: Slot)
    requires e.Bin? && Idle(e) && Operand(e.j, e, p) && |p| > 0
    ensures Idle(At(e.j, e, p)) && Size(At(e.j, e, p)) < Size(e)
  {
    var other := if p[0] == Left then Right else Left;
    var rest := SomeOperand(e.j, Child(e, other));
    var q := [other] + rest;
    assert q[1..] == rest && q[0] != p[0];
    OperandSize(e.j, e, p);
    NothingCounted(e.j, e, [], [], p, q);
    NothingRefuted(e.j, e, [], [], p, q);
  }

  lemma {:induction false} IdleInside(e: Expr, p: Slot)
    requires e.Bin? && Idle(e) && Spine(e.j, e, p) && |p| > 0
    ensures InnerApart(e.j, At(e.j, e, p))
    decreases Size(e), SpineSize(e.j, At(e.j, e, p)), 0
  {
    var x := At(e.j, e, p);
    if Is(x, e.j) {
      Below(e.j, e, p, Left);
      Below(e.j, e, p, Right);
      IdleInside(e, p + [Left]);
      IdleInside(e, p + [Right]);
    } else {
      InnerIdle(e, p);
      IdleNothingTwice(x);
    }
  }

  lemma {:induction false} IdleNothingTwice(e: Expr)
    requires Idle(e)
    ensures NothingTwice(e)
    decreases Size(e), SpineSize(if e.Bin? then e.j else AND, e), 1
  {
    if e.Bin? {
      IdleApart(e);
      assert At(e.j, e, [Left]) == e.l && At(e.j, e, [Right]) == e.r by {
        assert [Left][1..] == [] && [Right][1..] == [];
      }
      IdleInside(e, [Left]);
      IdleInside(e, [Right]);
    }
  }

  /** The simplified expression has nothing twice in it, at any level. */
  lemma {:induction false} EliminatedOnce(e: Expr)
    ensures NothingTwice(Eliminated(e))
  {
    EliminatedSettled(e);
    IdleNothingTwice(Eliminated(e));
  }

  // ------------------------------------------------------------ no contradiction left

  predicate HasOperand(j: Join, e: Expr, x: Expr) {
    if Is(e, j) then HasOperand(j, e.l, x) || HasOperand(j, e.r, x) else x == e
  }

  ghost predicate Shares(j: Join, e1: Expr, e2: Expr) {
    exists x, y :: HasOperand(j, e1, x) && HasOperand(j, e2, y) && ExprEq(x, y)
  }

  lemma {:induction false} SharesLeft(j: Join, e1: Expr, e2: Expr)
    requires Is(e1, j)
    ensures Shares(j, e1, e2) <==> Shares(j, e1.l, e2) || Shares(j, e1.r, e2)
  {
    if x, y :| HasOperand(j, e1.l, x) && HasOperand(j, e2, y) && ExprEq(x, y) {
      assert HasOperand(j, e1, x);
    }
    if x, y :| HasOperand(j, e1.r, x) && HasOperand(j, e2, y) && ExprEq(x, y) {
      assert HasOperand(j, e1, x);
    }
  }

  lemma {:induction false} SharesRight(j: Join, e1: Expr, e2: Expr)
    requires Is(e2, j)
    ensures Shares(j, e1, e2) <==> Shares(j, e1, e2.l) || Shares(j, e1, e2.r)
  {
    if x, y :| HasOperand(j, e1, x) && HasOperand(j, e2.l, y) && ExprEq(x, y) {
      assert HasOperand(j, e2, y);
    }
    if x, y :| HasOperand(j, e1, x) && HasOperand(j, e2.r, y) && ExprEq(x, y) {
      assert HasOperand(j, e2, y);
    }
  }

  /** Operands are taken out exactly if some operand is on both sides. */
  lemma {:induction false} ExtractedIff(j: Join, e1: Expr, e2: Expr)
    ensures Extract(j, e1, e2).2 <==> Shares(j, e1, e2)
    ensures !Extract(j, e1, e2).2 ==> Extract(j, e1, e2) == (e1, e2, false)
    decreases Size(e1) + Size(e2)
  {
    if Is(e1, j) {
      SharesLeft(j, e1, e2);
      ExtractedIff(j, e1.l, e2);
      if !Extract(j, e1.l, e2).2 { ExtractedIff(j, e1.r, e2); }
    } else if Is(e2, j) {
      SharesRight(j, e1, e2);
      ExtractedIff(j, e1, e2.l);
      if !Extract(j, e1, e2.l).2 { ExtractedIff(j, e1, e2.r); }
    } else {
      assert HasOperand(j, e1, e1) && HasOperand(j, e2, e2);
    }
  }

  /** Without the absorbing constant, taking out is cancelling. */
  lemma {:induction false} ExtractCancels(j: Join, e1: Expr, e2: Expr)
    requires !Absorbs(j, e1)
    ensures Extract(j, e1, e2).0 == Cancel(j, e1, e2).0 && Extract(j, e1, e2).1 == Cancel(j, e1, e2).1
    ensures !Absorbs(j, Extract(j, e1, e2).0)
    decreases Size(e1) + Size(e2)
  {
    if Is(e1, j) {
      ExtractCancels(j, e1.l, e2);
      ExtractCancels(j, e1.r, Extract(j, e1.l, e2).1);
    } else if Is(e2, j) {
      ExtractCancels(j, e1, e2.l);
      ExtractCancels(j, Extract(j, e1, e2.l).0, e2.r);
    }
  }

  lemma {:induction false} OperandThere(j: Join, e: Expr, x: Expr)
    requires x in Operands(j, e)
    ensures HasOperand(j, e, x)
  {
    if Is(e, j) {
      if x in Operands(j, e.l) { OperandThere(j, e.l, x); } else { OperandThere(j, e.r, x); }
    }
  }

  /** If all operands of `t` are operands of `z`, nothing is left of it. */
  lemma {:induction false} AllCovered(j: Join, t: Expr, z: Expr)
    requires !Absorbs(j, t) && Operands(j, t) != multiset{} && Operands(j, t) <= Operands(j, z) && TellsAll(j, t, z)
    ensures Covered(j, t, z)
  {
    var x :| x in Operands(j, t);
    OperandThere(j, t, x);
    OperandThere(j, z, x);
    ExprEqReflexive(x);
    ExtractedIff(j, t, z);
    assert Shares(j, t, z);
    ExtractCancels(j, t, z);
    var a, b := OperandsFound(j, t, z);
    ConstantsReduceTo(j, a);
  }

  /** What is left has no operand whose negation is made up of operands beside it: an
      `&&` has none that the others contradict, and an `||` none that they make sure. */
  lemma {:induction false} NotContradicted(j: Join, e: Expr, p: Slot, q: Slot)
    requires Apart(j, e) && Operand(j, e, p) && Spine(j, e, q) && p != q && At(j, e, p).Bin?
    requires var t := Transform(Not(At(j, e, p)));
             !Absorbs(j, t) && Operands(j, t) != multiset{} && TellsAll(j, t, At(j, e, q))
    ensures !(Operands(j, Transform(Not(At(j, e, p)))) <= Operands(j, At(j, e, q)))
  {
    if Operands(j, Transform(Not(At(j, e, p)))) <= Operands(j, At(j, e, q)) {
      AllCovered(j, Transform(Not(At(j, e, p))), At(j, e, q));
    }
  }
}
