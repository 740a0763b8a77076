/** Removing duplicated operands through two pointers into one tree.

    `expr_eliminate_dups1` and `expr_eliminate_dups2` walk over all pairs of
    operands of one connective, and both pointers start at the same node. A
    pointer is a path from that node here, so that what is written through one
    of them is seen through the other, and two pointers are equal when they are
    the same path.
  */
module KconfigDups {
  import opened KconfigExpr
  import opened KconfigEq
  import opened KconfigJoin

  datatype Side = Left | Right
  type Slot = seq<Side>

  function Child(e: Expr, side: Side): Expr
    requires e.Bin?
  {
    if side.Left? then e.l else e.r
  }

  function Sibling(e: Expr, side: Side): Expr
    requires e.Bin?
  {
    if side.Left? then e.r else e.l
  }

  /** The path leads through connectives of `j` only. */
  predicate Spine(j: Join, e: Expr, p: Slot) {
    |p| == 0 || (Is(e, j) && Spine(j, Child(e, p[0]), p[1..]))
  }

  function At(j: Join, e: Expr, p: Slot): Expr
    requires Spine(j, e, p)
  {
    if |p| == 0 then e else At(j, Child(e, p[0]), p[1..])
  }

  function Put(j: Join, e: Expr, p: Slot, x: Expr): Expr
    requires Spine(j, e, p)
  {
    if |p| == 0 then x
    else if p[0].Left? then Bin(e.j, Put(j, e.l, p[1..], x), e.r)
    else Bin(e.j, e.l, Put(j, e.r, p[1..], x))
  }

  /** A pointer to an operand of `j`. */
  predicate Operand(j: Join, e: Expr, p: Slot) {
    Spine(j, e, p) && !Is(At(j, e, p), j)
  }

  /** The connectives of `j` are in the same places. */
  predicate SameSpine(j: Join, e: Expr, f: Expr) {
    if Is(e, j) then Is(f, j) && SameSpine(j, e.l, f.l) && SameSpine(j, e.r, f.r) else !Is(f, j)
  }

  function SpineSize(j: Join, e: Expr): nat {
    if Is(e, j) then 1 + SpineSize(j, e.l) + SpineSize(j, e.r) else 0
  }

  lemma {:induction false} SameSpineReflexive(j: Join, e: Expr)
    ensures SameSpine(j, e, e)
  {
    if Is(e, j) { SameSpineReflexive(j, e.l); SameSpineReflexive(j, e.r); }
  }

  lemma {:induction false} SameSpineTransitive(j: Join, e: Expr, f: Expr, g: Expr)
    requires SameSpine(j, e, f) && SameSpine(j, f, g)
    ensures SameSpine(j, e, g)
  {
    if Is(e, j) { SameSpineTransitive(j, e.l, f.l, g.l); SameSpineTransitive(j, e.r, f.r, g.r); }
  }

  /** Pointers stay good, and as far from the operands as they were. */
  lemma {:induction false} SameSpineAt(j: Join, e: Expr, f: Expr, p: Slot)
    requires SameSpine(j, e, f) && Spine(j, e, p)
    ensures Spine(j, f, p) && SameSpine(j, At(j, e, p), At(j, f, p))
    ensures SpineSize(j, At(j, e, p)) == SpineSize(j, At(j, f, p))
  {
    if |p| == 0 {
      SameSpineSize(j, e, f);
    } else if p[0].Left? {
      SameSpineAt(j, e.l, f.l, p[1..]);
    } else {
      SameSpineAt(j, e.r, f.r, p[1..]);
    }
  }

  lemma {:induction false} SameSpineSize(j: Join, e: Expr, f: Expr)
    requires SameSpine(j, e, f)
    ensures SpineSize(j, e) == SpineSize(j, f)
  {
    if Is(e, j) { SameSpineSize(j, e.l, f.l); SameSpineSize(j, e.r, f.r); }
  }

  lemma {:induction false} Below(j: Join, e: Expr, p: Slot, side: Side)
    requires Spine(j, e, p) && Is(At(j, e, p), j)
    ensures Spine(j, e, p + [side])
    ensures At(j, e, p + [side]) == if side.Left? then At(j, e, p).l else At(j, e, p).r
  {
    if |p| > 0 {
      assert (p + [side])[1..] == p[1..] + [side];
      Below(j, Child(e, p[0]), p[1..], side);
    }
  }

  lemma {:induction false} PutOperand(j: Join, e: Expr, p: Slot, x: Expr)
    requires Operand(j, e, p) && !Is(x, j)
    ensures var f := Put(j, e, p, x);
            SameSpine(j, e, f) && Operand(j, f, p) && At(j, f, p) == x
            && Size(f) == Size(e) - Size(At(j, e, p)) + Size(x)
  {
    if |p| > 0 {
      PutOperand(j, Child(e, p[0]), p[1..], x);
      SameSpineReflexive(j, Sibling(e, p[0]));
    }
  }

  lemma {:induction false} PutElsewhere(j: Join, e: Expr, p: Slot, q: Slot, x: Expr)
    requires Operand(j, e, p) && Operand(j, e, q) && p != q && !Is(x, j)
    ensures var f := Put(j, e, p, x); Operand(j, f, q) && At(j, f, q) == At(j, e, q)
  {
    if |p| > 0 && |q| > 0 && p[0] == q[0] {
      assert p == [p[0]] + p[1..] && q == [q[0]] + q[1..];
      PutElsewhere(j, Child(e, p[0]), p[1..], q[1..], x);
    }
  }

  lemma {:induction false} OperandSize(j: Join, e: Expr, p: Slot)
    requires Spine(j, e, p)
    ensures Size(At(j, e, p)) <= Size(e) && (|p| > 0 ==> Size(At(j, e, p)) < Size(e))
  {
    if |p| > 0 { OperandSize(j, Child(e, p[0]), p[1..]); }
  }

  // ------------------------------------------------------ expr_eliminate_dups1

  /** Put the pair `x`, `e2` of operands of `j` into the tree, joined if possible,
      and say whether they were. */
  function Merge(j: Join, e: Expr, p: Slot, q: Slot, x: Expr): (r: (Expr, nat))
    requires Operand(j, e, p) && Operand(j, e, q) && p != q && !Is(x, j)
    requires Size(x) <= Size(At(j, e, p))
    ensures Size(r.0) <= Size(e) && SameSpine(j, e, r.0)
  {
    PutOperand(j, e, p, x);
    PutElsewhere(j, e, p, q, x);
    var a := Put(j, e, p, x);
    var t := JoinPair(j, x, At(j, a, q));
    if t.None? then (a, 0)
    else
      JoinPairShape(j, x, At(j, a, q));
      PutOperand(j, e, p, Sym(Neutral(j)));
      PutElsewhere(j, e, p, q, Sym(Neutral(j)));
      var b := Put(j, e, p, Sym(Neutral(j)));
      PutOperand(j, b, q, t.value);
      SameSpineTransitive(j, e, b, Put(j, b, q, t.value));
      (Put(j, b, q, t.value), 1)
  }

  /** The tree after `expr_eliminate_dups1(j, p, q)`, and by how much it has
      increased `trans_count`. */
  function Dups1(j: Join, e: Expr, p: Slot, q: Slot): (r: (Expr, nat))
    requires Spine(j, e, p) && Spine(j, e, q)
    ensures Size(r.0) <= Size(e) && SameSpine(j, e, r.0)
    decreases Size(e), SpineSize(j, At(j, e, p)) + SpineSize(j, At(j, e, q)), 1
  {
    if Is(At(j, e, p), j) then
      Below(j, e, p, Left);
      var (a, n) := Dups1(j, e, p + [Left], q);
      SameSpineAt(j, e, a, p); SameSpineAt(j, e, a, q);
      Below(j, a, p, Right);
      var (b, m) := Dups1(j, a, p + [Right], q);
      SameSpineTransitive(j, e, a, b);
      (b, n + m)
    else if Is(At(j, e, q), j) then
      Below(j, e, q, Left);
      var (a, n) := Dups1(j, e, p, q + [Left]);
      SameSpineAt(j, e, a, p); SameSpineAt(j, e, a, q);
      Below(j, a, q, Right);
      var (b, m) := Dups1(j, a, p, q + [Right]);
      SameSpineTransitive(j, e, a, b);
      (b, n + m)
    else if p == q then
      SameSpineReflexive(j, e);
      (e, 0)
    else
      var (x, n) := Inner1(j, e, p, q);
      var (a, m) := Merge(j, e, p, q, x);
      (a, n + m)
  }

  /** The operand at `p`, when it is a connective itself, after its own turn. */
  function Inner1(j: Join, e: Expr, p: Slot, q: Slot): (r: (Expr, nat))
    requires Operand(j, e, p) && Operand(j, e, q) && p != q
    ensures Size(r.0) <= Size(At(j, e, p)) && !Is(r.0, j)
    decreases Size(e), 0, 0
  {
    var x := At(j, e, p);
    OperandSize(j, e, p);
    if x.Bin? then Dups1(x.j, x, [], []) else (x, 0)
  }

  lemma Reassociate(j: Join, a: Tri, b: Tri, c: Tri)
    ensures Combine(j, Combine(j, a, b), c) == Combine(j, a, Combine(j, b, c))
  {}

  lemma Exchange(j: Join, a: Tri, b: Tri)
    ensures Combine(j, a, b) == Combine(j, b, a)
  {}

  /** What everything but the operand contributes to the value of the tree. */
  function Rest(j: Join, e: Expr, p: Slot, v: Values): Tri
    requires Spine(j, e, p)
  {
    if |p| == 0 then v.tri(Neutral(j))
    else Combine(j, Rest(j, Child(e, p[0]), p[1..], v), Value(Sibling(e, p[0]), v))
  }

  lemma {:induction false} HoleValue(j: Join, e: Expr, p: Slot, x: Expr, v: Values)
    requires Sane(v) && Spine(j, e, p)
    ensures Value(Put(j, e, p, x), v) == Combine(j, Value(x, v), Rest(j, e, p, v))
  {
    if |p| > 0 {
      var c := Child(e, p[0]);
      HoleValue(j, c, p[1..], x, v);
      Reassociate(j, Value(x, v), Rest(j, c, p[1..], v), Value(Sibling(e, p[0]), v));
      Exchange(j, Value(Put(j, c, p[1..], x), v), Value(Sibling(e, p[0]), v));
    }
  }

  lemma {:induction false} PutBack(j: Join, e: Expr, p: Slot)
    requires Spine(j, e, p)
    ensures Put(j, e, p, At(j, e, p)) == e
  {
    if |p| > 0 { PutBack(j, Child(e, p[0]), p[1..]); }
  }

  /** Two operands are as good as two others when they combine to the same value. */
  lemma {:induction false} PairKeepsValue(j: Join, e: Expr, p: Slot, q: Slot, x: Expr, y: Expr, v: Values)
    requires Sane(v) && Operand(j, e, p) && Operand(j, e, q) && p != q && !Is(x, j)
    requires Combine(j, Value(x, v), Value(y, v)) == Combine(j, Value(At(j, e, p), v), Value(At(j, e, q), v))
    requires Spine(j, Put(j, e, p, x), q)
    ensures Value(Put(j, Put(j, e, p, x), q, y), v) == Value(e, v)
  {
    assert |p| > 0 && |q| > 0;
    if p[0] == q[0] {
      assert p == [p[0]] + p[1..] && q == [q[0]] + q[1..];
      PairKeepsValue(j, Child(e, p[0]), p[1..], q[1..], x, y, v);
    } else {
      PairAcross(j, Child(e, p[0]), p[1..], Child(e, q[0]), q[1..], x, y, v);
      Exchange(j, Value(e.l, v), Value(e.r, v));
      Exchange(j, Value(Put(j, Child(e, p[0]), p[1..], x), v), Value(Put(j, Child(e, q[0]), q[1..], y), v));
    }
  }

  /** The case of two operands on different sides. */
  lemma {:induction false} PairAcross(j: Join, e: Expr, p: Slot, f: Expr, q: Slot, x: Expr, y: Expr, v: Values)
    requires Sane(v) && Spine(j, e, p) && Spine(j, f, q)
    requires Combine(j, Value(x, v), Value(y, v)) == Combine(j, Value(At(j, e, p), v), Value(At(j, f, q), v))
    ensures Combine(j, Value(Put(j, e, p, x), v), Value(Put(j, f, q, y), v)) == Combine(j, Value(e, v), Value(f, v))
  {
    var c, d := Rest(j, e, p, v), Rest(j, f, q, v);
    HoleValue(j, e, p, x, v);
    HoleValue(j, f, q, y, v);
    HoleValue(j, e, p, At(j, e, p), v);
    HoleValue(j, f, q, At(j, f, q), v);
    PutBack(j, e, p);
    PutBack(j, f, q);
    Regroup(j, Value(x, v), Value(y, v), c, d);
    Regroup(j, Value(At(j, e, p), v), Value(At(j, f, q), v), c, d);
  }

  lemma {:induction false} OperandKeepsValue(j: Join, e: Expr, p: Slot, x: Expr, v: Values)
    requires Sane(v) && Spine(j, e, p) && Value(x, v) == Value(At(j, e, p), v)
    ensures Value(Put(j, e, p, x), v) == Value(e, v)
  {
    HoleValue(j, e, p, x, v);
    HoleValue(j, e, p, At(j, e, p), v);
    PutBack(j, e, p);
  }

  lemma {:induction false} OperandCrisp(j: Join, e: Expr, p: Slot, x: Expr, v: Values)
    requires Spine(j, e, p) && Crisp(e, v)
    ensures Crisp(At(j, e, p), v) && (Crisp(x, v) ==> Crisp(Put(j, e, p, x), v))
  {
    if |p| > 0 { OperandCrisp(j, Child(e, p[0]), p[1..], x, v); }
  }

  /** The two trees have the same value, and if no symbol of the first one is `m`
      on its own, neither is one of the second. */
  predicate Kept(e: Expr, f: Expr, v: Values) {
    Value(f, v) == Value(e, v) && (Crisp(e, v) ==> Crisp(f, v))
  }

  lemma {:induction false} MergeKeepsValue(j: Join, e: Expr, p: Slot, q: Slot, x: Expr, v: Values)
    requires Sane(v) && Operand(j, e, p) && Operand(j, e, q) && p != q && !Is(x, j)
    requires Size(x) <= Size(At(j, e, p)) && Kept(At(j, e, p), x, v)
    ensures Kept(e, Merge(j, e, p, q, x).0, v)
  {
    PutElsewhere(j, e, p, q, x);
    PutElsewhere(j, e, p, q, Sym(Neutral(j)));
    var t := JoinPair(j, x, At(j, e, q));
    if t.None? {
      OperandKeepsValue(j, e, p, x, v);
    } else {
      JoinPairSound(j, x, At(j, e, q), v);
      PairKeepsValue(j, e, p, q, Sym(Neutral(j)), t.value, v);
    }
    if Crisp(e, v) { MergeCrisp(j, e, p, q, x, v); }
  }

  lemma {:induction false} MergeCrisp(j: Join, e: Expr, p: Slot, q: Slot, x: Expr, v: Values)
    requires Sane(v) && Operand(j, e, p) && Operand(j, e, q) && p != q && !Is(x, j)
    requires Size(x) <= Size(At(j, e, p)) && Crisp(e, v) && Kept(At(j, e, p), x, v)
    ensures Crisp(Merge(j, e, p, q, x).0, v)
  {
    PutElsewhere(j, e, p, q, x);
    PutElsewhere(j, e, p, q, Sym(Neutral(j)));
    OperandCrisp(j, e, p, x, v);
    OperandCrisp(j, e, q, x, v);
    var t := JoinPair(j, x, At(j, e, q));
    if t.Some? {
      JoinPairCrisp(j, x, At(j, e, q), v);
      OperandCrisp(j, e, p, Sym(Neutral(j)), v);
      OperandCrisp(j, Put(j, e, p, Sym(Neutral(j))), q, t.value, v);
    }
  }

  /** The first phase keeps the value under every assignment, tristates included,
      although both pointers walk over the tree that is being rewritten. */
  lemma {:induction false} Dups1KeepsValue(j: Join, e: Expr, p: Slot, q: Slot, v: Values)
    requires Sane(v) && Spine(j, e, p) && Spine(j, e, q)
    ensures Kept(e, Dups1(j, e, p, q).0, v)
    decreases Size(e), SpineSize(j, At(j, e, p)) + SpineSize(j, At(j, e, q))
  {
    if Is(At(j, e, p), j) {
      Below(j, e, p, Left);
      Dups1KeepsValue(j, e, p + [Left], q, v);
      var a := Dups1(j, e, p + [Left], q).0;
      SameSpineAt(j, e, a, p); SameSpineAt(j, e, a, q);
      Below(j, a, p, Right);
      Dups1KeepsValue(j, a, p + [Right], q, v);
    } else if Is(At(j, e, q), j) {
      Below(j, e, q, Left);
      Dups1KeepsValue(j, e, p, q + [Left], v);
      var a := Dups1(j, e, p, q + [Left]).0;
      SameSpineAt(j, e, a, p); SameSpineAt(j, e, a, q);
      Below(j, a, q, Right);
      Dups1KeepsValue(j, a, p, q + [Right], v);
    } else if p != q {
      var x := At(j, e, p);
      OperandSize(j, e, p);
      if x.Bin? { Dups1KeepsValue(x.j, x, [], [], v); }
      MergeKeepsValue(j, e, p, q, Inner1(j, e, p, q).0, v);
    }
  }

  // ------------------------------------------------------------- what is counted

  /** Where `y` or `n` is an operand, there is something to eliminate. */
  lemma {:induction false} ConstantOperand(j: Join, e: Expr, p: Slot)
    requires Spine(j, e, p) && |p| > 0 && YesOrNo(At(j, e, p))
    ensures !YnFree(e)
  {
    if |p| == 1 {
      assert At(j, e, p) == At(j, Child(e, p[0]), p[1..]) == Child(e, p[0]);
    } else {
      ConstantOperand(j, Child(e, p[0]), p[1..]);
    }
  }

  lemma {:induction false} ConstantInside(j: Join, e: Expr, p: Slot, x: Expr)
    requires Spine(j, e, p) && !YnFree(x)
    ensures !YnFree(Put(j, e, p, x))
  {
    if |p| > 0 { ConstantInside(j, Child(e, p[0]), p[1..], x); }
  }

  /** A phase that counts nothing changes nothing; one that counts something, or
      finds a constant operand, leaves a constant operand behind. */
  predicate Counted(e: Expr, r: (Expr, nat)) {
    && (r.1 == 0 ==> r.0 == e)
    && (r.1 > 0 || !YnFree(e) ==> !YnFree(r.0))
  }

  lemma {:induction false} MergeCounted(j: Join, e: Expr, p: Slot, q: Slot, x: Expr, n: nat)
    requires Operand(j, e, p) && Operand(j, e, q) && p != q && !Is(x, j)
    requires Size(x) <= Size(At(j, e, p)) && Counted(At(j, e, p), (x, n))
    requires At(j, e, p).Bin? || n == 0
    ensures var r := Merge(j, e, p, q, x); Counted(e, (r.0, n + r.1))
  {
    PutElsewhere(j, e, p, q, x);
    PutElsewhere(j, e, p, q, Sym(Neutral(j)));
    var t := JoinPair(j, x, At(j, e, q));
    if t.None? {
      PutBack(j, e, p);
      if n > 0 { ConstantInside(j, e, p, x); }
    } else {
      JoinPairShape(j, x, At(j, e, q));
      var b := Put(j, e, p, Sym(Neutral(j)));
      PutOperand(j, e, p, Sym(Neutral(j)));
      PutElsewhere(j, b, q, p, t.value);
      ConstantOperand(j, Put(j, b, q, t.value), p);
    }
  }

  lemma {:induction false} Dups1Counted(j: Join, e: Expr, p: Slot, q: Slot)
    requires Spine(j, e, p) && Spine(j, e, q)
    ensures Counted(e, Dups1(j, e, p, q))
    decreases Size(e), SpineSize(j, At(j, e, p)) + SpineSize(j, At(j, e, q))
  {
    if Is(At(j, e, p), j) {
      Below(j, e, p, Left);
      Dups1Counted(j, e, p + [Left], q);
      var a := Dups1(j, e, p + [Left], q).0;
      SameSpineAt(j, e, a, p); SameSpineAt(j, e, a, q);
      Below(j, a, p, Right);
      Dups1Counted(j, a, p + [Right], q);
    } else if Is(At(j, e, q), j) {
      Below(j, e, q, Left);
      Dups1Counted(j, e, p, q + [Left]);
      var a := Dups1(j, e, p, q + [Left]).0;
      SameSpineAt(j, e, a, p); SameSpineAt(j, e, a, q);
      Below(j, a, q, Right);
      Dups1Counted(j, a, p, q + [Right]);
    } else if p != q {
      var x := At(j, e, p);
      OperandSize(j, e, p);
      if x.Bin? { Dups1Counted(x.j, x, [], []); }
      var (y, n) := Inner1(j, e, p, q);
      MergeCounted(j, e, p, q, y, n);
    }
  }
}
