/** Dependency expressions and their values.

    Values are tristates: `n`, `m` and `y` as 0, 1 and 2; conjunction is the
    minimum, disjunction the maximum, and negation exchanges `n` and `y`.
  */
module KconfigExpr {

  type Tri = x: int | 0 <= x <= 2

  const no: Tri := 0
  const mod: Tri := 1
  const yes: Tri := 2

  datatype SymbolType = S_UNKNOWN | S_BOOLEAN | S_TRISTATE | S_INT | S_HEX | S_STRING

  /** Looking up one of these three names gives the tristate constant. */
  type Text = t: string | t != "y" && t != "m" && t != "n" witness ""

  /** The three tristate constants, the other constants, which exist once for
      each text, and the symbols of the configuration. */
  datatype Symbol =
    | SymbolYes
    | SymbolMod
    | SymbolNo
    | Literal(text: Text)
    | Config(name: string, ty: SymbolType)

  datatype Join = AND | OR

  datatype Expr =
    | Sym(s: Symbol)
    | Not(e: Expr)
    | Bin(j: Join, l: Expr, r: Expr)
    | Equal(a: Symbol, b: Symbol)
    | Unequal(a: Symbol, b: Symbol)

  // ------------------------------------------------------------------ values

  /** Current values of the symbols, as numbers and as strings. */
  datatype Values = Values(tri: Symbol -> Tri, str: Symbol -> string)

  function TriString(v: Tri): string {
    if v == no then "n" else if v == mod then "m" else "y"
  }

  predicate IsConstant(s: Symbol) {
    s.SymbolYes? || s.SymbolMod? || s.SymbolNo?
  }

  /** Constants have their own values, symbols that carry tristates have the
      string of their number, and booleans are never `m`. */
  ghost predicate Sane(v: Values) {
    && v.tri(SymbolYes) == yes && v.tri(SymbolMod) == mod && v.tri(SymbolNo) == no
    && v.str(SymbolYes) == "y" && v.str(SymbolMod) == "m" && v.str(SymbolNo) == "n"
    && (forall s: Symbol :: s.Literal? ==> v.str(s) == s.text)
    && forall s: Symbol :: s.Config? && (s.ty == S_BOOLEAN || s.ty == S_TRISTATE) ==>
         v.str(s) == TriString(v.tri(s)) && (s.ty == S_BOOLEAN ==> v.tri(s) != mod)
  }

  function Min(a: Tri, b: Tri): Tri { if a < b then a else b }
  function Max(a: Tri, b: Tri): Tri { if a > b then a else b }

  function Combine(j: Join, a: Tri, b: Tri): Tri {
    if j == AND then Min(a, b) else Max(a, b)
  }

  /** `expr_calc_value`. */
  function Value(e: Expr, v: Values): Tri {
    match e
    case Sym(s) => v.tri(s)
    case Not(a) => 2 - Value(a, v)
    case Bin(j, l, r) => Combine(j, Value(l, v), Value(r, v))
    case Equal(a, b) => if v.str(a) == v.str(b) then yes else no
    case Unequal(a, b) => if v.str(a) == v.str(b) then no else yes
  }

  /** The neutral constant of a connective, and the absorbing one. */
  function Neutral(j: Join): Symbol { if j == AND then SymbolYes else SymbolNo }
  function Absorbing(j: Join): Symbol { if j == AND then SymbolNo else SymbolYes }

  // ----------------------------------------------------------- expr_transform

  predicate IsBoolean(s: Symbol) { s.Config? && s.ty == S_BOOLEAN }

  /** Decreases with every rewriting step, and never grows. */
  function Weight(e: Expr): (w: nat)
    ensures w >= 1
  {
    match e
    case Sym(_) => 1
    case Not(a) => 3 * Weight(a)
    case Bin(_, l, r) => Weight(l) + Weight(r) + 1
    case Equal(_, _) | Unequal(_, _) => 3
  }

  function Dual(j: Join): Join { if j == AND then OR else AND }

  function Negated(s: Symbol): Symbol
    requires IsConstant(s)
  {
    match s
    case SymbolYes => SymbolNo
    case SymbolMod => SymbolMod
    case SymbolNo => SymbolYes
  }

  /** `!(a && b)` as `!a || !b`, and the other way round. */
  function DeMorgan(j: Join, l: Expr, r: Expr): Expr {
    Bin(Dual(j), Not(l), Not(r))
  }

  lemma {:induction false} DeMorganLighter(j: Join, l: Expr, r: Expr)
    ensures Weight(DeMorgan(j, l, r)) == 3 * Weight(l) + 3 * Weight(r) + 1 < Weight(Not(Bin(j, l, r)))
  {
    assert Weight(Not(l)) == 3 * Weight(l) && Weight(Not(r)) == 3 * Weight(r);
    assert Weight(Bin(j, l, r)) == Weight(l) + Weight(r) + 1;
  }

  lemma {:induction false} DeMorganKeepsValue(j: Join, l: Expr, r: Expr, v: Values)
    ensures Value(DeMorgan(j, l, r), v) == Value(Not(Bin(j, l, r)), v)
  {
    assert Value(Not(l), v) == 2 - Value(l, v) && Value(Not(r), v) == 2 - Value(r, v);
  }

  /** Push negations down to symbols and rewrite tests of boolean symbols. */
  function Transform(e: Expr): (r: Expr)
    ensures Weight(r) <= Weight(e)
    decreases Weight(e)
  {
    match e
    case Sym(_) => e
    case Bin(j, l, r) => Bin(j, Transform(l), Transform(r))
    case Equal(a, b) =>
      if !IsBoolean(a) then e
      else if b == SymbolNo then Not(Sym(a))
      else if b == SymbolMod then Sym(SymbolNo)
      else if b == SymbolYes then Sym(a)
      else e
    case Unequal(a, b) =>
      if !IsBoolean(a) then e
      else if b == SymbolNo then Sym(a)
      else if b == SymbolMod then Sym(SymbolYes)
      else if b == SymbolYes then Not(Sym(a))
      else e
    case Not(a) =>
      var t := Transform(a);
      match t
      case Not(inner) => Transform(inner)
      case Equal(x, y) => Unequal(x, y)
      case Unequal(x, y) => Equal(x, y)
      case Bin(j, l, r) => DeMorganLighter(j, l, r); Transform(DeMorgan(j, l, r))
      case Sym(s) => if IsConstant(s) then Sym(Negated(s)) else Not(t)
  }

  /** The value is kept for all tristates, as long as booleans are never `m`. */
  lemma {:induction false} TransformKeepsValue(e: Expr, v: Values)
    requires Sane(v)
    ensures Value(Transform(e), v) == Value(e, v)
    decreases Weight(e)
  {
    match e
    case Sym(_) =>
    case Bin(j, l, r) =>
      TransformKeepsValue(l, v);
      TransformKeepsValue(r, v);
    case Equal(a, b) =>
    case Unequal(a, b) =>
    case Not(a) =>
      var t := Transform(a);
      TransformKeepsValue(a, v);
      match t
      case Not(inner) => TransformKeepsValue(inner, v);
      case Bin(j, l, r) =>
        DeMorganLighter(j, l, r);
        DeMorganKeepsValue(j, l, r, v);
        TransformKeepsValue(DeMorgan(j, l, r), v);
      case _ =>
  }

  /** Negation stands on plain symbols only, and boolean symbols are not compared
      with constants. */
  predicate Normal(e: Expr) {
    match e
    case Sym(_) => true
    case Not(a) => a.Sym? && !IsConstant(a.s)
    case Bin(_, l, r) => Normal(l) && Normal(r)
    case Equal(a, b) => !(IsBoolean(a) && IsConstant(b))
    case Unequal(a, b) => !(IsBoolean(a) && IsConstant(b))
  }

  lemma {:induction false} TransformNormal(e: Expr)
    ensures Normal(Transform(e))
    decreases Weight(e)
  {
    match e
    case Sym(_) =>
    case Bin(j, l, r) =>
      TransformNormal(l);
      TransformNormal(r);
    case Equal(a, b) =>
    case Unequal(a, b) =>
    case Not(a) =>
      TransformNormal(a);
      match Transform(a)
      case Not(inner) => TransformNormal(inner);
      case Bin(j, l, r) =>
        DeMorganLighter(j, l, r);
        TransformNormal(DeMorgan(j, l, r));
      case _ =>
  }

  /** What is normal is left alone, so a second pass changes nothing. */
  lemma {:induction false} NormalIsFixed(e: Expr)
    requires Normal(e)
    ensures Transform(e) == e
  {
    match e
    case Bin(_, l, r) => NormalIsFixed(l); NormalIsFixed(r);
    case _ =>
  }

  // --------------------------------------------------------- expr_eliminate_yn

  function EliminateYn(e: Expr): (r: Expr) {
    match e
    case Bin(j, l, r) =>
      var l', r' := EliminateYn(l), EliminateYn(r);
      if l' == Sym(Absorbing(j)) then Sym(Absorbing(j))
      else if l' == Sym(Neutral(j)) then r'
      else if r' == Sym(Absorbing(j)) then Sym(Absorbing(j))
      else if r' == Sym(Neutral(j)) then l'
      else Bin(j, l', r')
    case _ => e
  }

  lemma {:induction false} EliminateYnKeepsValue(e: Expr, v: Values)
    requires Sane(v)
    ensures Value(EliminateYn(e), v) == Value(e, v)
  {
    match e
    case Bin(_, l, r) => EliminateYnKeepsValue(l, v); EliminateYnKeepsValue(r, v);
    case _ =>
  }

  /** No connective of the result has `y` or `n` for an operand. */
  predicate YnFree(e: Expr) {
    e.Bin? ==>
      && e.l !in {Sym(SymbolYes), Sym(SymbolNo)} && e.r !in {Sym(SymbolYes), Sym(SymbolNo)}
      && YnFree(e.l) && YnFree(e.r)
  }

  lemma {:induction false} EliminateYnFree(e: Expr)
    ensures YnFree(EliminateYn(e))
  {
    match e
    case Bin(_, l, r) => EliminateYnFree(l); EliminateYnFree(r);
    case _ =>
  }
}
