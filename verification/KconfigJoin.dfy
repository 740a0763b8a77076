/** Simplifying one pair of operands.

    `expr_join_or` and `expr_join_and` look for a single expression that stands
    for `e1 || e2` or `e1 && e2`, and give up on everything they do not know.
  */
module KconfigJoin {
  import opened Wrappers
  import opened KconfigExpr
  import opened KconfigEq

  function TypeOf(s: Symbol): SymbolType {
    if s.Config? then s.ty else S_UNKNOWN
  }

  /** `SYMBOL_CONST` */
  predicate Fixed(s: Symbol) { !s.Config? }

  /** The symbol that the left operand is about, if it is simple enough. */
  function FirstSubject(e: Expr): Option<Symbol> {
    match e
    case Sym(s) => Some(s)
    case Equal(a, _) => Some(a)
    case Unequal(a, _) => Some(a)
    case Not(Sym(s)) => Some(s)
    case Not(Equal(a, _)) => Some(a)
    case Not(Unequal(a, _)) => Some(a)
    case _ => None
  }

  /** The same for the right operand, where fewer negations are understood. */
  function SecondSubject(e: Expr): Option<Symbol> {
    match e
    case Sym(s) => Some(s)
    case Equal(a, _) => Some(a)
    case Unequal(a, _) => Some(a)
    case Not(Sym(s)) => Some(s)
    case _ => None
  }

  /** The boolean or tristate symbol that both operands are about. */
  function CommonSubject(e1: Expr, e2: Expr): Option<Symbol> {
    var s1, s2 := FirstSubject(e1), SecondSubject(e2);
    if s1.None? || s1 != s2 then None
    else if TypeOf(s1.value) == S_BOOLEAN || TypeOf(s1.value) == S_TRISTATE then s1
    else None
  }

  predicate EqualTo(e: Expr, s: Symbol) { e.Equal? && e.b == s }
  predicate UnequalTo(e: Expr, s: Symbol) { e.Unequal? && e.b == s }

  predicate BothEqual(e1: Expr, e2: Expr, s: Symbol, t: Symbol) {
    (EqualTo(e1, s) && EqualTo(e2, t)) || (EqualTo(e1, t) && EqualTo(e2, s))
  }

  predicate BothUnequal(e1: Expr, e2: Expr, s: Symbol, t: Symbol) {
    (UnequalTo(e1, s) && UnequalTo(e2, t)) || (UnequalTo(e1, t) && UnequalTo(e2, s))
  }

  predicate NotSymbol(e: Expr) { e.Not? && e.e.Sym? }

  /** One operand is the symbol itself, and the other compares it with `s`. */
  predicate SymbolAndEqual(e1: Expr, e2: Expr, s: Symbol) {
    (e1.Sym? && EqualTo(e2, s)) || (e2.Sym? && EqualTo(e1, s))
  }

  predicate SymbolAndUnequal(e1: Expr, e2: Expr, s: Symbol) {
    (e1.Sym? && UnequalTo(e2, s)) || (e2.Sym? && UnequalTo(e1, s))
  }

  function JoinOr(e1: Expr, e2: Expr): Option<Expr> {
    if ExprEq(e1, e2) then Some(e1)
    else
      var s := CommonSubject(e1, e2);
      if s.None? then None
      else if TypeOf(s.value) == S_TRISTATE && BothEqual(e1, e2, SymbolYes, SymbolMod) then
        Some(Unequal(s.value, SymbolNo))
      else if TypeOf(s.value) == S_TRISTATE && BothEqual(e1, e2, SymbolYes, SymbolNo) then
        Some(Unequal(s.value, SymbolMod))
      else if TypeOf(s.value) == S_TRISTATE && BothEqual(e1, e2, SymbolMod, SymbolNo) then
        Some(Unequal(s.value, SymbolYes))
      else if TypeOf(s.value) == S_BOOLEAN && ((NotSymbol(e1) && e2.Sym?) || (NotSymbol(e2) && e1.Sym?)) then
        Some(Sym(SymbolYes))
      else None
  }

  /** `a == b && a != c` for constants `b` and `c` */
  function EqualAndUnequal(s: Symbol, b: Symbol, c: Symbol): Option<Expr> {
    if Fixed(b) && Fixed(c) then Some(if b != c then Equal(s, b) else Sym(SymbolNo)) else None
  }

  function JoinAndTristate(s: Symbol, e1: Expr, e2: Expr): Option<Expr> {
    if e1.Equal? && e2.Unequal? && EqualAndUnequal(s, e1.b, e2.b).Some? then EqualAndUnequal(s, e1.b, e2.b)
    else if e1.Unequal? && e2.Equal? && EqualAndUnequal(s, e2.b, e1.b).Some? then EqualAndUnequal(s, e2.b, e1.b)
    else if BothUnequal(e1, e2, SymbolYes, SymbolNo) then Some(Equal(s, SymbolMod))
    else if BothUnequal(e1, e2, SymbolYes, SymbolMod) then Some(Equal(s, SymbolNo))
    else if BothUnequal(e1, e2, SymbolMod, SymbolNo) then Some(Equal(s, SymbolYes))
    else None
  }

  function JoinAnd(e1: Expr, e2: Expr): Option<Expr> {
    if ExprEq(e1, e2) then Some(e1)
    else
      var s := CommonSubject(e1, e2);
      if s.None? then None
      else if SymbolAndEqual(e1, e2, SymbolYes) then Some(Equal(s.value, SymbolYes))
      else if SymbolAndUnequal(e1, e2, SymbolNo) then Some(Sym(s.value))
      else if SymbolAndUnequal(e1, e2, SymbolMod) then Some(Equal(s.value, SymbolYes))
      else if TypeOf(s.value) == S_TRISTATE then JoinAndTristate(s.value, e1, e2)
      else None
  }

  function JoinPair(j: Join, e1: Expr, e2: Expr): Option<Expr> {
    if j == OR then JoinOr(e1, e2) else JoinAnd(e1, e2)
  }

  /** The strings of boolean and tristate symbols tell the values apart. */
  lemma {:induction false} Carries(s: Symbol, v: Values)
    requires Sane(v) && (TypeOf(s) == S_BOOLEAN || TypeOf(s) == S_TRISTATE)
    ensures (v.str(s) == "y") == (v.tri(s) == yes)
    ensures (v.str(s) == "m") == (v.tri(s) == mod)
    ensures (v.str(s) == "n") == (v.tri(s) == no)
    ensures TypeOf(s) == S_BOOLEAN ==> v.tri(s) != mod
  {
    assert "y"[0] == 'y' && "m"[0] == 'm' && "n"[0] == 'n';
  }

  /** Different constants have different texts. */
  lemma {:induction false} Interned(b: Symbol, c: Symbol, v: Values)
    requires Sane(v) && Fixed(b) && Fixed(c) && v.str(b) == v.str(c)
    ensures b == c
  {
    assert "y"[0] == 'y' && "m"[0] == 'm' && "n"[0] == 'n';
  }

  lemma {:induction false} JoinOrSound(e1: Expr, e2: Expr, v: Values)
    requires Sane(v) && JoinOr(e1, e2).Some?
    ensures Value(JoinOr(e1, e2).value, v) == Max(Value(e1, v), Value(e2, v))
  {
    if ExprEq(e1, e2) {
      ExprEqSound(e1, e2, v);
    } else {
      Carries(CommonSubject(e1, e2).value, v);
    }
  }

  lemma {:induction false} JoinAndSound(e1: Expr, e2: Expr, v: Values)
    requires Sane(v) && JoinAnd(e1, e2).Some?
    ensures Value(JoinAnd(e1, e2).value, v) == Min(Value(e1, v), Value(e2, v))
  {
    if ExprEq(e1, e2) {
      ExprEqSound(e1, e2, v);
    } else {
      Carries(CommonSubject(e1, e2).value, v);
      if e1.Equal? && e2.Unequal? && v.str(e1.b) == v.str(e2.b) && Fixed(e1.b) && Fixed(e2.b) {
        Interned(e1.b, e2.b, v);
      } else if e1.Unequal? && e2.Equal? && v.str(e1.b) == v.str(e2.b) && Fixed(e1.b) && Fixed(e2.b) {
        Interned(e1.b, e2.b, v);
      }
    }
  }

  /** A joined pair has the value of the pair, under every assignment. */
  lemma {:induction false} JoinPairSound(j: Join, e1: Expr, e2: Expr, v: Values)
    requires Sane(v) && JoinPair(j, e1, e2).Some?
    ensures Value(JoinPair(j, e1, e2).value, v) == Combine(j, Value(e1, v), Value(e2, v))
  {
    if j == OR { JoinOrSound(e1, e2, v); } else { JoinAndSound(e1, e2, v); }
  }

  /** No symbol on its own is `m`. */
  predicate Crisp(e: Expr, v: Values) {
    match e
    case Sym(s) => v.tri(s) != mod
    case Not(a) => Crisp(a, v)
    case Bin(_, l, r) => Crisp(l, v) && Crisp(r, v)
    case Equal(_, _) => true
    case Unequal(_, _) => true
  }

  lemma {:induction false} CrispValue(e: Expr, v: Values)
    requires Crisp(e, v)
    ensures Value(e, v) != mod
  {
    match e
    case Not(a) => CrispValue(a, v);
    case Bin(_, l, r) => CrispValue(l, v); CrispValue(r, v);
    case _ =>
  }

  /** The joined expression is no larger than the left operand, is not a
      connective that was not there, and brings in no new `m`. */
  lemma JoinPairShape(j: Join, e1: Expr, e2: Expr)
    requires JoinPair(j, e1, e2).Some?
    ensures var t := JoinPair(j, e1, e2).value; Size(t) <= Size(e1) && (t.Bin? ==> t == e1)
  {}

  lemma JoinPairCrisp(j: Join, e1: Expr, e2: Expr, v: Values)
    requires Sane(v) && JoinPair(j, e1, e2).Some? && Crisp(e1, v) && Crisp(e2, v)
    ensures Crisp(JoinPair(j, e1, e2).value, v)
  {}
}
