/** The three-valued evaluator of `#if` and `#elif` conditions.

    `CValue` is the meaning the C preprocessor gives a condition under an
    assignment `Env` of macros.  `Known` is what the tool may conclude from the
    `-D` and `-U` options alone.  `KnownSound` says that whatever is concluded
    holds under every assignment that agrees with the options; the methods of
    `Evaluator` compute `Known` in one left-to-right pass over the tokens.
  */
module UnifdefEval {
  import opened Wrappers
  import opened UnifdefGrammar

  // ------------------------------------------------------------- C meaning

  /** An assignment of the macros: which are defined, what they expand to, and
      an arbitrary reading of operands that C itself gives no meaning to. */
  datatype Env = Env(
    isDefined: string -> bool,
    value: string -> int,
    oddDefined: Option<Token> -> bool,
    oddLine: seq<Token> -> bool)

  function Truth(b: bool): int { if b then 1 else 0 }

  function Apply(op: BinOp, a: int, b: int): int {
    match op
    case Or => Truth(a != 0 || b != 0)
    case And => Truth(a != 0 && b != 0)
    case Eq => Truth(a == b)
    case Ne => Truth(a != b)
    case Le => Truth(a <= b)
    case Ge => Truth(a >= b)
    case Lt => Truth(a < b)
    case Gt => Truth(a > b)
  }

  /** The operators are those of C: 1 for true and 0 for false. */
  lemma OperatorsOfC(a: int, b: int)
    ensures forall op :: Apply(op, a, b) in {0, 1}
    ensures Apply(Lt, a, b) == 1 <==> a < b
    ensures Apply(Gt, a, b) == 1 <==> b < a
    ensures Apply(Le, a, b) == 1 <==> a <= b
    ensures Apply(Ge, a, b) == 1 <==> b <= a
    ensures Apply(Eq, a, b) == 1 <==> a == b
    ensures Apply(Ne, a, b) == 1 <==> a != b
    ensures Apply(Or, a, b) == 0 <==> a == 0 == b
    ensures Apply(And, a, b) == 1 <==> a != 0 && b != 0
  {}

  function CValue(e: Expr, env: Env): int {
    match e
    case Number(n) => n
    case Symbol(s) => env.value(s)
    case DefinedOp(_, operand) =>
      (match operand
       case Some(Name(s)) => Truth(env.isDefined(s))
       case _ => Truth(env.oddDefined(operand)))
    case Not(a) => Truth(CValue(a, env) == 0)
    case Paren(a) => CValue(a, env)
    case Bin(op, l, r) => Apply(op, CValue(l, env), CValue(r, env))
  }

  /** Whether a condition holds.  A line that is not one expression of the
      grammar may mean anything. */
  predicate CondHolds(ts: seq<Token>, env: Env) {
    match ParseAll(ts)
    case Some(e) => CValue(e, env) != 0
    case None => env.oddLine(ts)
  }

  // ---------------------------------------------------------- symbol table

  /** The effect of `-U` or of `-D`; a defined symbol has the number its text
      stands for, or none when the text is not a number. */
  datatype SymDef = Undefined | Defined(number: Option<int>)
  type Symbols = map<string, SymDef>

  ghost predicate Agrees(env: Env, syms: Symbols) {
    forall s :: s in syms ==>
      match syms[s]
      case Undefined => !env.isDefined(s) && env.value(s) == 0
      case Defined(number) => env.isDefined(s) && (number.Some? ==> env.value(s) == number.value)
  }

  const LONG_MAX := 0x7FFF_FFFF_FFFF_FFFF
  const INT_MAX := 0x7FFF_FFFF

  /** What is left of a number after `strtol` (which saturates at the range of
      `long`) and the conversion of its result to `int` (which wraps). */
  function ToInt(n: int): (r: int)
    ensures r == n <==> -INT_MAX - 1 <= n <= INT_MAX
  {
    var clamped := if n > LONG_MAX then LONG_MAX else if n < -LONG_MAX - 1 then -LONG_MAX - 1 else n;
    var low := clamped % 0x1_0000_0000;
    if low > INT_MAX then low - 0x1_0000_0000 else low
  }

  /** All numbers in the expression, written out or coming from `-D`, are in
      the range of `int`. */
  predicate Fits(e: Expr, syms: Symbols) {
    match e
    case Number(n) => n <= INT_MAX
    case Symbol(s) =>
      s in syms && syms[s].Defined? && syms[s].number.Some? ==>
        -INT_MAX - 1 <= syms[s].number.value <= INT_MAX
    case DefinedOp(_, _) => true
    case Not(a) => Fits(a, syms)
    case Paren(a) => Fits(a, syms)
    case Bin(_, l, r) => Fits(l, syms) && Fits(r, syms)
  }

  // --------------------------------------------------- what the tool knows

  function KnownUnary(lookup: Option<SymDef>): Option<int> {
    match lookup
    case Some(Undefined) => Some(0)
    case Some(Defined(Some(v))) => Some(ToInt(v))
    case _ => None
  }

  function Lookup(syms: Symbols, s: string): Option<SymDef> {
    if s in syms then Some(syms[s]) else None
  }

  function KnownDefined(operand: Option<Token>, syms: Symbols): Option<int> {
    if operand.Some? && operand.value.Name? && operand.value.s in syms
    then Some(Truth(syms[operand.value.s].Defined?))
    else None
  }

  function KnownBin(op: BinOp, a: Option<int>, b: Option<int>, strict: bool): Option<int> {
    if op.Or? && !strict && ((a.Some? && a.value != 0) || (b.Some? && b.value != 0)) then Some(1)
    else if op.And? && !strict && (a == Some(0) || b == Some(0)) then Some(0)
    else if a.None? || b.None? then None
    else Some(Apply(op, a.value, b.value))
  }

  /** The value of an expression as far as the options determine it. */
  function Known(e: Expr, syms: Symbols, strict: bool): Option<int> {
    match e
    case Number(n) => Some(ToInt(n))
    case Symbol(s) => KnownUnary(Lookup(syms, s))
    case DefinedOp(_, operand) => KnownDefined(operand, syms)
    case Not(a) =>
      var v := Known(a, syms, strict);
      if v.None? then None else Some(Truth(v.value == 0))
    case Paren(a) => Known(a, syms, strict)
    case Bin(op, l, r) => KnownBin(op, Known(l, syms, strict), Known(r, syms, strict), strict)
  }

  /** Some symbol of the expression is defined as text that is not a number. */
  predicate Unevaluable(e: Expr, syms: Symbols) {
    match e
    case Number(_) | DefinedOp(_, _) => false
    case Symbol(s) => s in syms && syms[s] == Defined(None)
    case Not(a) => Unevaluable(a, syms)
    case Paren(a) => Unevaluable(a, syms)
    case Bin(_, l, r) => Unevaluable(l, syms) || Unevaluable(r, syms)
  }

  /** Nothing but literals: such conditions are only evaluated with `-k`. */
  predicate IsConstant(e: Expr) {
    match e
    case Number(_) => true
    case DefinedOp(_, _) | Symbol(_) => false
    case Not(a) => IsConstant(a)
    case Paren(a) => IsConstant(a)
    case Bin(_, l, r) => IsConstant(l) && IsConstant(r)
  }

  /** Soundness and exactness: a known value is the C value under every
      assignment to the symbols that are not known. */
  lemma {:induction false} KnownSound(e: Expr, syms: Symbols, strict: bool, env: Env)
    requires Agrees(env, syms) && Fits(e, syms) && Known(e, syms, strict).Some?
    ensures Known(e, syms, strict).value == CValue(e, env)
  {
    match e
    case Number(n) =>
    case Symbol(s) =>
    case DefinedOp(_, operand) =>
    case Not(a) => KnownSound(a, syms, strict, env);
    case Paren(a) => KnownSound(a, syms, strict, env);
    case Bin(op, l, r) =>
      if Known(l, syms, strict).Some? { KnownSound(l, syms, strict, env); }
      if Known(r, syms, strict).Some? { KnownSound(r, syms, strict, env); }
  }

  /** Strictness only ever withholds answers. */
  lemma {:induction false} StrictRefines(e: Expr, syms: Symbols)
    requires Known(e, syms, true).Some?
    ensures Known(e, syms, false) == Known(e, syms, true)
  {
    match e
    case Number(_) | Symbol(_) | DefinedOp(_, _) =>
    case Not(a) => StrictRefines(a, syms);
    case Paren(a) => StrictRefines(a, syms);
    case Bin(op, l, r) => StrictRefines(l, syms); StrictRefines(r, syms);
  }

  // ------------------------------------------------- answers are not withheld

  /** A number that an operand may have, as far as it is known. */
  predicate Completes(known: Option<int>, x: int) {
    known.Some? ==> x == known.value
  }

  /** Whatever is put in for what is not known, the result is `v`. */
  ghost predicate Settles(op: BinOp, a: Option<int>, b: Option<int>, v: int) {
    forall x, y :: Completes(a, x) && Completes(b, y) ==> Apply(op, x, y) == v
  }

  /** Two numbers for the operands, of which at least one is not known, so that the
      operator has a given truth value. */
  function Operands(op: BinOp, a: Option<int>, b: Option<int>, wanted: bool): (int, int) {
    var known := if a.Some? then a.value else if b.Some? then b.value else 0;
    var other := match op
                 case Or | And => if wanted then 1 else 0
                 case Eq => if wanted then known else known + 1
                 case Ne => if wanted then known + 1 else known
                 case Le => if wanted then known else if a.Some? then known - 1 else known + 1
                 case Ge => if wanted then known else if a.Some? then known + 1 else known - 1
                 case Lt => if !wanted then known else if a.Some? then known + 1 else known - 1
                 case Gt => if !wanted then known else if a.Some? then known - 1 else known + 1;
    if a.Some? then (known, other)
    else if b.Some? || !(op.Or? || op.And?) then (other, known)
    else (other, other)
  }

  lemma OperandsServe(op: BinOp, a: Option<int>, b: Option<int>, wanted: bool)
    requires a.None? || b.None?
    requires op.Or? ==> !(a.Some? && a.value != 0) && !(b.Some? && b.value != 0)
    requires op.And? ==> a != Some(0) && b != Some(0)
    ensures var (x, y) := Operands(op, a, b, wanted);
            && (a.Some? ==> x == a.value) && (b.Some? ==> y == b.value)
            && Apply(op, x, y) == Truth(wanted)
  {}

  /** One operator without strict logic: there is an answer if and only if what is
      known settles it. */
  lemma {:induction false} SettledExactly(op: BinOp, a: Option<int>, b: Option<int>, v: int)
    ensures KnownBin(op, a, b, false) == Some(v) <==> Settles(op, a, b, v)
  {
    if KnownBin(op, a, b, false).None? {
      OperandsServe(op, a, b, true);
      OperandsServe(op, a, b, false);
      var (x, y) := Operands(op, a, b, true);
      var (x', y') := Operands(op, a, b, false);
      assert Completes(a, x) && Completes(b, y) && Completes(a, x') && Completes(b, y');
    } else {
      var x, y := if a.Some? then a.value else 0, if b.Some? then b.value else 0;
      assert Completes(a, x) && Completes(b, y);
    }
  }

  /** So of expressions. */
  lemma {:induction false} KnownBinExact(op: BinOp, l: Expr, r: Expr, syms: Symbols, v: int)
    ensures Known(Bin(op, l, r), syms, false) == Some(v)
       <==> Settles(op, Known(l, syms, false), Known(r, syms, false), v)
  {
    SettledExactly(op, Known(l, syms, false), Known(r, syms, false), v);
  }

  /** With strict logic both operands have to be known. */
  lemma StrictBinExact(op: BinOp, l: Expr, r: Expr, syms: Symbols)
    ensures Known(Bin(op, l, r), syms, true).Some? <==> Known(l, syms, true).Some? && Known(r, syms, true).Some?
  {}

  /** What is known of operands: a symbol with a number, or undefined; whether a
      symbol of the command line is defined; and the negation of what is known. */
  lemma KnownLeaves(s: string, paren: bool, a: Expr, syms: Symbols, strict: bool)
    ensures Known(Symbol(s), syms, strict).Some? <==> s in syms && (syms[s].Undefined? || syms[s].number.Some?)
    ensures Known(DefinedOp(paren, Some(Name(s))), syms, strict).Some? <==> s in syms
    ensures Known(Not(a), syms, strict).Some? <==> Known(a, syms, strict).Some?
    ensures Known(Paren(a), syms, strict) == Known(a, syms, strict)
  {}

  /** The command line says something about every symbol. */
  predicate Decided(e: Expr, syms: Symbols) {
    match e
    case Number(_) => true
    case Symbol(s) => s in syms
    case DefinedOp(_, operand) => operand.Some? && operand.value.Name? && operand.value.s in syms
    case Not(a) => Decided(a, syms)
    case Paren(a) => Decided(a, syms)
    case Bin(_, l, r) => Decided(l, syms) && Decided(r, syms)
  }

  lemma {:induction false} DecidedKnown(e: Expr, syms: Symbols, strict: bool)
    requires Decided(e, syms) && !Unevaluable(e, syms)
    ensures Known(e, syms, strict).Some?
  {
    match e
    case Number(_) =>
    case Symbol(_) =>
    case DefinedOp(_, _) =>
    case Not(a) => DecidedKnown(a, syms, strict);
    case Paren(a) => DecidedKnown(a, syms, strict);
    case Bin(_, l, r) =>
      DecidedKnown(l, syms, strict);
      DecidedKnown(r, syms, strict);
  }

  /** Literals are evaluated exactly if and only if they are in the range of
      `int`: beyond it the value is wrong. */
  lemma NumberExactIffInRange(n: nat, syms: Symbols, strict: bool, env: Env)
    ensures Known(Number(n), syms, strict) == Some(CValue(Number(n), env)) <==> n <= INT_MAX
  {}

  /** Exactly when a literal's truth value is lost: with -UA, `#if 4294967296 || A`
      is deleted although it holds in C. */
  lemma {:induction false} NumberTruthLostIff(n: nat, syms: Symbols, strict: bool, env: Env)
    ensures (Known(Number(n), syms, strict) == Some(0) && CValue(Number(n), env) != 0)
       <==> (0 < n <= LONG_MAX && n % 0x1_0000_0000 == 0)
  {
    assert LONG_MAX % 0x1_0000_0000 != 0;
  }

  // ---------------------------------------------------- whole conditions

  /** The verdict on the condition of an `#if` or `#elif` line: none if the line
      is not one expression, cannot be evaluated or mentions no symbol (unless
      constants are to be evaluated too). */
  function CondKnown(ts: seq<Token>, syms: Symbols, strict: bool, killconsts: bool): Option<bool> {
    match ParseAll(ts)
    case None => None
    case Some(e) =>
      var v := Known(e, syms, strict);
      if (IsConstant(e) && !killconsts) || Unevaluable(e, syms) || v.None? then None
      else Some(v.value != 0)
  }

  /** A condition gets a verdict exactly if what it is made of is known, it does not
      consist of constants alone, short of `-k`, and no symbol is defined as
      something else than a number.  It is known if the command line decides every
      symbol. */
  lemma {:induction false} VerdictIff(e: Expr, syms: Symbols, strict: bool, killconsts: bool)
    requires WellFormed(e, 0)
    ensures CondKnown(Flat(e), syms, strict, killconsts).Some?
       <==> Known(e, syms, strict).Some? && (killconsts || !IsConstant(e)) && !Unevaluable(e, syms)
    ensures Decided(e, syms) ==>
              (CondKnown(Flat(e), syms, strict, killconsts).Some?
          <==> (killconsts || !IsConstant(e)) && !Unevaluable(e, syms))
  {
    ParseAllExact(Flat(e), e);
    if Decided(e, syms) && !Unevaluable(e, syms) {
      DecidedKnown(e, syms, strict);
    }
  }

  /** The same for `#ifdef` and, with `neg`, `#ifndef`. */
  function IfdefKnown(neg: bool, ts: seq<Token>, syms: Symbols): Option<bool> {
    if |ts| == 1 && ts[0].Name? && ts[0].s in syms then Some(syms[ts[0].s].Defined? != neg) else None
  }

  predicate IfdefHolds(neg: bool, ts: seq<Token>, env: Env) {
    if |ts| == 1 && ts[0].Name? then env.isDefined(ts[0].s) != neg else env.oddLine(ts) != neg
  }

  /** An `#ifdef` gets a verdict exactly if the command line says something about its
      symbol. */
  lemma IfdefVerdictIff(neg: bool, s: string, syms: Symbols)
    ensures IfdefKnown(neg, [Name(s)], syms).Some? <==> s in syms
  {}

  /** Numbers on the command line and on a directive are in the range of `int`. */
  ghost predicate SymbolsFit(syms: Symbols) {
    forall s :: s in syms ==>
      match syms[s]
      case Defined(Some(v)) => -INT_MAX - 1 <= v <= INT_MAX
      case _ => true
  }

  ghost predicate TokensFit(ts: seq<Token>) {
    forall t :: t in ts && t.Num? ==> t.n <= INT_MAX
  }

  lemma {:induction false} FitsFromTokens(e: Expr, syms: Symbols)
    requires SymbolsFit(syms) && TokensFit(Flat(e))
    ensures Fits(e, syms)
  {
    match e
    case Number(n) => assert Num(n) in Flat(e);
    case Symbol(s) =>
    case DefinedOp(_, _) =>
    case Not(a) =>
      assert forall t :: t in Flat(a) ==> t in Flat(e);
      FitsFromTokens(a, syms);
    case Paren(a) =>
      assert forall t :: t in Flat(a) ==> t in Flat(e);
      FitsFromTokens(a, syms);
    case Bin(_, l, r) =>
      assert forall t :: t in Flat(l) ==> t in Flat(e);
      assert forall t :: t in Flat(r) ==> t in Flat(e);
      FitsFromTokens(l, syms);
      FitsFromTokens(r, syms);
  }

  /** A condition that gets a verdict has that truth value in C. */
  lemma {:induction false} CondKnownSound(ts: seq<Token>, syms: Symbols, strict: bool, killconsts: bool, env: Env)
    requires Agrees(env, syms) && SymbolsFit(syms) && TokensFit(ts)
    requires CondKnown(ts, syms, strict, killconsts).Some?
    ensures CondHolds(ts, env) == CondKnown(ts, syms, strict, killconsts).value
  {
    var e := ParseAll(ts).value;
    ParseAllExact(ts, e);
    FitsFromTokens(e, syms);
    KnownSound(e, syms, strict, env);
  }

  /** The whole condition of that line gets the wrong verdict. */
  lemma {:induction false} BigNumberMisjudged(syms: Symbols, strict: bool, killconsts: bool, env: Env)
    requires syms == map["A" := Undefined] && Agrees(env, syms)
    ensures var ts := [Num(0x1_0000_0000), Binary(Or), Name("A")];
            CondKnown(ts, syms, strict, killconsts) == Some(false) && CondHolds(ts, env)
  {
    var l, r := Number(0x1_0000_0000), Symbol("A");
    assert Flat(Bin(Or, l, r)) == [Num(0x1_0000_0000), Binary(Or), Name("A")] && WellFormed(Bin(Or, l, r), 0);
    ParseAllExact([Num(0x1_0000_0000), Binary(Or), Name("A")], Bin(Or, l, r));
    assert "A" in syms && Known(l, syms, strict) == Some(0) && Known(r, syms, strict) == Some(0);
    assert Known(Bin(Or, l, r), syms, strict) == Some(Apply(Or, 0, 0)) == Some(0);
    assert !IsConstant(r) && !IsConstant(Bin(Or, l, r));
    assert !Unevaluable(l, syms) && !Unevaluable(r, syms) && !Unevaluable(Bin(Or, l, r), syms);
    assert CValue(Bin(Or, l, r), env) == Apply(Or, 0x1_0000_0000, env.value("A")) == 1;
  }

  // ------------------------------------------------------------ the method

  datatype Verdict = VTrue | VFalse | VIf | VError

  /** A verdict and the integer left through the value pointer say `v`. */
  predicate Says(lt: Verdict, val: int, v: Option<int>) {
    match v
    case None => lt == VIf
    case Some(n) => val == n && lt == if n != 0 then VTrue else VFalse
  }

  lemma {:induction false} ParseRestKeepsOperand(k: nat, lhs: Expr, ts: seq<Token>, syms: Symbols)
    requires k < UNARY && ParseRest(k, lhs, ts).Done?
    ensures Unevaluable(lhs, syms) ==> Unevaluable(ParseRest(k, lhs, ts).e, syms)
    decreases |ts|
  {
    if ts != [] && ts[0].Binary? && Level(ts[0].op) == k {
      var q := ParseLevel(k + 1, ts[1..]);
      ParseRestKeepsOperand(k, Bin(ts[0].op, lhs, q.e), q.rest, syms);
    }
  }

  class Evaluator {
    const syms: Symbols
    const strictlogic: bool
    const killconsts: bool
    var constexpr: bool

    constructor (syms: Symbols, strictlogic: bool, killconsts: bool)
      ensures this.syms == syms && this.strictlogic == strictlogic && this.killconsts == killconsts
    {
      this.syms, this.strictlogic, this.killconsts, this.constexpr := syms, strictlogic, killconsts, false;
    }

    /** What a sub-evaluation that started at `ts` has to leave behind. */
    ghost predicate Result(p: Parse, lt: Verdict, val: int, rest: seq<Token>) {
      if lt == VError then p.Fail? || Unevaluable(p.e, syms)
      else p.Done? && !Unevaluable(p.e, syms) && p.rest == rest && Says(lt, val, Known(p.e, syms, strictlogic))
    }

    /** The operator functions `op_or`, `op_and` and `op_strict`: `a` and `b`
        may hold anything when their verdict is `VIf`. */
    method Operate(op: BinOp, at: Verdict, a: int, bt: Verdict, b: int) returns (lt: Verdict, val: int)
      requires at != VError && bt != VError
      requires at != VIf ==> (at == VTrue <==> a != 0)
      requires bt != VIf ==> (bt == VTrue <==> b != 0)
      ensures lt != VError
      ensures Says(lt, val, KnownBin(op, if at == VIf then None else Some(a),
                                         if bt == VIf then None else Some(b), strictlogic))
      ensures var x, y := if at == VIf then None else Some(a), if bt == VIf then None else Some(b);
              if strictlogic then lt != VIf <==> at != VIf && bt != VIf
              else forall v :: lt != VIf && val == v <==> Settles(op, x, y, v)
    {
      ghost var x, y := if at == VIf then None else Some(a), if bt == VIf then None else Some(b);
      forall v ensures KnownBin(op, x, y, false) == Some(v) <==> Settles(op, x, y, v) {
        SettledExactly(op, x, y, v);
      }
      val := a;
      if op.Or? && !strictlogic && (at == VTrue || bt == VTrue) {
        return VTrue, 1;
      }
      if op.And? && !strictlogic && (at == VFalse || bt == VFalse) {
        return VFalse, 0;
      }
      if at == VIf || bt == VIf {
        return VIf, val;
      }
      val := Apply(op, a, b);
      lt := if val != 0 then VTrue else VFalse;
    }

    method EvalUnary(ts: seq<Token>, valIn: int) returns (lt: Verdict, val: int, rest: seq<Token>)
      modifies this`constexpr
      ensures Result(ParseUnary(ts), lt, val, rest)
      ensures lt != VError ==> constexpr == (old(constexpr) && IsConstant(ParseUnary(ts).e))
      decreases |ts|, 0
    {
      lt, val, rest := VError, valIn, ts;
      if ts == [] {
        return;
      }
      match ts[0]
      case Bang =>
        lt, val, rest := EvalUnary(ts[1..], val);
        if lt != VIf && lt != VError {
          val := Truth(val == 0);
          lt := if val != 0 then VTrue else VFalse;
        }
      case LParen =>
        lt, val, rest := EvalTable(0, ts[1..], val);
        if lt != VError {
          if rest == [] || rest[0] != RParen {
            return VError, val, rest;
          }
          rest := rest[1..];
        }
      case Num(n) =>
        val := ToInt(n);
        lt := if val != 0 then VTrue else VFalse;
        rest := ts[1..];
      case DefinedKw =>
        rest := ts[1..];
        var defparen := rest != [] && rest[0] == LParen;
        if defparen {
          rest := rest[1..];
        }
        lt := VIf;
        if rest != [] && IsWord(rest[0]) {
          if rest[0].Name? && rest[0].s in syms {
            val := Truth(syms[rest[0].s].Defined?);
            lt := if val != 0 then VTrue else VFalse;
          }
          rest := rest[1..];
        }
        if defparen {
          if rest == [] || rest[0] != RParen {
            return VError, val, rest;
          }
          rest := rest[1..];
        }
        constexpr := false;
      case Name(s) =>
        rest := ts[1..];
        if s !in syms {
          lt := VIf;
        } else if syms[s] == Undefined {
          val, lt := 0, VFalse;
        } else if syms[s].number == None {
          return VError, val, rest;
        } else {
          val := ToInt(syms[s].number.value);
          lt := if val != 0 then VTrue else VFalse;
        }
        constexpr := false;
      case _ =>
    }

    method EvalTable(k: nat, ts: seq<Token>, valIn: int) returns (lt: Verdict, val: int, rest: seq<Token>)
      requires k < UNARY
      modifies this`constexpr
      ensures Result(ParseLevel(k, ts), lt, val, rest)
      ensures lt != VError ==> constexpr == (old(constexpr) && IsConstant(ParseLevel(k, ts).e))
      decreases |ts|, UNARY + 1 - k, 0
    {
      lt, val, rest := Inner(k, ts, valIn);
      if lt == VError {
        if ParseLevel(k + 1, ts).Done? && ParseLevel(k, ts).Done? {
          ParseRestKeepsOperand(k, ParseLevel(k + 1, ts).e, ParseLevel(k + 1, ts).rest, syms);
        }
        return;
      }
      ghost var lhs := ParseLevel(k + 1, ts).e;
      while rest != [] && rest[0].Binary? && Level(rest[0].op) == k
        invariant |rest| < |ts| && lt != VError
        invariant ParseLevel(k, ts) == ParseRest(k, lhs, rest)
        invariant !Unevaluable(lhs, syms) && Says(lt, val, Known(lhs, syms, strictlogic))
        invariant constexpr == (old(constexpr) && IsConstant(lhs))
        decreases |rest|
      {
        var op := rest[0].op;
        ghost var before := rest;
        var uninitialised: int := *;
        var rt, right;
        rt, right, rest := Inner(k, rest[1..], uninitialised);
        ghost var q := ParseLevel(k + 1, before[1..]);
        if rt == VError {
          if q.Done? && ParseLevel(k, ts).Done? {
            ParseRestKeepsOperand(k, Bin(op, lhs, q.e), q.rest, syms);
          }
          return VError, val, rest;
        }
        lt, val := Operate(op, lt, val, rt, right);
        lhs := Bin(op, lhs, q.e);
      }
    }

    /** The `inner` column of the precedence table. */
    method Inner(k: nat, ts: seq<Token>, valIn: int) returns (lt: Verdict, val: int, rest: seq<Token>)
      requires k < UNARY
      modifies this`constexpr
      ensures Result(ParseLevel(k + 1, ts), lt, val, rest)
      ensures lt != VError ==> constexpr == (old(constexpr) && IsConstant(ParseLevel(k + 1, ts).e))
      decreases |ts|, UNARY - k, 1
    {
      if k + 1 == UNARY {
        lt, val, rest := EvalUnary(ts, valIn);
      } else {
        lt, val, rest := EvalTable(k + 1, ts, valIn);
      }
    }

    /** `ifeval`, together with the check for trailing text in `parseline`. */
    method IfEval(ts: seq<Token>) returns (known: Option<bool>)
      modifies this`constexpr
      ensures known == CondKnown(ts, syms, strictlogic, killconsts)
    {
      constexpr := !killconsts;
      var lt, val, rest := EvalTable(0, ts, 0);
      if constexpr || lt == VError || lt == VIf || rest != [] {
        return None;
      }
      return Some(lt == VTrue);
    }

    /** The `#ifdef` and `#ifndef` branch of `parseline`. */
    method IfdefEval(neg: bool, ts: seq<Token>) returns (known: Option<bool>)
      ensures known == IfdefKnown(neg, ts, syms)
    {
      known := None;
      if ts != [] && ts[0].Name? && ts[0].s in syms {
        var holds := !neg;
        if syms[ts[0].s] == Undefined {
          holds := !holds;
        }
        if ts[1..] == [] {
          known := Some(holds);
        }
      }
    }
  }
}
