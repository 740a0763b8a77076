/** The expression language of `#if` and `#elif` lines.

    Tokens stand for the text of a directive with white space and comments
    skipped.  `Flat` and `WellFormed` give the grammar: which token sequence a
    concrete syntax tree stands for, and which trees respect the C precedence
    levels and left associativity.  `ParseLevel` is the recursive descent that
    the evaluator follows, and `ParseSound` / `ParseComplete` show that it
    recognises exactly that grammar.
  */
module UnifdefGrammar {
  import opened Wrappers

  datatype BinOp = Or | And | Eq | Ne | Le | Ge | Lt | Gt

  datatype Token =
    | Name(s: string)      // an identifier other than `defined`
    | DefinedKw            // the word `defined`
    | Num(n: nat)          // an unsuffixed integer literal
    | Bang
    | LParen
    | RParen
    | Binary(op: BinOp)
    | Other(c: char)       // anything the evaluator has no rule for

  /** A concrete syntax tree: parentheses are kept. */
  datatype Expr =
    | Number(n: nat)
    | Symbol(s: string)
    | DefinedOp(paren: bool, operand: Option<Token>)
    | Not(e: Expr)
    | Paren(e: Expr)
    | Bin(op: BinOp, l: Expr, r: Expr)

  /** What may be left of the input after a successful parse. */
  datatype Parse = Fail | Done(e: Expr, rest: seq<Token>)

  const UNARY := 4

  /** The row of the precedence table an operator is listed in. */
  function Level(op: BinOp): (k: nat)
    ensures k < UNARY
  {
    match op
    case Or => 0
    case And => 1
    case Eq | Ne => 2
    case Le | Ge | Lt | Gt => 3
  }

  /** Tokens that the identifier scanner would swallow whole. */
  predicate IsWord(t: Token) {
    t.Name? || t.DefinedKw? || t.Num?
  }

  // ---------------------------------------------------------------- grammar

  function Flat(e: Expr): seq<Token> {
    match e
    case Number(n) => [Num(n)]
    case Symbol(s) => [Name(s)]
    case DefinedOp(paren, operand) =>
      var w := if operand.Some? then [operand.value] else [];
      if paren then [DefinedKw, LParen] + w + [RParen] else [DefinedKw] + w
    case Not(a) => [Bang] + Flat(a)
    case Paren(a) => [LParen] + Flat(a) + [RParen]
    case Bin(op, l, r) => Flat(l) + [Binary(op)] + Flat(r)
  }

  /** `e` may stand where an expression of precedence level `k` is wanted:
      operators of level `k` and above, the left operand at the operator's own
      level (left associativity) and the right operand one level tighter. */
  predicate WellFormed(e: Expr, k: nat) {
    match e
    case Number(_) => true
    case Symbol(_) => true
    case DefinedOp(_, operand) => operand.Some? ==> IsWord(operand.value)
    case Not(a) => WellFormed(a, UNARY)
    case Paren(a) => WellFormed(a, 0)
    case Bin(op, l, r) =>
      k <= Level(op) && WellFormed(l, Level(op)) && WellFormed(r, Level(op) + 1)
  }

  /** What may follow an expression of level `k` without being part of it. */
  predicate Follows(k: nat, rest: seq<Token>) {
    rest == [] ||
    match rest[0]
    case Binary(op) => Level(op) < k
    case RParen | Bang | Other(_) => true
    case LParen | Name(_) | DefinedKw | Num(_) => false
  }

  // ---------------------------------------------------------------- parsing

  function ParseDefined(ts: seq<Token>): (p: Parse)
    ensures p.Done? ==> |p.rest| <= |ts|
  {
    var paren := ts != [] && ts[0] == LParen;
    var inner := if paren then ts[1..] else ts;
    var operand := if inner != [] && IsWord(inner[0]) then Some(inner[0]) else None;
    var after := if operand.Some? then inner[1..] else inner;
    if !paren then Done(DefinedOp(false, operand), after)
    else if after != [] && after[0] == RParen then Done(DefinedOp(true, operand), after[1..])
    else Fail
  }

  function ParseUnary(ts: seq<Token>): (p: Parse)
    ensures p.Done? ==> |p.rest| < |ts|
    decreases |ts|, 0
  {
    if ts == [] then Fail else
    match ts[0]
    case Bang =>
      (match ParseUnary(ts[1..])
       case Fail => Fail
       case Done(e, rest) => Done(Not(e), rest))
    case LParen =>
      (match ParseLevel(0, ts[1..])
       case Fail => Fail
       case Done(e, rest) =>
         if rest != [] && rest[0] == RParen then Done(Paren(e), rest[1..]) else Fail)
    case Num(n) => Done(Number(n), ts[1..])
    case DefinedKw => ParseDefined(ts[1..])
    case Name(s) => Done(Symbol(s), ts[1..])
    case _ => Fail
  }

  function ParseLevel(k: nat, ts: seq<Token>): (p: Parse)
    requires k <= UNARY
    ensures p.Done? ==> |p.rest| < |ts|
    decreases |ts|, UNARY + 1 - k
  {
    if k == UNARY then ParseUnary(ts)
    else
      match ParseLevel(k + 1, ts)
      case Fail => Fail
      case Done(e, rest) => ParseRest(k, e, rest)
  }

  /** The operators of level `k` that follow an operand `lhs`. */
  function ParseRest(k: nat, lhs: Expr, ts: seq<Token>): (p: Parse)
    requires k < UNARY
    ensures p.Done? ==> |p.rest| <= |ts|
    decreases |ts|, UNARY + 1 - k
  {
    if ts != [] && ts[0].Binary? && Level(ts[0].op) == k then
      match ParseLevel(k + 1, ts[1..])
      case Fail => Fail
      case Done(r, rest) => ParseRest(k, Bin(ts[0].op, lhs, r), rest)
    else Done(lhs, ts)
  }

  /** The tree of a whole directive line, if all of it is one expression. */
  function ParseAll(ts: seq<Token>): (r: Option<Expr>) {
    match ParseLevel(0, ts)
    case Fail => None
    case Done(e, rest) => if rest == [] then Some(e) else None
  }

  // -------------------------------------------------- soundness of the parser

  lemma WellFormedMonotone(e: Expr, j: nat, k: nat)
    requires j <= k && WellFormed(e, k)
    ensures WellFormed(e, j)
  {}

  lemma Prefixed(ts: seq<Token>, a: seq<Token>, rest: seq<Token>)
    requires ts != [] && ts[1..] == a + rest
    ensures [ts[0]] + a + rest == ts
  {}

  lemma Parenthesised(ts: seq<Token>, a: seq<Token>, rest: seq<Token>)
    requires ts != [] && ts[1..] == a + rest && rest != []
    ensures [ts[0]] + a + [rest[0]] + rest[1..] == ts
  {}

  lemma ParseDefinedSound(ts: seq<Token>)
    requires ParseDefined(ts).Done?
    ensures var p := ParseDefined(ts);
            p.e.DefinedOp? && WellFormed(p.e, UNARY) && Flat(p.e)[1..] + p.rest == ts
  {}

  lemma {:induction false} ParseUnarySound(ts: seq<Token>)
    requires ParseUnary(ts).Done?
    ensures var p := ParseUnary(ts); Flat(p.e) + p.rest == ts && WellFormed(p.e, UNARY)
    decreases |ts|, 0
  {
    var p := ParseUnary(ts);
    match ts[0]
    case Bang =>
      ParseUnarySound(ts[1..]);
      Prefixed(ts, Flat(p.e.e), p.rest);
    case LParen =>
      var q := ParseLevel(0, ts[1..]);
      ParseSound(0, ts[1..]);
      assert p == Done(Paren(q.e), q.rest[1..]);
      Parenthesised(ts, Flat(q.e), q.rest);
    case DefinedKw =>
      ParseDefinedSound(ts[1..]);
      Prefixed(ts, Flat(p.e)[1..], p.rest);
    case Num(n) => assert Flat(Number(n)) + ts[1..] == ts;
    case Name(s) => assert Flat(Symbol(s)) + ts[1..] == ts;
  }

  /** Whatever is parsed is an expression of the grammar, and it is exactly the
      tokens consumed; what is left does not go on with an operator that still
      belonged to it. */
  lemma {:induction false} ParseSound(k: nat, ts: seq<Token>)
    requires k <= UNARY && ParseLevel(k, ts).Done?
    ensures var p := ParseLevel(k, ts);
            && Flat(p.e) + p.rest == ts && WellFormed(p.e, k)
            && (k < UNARY && p.rest != [] && p.rest[0].Binary? ==> Level(p.rest[0].op) < k)
    decreases |ts|, UNARY + 1 - k
  {
    if k == UNARY {
      ParseUnarySound(ts);
    } else {
      ParseSound(k + 1, ts);
      var q := ParseLevel(k + 1, ts);
      WellFormedMonotone(q.e, k, k + 1);
      ParseRestSound(k, q.e, q.rest);
      if k + 1 == UNARY && q.rest != [] && q.rest[0].Binary? {
        assert Level(q.rest[0].op) <= k;
      }
    }
  }

  lemma {:induction false} FlatBin(op: BinOp, l: Expr, r: Expr, rest: seq<Token>, ts: seq<Token>)
    requires ts != [] && ts[0] == Binary(op) && ts[1..] == Flat(r) + rest
    ensures Flat(Bin(op, l, r)) + rest == Flat(l) + ts
  {
    assert ts == [Binary(op)] + (Flat(r) + rest);
  }

  lemma {:induction false} ParseRestSound(k: nat, lhs: Expr, ts: seq<Token>)
    requires k < UNARY && WellFormed(lhs, k) && ParseRest(k, lhs, ts).Done?
    requires ts != [] && ts[0].Binary? ==> Level(ts[0].op) <= k
    ensures var p := ParseRest(k, lhs, ts);
            && Flat(p.e) + p.rest == Flat(lhs) + ts && WellFormed(p.e, k)
            && (p.rest != [] && p.rest[0].Binary? ==> Level(p.rest[0].op) < k)
    decreases |ts|, UNARY + 1 - k
  {
    if ts != [] && ts[0].Binary? && Level(ts[0].op) == k {
      var op := ts[0].op;
      ParseSound(k + 1, ts[1..]);
      var q := ParseLevel(k + 1, ts[1..]);
      FlatBin(op, lhs, q.e, q.rest, ts);
      ParseRestSound(k, Bin(op, lhs, q.e), q.rest);
    }
  }

  // ----------------------------------------------- completeness of the parser

  /** One turn of the loop over an operator and its right operand. */
  lemma {:induction false} RestNext(k: nat, lhs: Expr, op: BinOp, r: Expr, tail: seq<Token>)
    requires k < UNARY && Level(op) == k && ParseLevel(k + 1, Flat(r) + tail) == Done(r, tail)
    ensures ParseRest(k, lhs, [Binary(op)] + (Flat(r) + tail)) == ParseRest(k, Bin(op, lhs, r), tail)
  {
    var ts := [Binary(op)] + (Flat(r) + tail);
    assert ts[0] == Binary(op) && ts[1..] == Flat(r) + tail;
  }

  /** The loop stops in front of anything but an operator of its level. */
  lemma RestEnds(k: nat, lhs: Expr, rest: seq<Token>)
    requires k < UNARY && Follows(k, rest)
    ensures ParseRest(k, lhs, rest) == Done(lhs, rest)
  {}

  /** Every tree of the grammar is found again from its tokens, whatever comes
      after it: the grammar is unambiguous and the parser misses nothing. */
  lemma {:induction false} ParseComplete(e: Expr, k: nat, rest: seq<Token>)
    requires k <= UNARY && WellFormed(e, k) && Follows(k, rest)
    ensures ParseLevel(k, Flat(e) + rest) == Done(e, rest)
    decreases e, 1, UNARY - k
  {
    if k == UNARY {
      ParseUnaryComplete(e, rest);
    } else if e.Bin? && Level(e.op) == k {
      var tail := [Binary(e.op)] + (Flat(e.r) + rest);
      FlatBin(e.op, e.l, e.r, rest, tail);
      SpineComplete(e.l, k, tail);
      ParseComplete(e.r, k + 1, rest);
      RestNext(k, e.l, e.op, e.r, rest);
      RestEnds(k, e, rest);
    } else {
      ParseComplete(e, k + 1, rest);
    }
  }

  /** Parsing a left operand of level `k` leaves the loop at the operator that
      follows it, with the operand as its accumulated left-hand side. */
  lemma {:induction false} SpineComplete(l: Expr, k: nat, tail: seq<Token>)
    requires k < UNARY && WellFormed(l, k)
    requires tail != [] && tail[0].Binary? && Level(tail[0].op) == k
    ensures ParseLevel(k, Flat(l) + tail) == ParseRest(k, l, tail)
    decreases l, 2
  {
    if l.Bin? && Level(l.op) == k {
      var inner := [Binary(l.op)] + (Flat(l.r) + tail);
      FlatBin(l.op, l.l, l.r, tail, inner);
      SpineComplete(l.l, k, inner);
      ParseComplete(l.r, k + 1, tail);
      RestNext(k, l.l, l.op, l.r, tail);
    } else {
      ParseComplete(l, k + 1, tail);
    }
  }

  lemma {:induction false} ParseDefinedComplete(paren: bool, operand: Option<Token>, rest: seq<Token>)
    requires operand.Some? ==> IsWord(operand.value)
    requires Follows(UNARY, rest)
    ensures var e := DefinedOp(paren, operand); ParseDefined(Flat(e)[1..] + rest) == Done(e, rest)
  {
    var w := if operand.Some? then [operand.value] else [];
    var ts := Flat(DefinedOp(paren, operand))[1..] + rest;
    if paren {
      assert ts == [LParen] + w + [RParen] + rest;
      assert ts[1..] == w + ([RParen] + rest);
    } else {
      assert ts == w + rest;
    }
  }

  lemma Split(a: seq<Token>, b: seq<Token>, c: seq<Token>)
    ensures (a + b) + c == a + (b + c)
    ensures |a| == 1 ==> (a + (b + c))[1..] == b + c
    ensures b == [] ==> a + b == a && b + c == c
  {}

  lemma Enclosed(a: seq<Token>, rest: seq<Token>)
    ensures ([LParen] + a + [RParen] + rest)[1..] == a + ([RParen] + rest)
    ensures ([RParen] + rest)[1..] == rest
  {}

  lemma ByFirstToken(ts: seq<Token>, e: Expr, rest: seq<Token>)
    requires ts != []
    ensures ts[0] == Bang && ParseUnary(ts[1..]) == Done(e, rest) ==> ParseUnary(ts) == Done(Not(e), rest)
    ensures ts[0] == LParen && ParseLevel(0, ts[1..]) == Done(e, rest) && rest != [] && rest[0] == RParen ==>
              ParseUnary(ts) == Done(Paren(e), rest[1..])
    ensures ts[0] == DefinedKw && ParseDefined(ts[1..]) == Done(e, rest) ==> ParseUnary(ts) == Done(e, rest)
  {}

  lemma {:induction false} ParseUnaryComplete(e: Expr, rest: seq<Token>)
    requires WellFormed(e, UNARY) && Follows(UNARY, rest)
    ensures ParseUnary(Flat(e) + rest) == Done(e, rest)
    decreases e, 0
  {
    var ts := Flat(e) + rest;
    match e
    case Not(a) =>
      ParseUnaryComplete(a, rest);
      Split([Bang], Flat(a), rest);
      ByFirstToken(ts, a, rest);
    case Paren(a) =>
      ParseComplete(a, 0, [RParen] + rest);
      Enclosed(Flat(a), rest);
      ByFirstToken(ts, a, [RParen] + rest);
    case DefinedOp(paren, operand) =>
      ParseDefinedComplete(paren, operand, rest);
      assert Flat(e) == [DefinedKw] + Flat(e)[1..];
      Split([DefinedKw], Flat(e)[1..], rest);
      ByFirstToken(ts, e, rest);
    case Number(n) => Split([Num(n)], [], rest);
    case Symbol(s) => Split([Name(s)], [], rest);
    case Bin(_, _, _) =>
  }

  /** A line parses to a tree exactly when the tree is in the grammar and its
      tokens are the line. */
  lemma {:induction false} ParseAllExact(ts: seq<Token>, e: Expr)
    ensures ParseAll(ts) == Some(e) <==> WellFormed(e, 0) && Flat(e) == ts
  {
    if ParseAll(ts) == Some(e) {
      ParseSound(0, ts);
    }
    if WellFormed(e, 0) && Flat(e) == ts {
      ParseComplete(e, 0, []);
      assert Flat(e) + [] == ts;
    }
  }
}
