/** Expanding the types that an exported symbol depends on.

    Types may refer to each other in circles. A symbol that is expanded is put on a
    trail that is linked through the symbols, and a symbol on the trail is not
    expanded again.
  */
module GenksymsExpand {
  import opened Wrappers
  import opened Identities
  import opened GenksymsCrc

  datatype Tag = Normal | Typedef | Enum | Struct | Union | EnumConst

  datatype Token = Token(tag: Tag, str: Text)

  /** `symbol_types[tag].name` */
  function TypeName(t: Tag): Text {
    match t
    case Enum => [101, 110, 117, 109]
    case Struct => [115, 116, 114, 117, 99, 116]
    case Union => [117, 110, 105, 111, 110]
    case _ => []
  }

  const SPACE: bv8 := 32

  /** The definitions, last token first, and what the names in them stand for. */
  datatype Symbols = Symbols(defns: seq<seq<Token>>, find: Token -> Option<Id>)

  predicate Resolved(g: Symbols) {
    forall i :: 0 <= i < |g.defns| ==> Finds(g, g.defns[i])
  }

  /** Every name that is not a plain token has a symbol. */
  predicate Finds(g: Symbols, ts: seq<Token>) {
    forall k :: 0 <= k < |ts| && ts[k].tag != Normal ==> FindsOne(g, ts[k])
  }

  predicate FindsOne(g: Symbols, t: Token) {
    g.find(t).Some? && g.find(t).value < |g.defns|
  }

  function All(g: Symbols): set<Id> { AllIds(|g.defns|) }

  function Reversed(ts: seq<Token>): (r: seq<Token>)
    ensures |r| == |ts| && forall i :: 0 <= i < |r| ==> r[i] == ts[|ts| - 1 - i]
  {
    if ts == [] then [] else Reversed(ts[1..]) + [ts[0]]
  }

  /** A name that is not expanded. */
  function Short(t: Token): Text {
    if t.tag == Struct || t.tag == Union || t.tag == Enum then TypeName(t.tag) + [SPACE] + t.str + [SPACE]
    else t.str + [SPACE]
  }

  /** The text of a list of tokens when the symbols in `seen` have been expanded, and
      which have been afterwards: each symbol is expanded where it comes up first. */
  function Expand(g: Symbols, ts: seq<Token>, seen: set<Id>): (r: (Text, set<Id>))
    requires Resolved(g) && Finds(g, ts) && seen <= All(g)
    ensures seen <= r.1 <= All(g)
    decreases All(g) - seen, |ts|, 0
  {
    if ts == [] then ([], seen)
    else
      var (a, s) := ExpandOne(g, ts[0], seen);
      var (b, s') := Expand(g, ts[1..], s);
      (a + b, s')
  }

  function ExpandOne(g: Symbols, t: Token, seen: set<Id>): (r: (Text, set<Id>))
    requires Resolved(g) && (t.tag != Normal ==> FindsOne(g, t)) && seen <= All(g)
    ensures seen <= r.1 <= All(g)
    decreases All(g) - seen, 0, 1
  {
    if t.tag == Normal then (t.str + [SPACE], seen)
    else
      var x := g.find(t).value;
      if x in seen then (Short(t), seen)
      else
        assert All(g) - (seen + {x}) < All(g) - seen;
        assert Finds(g, g.defns[x]);
        Expand(g, Reversed(g.defns[x]), seen + {x})
  }

  /** The symbols that are expanded on the way, in order. */
  function Order(g: Symbols, ts: seq<Token>, seen: set<Id>): seq<Id>
    requires Resolved(g) && Finds(g, ts) && seen <= All(g)
    decreases All(g) - seen, |ts|, 0
  {
    if ts == [] then [] else OrderOne(g, ts[0], seen) + Order(g, ts[1..], ExpandOne(g, ts[0], seen).1)
  }

  function OrderOne(g: Symbols, t: Token, seen: set<Id>): seq<Id>
    requires Resolved(g) && (t.tag != Normal ==> FindsOne(g, t)) && seen <= All(g)
    decreases All(g) - seen, 0, 1
  {
    if t.tag == Normal || g.find(t).value in seen then []
    else
      var x := g.find(t).value;
      assert All(g) - (seen + {x}) < All(g) - seen;
      assert Finds(g, g.defns[x]);
      [x] + Order(g, Reversed(g.defns[x]), seen + {x})
  }

  /** These are new and different symbols, and `after` has them beside `before`. */
  predicate Fresh(order: seq<Id>, before: set<Id>, after: set<Id>) {
    Distinct(order) && (forall x :: x in order ==> x !in before) && after == before + set x | x in order
  }

  lemma {:induction false} FreshConcat(a: seq<Id>, b: seq<Id>, before: set<Id>, between: set<Id>, after: set<Id>)
    requires Fresh(a, before, between) && Fresh(b, between, after)
    ensures Fresh(a + b, before, after)
  {
    var c := a + b;
    forall i, j | 0 <= i < j < |c| ensures Differ(c, i, j) {
      if j < |a| {
        assert Differ(a, i, j);
      } else if i >= |a| {
        assert Differ(b, i - |a|, j - |a|);
      } else {
        assert a[i] in between && b[j - |a|] !in between;
      }
    }
  }

  /** Each symbol is expanded at most once, however often it is referred to, and none
      that has been before. */
  lemma {:induction false} EachExpandedOnce(g: Symbols, ts: seq<Token>, seen: set<Id>)
    requires Resolved(g) && Finds(g, ts) && seen <= All(g)
    ensures Fresh(Order(g, ts, seen), seen, Expand(g, ts, seen).1)
    decreases All(g) - seen, |ts|, 0
  {
    if ts != [] {
      EachOfOneOnce(g, ts[0], seen);
      var s := ExpandOne(g, ts[0], seen).1;
      EachExpandedOnce(g, ts[1..], s);
      FreshConcat(OrderOne(g, ts[0], seen), Order(g, ts[1..], s), seen, s, Expand(g, ts, seen).1);
    }
  }

  lemma {:induction false} EachOfOneOnce(g: Symbols, t: Token, seen: set<Id>)
    requires Resolved(g) && (t.tag != Normal ==> FindsOne(g, t)) && seen <= All(g)
    ensures Fresh(OrderOne(g, t, seen), seen, ExpandOne(g, t, seen).1)
    decreases All(g) - seen, 0, 1
  {
    if t.tag != Normal && g.find(t).value !in seen {
      var x := g.find(t).value;
      assert All(g) - (seen + {x}) < All(g) - seen;
      assert Finds(g, g.defns[x]);
      EachExpandedOnce(g, Reversed(g.defns[x]), seen + {x});
      assert Fresh([x], seen, seen + {x});
      FreshConcat([x], Order(g, Reversed(g.defns[x]), seen + {x}), seen, seen + {x}, ExpandOne(g, t, seen).1);
    }
  }

  // ------------------------------------------------------------------ the trail

  /** `expansion_trail` of a symbol: null, the end of the trail, or a symbol. */
  datatype Link = Null | End | To(id: Id)

  function Set(s: seq<Id>): set<Id> { set i | i in s }

  function TopOf(s: seq<Id>): Link {
    if s == [] then End else To(s[|s| - 1])
  }

  predicate LinkAt(s: seq<Id>, trail: seq<Link>, i: nat)
    requires i < |s|
  {
    s[i] < |trail| && trail[s[i]] == TopOf(s[..i])
  }

  /** The links lead down the stack, and all others are null. */
  predicate Chained(s: seq<Id>, trail: seq<Link>) {
    && Distinct(s)
    && (forall i: nat :: i < |s| ==> LinkAt(s, trail, i))
    && forall x :: 0 <= x < |trail| && x !in s ==> trail[x] == Null
  }

  lemma {:induction false} Pushed(s: seq<Id>, trail: seq<Link>, x: Id)
    requires Chained(s, trail) && x < |trail| && x !in s
    ensures Chained(s + [x], trail[x := TopOf(s)])
    ensures Set(s + [x]) == Set(s) + {x}
  {
    var t, after := s + [x], trail[x := TopOf(s)];
    DistinctSnoc(s, x);
    forall i: nat | i < |t| ensures LinkAt(t, after, i) {
      assert t[..i] == s[..i];
      if i < |s| { assert LinkAt(s, trail, i) && s[i] in s; } else { assert s[..i] == s; }
    }
  }

  lemma {:induction false} OnTrail(s: seq<Id>, trail: seq<Link>, x: Id)
    requires Chained(s, trail) && x < |trail|
    ensures trail[x] != Null <==> x in Set(s)
  {
    if x in s {
      var i: nat :| i < |s| && s[i] == x;
      assert LinkAt(s, trail, i);
    }
  }

  lemma {:induction false} InFront(s: seq<Id>, y: Id)
    requires s != [] && y in s && y != s[|s| - 1]
    ensures y in s[..|s| - 1]
  {
    var i :| 0 <= i < |s| && s[i] == y;
    assert s[..|s| - 1][i] == y;
  }

  lemma {:induction false} Popped(s: seq<Id>, trail: seq<Link>)
    requires Chained(s, trail) && s != []
    ensures var x := s[|s| - 1];
            x < |trail| && Chained(s[..|s| - 1], trail[x := Null]) && trail[x] == TopOf(s[..|s| - 1])
  {
    var t, x := s[..|s| - 1], s[|s| - 1];
    assert LinkAt(s, trail, |s| - 1);
    DistinctInit(s);
    var after := trail[x := Null];
    forall i: nat | i < |t| ensures LinkAt(t, after, i) {
      assert LinkAt(s, trail, i) && t[..i] == s[..i] && t[i] in t;
    }
    forall y | 0 <= y < |trail| && y !in t ensures after[y] == Null {
      if y in s && y != x { InFront(s, y); }
    }
  }

  class Genksyms {
    const g: Symbols
    var trail: seq<Link>
    var expansionTrail: Link
    ghost var stack: seq<Id>

    constructor (g: Symbols)
      requires Resolved(g)
      ensures this.g == g && Clean()
    {
      this.g := g;
      trail := seq(|g.defns|, _ => Null);
      expansionTrail := End;
      stack := [];
    }

    /** Between two exports: every trail link is null. */
    ghost predicate Clean()
      reads this
    {
      Resolved(g) && |trail| == |g.defns| && forall x :: 0 <= x < |trail| ==> trail[x] == Null
    }

    ghost predicate Valid()
      reads this
    {
      Resolved(g) && |trail| == |g.defns| && Chained(stack, trail) && expansionTrail == TopOf(stack)
    }

    method Push(x: Id)
      requires Valid() && x < |trail| && x !in stack
      modifies this
      ensures Valid() && stack == old(stack) + [x] && Set(stack) == Set(old(stack)) + {x}
    {
      Pushed(stack, trail, x);
      trail := trail[x := expansionTrail];
      expansionTrail := To(x);
      stack := stack + [x];
    }

    /** Take the last symbol off the trail. */
    method Pop()
      requires Valid() && expansionTrail != End
      modifies this
      ensures Valid() && |stack| == |old(stack)| - 1
    {
      assert stack != [];
      Popped(stack, trail);
      var x := expansionTrail.id;
      var n := trail[x];
      trail := trail[x := Null];
      expansionTrail := n;
      stack := stack[..|stack| - 1];
    }

    /** `expand_and_crc_sym`: the checksum of the text of the expansion. */
    method ExpandAndCrcSym(sym: Id, crc: bv32) returns (r: bv32)
      requires Valid() && sym < |g.defns|
      modifies this
      ensures Valid() && old(stack) <= stack && Set(old(stack)) <= All(g)
      ensures var e := Expand(g, Reversed(g.defns[sym]), Set(old(stack)));
              r == Division(e.0, crc) && Set(stack) == e.1
      decreases All(g) - Set(stack), 1
    {
      assert Finds(g, g.defns[sym]);
      var b := Reversed(g.defns[sym]);
      StackKnown();
      ghost var before := stack;
      r := crc;
      var i := 0;
      assert b[0..] == b;
      while i < |b|
        invariant i <= |b| && Valid() && before <= stack && Set(before) <= Set(stack) <= All(g)
        invariant var e, f := Expand(g, b, Set(before)), Expand(g, b[i..], Set(stack));
                  e.1 == f.1 && Division(e.0, crc) == Division(f.0, r)
      {
        ghost var s, c := Set(stack), r;
        assert b[i..][0] == b[i] && b[i..][1..] == b[i + 1..];
        r := ExpandToken(b[i], r);
        ghost var one := ExpandOne(g, b[i], s);
        DivisionConcat(one.0, Expand(g, b[i + 1..], one.1).0, c);
        i := i + 1;
      }
    }

    method ExpandToken(cur: Token, crc: bv32) returns (r: bv32)
      requires Valid() && Set(stack) <= All(g) && (cur.tag != Normal ==> FindsOne(g, cur))
      modifies this
      ensures Valid() && old(stack) <= stack && Set(old(stack)) <= Set(stack) <= All(g)
      ensures var e := ExpandOne(g, cur, Set(old(stack)));
              r == Division(e.0, crc) && Set(stack) == e.1
      decreases All(g) - Set(stack), 0, 1
    {
      if cur.tag == Normal {
        r := WriteWord(cur.str, crc);
        return;
      }
      var subsym := g.find(cur).value;
      OnTrail(stack, trail, subsym);
      if trail[subsym] != Null {
        r := WriteShort(cur, crc);
      } else {
        r := ExpandSub(subsym, crc);
      }
    }

    /** A symbol that comes up for the first time. */
    method ExpandSub(subsym: Id, crc: bv32) returns (r: bv32)
      requires Valid() && Set(stack) <= All(g) && subsym < |g.defns| && subsym !in stack
      modifies this
      ensures Valid() && old(stack) <= stack && Set(old(stack)) <= Set(stack) <= All(g)
      ensures var e := Expand(g, Reversed(g.defns[subsym]), Set(old(stack)) + {subsym});
              r == Division(e.0, crc) && Set(stack) == e.1
      decreases All(g) - Set(stack), 0, 0
    {
      ghost var s := Set(stack);
      assert Finds(g, g.defns[subsym]);
      Push(subsym);
      assert All(g) - (s + {subsym}) < All(g) - s;
      r := ExpandAndCrcSym(subsym, crc);
    }

    /** A name that is on the trail already. */
    method WriteShort(cur: Token, crc: bv32) returns (r: bv32)
      ensures r == Division(Short(cur), crc)
    {
      r := crc;
      if cur.tag == Struct || cur.tag == Union || cur.tag == Enum {
        r := WriteWord(TypeName(cur.tag), crc);
        DivisionConcat(TypeName(cur.tag) + [SPACE], cur.str + [SPACE], crc);
        assert Short(cur) == TypeName(cur.tag) + [SPACE] + (cur.str + [SPACE]);
      }
      r := WriteWord(cur.str, r);
    }

    /** A word and a space. */
    method WriteWord(s: Text, crc: bv32) returns (r: bv32)
      ensures r == Division(s + [SPACE], crc)
    {
      r := PartialCrc32(s, crc);
      r := AddSpace(r, s, crc);
    }

    method AddSpace(c: bv32, ghost s: Text, ghost crc: bv32) returns (r: bv32)
      requires c == Division(s, crc)
      ensures r == Division(s + [SPACE], crc)
    {
      CrcOneIsDivision(SPACE, c);
      DivisionConcat(s, [SPACE], crc);
      r := CrcOne(SPACE, c);
    }

    lemma {:induction false} StackKnown()
      requires Valid()
      ensures Set(stack) <= All(g)
    {
      forall x | x in stack ensures x < |g.defns| {
        var i: nat :| i < |stack| && stack[i] == x;
        assert LinkAt(stack, trail, i);
      }
    }

    /** `export_symbol`: the checksum of the text of the symbol; the trail is gone
        afterwards. */
    method ExportSymbol(sym: Id) returns (r: bv32)
      requires Clean() && sym < |g.defns|
      modifies this
      ensures Clean()
      ensures r == Division(Expand(g, Reversed(g.defns[sym]), {sym}).0, 0xffff_ffff) ^ 0xffff_ffff
    {
      expansionTrail := End;
      stack := [];
      assert Chained(stack, trail);
      Push(sym);
      assert Set(stack) == {sym};
      r := ExpandAndCrcSym(sym, 0xffff_ffff);
      r := r ^ 0xffff_ffff;
      while expansionTrail != End
        invariant Valid()
        decreases |stack|
      {
        Pop();
      }
    }
  }
}
