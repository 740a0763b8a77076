/** What an expansion takes in.

    A chain of definitions leads from one symbol to another if each one's definition
    names the next.  The symbols that are expanded are exactly those that a chain
    leads to, and the text has the plain tokens of each of their definitions, in
    order.
  */
module GenksymsReach {
  import opened Wrappers
  import opened Identities
  import opened GenksymsCrc
  import opened GenksymsExpand

  // ----------------------------------------------------------------------- chains

  predicate Names(g: Symbols, t: Token, y: Id) {
    t.tag != Normal && g.find(t) == Some(y)
  }

  predicate Mentions(g: Symbols, ts: seq<Token>, y: Id) {
    exists k :: 0 <= k < |ts| && Names(g, ts[k], y)
  }

  /** The definition of `x` names `y`. */
  predicate Refers(g: Symbols, x: Id, y: Id) {
    x < |g.defns| && Mentions(g, g.defns[x], y)
  }

  predicate Chain(g: Symbols, path: seq<Id>) {
    |path| > 0 && forall i :: 0 < i < |path| ==> Refers(g, path[i - 1], path[i])
  }

  ghost predicate Reaches(g: Symbols, x: Id, y: Id) {
    exists path :: Chain(g, path) && path[0] == x && path[|path| - 1] == y
  }

  lemma {:induction false} ReachesItself(g: Symbols, x: Id)
    ensures Reaches(g, x, x)
  {
    assert Chain(g, [x]);
  }

  lemma {:induction false} ReachesFirst(g: Symbols, x: Id, y: Id, z: Id)
    requires Refers(g, x, y) && Reaches(g, y, z)
    ensures Reaches(g, x, z)
  {
    var path :| Chain(g, path) && path[0] == y && path[|path| - 1] == z;
    var longer := [x] + path;
    forall i | 0 < i < |longer| ensures Refers(g, longer[i - 1], longer[i]) {
      if i > 1 { assert Refers(g, path[i - 2], path[i - 1]); }
    }
    assert longer[|longer| - 1] == z && Chain(g, longer);
  }

  lemma {:induction false} ReversedMentions(g: Symbols, ts: seq<Token>, y: Id)
    ensures Mentions(g, Reversed(ts), y) <==> Mentions(g, ts, y)
  {
    var r := Reversed(ts);
    if Mentions(g, ts, y) {
      var k :| 0 <= k < |ts| && Names(g, ts[k], y);
      assert r[|ts| - 1 - k] == ts[k];
    }
    if Mentions(g, r, y) {
      var k :| 0 <= k < |r| && Names(g, r[k], y);
      assert ts[|ts| - 1 - k] == r[k];
    }
  }

  lemma {:induction false} MentionsTail(g: Symbols, ts: seq<Token>, y: Id)
    requires |ts| > 0
    ensures Mentions(g, ts, y) <==> Names(g, ts[0], y) || Mentions(g, ts[1..], y)
  {
    if Mentions(g, ts[1..], y) {
      var k :| 0 <= k < |ts[1..]| && Names(g, ts[1..][k], y);
      assert ts[k + 1] == ts[1..][k];
    }
    if Mentions(g, ts, y) && !Names(g, ts[0], y) {
      var k :| 0 <= k < |ts| && Names(g, ts[k], y);
      assert ts[1..][k - 1] == ts[k];
    }
  }

  // --------------------------------------------------------- each one at least once

  /** What these definitions name is among `after`. */
  ghost predicate ClosedIn(g: Symbols, added: set<Id>, after: set<Id>) {
    forall x, y :: x in added && Refers(g, x, y) ==> y in after
  }

  /** What has been added is closed, and so are these tokens. */
  ghost predicate TakesIn(g: Symbols, ts: seq<Token>, seen: set<Id>, after: set<Id>) {
    (forall y :: Mentions(g, ts, y) ==> y in after) && ClosedIn(g, after - seen, after)
  }

  lemma {:induction false} TakesInAll(g: Symbols, ts: seq<Token>, seen: set<Id>)
    requires Resolved(g) && Finds(g, ts) && seen <= All(g)
    ensures TakesIn(g, ts, seen, Expand(g, ts, seen).1)
    decreases All(g) - seen, |ts|, 0
  {
    if ts != [] {
      var s := ExpandOne(g, ts[0], seen).1;
      TakesInOne(g, ts[0], seen);
      TakesInAll(g, ts[1..], s);
      var after := Expand(g, ts, seen).1;
      assert after == Expand(g, ts[1..], s).1;
      forall y | Mentions(g, ts, y) ensures y in after { MentionsTail(g, ts, y); }
      forall x, y | x in after - seen && Refers(g, x, y) ensures y in after {
        assert x in s - seen || x in after - s;
      }
    }
  }

  lemma {:induction false} TakesInOne(g: Symbols, t: Token, seen: set<Id>)
    requires Resolved(g) && (t.tag != Normal ==> FindsOne(g, t)) && seen <= All(g)
    ensures var after := ExpandOne(g, t, seen).1;
            (forall y :: Names(g, t, y) ==> y in after) && ClosedIn(g, after - seen, after)
    decreases All(g) - seen, 0, 1
  {
    if t.tag != Normal && g.find(t).value !in seen {
      var x := g.find(t).value;
      assert All(g) - (seen + {x}) < All(g) - seen;
      assert Finds(g, g.defns[x]);
      TakesInAll(g, Reversed(g.defns[x]), seen + {x});
      var after := ExpandOne(g, t, seen).1;
      assert after == Expand(g, Reversed(g.defns[x]), seen + {x}).1;
      forall z, y | z in after - seen && Refers(g, z, y) ensures y in after {
        if z == x { ReversedMentions(g, g.defns[x], y); } else { assert z in after - (seen + {x}); }
      }
    }
  }

  /** A chain does not lead out of a closed set. */
  lemma {:induction false} StaysInside(g: Symbols, s: set<Id>, path: seq<Id>)
    requires Chain(g, path) && path[0] in s && ClosedIn(g, s, s)
    ensures path[|path| - 1] in s
  {
    if |path| > 1 {
      var init := path[..|path| - 1];
      forall i | 0 < i < |init| ensures Refers(g, init[i - 1], init[i]) {
        assert Refers(g, path[i - 1], path[i]);
      }
      StaysInside(g, s, init);
    }
  }

  // --------------------------------------------------------------- and nothing else

  /** Something in these tokens leads to `x`. */
  ghost predicate LedTo(g: Symbols, ts: seq<Token>, x: Id) {
    exists y :: Mentions(g, ts, y) && Reaches(g, y, x)
  }

  lemma {:induction false} OnlyReached(g: Symbols, ts: seq<Token>, seen: set<Id>, x: Id)
    requires Resolved(g) && Finds(g, ts) && seen <= All(g) && x in Expand(g, ts, seen).1 && x !in seen
    ensures LedTo(g, ts, x)
    decreases All(g) - seen, |ts|, 0
  {
    if ts != [] {
      var s := ExpandOne(g, ts[0], seen).1;
      if x in s {
        var y := OnlyReachedOne(g, ts[0], seen, x);
        MentionsTail(g, ts, y);
      } else {
        OnlyReached(g, ts[1..], s, x);
        var y :| Mentions(g, ts[1..], y) && Reaches(g, y, x);
        MentionsTail(g, ts, y);
      }
    }
  }

  lemma {:induction false} OnlyReachedOne(g: Symbols, t: Token, seen: set<Id>, x: Id) returns (y: Id)
    requires Resolved(g) && (t.tag != Normal ==> FindsOne(g, t)) && seen <= All(g)
    requires x in ExpandOne(g, t, seen).1 && x !in seen
    ensures Names(g, t, y) && Reaches(g, y, x)
    decreases All(g) - seen, 0, 1
  {
    y := g.find(t).value;
    assert All(g) - (seen + {y}) < All(g) - seen;
    assert Finds(g, g.defns[y]);
    if x == y {
      ReachesItself(g, x);
    } else {
      OnlyReached(g, Reversed(g.defns[y]), seen + {y}, x);
      var z :| Mentions(g, Reversed(g.defns[y]), z) && Reaches(g, z, x);
      ReversedMentions(g, g.defns[y], z);
      ReachesFirst(g, y, z, x);
    }
  }

  /** Exporting a symbol expands exactly the symbols that a chain of definitions leads
      to. */
  lemma {:induction false} ExpandsWhatIsReached(g: Symbols, sym: Id, x: Id)
    requires Resolved(g) && sym < |g.defns| && Finds(g, g.defns[sym])
    ensures x in Expand(g, Reversed(g.defns[sym]), {sym}).1 <==> Reaches(g, sym, x)
  {
    var ts := Reversed(g.defns[sym]);
    var after := Expand(g, ts, {sym}).1;
    TakesInAll(g, ts, {sym});
    forall z, y | z in after && Refers(g, z, y) ensures y in after {
      if z == sym { ReversedMentions(g, g.defns[sym], y); } else { assert z in after - {sym}; }
    }
    if Reaches(g, sym, x) {
      var path :| Chain(g, path) && path[0] == sym && path[|path| - 1] == x;
      StaysInside(g, after, path);
    }
    if x == sym {
      ReachesItself(g, sym);
    } else if x in after {
      OnlyReached(g, ts, {sym}, x);
      var y :| Mentions(g, ts, y) && Reaches(g, y, x);
      ReversedMentions(g, g.defns[sym], y);
      ReachesFirst(g, sym, y, x);
    }
  }

  // --------------------------------------------------------------------- the text

  /** The words stand in the text, in this order. */
  ghost predicate Holds(text: Text, words: seq<Text>)
    decreases |words|
  {
    |words| == 0 || exists i, j :: Stands(text, words[0], i, j) && Holds(text[j..], words[1..])
  }

  predicate Stands(text: Text, word: Text, i: int, j: int) {
    0 <= i <= j <= |text| && text[i..j] == word
  }

  /** The plain tokens, each with a space behind it. */
  function PlainWords(ts: seq<Token>): seq<Text> {
    if ts == [] then []
    else (if ts[0].tag == Normal then [ts[0].str + [SPACE]] else []) + PlainWords(ts[1..])
  }

  lemma {:induction false} HoldsBehind(a: Text, b: Text, words: seq<Text>)
    requires Holds(b, words)
    ensures Holds(a + b, words)
  {
    if |words| > 0 {
      var i, j :| Stands(b, words[0], i, j) && Holds(b[j..], words[1..]);
      assert (a + b)[|a| + i..|a| + j] == b[i..j];
      assert (a + b)[|a| + j..] == b[j..];
      assert Stands(a + b, words[0], |a| + i, |a| + j);
    }
  }

  lemma {:induction false} HoldsBefore(a: Text, b: Text, words: seq<Text>)
    requires Holds(a, words)
    ensures Holds(a + b, words)
    decreases |words|
  {
    if |words| > 0 {
      var i, j :| Stands(a, words[0], i, j) && Holds(a[j..], words[1..]);
      assert (a + b)[i..j] == a[i..j];
      assert (a + b)[j..] == a[j..] + b;
      HoldsBefore(a[j..], b, words[1..]);
      assert Stands(a + b, words[0], i, j);
    }
  }

  lemma {:induction false} HoldsWord(word: Text, b: Text, words: seq<Text>)
    requires Holds(b, words)
    ensures Holds(word + b, [word] + words)
  {
    assert (word + b)[..|word|] == word && (word + b)[|word|..] == b;
    assert Stands(word + b, ([word] + words)[0], 0, |word|);
    assert ([word] + words)[1..] == words;
  }

  /** The tokens themselves. */
  lemma {:induction false} OwnWords(g: Symbols, ts: seq<Token>, seen: set<Id>)
    requires Resolved(g) && Finds(g, ts) && seen <= All(g)
    ensures Holds(Expand(g, ts, seen).0, PlainWords(ts))
    decreases |ts|
  {
    if ts != [] {
      var (a, s) := ExpandOne(g, ts[0], seen);
      var b := Expand(g, ts[1..], s).0;
      OwnWords(g, ts[1..], s);
      assert Expand(g, ts, seen).0 == a + b;
      if ts[0].tag == Normal {
        HoldsWord(a, b, PlainWords(ts[1..]));
      } else {
        HoldsBehind(a, b, PlainWords(ts[1..]));
        assert PlainWords(ts) == PlainWords(ts[1..]);
      }
    }
  }

  ghost predicate HasDefinition(g: Symbols, text: Text, x: Id) {
    x < |g.defns| && Holds(text, PlainWords(Reversed(g.defns[x])))
  }

  /** And those of the definitions that are expanded on the way. */
  lemma {:induction false} AddedWords(g: Symbols, ts: seq<Token>, seen: set<Id>, x: Id)
    requires Resolved(g) && Finds(g, ts) && seen <= All(g) && x in Expand(g, ts, seen).1 && x !in seen
    ensures HasDefinition(g, Expand(g, ts, seen).0, x)
    decreases All(g) - seen, |ts|, 0
  {
    if ts != [] {
      var (a, s) := ExpandOne(g, ts[0], seen);
      var b := Expand(g, ts[1..], s).0;
      assert Expand(g, ts, seen).0 == a + b;
      if x in s {
        AddedByOne(g, ts[0], seen, x);
        HoldsBefore(a, b, PlainWords(Reversed(g.defns[x])));
      } else {
        AddedWords(g, ts[1..], s, x);
        HoldsBehind(a, b, PlainWords(Reversed(g.defns[x])));
      }
    }
  }

  lemma {:induction false} AddedByOne(g: Symbols, t: Token, seen: set<Id>, x: Id)
    requires Resolved(g) && (t.tag != Normal ==> FindsOne(g, t)) && seen <= All(g)
    requires x in ExpandOne(g, t, seen).1 && x !in seen
    ensures HasDefinition(g, ExpandOne(g, t, seen).0, x)
    decreases All(g) - seen, 0, 1
  {
    var y := g.find(t).value;
    assert All(g) - (seen + {y}) < All(g) - seen;
    assert Finds(g, g.defns[y]);
    if x == y {
      OwnWords(g, Reversed(g.defns[y]), seen + {y});
    } else {
      AddedWords(g, Reversed(g.defns[y]), seen + {y}, x);
    }
  }

  /** The checksum of an exported symbol is that of a text with the plain tokens of
      every definition that a chain leads to, in the order of that definition. */
  lemma {:induction false} EveryDefinitionThere(g: Symbols, sym: Id, x: Id)
    requires Resolved(g) && sym < |g.defns| && Finds(g, g.defns[sym]) && Reaches(g, sym, x)
    ensures HasDefinition(g, Expand(g, Reversed(g.defns[sym]), {sym}).0, x)
  {
    ExpandsWhatIsReached(g, sym, x);
    if x == sym {
      OwnWords(g, Reversed(g.defns[sym]), {sym});
    } else {
      AddedWords(g, Reversed(g.defns[sym]), {sym}, x);
    }
  }

  // ------------------------------------------------------------------- short forms

  predicate OneWord(s: Text) { SPACE !in s }

  predicate Kinded(t: Tag) { t == Struct || t == Union || t == Enum }

  lemma {:induction false} SpaceInside(a: Text, b: Text, a': Text, b': Text)
    requires a + [SPACE] + b == a' + [SPACE] + b' && |a| < |a'|
    ensures a'[|a|] == SPACE
  {
    assert (a + [SPACE] + b)[|a|] == SPACE && (a' + [SPACE] + b')[|a|] == a'[|a|];
  }

  lemma {:induction false} FirstSpace(a: Text, b: Text, a': Text, b': Text)
    requires OneWord(a) && OneWord(a') && a + [SPACE] + b == a' + [SPACE] + b'
    ensures a == a' && b == b'
  {
    var c := a + [SPACE] + b;
    if |a| < |a'| { SpaceInside(a, b, a', b'); }
    if |a'| < |a| { SpaceInside(a', b', a, b); }
    assert a == c[..|a|] && b == c[|a| + 1..];
  }

  lemma {:induction false} ShortKinded(t: Token)
    ensures Kinded(t.tag) ==> Short(t) == TypeName(t.tag) + [SPACE] + (t.str + [SPACE])
    ensures !Kinded(t.tag) ==> Short(t) == t.str + [SPACE] + []
  {
    if Kinded(t.tag) {
      assert TypeName(t.tag) + [SPACE] + t.str + [SPACE] == TypeName(t.tag) + [SPACE] + (t.str + [SPACE]);
    } else {
      assert t.str + [SPACE] == t.str + [SPACE] + [];
    }
  }

  lemma {:induction false} KindedDiffers(t: Token, t': Token)
    requires OneWord(t.str) && OneWord(t'.str) && Kinded(t.tag) && !Kinded(t'.tag)
    ensures Short(t) != Short(t')
  {
    ShortKinded(t);
    ShortKinded(t');
    if Short(t) == Short(t') { SpaceInside(TypeName(t.tag), t.str + [SPACE], t'.str, []); }
  }

  /** What is not expanded again is still told apart: by its name, and by its kind. */
  lemma {:induction false} ShortTellsApart(t: Token, t': Token)
    requires OneWord(t.str) && OneWord(t'.str) && Short(t) == Short(t')
    ensures t.str == t'.str && (Kinded(t.tag) || Kinded(t'.tag) ==> t.tag == t'.tag)
  {
    ShortKinded(t);
    ShortKinded(t');
    if Kinded(t.tag) && !Kinded(t'.tag) {
      KindedDiffers(t, t');
    } else if Kinded(t'.tag) && !Kinded(t.tag) {
      KindedDiffers(t', t);
    } else if Kinded(t.tag) {
      FirstSpace(TypeName(t.tag), t.str + [SPACE], TypeName(t'.tag), t'.str + [SPACE]);
      FirstSpace(t.str, [], t'.str, []);
    } else {
      FirstSpace(t.str, [], t'.str, []);
    }
  }
}
