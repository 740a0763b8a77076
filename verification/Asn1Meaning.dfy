/** When a grammar has a meaning, and that it has no more than one.

    Rendering an element renders the elements in its place, and those in theirs.
    That comes to an end unless an element is part of itself without a jump in
    between, and then there is exactly one rendering.
  */
module Asn1Meaning {
  import opened Wrappers
  import opened Identities
  import opened Asn1Program
  import opened Asn1Grammar

  // ------------------------------------------------------------------ existence

  /** What is rendered in the place of these elements comes to an end after at most
      `n` levels. */
  predicate EndsWithin(g: Grammar, s: seq<Step>, n: nat)
    requires WellFormed(g) && AllAllowed(g, s)
    decreases n
  {
    |s| == 0 || (n > 0 && forall i :: 0 <= i < |s| ==> EndsWithin(g, Steps(g, s[i].0, s[i].1), n - 1))
  }

  function Render(g: Grammar, e: Id, t: Override, n: nat): (x: Tree)
    requires WellFormed(g) && e < |g| && Allowed(g, t) && EndsWithin(g, Steps(g, e, t), n)
    ensures Expands(g, e, t, x)
    decreases n, 1, 0
  {
    Node(Operation(g, e, t), if Jumps(g, e, t) then Some(e) else None, RenderAll(g, Steps(g, e, t), n),
         InlineEnd(g, e, t), Repeats(g[e].compound) && !Jumps(g, e, t), InlineFinal(g, e, t))
  }

  function RenderAll(g: Grammar, s: seq<Step>, n: nat): (xs: Trees)
    requires WellFormed(g) && AllAllowed(g, s) && EndsWithin(g, s, n)
    ensures ExpandsAll(g, s, xs)
    decreases n, 0, |s|
  {
    if |s| == 0 then Nil
    else
      var init, last := s[..|s| - 1], s[|s| - 1];
      assert forall i :: 0 <= i < |init| ==> init[i] == s[i];
      Snoc(RenderAll(g, init, n), Render(g, last.0, last.1, n - 1))
  }

  function Levels(x: Tree): nat { LevelsOf(x.inside) + 1 }

  function LevelsOf(xs: Trees): nat {
    match xs
    case Nil => 0
    case Snoc(init, last) => if Levels(last) > LevelsOf(init) then Levels(last) else LevelsOf(init)
  }

  lemma {:induction false} EndsLater(g: Grammar, s: seq<Step>, n: nat, m: nat)
    requires WellFormed(g) && AllAllowed(g, s) && EndsWithin(g, s, n) && n <= m
    ensures EndsWithin(g, s, m)
    decreases n
  {
    if |s| > 0 {
      forall i | 0 <= i < |s| ensures EndsWithin(g, Steps(g, s[i].0, s[i].1), m - 1) {
        var inner := Steps(g, s[i].0, s[i].1);
        EndsLater(g, inner, n - 1, m - 1);
      }
    }
  }

  lemma {:induction false} EndsSnoc(g: Grammar, s: seq<Step>, i: nat, l: nat, n: nat)
    requires WellFormed(g) && AllAllowed(g, s) && |s| > 0 && i <= n && l < n
    requires EndsWithin(g, s[..|s| - 1], i)
    requires EndsWithin(g, Steps(g, s[|s| - 1].0, s[|s| - 1].1), l)
    ensures EndsWithin(g, s, n)
  {
    EndsLater(g, s[..|s| - 1], i, n);
    EndsLater(g, Steps(g, s[|s| - 1].0, s[|s| - 1].1), l, n - 1);
    forall i | 0 <= i < |s| ensures EndsWithin(g, Steps(g, s[i].0, s[i].1), n - 1) {
      if i < |s| - 1 {
        assert s[..|s| - 1][i] == s[i];
      }
    }
  }

  /** A rendering has as many levels as it takes. */
  lemma {:induction false} RenderedEnds(g: Grammar, s: seq<Step>, xs: Trees)
    requires WellFormed(g) && AllAllowed(g, s) && ExpandsAll(g, s, xs)
    ensures EndsWithin(g, s, LevelsOf(xs))
    decreases xs
  {
    match xs
    case Nil =>
    case Snoc(init, last) =>
      RenderedEnds(g, s[..|s| - 1], init);
      RenderedEnds(g, Steps(g, s[|s| - 1].0, s[|s| - 1].1), last.inside);
      assert Levels(last) == LevelsOf(last.inside) + 1 <= LevelsOf(xs);
      EndsSnoc(g, s, LevelsOf(init), LevelsOf(last.inside), LevelsOf(xs));
  }

  ghost predicate Rendered(g: Grammar, e: Id, t: Override)
    requires WellFormed(g) && e < |g| && Allowed(g, t)
  {
    exists x :: Expands(g, e, t, x)
  }

  ghost predicate Ends(g: Grammar, s: seq<Step>)
    requires WellFormed(g) && AllAllowed(g, s)
  {
    exists n: nat :: EndsWithin(g, s, n)
  }

  /** There is a rendering exactly if the elements that are rendered in its place,
      and in theirs, come to an end. */
  lemma {:induction false} RenderedIff(g: Grammar, e: Id, t: Override)
    requires WellFormed(g) && e < |g| && Allowed(g, t)
    ensures Rendered(g, e, t) <==> Ends(g, Steps(g, e, t))
  {
    var s := Steps(g, e, t);
    if Rendered(g, e, t) {
      var x :| Expands(g, e, t, x);
      RenderedEnds(g, s, x.inside);
    }
    if Ends(g, s) {
      var n: nat :| EndsWithin(g, s, n);
      assert Expands(g, e, t, Render(g, e, t, n));
    }
  }

  // ------------------------------------------------------------------ uniqueness

  lemma {:induction false} RenderedOnce(g: Grammar, e: Id, t: Override, x: Tree, y: Tree)
    requires WellFormed(g) && e < |g| && Allowed(g, t) && Expands(g, e, t, x) && Expands(g, e, t, y)
    ensures x == y
    decreases x
  {
    AllRenderedOnce(g, Steps(g, e, t), x.inside, y.inside);
  }

  lemma {:induction false} AllRenderedOnce(g: Grammar, s: seq<Step>, xs: Trees, ys: Trees)
    requires WellFormed(g) && AllAllowed(g, s) && ExpandsAll(g, s, xs) && ExpandsAll(g, s, ys)
    ensures xs == ys
    decreases xs
  {
    if xs.Snoc? {
      AllRenderedOnce(g, s[..|s| - 1], xs.init, ys.init);
      RenderedOnce(g, s[|s| - 1].0, s[|s| - 1].1, xs.last, ys.last);
    }
  }

  lemma {:induction false} BodyOnce(g: Grammar, e: Id, x: Tree, y: Tree)
    requires WellFormed(g) && e < |g| && ExpandsBody(g, e, x) && ExpandsBody(g, e, y)
    ensures x == y
  {
    assert LinksInside(g[e], |g|);
    AllRenderedOnce(g, Plain(g[e].children), x.inside, y.inside);
  }

  /** What is jumped to has the same body in both. */
  predicate Agree(a: Source, b: Source)
    requires Closed(a) && Closed(b)
  {
    && a.main == b.main && |a.bodies| == |b.bodies|
    && forall e :: e in Order(a) && e in Order(b) && e < |a.bodies| ==> a.bodies[e] == b.bodies[e]
  }

  lemma {:induction false} MeansAgree(g: Grammar, a: Source, b: Source)
    requires Means(g, a) && Means(g, b)
    ensures Agree(a, b)
  {
    var s: seq<Step> := [(ROOT, None)];
    AllRenderedOnce(g, s, a.main.inside, b.main.inside);
    forall e | e in Order(a) && e in Order(b) && e < |a.bodies| ensures a.bodies[e] == b.bodies[e] {
      BodyOnce(g, e, a.bodies[e], b.bodies[e]);
    }
  }

  predicate SameAt(a: Source, b: Source, k: nat)
    requires Closed(a) && Closed(b)
  {
    Forest(a, k) == Forest(b, k)
  }

  lemma {:induction false} SameFirst(a: Source, b: Source, k: nat)
    requires Closed(a) && Closed(b) && a.main == b.main && k == 0
    ensures SameAt(a, b, k)
  {}

  lemma {:induction false} SameNext(a: Source, b: Source, k: nat)
    requires Closed(a) && Closed(b) && Agree(a, b) && k < |a.bodies| && SameAt(a, b, k)
    ensures SameAt(a, b, k + 1)
  {
    Extended(a, k);
    Extended(b, k);
    var s := Seen(a, k);
    if k < |s| {
      SeenGrows(a, k, |a.bodies|);
      SeenGrows(b, k, |b.bodies|);
      assert Order(a)[k] == s[k] == Order(b)[k];
    }
  }

  predicate StepSame(a: Source, b: Source, k: nat)
    requires Closed(a) && Closed(b)
  {
    SameAt(a, b, k) ==> SameAt(a, b, k + 1)
  }

  lemma {:induction false} AgreeSteps(a: Source, b: Source, n: nat)
    requires Closed(a) && Closed(b) && Agree(a, b) && n == |a.bodies|
    ensures forall k: nat :: k < n ==> StepSame(a, b, k)
  {
    forall k: nat | k < n ensures StepSame(a, b, k) {
      if SameAt(a, b, k) {
        SameNext(a, b, k);
      }
    }
  }

  predicate StepHolds(p: nat -> bool, k: nat) {
    p(k) ==> p(k + 1)
  }

  lemma {:induction false} Induct(p: nat -> bool, n: nat)
    requires p(0) && forall k: nat :: k < n ==> StepHolds(p, k)
    ensures p(n)
  {
    if n > 0 {
      Induct(p, n - 1);
      assert StepHolds(p, n - 1);
    }
  }

  lemma {:induction false} ForestSame(a: Source, b: Source, n: nat)
    requires Closed(a) && Closed(b) && SameAt(a, b, 0)
    requires forall k: nat :: k < n ==> StepSame(a, b, k)
    ensures SameAt(a, b, n)
  {
    var p := (k: nat) => SameAt(a, b, k);
    forall k: nat | k < n ensures StepHolds(p, k) {
      assert StepSame(a, b, k);
    }
    Induct(p, n);
    assert p(n);
  }

  /** A grammar has at most one meaning: the same bodies in the same order, and the
      same program. */
  lemma {:induction false} MeansOnce(g: Grammar, a: Source, b: Source, entry: seq<nat>)
    requires Means(g, a) && Means(g, b)
    ensures a.main == b.main && Order(a) == Order(b)
    ensures forall e :: e in Order(a) && e < |g| ==> a.bodies[e] == b.bodies[e]
    ensures Whole(a, entry) == Whole(b, entry)
  {
    MeansAgree(g, a, b);
    SameFirst(a, b, 0);
    AgreeSteps(a, b, |g|);
    ForestSame(a, b, |g|);
  }

  // ------------------------------------------------------- exactly when it has one

  /** Only these elements are jumped to from there. */
  predicate CallsAmong(calls: seq<Id>, need: set<Id>) {
    forall x :: x in calls ==> x in need
  }

  /** These elements come to an end, and jump to the needed ones only. */
  predicate EndsAmong(g: Grammar, s: seq<Step>, need: set<Id>, n: nat)
    requires WellFormed(g) && AllAllowed(g, s)
  {
    EndsWithin(g, s, n) && CallsAmong(CallsOf(RenderAll(g, s, n)), need)
  }

  predicate BodyEnds(g: Grammar, e: Id, need: set<Id>, n: nat)
    requires WellFormed(g) && e < |g|
  {
    assert LinksInside(g[e], |g|);
    EndsAmong(g, Plain(g[e].children), need, n)
  }

  /** What the first type is rendered by comes to an end, and so do the bodies that
      are needed: those that are jumped to from there, or from one of them. */
  predicate Ending(g: Grammar, need: set<Id>, n: nat)
    requires WellFormed(g) && |g| > 0
  {
    EndsAmong(g, [(ROOT, None)], need, n) && forall e :: e in need ==> e < |g| && BodyEnds(g, e, need, n)
  }

  function Body(g: Grammar, e: Id, need: set<Id>, n: nat): Tree
    requires WellFormed(g) && e < |g| && BodyEnds(g, e, need, n)
  {
    assert LinksInside(g[e], |g|);
    Node([], None, RenderAll(g, Plain(g[e].children), n), EndOf(g[e]), Repeats(g[e].compound),
         ActionCode(g[e]) + [Return])
  }

  function Meaning(g: Grammar, need: set<Id>, n: nat): (src: Source)
    requires WellFormed(g) && |g| > 0 && Ending(g, need, n)
    ensures |src.bodies| == |g|
  {
    Source(Node([], None, RenderAll(g, [(ROOT, None)], n), [], false, [Complete]),
           seq(|g|, e requires 0 <= e < |g| => if e in need then Body(g, e, need, n) else NOTHING))
  }

  lemma {:induction false} MeaningPartial(g: Grammar, need: set<Id>, n: nat)
    requires WellFormed(g) && |g| > 0 && Ending(g, need, n)
    ensures Partial(g, Meaning(g, need, n)) && Closed(Meaning(g, need, n))
  {
    var src := Meaning(g, need, n);
    forall e | 0 <= e < |g| ensures ExpandsBody(g, e, src.bodies[e]) || src.bodies[e] == NOTHING {
      assert LinksInside(g[e], |g|);
    }
    PartialClosed(g, src);
  }

  lemma InsideCalls(x: Tree)
    requires x.jump.None?
    ensures Calls(x) == CallsOf(x.inside)
  {}

  lemma {:induction false} ExtendNeeds(src: Source, need: set<Id>, f: Trees, i: nat)
    requires Closed(src) && Known(CallsOf(f), |src.bodies|) && CallsAmong(CallsOf(f), need)
    requires forall e :: e in need && e < |src.bodies| ==> CallsAmong(Calls(src.bodies[e]), need)
    ensures CallsAmong(CallsOf(Extend(src, f, i)), need)
  {
    var s := Firsts(CallsOf(f), |src.bodies|);
    if i < |s| {
      assert s[i] in Merge([], CallsOf(f));
    }
  }

  /** Nothing but what is needed is jumped to. */
  lemma {:induction false} ForestNeeds(src: Source, need: set<Id>, k: nat)
    requires Closed(src) && CallsAmong(Calls(src.main), need)
    requires forall e :: e in need && e < |src.bodies| ==> CallsAmong(Calls(src.bodies[e]), need)
    ensures CallsAmong(CallsOf(Forest(src, k)), need)
  {
    if k > 0 {
      ForestNeeds(src, need, k - 1);
      ExtendNeeds(src, need, Forest(src, k - 1), k - 1);
    }
  }

  lemma {:induction false} MeaningNeeds(g: Grammar, need: set<Id>, n: nat)
    requires WellFormed(g) && |g| > 0 && Ending(g, need, n) && Closed(Meaning(g, need, n))
    ensures CallsAmong(CallsOf(Forest(Meaning(g, need, n), |g|)), need)
  {
    var src := Meaning(g, need, n);
    InsideCalls(src.main);
    forall e | e in need && e < |src.bodies| ensures CallsAmong(Calls(src.bodies[e]), need) {
      assert BodyEnds(g, e, need, n);
      InsideCalls(src.bodies[e]);
    }
    ForestNeeds(src, need, |g|);
  }

  lemma {:induction false} MeaningMeans(g: Grammar, need: set<Id>, n: nat)
    requires WellFormed(g) && |g| > 0 && Ending(g, need, n)
    ensures Means(g, Meaning(g, need, n))
  {
    var src := Meaning(g, need, n);
    MeaningPartial(g, need, n);
    MeaningNeeds(g, need, n);
    forall i | 0 <= i < |Order(src)| ensures src.bodies[Order(src)[i]] != NOTHING {
      CalledInOrder(src, Order(src)[i]);
      assert src.bodies[Order(src)[i]].final != [];
    }
  }

  /** The needed elements are those in the order of the program. */
  function Needed(src: Source): set<Id>
    requires Closed(src)
  {
    set x | x in Order(src)
  }

  function MostLevels(xs: seq<Tree>): (n: nat)
    ensures forall i :: 0 <= i < |xs| ==> LevelsOf(xs[i].inside) <= n
  {
    if xs == [] then 0
    else
      var n, m := LevelsOf(xs[0].inside), MostLevels(xs[1..]);
      assert forall i :: 1 <= i < |xs| ==> xs[i] == xs[1..][i - 1];
      if n > m then n else m
  }

  lemma {:induction false} EndsAmongNeeded(g: Grammar, src: Source, s: seq<Step>, xs: Trees, n: nat)
    requires WellFormed(g) && AllAllowed(g, s) && ExpandsAll(g, s, xs) && LevelsOf(xs) <= n
    requires Closed(src) && forall x :: x in CallsOf(xs) ==> x in Order(src)
    ensures EndsAmong(g, s, Needed(src), n)
  {
    RenderedEnds(g, s, xs);
    EndsLater(g, s, LevelsOf(xs), n);
    AllRenderedOnce(g, s, RenderAll(g, s, n), xs);
  }

  lemma PrefixMember(a: seq<Id>, b: seq<Id>, c: seq<Id>, x: Id)
    requires a + b <= c && x in b
    ensures x in c
  {
    var i :| 0 <= i < |b| && b[i] == x;
    assert (a + b)[|a| + i] == c[|a| + i];
  }

  /** What the main program and the bodies in the order jump to is in the order. */
  lemma {:induction false} CallsInOrder(src: Source, k: nat, f: Trees, last: Tree)
    requires Closed(src) && k <= |src.bodies| && Forest(src, k) == Snoc(f, last)
    ensures forall x :: x in Calls(last) ==> x in Order(src)
  {
    CallsGrow(src, k, |src.bodies|);
    forall x | x in Calls(last) ensures x in Order(src) {
      PrefixMember(CallsOf(f), Calls(last), CallsOf(Forest(src, |src.bodies|)), x);
      CalledInOrder(src, x);
    }
  }

  lemma {:induction false} BodyInForest(src: Source, i: nat)
    requires Closed(src) && i < |Order(src)|
    ensures forall x :: x in Calls(src.bodies[Order(src)[i]]) ==> x in Order(src)
  {
    SeenAt(src, i);
    Extended(src, i);
    CallsInOrder(src, i + 1, Forest(src, i), src.bodies[Order(src)[i]]);
  }

  lemma {:induction false} MainEnds(g: Grammar, src: Source, s: seq<Step>, n: nat)
    requires WellFormed(g) && |g| > 0 && ExpandsMain(g, src.main) && Closed(src)
    requires s == [(ROOT, None)] && LevelsOf(src.main.inside) <= n
    ensures EndsAmong(g, s, Needed(src), n)
  {
    CallsInOrder(src, 0, Nil, src.main);
    InsideCalls(src.main);
    EndsAmongNeeded(g, src, s, src.main.inside, n);
  }

  lemma {:induction false} NeededEnds(g: Grammar, src: Source, i: nat, n: nat)
    requires WellFormed(g) && Closed(src) && i < |Order(src)| && Order(src)[i] < |g|
    requires ExpandsBody(g, Order(src)[i], src.bodies[Order(src)[i]])
    requires LevelsOf(src.bodies[Order(src)[i]].inside) <= n
    ensures BodyEnds(g, Order(src)[i], Needed(src), n)
  {
    var e := Order(src)[i];
    assert LinksInside(g[e], |g|);
    BodyInForest(src, i);
    InsideCalls(src.bodies[e]);
    EndsAmongNeeded(g, src, Plain(g[e].children), src.bodies[e].inside, n);
  }

  lemma {:induction false} MeansEnding(g: Grammar, src: Source, n: nat)
    requires Means(g, src) && n == MostLevels([src.main] + src.bodies)
    ensures Ending(g, Needed(src), n)
  {
    var all := [src.main] + src.bodies;
    assert all[0] == src.main;
    MainEnds(g, src, [(ROOT, None)], n);
    forall e | e in Needed(src) ensures e < |g| && BodyEnds(g, e, Needed(src), n) {
      var i :| 0 <= i < |Order(src)| && Order(src)[i] == e;
      assert all[e + 1] == src.bodies[e];
      NeededEnds(g, src, i, n);
    }
  }

  /** A grammar has a meaning exactly if the rendering of its first type comes to an
      end, and the rendering of what is jumped to. */
  lemma {:induction false} MeansIff(g: Grammar)
    requires WellFormed(g) && |g| > 0
    ensures (exists src :: Means(g, src)) <==> exists need: set<Id>, n: nat :: Ending(g, need, n)
  {
    if src :| Means(g, src) {
      MeansEnding(g, src, MostLevels([src.main] + src.bodies));
    }
    if need: set<Id>, n: nat :| Ending(g, need, n) {
      MeaningMeans(g, need, n);
    }
  }

  // --------------------------------------------------------------------- by ranks

  /** Every element has a higher rank than those that are rendered in its place. */
  ghost predicate Ranked(g: Grammar, rank: seq<nat>)
    requires WellFormed(g)
  {
    && |rank| == |g|
    && forall e: Id, t: Override, i :: e < |g| && Allowed(g, t) && 0 <= i < |Steps(g, e, t)| ==>
         rank[Steps(g, e, t)[i].0] < rank[e]
  }

  lemma {:induction false} RankedEnds(g: Grammar, rank: seq<nat>, s: seq<Step>, n: nat)
    requires WellFormed(g) && Ranked(g, rank) && AllAllowed(g, s)
    requires forall i :: 0 <= i < |s| ==> rank[s[i].0] < n
    ensures EndsWithin(g, s, n)
    decreases n
  {
    assert |s| > 0 ==> rank[s[0].0] < n;
    forall i | 0 <= i < |s| ensures EndsWithin(g, Steps(g, s[i].0, s[i].1), n - 1) {
      RankedEnds(g, rank, Steps(g, s[i].0, s[i].1), n - 1);
    }
  }

  function Above(rank: seq<nat>): (n: nat)
    ensures forall i :: 0 <= i < |rank| ==> rank[i] < n
  {
    if rank == [] then 0
    else
      var n := Above(rank[1..]);
      assert forall i :: 1 <= i < |rank| ==> rank[i] == rank[1..][i - 1];
      if rank[0] < n then n else rank[0] + 1
  }

  lemma {:induction false} RankedAmong(g: Grammar, rank: seq<nat>, s: seq<Step>, n: nat)
    requires WellFormed(g) && Ranked(g, rank) && AllAllowed(g, s)
    requires forall i :: 0 <= i < |s| ==> rank[s[i].0] < n
    ensures EndsAmong(g, s, AllIds(|g|), n)
  {
    RankedEnds(g, rank, s, n);
    ExpandsAllKnown(g, s, RenderAll(g, s, n));
  }

  /** Then the grammar has a meaning. */
  lemma {:induction false} RankedMeans(g: Grammar, rank: seq<nat>)
    requires WellFormed(g) && |g| > 0 && Ranked(g, rank)
    ensures exists src :: Means(g, src)
  {
    var n, need := Above(rank), AllIds(|g|);
    RankedAmong(g, rank, [(ROOT, None)], n);
    forall e | e in need ensures BodyEnds(g, e, need, n) {
      assert LinksInside(g[e], |g|);
      RankedAmong(g, rank, Plain(g[e].children), n);
    }
    MeaningMeans(g, need, n);
  }

  // ---------------------------------------------------------------- without an end

  /** `A ::= CHOICE { A }`: the choice is part of itself without a jump. */
  const ENDLESS: Grammar := [Element(Choice, 1, [0], 0, None, UNIV, false, 0, false, false)]

  lemma {:induction false} EndlessSteps()
    ensures WellFormed(ENDLESS) && Steps(ENDLESS, 0, None) == [(0, None)]
  {
    assert LinksInside(ENDLESS[0], 1);
    assert ENDLESS[0].children == [0] && Plain([0]) == [(0, None)];
  }

  /** No rendering of it is finite, and so the grammar has no meaning. */
  lemma {:induction false} EndlessExpansion(x: Tree)
    requires WellFormed(ENDLESS)
    ensures !Expands(ENDLESS, 0, None, x)
    decreases x
  {
    EndlessSteps();
    if Expands(ENDLESS, 0, None, x) {
      var s := Steps(ENDLESS, 0, None);
      assert ExpandsAll(ENDLESS, s, x.inside) && |s| == 1;
      assert x.inside.Snoc?;
      EndlessExpansion(x.inside.last);
    }
  }

  lemma {:induction false} EndlessTypeMeansNothing(src: Source)
    ensures WellFormed(ENDLESS) && !Means(ENDLESS, src)
  {
    EndlessSteps();
    if Means(ENDLESS, src) {
      assert src.main.inside.Snoc?;
      EndlessExpansion(src.main.inside.last);
    }
  }
}
