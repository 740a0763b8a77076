/** The two passes of the renderer.

    A `View` of what the grammar means is there for the proof only.
  */
module Asn1Render {
  import opened Wrappers
  import opened Identities
  import opened Asn1Program
  import opened Asn1Grammar
  import opened Asn1Queue

  /** The program as it grows: the renderings, the jumps in them, and the order and
      the places of the bodies. */
  datatype View = View(forests: seq<Trees>, plan: Plan, order: seq<Id>, places: seq<nat>)

  /** What holds when `k` bodies have been rendered: which body is next, or that there
      is none. */
  ghost predicate StepAt(g: Grammar, v: View, k: nat)
    requires WellFormed(g) && k <= |g| && |v.forests| == |v.plan| == |g| + 1
    requires |v.order| == |v.places| <= |g|
  {
    && v.plan[k] == CallsOf(v.forests[k])
    && if k < |v.order| then
         && k < |Enqueued(v.plan, k)| && v.order[k] == Enqueued(v.plan, k)[k] < |g|
         && v.places[k] == |CodeOf(v.forests[k], 0, [])|
         && v.forests[k + 1].Snoc? && v.forests[k + 1].init == v.forests[k]
         && ExpandsBody(g, v.order[k], v.forests[k + 1].last)
       else
         |Enqueued(v.plan, k)| <= k && v.forests[k] == v.forests[|g|]
  }

  ghost predicate Describes(g: Grammar, v: View) {
    && WellFormed(g) && |g| > 0 && |v.forests| == |v.plan| == |g| + 1
    && |v.order| == |v.places| <= |g| && Distinct(v.order)
    && v.forests[0].Snoc? && v.forests[0].init == Nil && ExpandsMain(g, v.forests[0].last)
    && forall k: nat :: k <= |g| ==> StepAt(g, v, k)
  }

  ghost function Forests(src: Source, n: nat): (r: seq<Trees>)
    requires Closed(src)
    ensures |r| == n && forall k :: 0 <= k < n ==> r[k] == Forest(src, k)
  {
    if n == 0 then [] else Forests(src, n - 1) + [Forest(src, n - 1)]
  }

  function AllCalls(fs: seq<Trees>): (r: seq<seq<Id>>)
    ensures |r| == |fs| && forall k :: 0 <= k < |fs| ==> r[k] == CallsOf(fs[k])
  {
    if |fs| == 0 then [] else AllCalls(fs[..|fs| - 1]) + [CallsOf(fs[|fs| - 1])]
  }

  ghost function ViewOf(src: Source): View
    requires Closed(src)
  {
    var fs := Forests(src, |src.bodies| + 1);
    View(fs, AllCalls(fs), Order(src), Places(src, |Order(src)|))
  }

  lemma {:induction false} PlanGrows(src: Source)
    requires Closed(src)
    ensures Growing(ViewOf(src).plan)
  {
    var plan := ViewOf(src).plan;
    forall i: nat, j: nat | i <= j < |plan| ensures Earlier(plan, i, j) {
      CallsGrow(src, i, j);
    }
  }

  lemma {:induction false} InOrder(src: Source, k: nat)
    requires Closed(src) && k <= |src.bodies|
    ensures k < |Order(src)| ==> k < |Seen(src, k)| && Seen(src, k)[k] == Order(src)[k]
    ensures k >= |Order(src)| ==> |Seen(src, k)| <= k
  {
    SeenGrows(src, k, |src.bodies|);
    if k < |Order(src)| { SeenAt(src, k); }
  }

  lemma {:induction false} ViewStep(g: Grammar, src: Source, k: nat)
    requires Means(g, src) && k <= |g|
    ensures StepAt(g, ViewOf(src), k)
  {
    var v := ViewOf(src);
    InOrder(src, k);
    assert Enqueued(v.plan, k) == Seen(src, k);
    Extended(src, k);
    if k < |Order(src)| {
      assert v.places[k] == Place(src, k);
      assert v.forests[k + 1] == Extend(src, Forest(src, k), k);
    } else {
      Stable(src, k, |g|);
    }
  }

  lemma {:induction false} ViewDescribes(g: Grammar, src: Source)
    requires Means(g, src)
    ensures Describes(g, ViewOf(src))
  {
    var v := ViewOf(src);
    assert v.forests[0] == Forest(src, 0) == Snoc(Nil, src.main);
    forall k: nat | k <= |g| ensures StepAt(g, v, k) { ViewStep(g, src, k); }
  }

  lemma Regroup2(o: seq<Opcode>, a: seq<Opcode>, b: seq<Opcode>)
    ensures o + a + b == o + (a + b)
  {}

  lemma FromNothing(o: seq<Opcode>, a: seq<Id>)
    ensures [] + o == o && [] + a == a
  {}

  lemma Units(o: seq<Opcode>, a: seq<Id>)
    ensures o + [] == o && a + [] == a
  {}

  lemma {:induction false} Prefixes(a: seq<Id>, k: seq<Id>, x: seq<Id>, k': seq<Id>, all: seq<Id>, due: seq<Id>)
    requires k' == k + x && k' <= all && a + all <= due
    ensures a + k + x == a + k' <= due
  {
    assert a + k' <= a + all;
  }

  lemma Regroup3(o: seq<Opcode>, a: seq<Opcode>, b: seq<Opcode>, c: seq<Opcode>)
    ensures o + a + b + c == o + a + (b + c) == o + (a + b + c)
  {}

  /** What is written for a repetition. */
  lemma {:induction false} RepeatCode(o: seq<Opcode>, x: Tree, first: nat, entry: seq<nat>, end: Opcode)
    requires x.loop && x.end == [end]
    ensures var c, all := CodeOf(x.inside, first, entry), InsideCode(x, first, entry);
            o + c + ([end] + [JumpTarget(first)]) == o + all && |all| == |c| + 2
  {
    var c := CodeOf(x.inside, first, entry);
    assert InsideCode(x, first, entry) == c + [end] + [JumpTarget(first)];
    Regroup3(o, c, [end], [JumpTarget(first)]);
  }

  /** The tree of a single step. */
  lemma {:induction false} NthStep(g: Grammar, s: seq<Step>, xs: Trees, i: nat)
    requires WellFormed(g) && AllAllowed(g, s) && ExpandsAll(g, s, xs) && i < |s|
    ensures Len(xs) == |s| && Expands(g, s[i].0, s[i].1, Nth(xs, i)) && Nth(xs, i) < xs
    decreases xs
  {
    AsMany(g, s, xs);
    if i < |s| - 1 { NthStep(g, s[..|s| - 1], xs.init, i); }
  }

  lemma {:induction false} AsMany(g: Grammar, s: seq<Step>, xs: Trees)
    requires WellFormed(g) && AllAllowed(g, s) && ExpandsAll(g, s, xs)
    ensures Len(xs) == |s|
    decreases xs
  {
    if xs.Snoc? { AsMany(g, s[..|s| - 1], xs.init); }
  }

  /** What one more tree adds to the code and to the jumps. */
  lemma {:induction false} NextTree(xs: Trees, i: nat, base: nat, at: nat, entry: seq<nat>, c: seq<Opcode>, k: seq<Id>)
    returns (more: seq<Opcode>, c': seq<Opcode>, k': seq<Id>)
    requires i < Len(xs) && c == CodeOf(Take(xs, i), base, entry) && k == CallsOf(Take(xs, i))
    ensures c' == CodeOf(Take(xs, i + 1), base, entry) && k' == CallsOf(Take(xs, i + 1)) <= CallsOf(xs)
    requires at == base + |c|
    ensures more == Code(Nth(xs, i), at, entry) && c' == c + more
    ensures k' == k + Calls(Nth(xs, i))
  {
    TakeNext(xs, i);
    TakeCalls(xs, i + 1);
    more := Code(Nth(xs, i), at, entry);
    c' := c + more;
    k' := k + Calls(Nth(xs, i));
  }

  class Renderer {
    const g: Grammar
    ghost const plan: Plan

    var nrEntries: nat
    var list: List
    var entryIndex: seq<nat>
    var output: seq<Opcode>

    ghost var calls: seq<Id>
    ghost var popped: nat

    /** All links and flags are clear. */
    constructor (g: Grammar, ghost v: View)
      requires Describes(g, v) && Growing(v.plan)
      ensures this.g == g && plan == v.plan && Grounded() && Idle() && output == []
      ensures true !in list.rendered
    {
      this.g := g;
      plan := v.plan;
      nrEntries := 0;
      list := List(None, ListHead, seq(|g|, _ => false), seq(|g|, _ => None));
      entryIndex := seq(|g|, _ => 0);
      output := [];
      calls := [];
      popped := 0;
    }

    ghost predicate Grounded() {
      WellFormed(g) && Growing(plan) && |plan| == |g| + 1
    }

    ghost predicate Valid()
      reads this
    {
      |entryIndex| == |list.rendered| == |list.next| == |g| && Timely(plan, calls, popped, list)
    }

    /** Between two passes. */
    ghost predicate Idle()
      reads this
    {
      && |entryIndex| == |list.rendered| == |list.next| == |g|
      && list.head == None && list.tail == ListHead && Stale(plan, list.next)
    }

    /** The opcodes have been counted, and also written if this pass writes. */
    twostate predicate Emitted(out: bool, code: seq<Opcode>)
      reads this
    {
      && nrEntries == old(nrEntries) + |code|
      && output == if out then old(output) + code else old(output)
    }

    method RenderOpcode(out: bool, op: Opcode)
      modifies this`nrEntries, this`output
      ensures Emitted(out, [op])
    {
      if out {
        output := output + [op];
      }
      nrEntries := nrEntries + 1;
    }

    method RenderTag(out: bool, e: Id, tag: Override)
      requires e < |g| && Allowed(g, tag)
      modifies this`nrEntries, this`output
      ensures Emitted(out, [TagOf(g, e, tag)])
    {
      var t := if tag.Some? then tag.value else e;
      if g[t].cls == UNIV && g[t].tag != 14 && g[t].tag != 15 && g[t].tag != 31 {
        RenderOpcode(out, Tag(true, g[t].cls, g[t].cons || g[e].cons, g[t].tag));
      } else {
        RenderOpcode(out, Tag(false, g[t].cls, g[t].cons || g[e].cons, g[t].tag));
      }
    }

    /** The operation of an element, and the tag override that is left over. */
    method RenderOperation(out: bool, e: Id, tag: Override) returns (left: Override)
      requires e < |g| && Allowed(g, tag) && !g[e].compound.TagOverride?
      modifies this`nrEntries, this`output
      ensures Emitted(out, Operation(g, e, tag))
      ensures g[e].compound.TypeRef? ==> left == if Transparent(g[e]) then tag else None
    {
      var skippable := g[e].skippable || (tag.Some? && g[tag.value].skippable);
      var outofline := g[e].refCount > 1 || skippable;
      var cond := g[e].conditional || (tag.Some? && g[tag.value].conditional);
      var act := g[e].action.Some?;
      left := tag;
      match g[e].compound {
        case Any =>
          RenderOpcode(out, MatchAny(cond, act));
          return;
        case Sequence =>
          RenderOpcode(out, Match(cond, outofline, false, skippable));
        case SequenceOf =>
          RenderOpcode(out, Match(cond, outofline, false, skippable));
        case SetOf =>
          RenderOpcode(out, Match(cond, outofline, false, skippable));
        case Choice =>
          return;
        case TypeRef =>
          if g[e].cls == UNIV && !g[e].cons && g[e].tag == 0 {
            return;
          }
          RenderOpcode(out, Match(cond, false, act, skippable));
        case NotCompound =>
          RenderOpcode(out, Match(cond, false, act, skippable));
      }
      RenderTag(out, e, tag);
      left := None;
    }

    method RenderAction(out: bool, e: Id)
      requires e < |g|
      modifies this`nrEntries, this`output
      ensures Emitted(out, ActionCode(g[e]))
    {
      if g[e].action.Some? {
        RenderOpcode(out, ActionOf(g[e].action.value));
      }
    }

    /** Exactly these jumps may come next. */
    ghost predicate Ready(next: seq<Id>)
      requires |plan| == |g| + 1
      reads this
    {
      Valid() && popped < |plan| && calls + next <= plan[popped]
    }

    /** What a step of the rendering has done. */
    twostate predicate Did(out: bool, code: seq<Opcode>, next: seq<Id>)
      requires old(Valid())
      reads this
    {
      && Valid() && popped == old(popped) && entryIndex == old(entryIndex)
      && calls == old(calls) + next && Emitted(out, code)
    }

    /** Put an element into the list, unless it has been there. */
    method Enqueue(e: Id)
      requires Grounded() && e < |g| && Ready([e])
      modifies this`list, this`calls
      ensures Valid() && calls == old(calls) + [e]
    {
      JumpTimely(plan, calls, popped, list, e);
      if !list.rendered[e] {
        list := list.(rendered := list.rendered[e := true]);
        match list.tail {
          case ListHead => list := list.(head := Some(e));
          case NextOf(x) => list := list.(next := list.next[x := Some(e)]);
        }
        list := list.(tail := NextOf(e));
      }
      calls := calls + [e];
    }

    method RenderJump(out: bool, e: Id)
      requires Grounded() && e < |g| && Ready([e])
      modifies this
      ensures Did(out, [JumpTarget(old(entryIndex)[e])], [e])
    {
      RenderOpcode(out, JumpTarget(entryIndex[e]));
      Enqueue(e);
    }

    /** Render an element: the opcodes of its expansion, with the entries that are
        known now, and what it jumps to at the end of the list. */
    method RenderElement(out: bool, e: Id, tag: Override, ghost x: Tree)
      requires Grounded() && e < |g| && Allowed(g, tag) && Expands(g, e, tag, x) && Ready(Calls(x))
      modifies this
      ensures Did(out, Code(x, old(nrEntries), old(entryIndex)), Calls(x))
      decreases x, 4
    {
      if g[e].compound.TagOverride? {
        assert LinksInside(g[e], |g|);
        OneStep(g, g[e].children[0], Some(e), x.inside, nrEntries, entryIndex);
        Wrapped(x, nrEntries, entryIndex);
        RenderElement(out, g[e].children[0], Some(e), x.inside.last);
        return;
      }
      var skippable := g[e].skippable || (tag.Some? && g[tag.value].skippable);
      var outofline := g[e].refCount > 1 || skippable;
      var base, o := nrEntries, output;
      var left := RenderOperation(out, e, tag);
      if HasBody(g[e].compound) && outofline {
        JumpCode(x, base, entryIndex);
        RenderJump(out, e);
        Regroup2(o, x.operation, [JumpTarget(entryIndex[e])]);
      } else {
        ghost var inside := InsideCode(x, nrEntries, entryIndex);
        InlineCode(x, base, nrEntries, entryIndex);
        RenderInline(out, e, tag, left, skippable, x);
        Regroup3(o, x.operation, inside, x.final);
      }
    }

    method RenderInline(out: bool, e: Id, tag: Override, left: Override, skippable: bool, ghost x: Tree)
      requires Grounded() && e < |g| && Allowed(g, tag) && !Jumps(g, e, tag) && !g[e].compound.TagOverride?
      requires g[e].compound.TypeRef? ==> left == if Transparent(g[e]) then tag else None
      requires skippable == Skippable(g, e, tag)
      requires Expands(g, e, tag, x) && Ready(CallsOf(x.inside))
      modifies this
      ensures Did(out, InsideCode(x, old(nrEntries), old(entryIndex)) + x.final, CallsOf(x.inside))
      decreases x, 3
    {
      ghost var o, c := output, InsideCode(x, nrEntries, entryIndex);
      RenderInside(out, e, tag, left, skippable, x);
      RenderFinal(out, e);
      Regroup2(o, c, x.final);
    }

    method RenderFinal(out: bool, e: Id)
      requires e < |g|
      modifies this`nrEntries, this`output
      ensures Emitted(out, (if g[e].compound.Choice? || g[e].compound.TypeRef? then ActCode(g[e]) else [])
              + ActionCode(g[e]))
    {
      if g[e].compound.Choice? || g[e].compound.TypeRef? {
        if g[e].action.Some? {
          RenderOpcode(out, Act);
        }
      }
      RenderAction(out, e);
    }

    /** What stands inside an element that is not left out of line, and the end of it. */
    method RenderInside(out: bool, e: Id, tag: Override, left: Override, skippable: bool, ghost x: Tree)
      requires Grounded() && e < |g| && Allowed(g, tag) && !Jumps(g, e, tag) && !g[e].compound.TagOverride?
      requires g[e].compound.TypeRef? ==> left == if Transparent(g[e]) then tag else None
      requires skippable == Skippable(g, e, tag)
      requires Expands(g, e, tag, x) && Ready(CallsOf(x.inside))
      modifies this
      ensures Did(out, InsideCode(x, old(nrEntries), old(entryIndex)), CallsOf(x.inside))
      decreases x, 2
    {
      assert LinksInside(g[e], |g|);
      match g[e].compound {
        case TypeRef =>
          RenderTypeRef(out, e, left, x);
        case Sequence =>
          RenderSequence(out, e, x);
        case SequenceOf =>
          RenderRepeat(out, e, EndSeqOf(g[e].action.Some?), x);
        case SetOf =>
          RenderRepeat(out, e, EndSetOf(g[e].action.Some?), x);
        case Choice =>
          RenderChoice(out, e, skippable, x);
        case Any =>
        case NotCompound =>
      }
    }

    method RenderTypeRef(out: bool, e: Id, left: Override, ghost x: Tree)
      requires Grounded() && e < |g| && g[e].typeElement < |g| && Allowed(g, left)
      requires ExpandsAll(g, [(g[e].typeElement, left)], x.inside) && !x.loop && x.end == []
      requires Ready(CallsOf(x.inside))
      modifies this
      ensures Did(out, InsideCode(x, old(nrEntries), old(entryIndex)), CallsOf(x.inside))
      decreases x, 1
    {
      NoLoop(x, nrEntries, entryIndex);
      OneStep(g, g[e].typeElement, left, x.inside, nrEntries, entryIndex);
      RenderElement(out, g[e].typeElement, left, x.inside.last);
    }

    method RenderSequence(out: bool, e: Id, ghost x: Tree)
      requires Grounded() && e < |g| && LinksInside(g[e], |g|)
      requires ExpandsAll(g, Plain(g[e].children), x.inside) && !x.loop && x.end == [EndSeq(g[e].action.Some?)]
      requires Ready(CallsOf(x.inside))
      modifies this
      ensures Did(out, InsideCode(x, old(nrEntries), old(entryIndex)), CallsOf(x.inside))
      decreases x, 1
    {
      ghost var o, c := output, CodeOf(x.inside, nrEntries, entryIndex);
      NoLoop(x, nrEntries, entryIndex);
      RenderChildren(out, g[e].children, x.inside);
      RenderOpcode(out, EndSeq(g[e].action.Some?));
      Regroup2(o, c, x.end);
    }

    method RenderChoice(out: bool, e: Id, skippable: bool, ghost x: Tree)
      requires Grounded() && e < |g| && LinksInside(g[e], |g|)
      requires ExpandsAll(g, Plain(g[e].children), x.inside) && !x.loop
      requires x.end == if skippable then [] else [CondFail]
      requires Ready(CallsOf(x.inside))
      modifies this
      ensures Did(out, InsideCode(x, old(nrEntries), old(entryIndex)), CallsOf(x.inside))
      decreases x, 1
    {
      ghost var o, c := output, CodeOf(x.inside, nrEntries, entryIndex);
      NoLoop(x, nrEntries, entryIndex);
      RenderChildren(out, g[e].children, x.inside);
      RenderChoiceEnd(out, skippable, o, c);
    }

    /** One of the alternatives has to be there, unless the choice may be left out. */
    method RenderChoiceEnd(out: bool, skippable: bool, ghost o: seq<Opcode>, ghost c: seq<Opcode>)
      requires output == if out then o + c else o
      modifies this`nrEntries, this`output
      ensures nrEntries == old(nrEntries) + if skippable then 0 else 1
      ensures output == if !out then o else if skippable then o + c else o + (c + [CondFail])
    {
      if !skippable {
        RenderOpcode(out, CondFail);
        Regroup2(o, c, [CondFail]);
      }
    }

    method RenderRepeat(out: bool, e: Id, end: Opcode, ghost x: Tree)
      requires Grounded() && e < |g| && LinksInside(g[e], |g|) && Repeats(g[e].compound)
      requires ExpandsAll(g, [(g[e].children[0], None)], x.inside) && x.loop && x.end == [end]
      requires Ready(CallsOf(x.inside))
      modifies this
      ensures Did(out, InsideCode(x, old(nrEntries), old(entryIndex)), CallsOf(x.inside))
      decreases x, 1
    {
      RepeatCode(output, x, nrEntries, entryIndex, end);
      OneStep(g, g[e].children[0], None, x.inside, nrEntries, entryIndex);
      var entry := nrEntries;
      RenderElement(out, g[e].children[0], None, x.inside.last);
      RenderLoopEnd(out, end, entry);
    }

    /** The opcode that goes back to the beginning of a repetition. */
    method RenderLoopEnd(out: bool, end: Opcode, entry: nat)
      modifies this`nrEntries, this`output
      ensures Emitted(out, [end] + [JumpTarget(entry)])
    {
      ghost var o := output;
      RenderOpcode(out, end);
      RenderOpcode(out, JumpTarget(entry));
      Regroup2(o, [end], [JumpTarget(entry)]);
    }

    /** Some elements have been rendered since there were `o` and `before`. */
    ghost predicate Progress(out: bool, done: Trees, n: nat, o: seq<Opcode>, before: seq<Id>)
      reads this
    {
      var c := CodeOf(done, n, entryIndex);
      match out
      case true => nrEntries == n + |c| && output == o + c && calls == before + CallsOf(done)
      case false => nrEntries == n + |c| && output == o && calls == before + CallsOf(done)
    }

    /** Render one element of several. */
    method RenderNth(out: bool, children: seq<Id>, i: nat, ghost xs: Trees, ghost done: Trees,
                     ghost next: Trees, ghost n: nat, ghost o: seq<Opcode>, ghost before: seq<Id>)
      requires Grounded() && AllAllowed(g, Plain(children)) && ExpandsAll(g, Plain(children), xs)
      requires Valid() && popped < |plan| && before + CallsOf(xs) <= plan[popped]
      requires i < |children| == Len(xs) && done == Take(xs, i) && next == Take(xs, i + 1)
      requires Progress(out, done, n, o, before)
      modifies this
      ensures Valid() && popped == old(popped) && entryIndex == old(entryIndex)
      ensures Progress(out, next, n, o, before)
      decreases xs, 5, 0
    {
      NthStep(g, Plain(children), xs, i);
      ghost var c, k := CodeOf(done, n, entryIndex), CallsOf(done);
      ghost var more, c', k' := NextTree(xs, i, n, nrEntries, entryIndex, c, k);
      Prefixes(before, k, Calls(Nth(xs, i)), k', CallsOf(xs), plan[popped]);
      RenderElement(out, children[i], None, Nth(xs, i));
      Regroup2(o, c, more);
    }

    lemma TakeAll(xs: Trees, i: nat)
      requires i == Len(xs)
      ensures Take(xs, i) == xs
    {}

    /** The first of several elements, and all that have been rendered. */
    lemma {:induction false} Begin(out: bool, xs: Trees)
      ensures Progress(out, Take(xs, 0), nrEntries, output, calls)
    {
      TakeNone(xs);
      Units(output, calls);
    }

    /** Render elements one after the other. */
    method RenderChildren(out: bool, children: seq<Id>, ghost xs: Trees)
      requires Grounded() && AllAllowed(g, Plain(children)) && ExpandsAll(g, Plain(children), xs)
      requires Ready(CallsOf(xs))
      modifies this
      ensures Did(out, CodeOf(xs, old(nrEntries), old(entryIndex)), CallsOf(xs))
      decreases xs, 6
    {
      ghost var n, o, before := nrEntries, output, calls;
      Begin(out, xs);
      AsMany(g, Plain(children), xs);
      RenderInOrder(out, children, xs, n, o, before);
    }

    method RenderInOrder(out: bool, children: seq<Id>, ghost xs: Trees, ghost n: nat, ghost o: seq<Opcode>,
                         ghost before: seq<Id>)
      requires Grounded() && AllAllowed(g, Plain(children)) && ExpandsAll(g, Plain(children), xs)
      requires Valid() && popped < |plan| && before + CallsOf(xs) <= plan[popped]
      requires |children| == Len(xs) && Progress(out, Take(xs, 0), n, o, before)
      modifies this
      ensures Valid() && popped == old(popped) && entryIndex == old(entryIndex)
      ensures Progress(out, xs, n, o, before)
      decreases xs, 5, 1
    {
      ghost var done := Take(xs, 0);
      var i := 0;
      while i < |children|
        invariant i <= |children| == Len(xs) && done == Take(xs, i)
        invariant Valid() && popped == old(popped) && entryIndex == old(entryIndex)
        invariant Progress(out, done, n, o, before)
      {
        ghost var next := Take(xs, i + 1);
        RenderNth(out, children, i, xs, done, next, n, o, before);
        done := next;
        i := i + 1;
      }
      TakeAll(xs, i);
    }

    /** Render the content of an element that has been left out of line. */
    method RenderBody(out: bool, e: Id, ghost x: Tree)
      requires Grounded() && e < |g| && ExpandsBody(g, e, x) && Ready(Calls(x))
      modifies this
      ensures Did(out, Code(x, old(nrEntries), old(entryIndex)), Calls(x))
    {
      ghost var o, inside := output, InsideCode(x, nrEntries, entryIndex);
      InlineCode(x, nrEntries, nrEntries, entryIndex);
      Plainly(x, nrEntries, entryIndex);
      RenderBodyInside(out, e, x);
      RenderReturn(out, e);
      Regroup2(o, inside, x.final);
    }

    method RenderReturn(out: bool, e: Id)
      requires e < |g|
      modifies this`nrEntries, this`output
      ensures Emitted(out, ActionCode(g[e]) + [Return])
    {
      ghost var o := output;
      RenderAction(out, e);
      RenderOpcode(out, Return);
      Regroup2(o, ActionCode(g[e]), [Return]);
    }

    method RenderBodyInside(out: bool, e: Id, ghost x: Tree)
      requires Grounded() && e < |g| && ExpandsBody(g, e, x) && Ready(CallsOf(x.inside))
      modifies this
      ensures Did(out, InsideCode(x, old(nrEntries), old(entryIndex)), CallsOf(x.inside))
    {
      assert LinksInside(g[e], |g|);
      ghost var o, c := output, CodeOf(x.inside, nrEntries, entryIndex);
      if !x.loop { NoLoop(x, nrEntries, entryIndex); }
      var entry := nrEntries;
      RenderChildren(out, g[e].children, x.inside);
      match g[e].compound {
        case Sequence =>
          RenderOpcode(out, EndSeq(g[e].action.Some?));
          Regroup2(o, c, x.end);
        case SequenceOf =>
          RenderOpcode(out, EndSeqOf(g[e].action.Some?));
          RenderOpcode(out, JumpTarget(entry));
          Regroup3(o, c, x.end, [JumpTarget(entry)]);
        case SetOf =>
          RenderOpcode(out, EndSetOf(g[e].action.Some?));
          RenderOpcode(out, JumpTarget(entry));
          Regroup3(o, c, x.end, [JumpTarget(entry)]);
        case _ =>
      }
    }

    /** Take the first element off the list. */
    method Unlink() returns (e: Id)
      requires Grounded() && Valid() && popped + 1 < |plan| && calls == plan[popped] && list.head.Some?
      modifies this`list, this`popped
      ensures Valid() && popped == old(popped) + 1 && e == old(list.head.value)
    {
      PopTimely(plan, popped, list);
      e := list.head.value;
      list := list.(head := list.next[e]);
      if list.head.None? {
        list := list.(tail := ListHead);
      }
      popped := popped + 1;
    }

    /** The opcodes of these renderings are there, and nothing else. */
    ghost predicate Written(out: bool, done: Trees)
      reads this
    {
      var c := CodeOf(done, 0, entryIndex);
      nrEntries == |c| && output == (if out then c else []) && calls == CallsOf(done)
    }

    method SetEntry(out: bool, e: Id, ghost k: nat, ghost done: Trees, ghost order: seq<Id>, ghost places: seq<nat>)
      requires k < |order| == |places| && Distinct(order) && e == order[k] < |g| == |entryIndex|
      requires Written(out, done) && nrEntries == places[k]
      requires PlacedIn(order, places, if out then |order| else k, entryIndex)
      modifies this`entryIndex
      ensures PlacedIn(order, places, if out then |order| else k + 1, entryIndex) && |entryIndex| == |g|
      ensures Written(out, done) && (out ==> entryIndex == old(entryIndex))
    {
      EntryOfNext(order, places, k, if out then |order| else k, entryIndex);
      CodeOfLength(done, 0, entryIndex, 0, entryIndex[e := nrEntries]);
      entryIndex := entryIndex[e := nrEntries];
    }

    /** Render the body of the first element of the list, after `done`. */
    method RenderNext(out: bool, ghost x: Tree, ghost done: Trees, ghost after: Trees, ghost order: seq<Id>,
                      ghost places: seq<nat>)
      requires Grounded() && Valid() && list.head.Some? && popped + 1 < |plan|
      requires popped < |order| == |places| && Distinct(order) && list.head.value == order[popped] < |g|
      requires ExpandsBody(g, order[popped], x) && plan[popped] + Calls(x) == plan[popped + 1]
      requires Written(out, done) && calls == plan[popped] && nrEntries == places[popped] && after == Snoc(done, x)
      requires PlacedIn(order, places, if out then |order| else popped, entryIndex)
      modifies this
      ensures Valid() && popped == old(popped) + 1 && calls == plan[popped] && Written(out, after)
      ensures PlacedIn(order, places, if out then |order| else popped, entryIndex)
      ensures out ==> entryIndex == old(entryIndex)
    {
      ghost var k := popped;
      var e := Unlink();
      SetEntry(out, e, k, done, order, places);
      RenderBody(out, e, x);
    }

    /** These renderings are there, and the entries of the bodies that have been popped. */
    ghost predicate SoFar(out: bool, done: Trees, order: seq<Id>, places: seq<nat>)
      requires |order| == |places|
      reads this
    {
      && Valid() && popped <= |g| && popped < |plan| && calls == plan[popped] && Written(out, done)
      && PlacedIn(order, places, if out then |order| else popped, entryIndex)
    }

    /** Render all bodies that are called for, each one once. */
    method RenderOutOfLineList(out: bool, ghost v: View)
      requires Grounded() && Describes(g, v) && plan == v.plan
      requires SoFar(out, v.forests[0], v.order, v.places) && popped == 0
      modifies this
      ensures Idle() && PlacedIn(v.order, v.places, |v.order|, entryIndex)
      ensures output == if out then CodeOf(v.forests[|g|], 0, entryIndex) else []
    {
      while list.head.Some?
        invariant popped <= |g| && SoFar(out, v.forests[popped], v.order, v.places)
        decreases |g| - popped
      {
        assert StepAt(g, v, popped);
        assert popped < |g| ==> StepAt(g, v, popped + 1);
        RenderStep(out, v);
      }
      assert StepAt(g, v, popped);
      PopTimely(plan, popped, list);
    }

    /** The body that is next, and that it is its turn. */
    lemma {:induction false} NextReady(out: bool, v: View) returns (x: Tree)
      requires Grounded() && |v.forests| == |v.plan| == |g| + 1 && plan == v.plan
      requires |v.order| == |v.places| <= |g| && popped <= |g| && StepAt(g, v, popped) && list.head.Some?
      requires popped < |g| ==> v.plan[popped + 1] == CallsOf(v.forests[popped + 1])
      requires SoFar(out, v.forests[popped], v.order, v.places)
      ensures popped < |v.order| && list.head.value == v.order[popped] < |g|
      ensures v.forests[popped + 1] == Snoc(v.forests[popped], x) && ExpandsBody(g, v.order[popped], x)
      ensures plan[popped] + Calls(x) == plan[popped + 1] && nrEntries == v.places[popped]
    {
      PopTimely(plan, popped, list);
      x := NextBody(g, v, popped, entryIndex);
    }

    method RenderStep(out: bool, ghost v: View)
      requires Grounded() && |v.forests| == |v.plan| == |g| + 1 && plan == v.plan
      requires |v.order| == |v.places| <= |g| && Distinct(v.order)
      requires popped <= |g| && StepAt(g, v, popped) && list.head.Some?
      requires popped < |g| ==> v.plan[popped + 1] == CallsOf(v.forests[popped + 1])
      requires SoFar(out, v.forests[popped], v.order, v.places)
      modifies this
      ensures popped == old(popped) + 1 <= |g| && SoFar(out, v.forests[popped], v.order, v.places)
    {
      ghost var x := NextReady(out, v);
      RenderNext(out, x, v.forests[popped], v.forests[popped + 1], v.order, v.places);
    }

    /** The main program. */
    method RenderMain(out: bool, ghost main: Tree)
      requires Grounded() && |g| > 0 && ExpandsMain(g, main) && plan[0] == Calls(main)
      requires Valid() && popped == 0 && calls == [] && nrEntries == 0 && output == []
      modifies this
      ensures Valid() && popped == 0 && calls == plan[0] && Written(out, Snoc(Nil, main))
      ensures entryIndex == old(entryIndex)
    {
      MainFacts(g, main, entryIndex);
      FromNothing(Code(main.inside.last, 0, entryIndex), Calls(main));
      RenderElement(out, ROOT, None, main.inside.last);
      RenderOpcode(out, Complete);
    }

    /** One pass over the grammar, which writes if `out` is set. */
    method RenderPass(out: bool, ghost v: View)
      requires Grounded() && Describes(g, v) && plan == v.plan
      requires Idle() && output == [] && true !in list.rendered
      requires out ==> PlacedIn(v.order, v.places, |v.order|, entryIndex)
      modifies this
      ensures Idle() && PlacedIn(v.order, v.places, |v.order|, entryIndex)
      ensures output == if out then CodeOf(v.forests[|g|], 0, entryIndex) else []
    {
      nrEntries := 0;
      calls, popped := [], 0;
      assert StepAt(g, v, 0);
      OneCall(v.forests[0]);
      RenderMain(out, v.forests[0].last);
      RenderOutOfLineList(out, v);
    }

    /** After both passes, the whole program is written, and the entries in it are the
        places of the bodies. The links of the first pass are still there in the
        second one. */
    method RenderTwice(ghost v: View)
      requires Grounded() && Describes(g, v) && plan == v.plan
      requires Idle() && output == [] && true !in list.rendered
      modifies this
      ensures PlacedIn(v.order, v.places, |v.order|, entryIndex)
      ensures output == CodeOf(v.forests[|g|], 0, entryIndex) && |entryIndex| == |g|
    {
      RenderPass(false, v);
      ghost var entries := entryIndex;
      var e := 0;
      while e < |g|
        invariant e <= |g| && Idle() && output == [] && entryIndex == entries
        invariant forall i :: 0 <= i < e ==> !list.rendered[i]
      {
        list := list.(rendered := list.rendered[e := false]);
        e := e + 1;
      }
      RenderPass(true, v);
    }
  }

  /** The state machine of a grammar: the whole program, with jumps to the places of
      the bodies. */
  method Render(g: Grammar, ghost src: Source) returns (machine: seq<Opcode>, entry: seq<nat>)
    requires Means(g, src)
    ensures machine == Whole(src, entry) && Placed(src, entry)
  {
    ViewDescribes(g, src);
    PlanGrows(src);
    var r := new Renderer(g, ViewOf(src));
    r.RenderTwice(ViewOf(src));
    machine, entry := r.output, r.entryIndex;
  }

  /** Setting an entry that has been set changes nothing. */
  lemma {:induction false} EntryOfNext(order: seq<Id>, places: seq<nat>, k: nat, placed: nat, entry: seq<nat>)
    requires k < |order| == |places| && Distinct(order) && order[k] < |entry|
    requires k <= placed && PlacedIn(order, places, placed, entry)
    ensures var entry' := entry[order[k] := places[k]];
            PlacedIn(order, places, if k < placed then placed else k + 1, entry') && (k < placed ==> entry' == entry)
  {
    var entry' := entry[order[k] := places[k]];
    forall i | 0 <= i <= k ensures PlacedAt(order, places, i, entry') {
      if i < k {
        assert Differ(order, i, k);
        assert PlacedAt(order, places, i, entry);
      }
    }
    if k < placed {
      assert PlacedAt(order, places, k, entry);
      assert entry' == entry;
    }
  }

  /** The body that is next, and what it adds. */
  lemma {:induction false} NextBody(g: Grammar, v: View, k: nat, entry: seq<nat>) returns (x: Tree)
    requires WellFormed(g) && k <= |g| && |v.forests| == |v.plan| == |g| + 1
    requires |v.order| == |v.places| <= |g| && StepAt(g, v, k) && k < |v.order|
    requires v.plan[k + 1] == CallsOf(v.forests[k + 1])
    ensures v.forests[k + 1] == Snoc(v.forests[k], x)
    ensures v.order[k] < |g| && ExpandsBody(g, v.order[k], x)
    ensures v.plan[k] + Calls(x) == v.plan[k + 1]
    ensures v.places[k] == |CodeOf(v.forests[k], 0, entry)|
  {
    x := v.forests[k + 1].last;
    CodeOfLength(v.forests[k], 0, entry, 0, []);
  }

  // ------------------------------------------------------------------ main result

  /** Every operand behind a tag is where a whole body begins; every other operand ends
      a repetition and goes back. */
  lemma {:induction false} EveryJumpFindsItsBody(g: Grammar, src: Source, machine: seq<Opcode>, entry: seq<nat>, k: nat)
    requires Means(g, src) && machine == Whole(src, entry) && Placed(src, entry)
    requires k < |machine| && machine[k].JumpTarget?
    ensures k > 0
    ensures (machine[k - 1].Tag? && exists x :: x in Order(src) && BodyStands(src, machine, entry, x, machine[k].n))
            || ((machine[k - 1].EndSeqOf? || machine[k - 1].EndSetOf?) && machine[k].n < k)
  {
    PartialClosed(g, src);
    JumpsLand(src, entry, k);
  }
}
