/** ASN.1 grammars and the renderings that their elements mean.

    Elements that are used more than once or can be skipped are left out of line,
    if they have a body.
  */
module Asn1Grammar {
  import opened Wrappers
  import opened Identities
  import opened Asn1Program

  datatype Compound = NotCompound | SetOf | Sequence | SequenceOf | Choice | Any | TypeRef | TagOverride

  const UNIV := 0

  datatype Element = Element(
    compound: Compound,
    refCount: nat,
    children: seq<Id>,
    typeElement: Id,
    action: Option<nat>,
    cls: nat,
    cons: bool,
    tag: nat,
    skippable: bool,
    conditional: bool)

  type Grammar = seq<Element>

  predicate Repeats(c: Compound) { c.SequenceOf? || c.SetOf? }
  predicate HasBody(c: Compound) { c.Sequence? || Repeats(c) }

  /** What the parser builds: links stay inside the grammar, and repetitions and
      overriding tags have something to apply to. */
  predicate LinksInside(e: Element, n: nat) {
    && (forall i :: 0 <= i < |e.children| ==> e.children[i] < n)
    && (e.compound.TypeRef? ==> e.typeElement < n)
    && (Repeats(e.compound) || e.compound.TagOverride? ==> |e.children| > 0)
  }

  predicate WellFormed(g: Grammar) {
    forall e :: 0 <= e < |g| ==> LinksInside(g[e], |g|)
  }

  /** The element whose tag replaces the element's own. */
  type Override = Option<Id>

  predicate Allowed(g: Grammar, t: Override) { t.Some? ==> t.value < |g| }

  predicate Skippable(g: Grammar, e: Id, t: Override)
    requires e < |g| && Allowed(g, t)
  {
    g[e].skippable || (t.Some? && g[t.value].skippable)
  }

  predicate Conditional(g: Grammar, e: Id, t: Override)
    requires e < |g| && Allowed(g, t)
  {
    g[e].conditional || (t.Some? && g[t.value].conditional)
  }

  predicate OutOfLine(g: Grammar, e: Id, t: Override)
    requires e < |g| && Allowed(g, t)
  {
    g[e].refCount > 1 || Skippable(g, e, t)
  }

  /** A jump is rendered here, and the content elsewhere. */
  predicate Jumps(g: Grammar, e: Id, t: Override)
    requires e < |g| && Allowed(g, t)
  {
    HasBody(g[e].compound) && OutOfLine(g, e, t)
  }

  /** A reference without a tag of its own. */
  predicate Transparent(e: Element) {
    e.compound.TypeRef? && e.cls == UNIV && !e.cons && e.tag == 0
  }

  type Step = (Id, Override)

  function Plain(ids: seq<Id>): (s: seq<Step>)
    ensures |s| == |ids| && forall i :: 0 <= i < |s| ==> s[i] == (ids[i], None)
  {
    if |ids| == 0 then [] else Plain(ids[..|ids| - 1]) + [(ids[|ids| - 1], None)]
  }

  predicate AllAllowed(g: Grammar, s: seq<Step>) {
    forall i :: 0 <= i < |s| ==> s[i].0 < |g| && Allowed(g, s[i].1)
  }

  /** The elements that are rendered in the place of this one, in order. */
  function Steps(g: Grammar, e: Id, t: Override): (s: seq<Step>)
    requires WellFormed(g) && e < |g| && Allowed(g, t)
    ensures AllAllowed(g, s)
  {
    assert LinksInside(g[e], |g|);
    match g[e].compound
    case TagOverride => [(g[e].children[0], Some(e))]
    case TypeRef => [(g[e].typeElement, if Transparent(g[e]) then t else None)]
    case Choice => Plain(g[e].children)
    case Sequence => if OutOfLine(g, e, t) then [] else Plain(g[e].children)
    case SequenceOf => if OutOfLine(g, e, t) then [] else [(g[e].children[0], None)]
    case SetOf => if OutOfLine(g, e, t) then [] else [(g[e].children[0], None)]
    case NotCompound => []
    case Any => []
  }

  function TagOf(g: Grammar, e: Id, t: Override): Opcode
    requires e < |g| && Allowed(g, t)
  {
    var owner := g[if t.Some? then t.value else e];
    Tag(owner.cls == UNIV && owner.tag !in {14, 15, 31}, owner.cls, owner.cons || g[e].cons, owner.tag)
  }

  function ActionCode(e: Element): seq<Opcode> {
    if e.action.Some? then [ActionOf(e.action.value)] else []
  }

  function ActCode(e: Element): seq<Opcode> {
    if e.action.Some? then [Act] else []
  }

  /** The operation that matches the element, with its tag. */
  function Operation(g: Grammar, e: Id, t: Override): seq<Opcode>
    requires e < |g| && Allowed(g, t)
  {
    var cond, act, skip := Conditional(g, e, t), g[e].action.Some?, Skippable(g, e, t);
    match g[e].compound
    case TagOverride => []
    case Choice => []
    case Any => [MatchAny(cond, act)]
    case TypeRef => if Transparent(g[e]) then [] else [Match(cond, false, act, skip), TagOf(g, e, t)]
    case NotCompound => [Match(cond, false, act, skip), TagOf(g, e, t)]
    case _ => [Match(cond, OutOfLine(g, e, t), false, skip), TagOf(g, e, t)]
  }

  /** The opcode that ends a body. */
  function EndOf(e: Element): seq<Opcode> {
    var act := e.action.Some?;
    match e.compound
    case Sequence => [EndSeq(act)]
    case SequenceOf => [EndSeqOf(act)]
    case SetOf => [EndSetOf(act)]
    case _ => []
  }

  /** The opcode that ends the element where it is rendered. */
  function InlineEnd(g: Grammar, e: Id, t: Override): seq<Opcode>
    requires e < |g| && Allowed(g, t)
  {
    if g[e].compound.Choice? then if Skippable(g, e, t) then [] else [CondFail]
    else if Jumps(g, e, t) then []
    else EndOf(g[e])
  }

  function InlineFinal(g: Grammar, e: Id, t: Override): seq<Opcode>
    requires e < |g| && Allowed(g, t)
  {
    if g[e].compound.TagOverride? || Jumps(g, e, t) then []
    else (if g[e].compound.Choice? || g[e].compound.TypeRef? then ActCode(g[e]) else []) + ActionCode(g[e])
  }

  /** `x` is the rendering of the element. */
  predicate Expands(g: Grammar, e: Id, t: Override, x: Tree)
    requires WellFormed(g) && e < |g| && Allowed(g, t)
    decreases x
  {
    && x.operation == Operation(g, e, t)
    && x.jump == (if Jumps(g, e, t) then Some(e) else None)
    && ExpandsAll(g, Steps(g, e, t), x.inside)
    && x.end == InlineEnd(g, e, t)
    && x.loop == (Repeats(g[e].compound) && !Jumps(g, e, t))
    && x.final == InlineFinal(g, e, t)
  }

  predicate ExpandsAll(g: Grammar, s: seq<Step>, xs: Trees)
    requires WellFormed(g) && AllAllowed(g, s)
    decreases xs
  {
    match xs
    case Nil => |s| == 0
    case Snoc(init, last) =>
      |s| > 0 && ExpandsAll(g, s[..|s| - 1], init) && Expands(g, s[|s| - 1].0, s[|s| - 1].1, last)
  }

  /** `x` is the body of the element, without the operation that jumps to it. */
  predicate ExpandsBody(g: Grammar, e: Id, x: Tree)
    requires WellFormed(g) && e < |g|
  {
    assert LinksInside(g[e], |g|);
    && x.operation == [] && x.jump == None
    && ExpandsAll(g, Plain(g[e].children), x.inside)
    && x.end == EndOf(g[e]) && x.loop == Repeats(g[e].compound)
    && x.final == ActionCode(g[e]) + [Return]
  }

  const ROOT: Id := 0

  /** The main program is the rendering of the first type. */
  predicate ExpandsMain(g: Grammar, x: Tree)
    requires WellFormed(g) && |g| > 0
  {
    && x.operation == [] && x.jump == None && x.end == [] && !x.loop && x.final == [Complete]
    && ExpandsAll(g, [(ROOT, None)], x.inside)
  }

  /** The main program and the bodies are what the grammar says, or are left out. */
  predicate Partial(g: Grammar, src: Source) {
    && WellFormed(g) && |g| == |src.bodies| > 0
    && ExpandsMain(g, src.main)
    && forall e :: 0 <= e < |g| ==> ExpandsBody(g, e, src.bodies[e]) || src.bodies[e] == NOTHING
  }

  const NOTHING := Node([], None, Nil, [], false, [])

  lemma LabelsProper(g: Grammar, e: Id, t: Override)
    requires e < |g| && Allowed(g, t)
    ensures NoJumps(Operation(g, e, t)) && NoJumps(InlineEnd(g, e, t)) && NoJumps(InlineFinal(g, e, t))
    ensures Jumps(g, e, t) ==> EndsWithTag(Operation(g, e, t))
    ensures Repeats(g[e].compound) && !Jumps(g, e, t) ==> EndsWithRepeat(InlineEnd(g, e, t))
  {}

  lemma {:induction false} ExpandsKnown(g: Grammar, e: Id, t: Override, x: Tree)
    requires WellFormed(g) && e < |g| && Allowed(g, t) && Expands(g, e, t, x)
    ensures Known(Calls(x), |g|) && Proper(x)
    decreases x
  {
    ExpandsAllKnown(g, Steps(g, e, t), x.inside);
    LabelsProper(g, e, t);
  }

  lemma {:induction false} ExpandsAllKnown(g: Grammar, s: seq<Step>, xs: Trees)
    requires WellFormed(g) && AllAllowed(g, s) && ExpandsAll(g, s, xs)
    ensures Known(CallsOf(xs), |g|) && AllProper(xs)
    decreases xs
  {
    match xs
    case Nil =>
    case Snoc(init, last) =>
      ExpandsAllKnown(g, s[..|s| - 1], init);
      ExpandsKnown(g, s[|s| - 1].0, s[|s| - 1].1, last);
  }

  lemma {:induction false} OneStep(g: Grammar, e: Id, t: Override, xs: Trees, first: nat, entry: seq<nat>)
    requires WellFormed(g) && e < |g| && Allowed(g, t) && ExpandsAll(g, [(e, t)], xs)
    ensures xs.Snoc? && Expands(g, e, t, xs.last)
    ensures CodeOf(xs, first, entry) == Code(xs.last, first, entry) && CallsOf(xs) == Calls(xs.last)
  {
    assert [(e, t)][..0] == [];
    assert xs.init == Nil;
    assert [] + Code(xs.last, first, entry) == Code(xs.last, first, entry);
  }

  lemma {:induction false} Plainly(x: Tree, base: nat, entry: seq<nat>)
    requires x.jump.None? && x.operation == []
    ensures Code(x, base, entry) == InsideCode(x, base, entry) + x.final
  {
    InlineCode(x, base, base, entry);
    assert [] + InsideCode(x, base, entry) == InsideCode(x, base, entry);
  }

  lemma {:induction false} OneCall(f: Trees)
    requires f.Snoc? && f.init == Nil
    ensures CallsOf(f) == Calls(f.last)
  {
    assert [] + Calls(f.last) == Calls(f.last);
  }

  /** The main program as a single rendering. */
  lemma {:induction false} MainFacts(g: Grammar, main: Tree, entry: seq<nat>)
    requires WellFormed(g) && |g| > 0 && ExpandsMain(g, main)
    ensures main.inside.Snoc? && Expands(g, ROOT, None, main.inside.last)
    ensures var x := main.inside.last;
            CodeOf(Snoc(Nil, main), 0, entry) == Code(x, 0, entry) + [Complete] && Calls(main) == Calls(x)
    ensures CallsOf(Snoc(Nil, main)) == Calls(main)
  {
    OneStep(g, ROOT, None, main.inside, 0, entry);
    Plainly(main, 0, entry);
    NoLoop(main, 0, entry);
    OneCall(Snoc(Nil, main));
    assert CodeOf(Snoc(Nil, main), 0, entry) == [] + Code(main, 0, entry);
  }

  lemma {:induction false} BodyKnown(g: Grammar, e: Id, x: Tree)
    requires WellFormed(g) && e < |g| && ExpandsBody(g, e, x)
    ensures Known(Calls(x), |g|) && Proper(x)
  {
    assert LinksInside(g[e], |g|);
    ExpandsAllKnown(g, Plain(g[e].children), x.inside);
  }

  /** Whatever is jumped to is an element, and labels stand where they should. */
  lemma {:induction false} PartialClosed(g: Grammar, src: Source)
    requires Partial(g, src)
    ensures Closed(src) && AllBodiesProper(src)
  {
    ExpandsAllKnown(g, [(ROOT, None)], src.main.inside);
    forall e | 0 <= e < |g| ensures Known(Calls(src.bodies[e]), |g|) && Proper(src.bodies[e]) {
      if ExpandsBody(g, e, src.bodies[e]) { BodyKnown(g, e, src.bodies[e]); }
    }
  }

  /** `src` is what the grammar means: whatever is jumped to has a body.  When there
      is such an `src`, and that there is no other, is the matter of `Asn1Meaning`. */
  predicate Means(g: Grammar, src: Source) {
    Partial(g, src) && Closed(src) && forall i :: 0 <= i < |Order(src)| ==> src.bodies[Order(src)[i]] != NOTHING
  }

  // ------------------------------------------------------------ a recursive type

  /** `A ::= SEQUENCE { b A }`, where `A` is used more than once: the sequence and the
      reference to it. */
  const RECURSIVE: Grammar := [
    Element(Sequence, 2, [1], 0, None, UNIV, true, 16, false, false),
    Element(TypeRef, 0, [], 0, None, UNIV, false, 0, false, false)
  ]

  /** The rendering of the sequence: a jump. */
  const JUMP := Node([Match(false, true, false, false), Tag(true, UNIV, true, 16)], Some(0), Nil, [], false, [])

  const RECURSIVE_SOURCE := Source(
    Node([], None, Snoc(Nil, JUMP), [], false, [Complete]),
    [Node([], None, Snoc(Nil, Node([], None, Snoc(Nil, JUMP), [], false, [])), [EndSeq(false)], false, [Return]),
     NOTHING])

  lemma {:induction false} RecursiveJump()
    ensures WellFormed(RECURSIVE) && Expands(RECURSIVE, 0, None, JUMP) && Calls(JUMP) == [0]
  {
    var g := RECURSIVE;
    assert LinksInside(g[0], 2) && LinksInside(g[1], 2);
    assert g[0].compound == Sequence && OutOfLine(g, 0, None) && Jumps(g, 0, None);
    assert TagOf(g, 0, None) == Tag(true, UNIV, true, 16);
    assert Steps(g, 0, None) == [];
  }

  lemma {:induction false} OneTree(g: Grammar, e: Id, x: Tree)
    requires WellFormed(g) && e < |g| && Expands(g, e, None, x)
    ensures ExpandsAll(g, [(e, None)], Snoc(Nil, x)) && CallsOf(Snoc(Nil, x)) == Calls(x)
  {
    var s: seq<Step> := [(e, None)];
    assert s[..0] == [];
    assert [] + Calls(x) == Calls(x);
  }

  lemma {:induction false} RecursiveParts()
    ensures Partial(RECURSIVE, RECURSIVE_SOURCE)
  {
    var g, src := RECURSIVE, RECURSIVE_SOURCE;
    RecursiveJump();
    OneTree(g, 0, JUMP);
    var x := src.bodies[0].inside.last;
    assert Steps(g, 1, None) == [(0, None)];
    assert Expands(g, 1, None, x);
    OneTree(g, 1, x);
    assert g[0].children == [1];
    assert Plain([1]) == [(1, None)];
  }

  lemma {:induction false} RecursiveCalls()
    ensures Calls(RECURSIVE_SOURCE.main) == [0] && Calls(RECURSIVE_SOURCE.bodies[0]) == [0]
  {
    var x := RECURSIVE_SOURCE.bodies[0].inside.last;
    assert Calls(JUMP) == [0] && Calls(x) == [0];
  }

  /** Grammars may be recursive, as long as the recursion goes through a jump. */
  lemma {:induction false} RecursiveTypeMeans()
    ensures Means(RECURSIVE, RECURSIVE_SOURCE) && Order(RECURSIVE_SOURCE) == [0]
  {
    var src := RECURSIVE_SOURCE;
    RecursiveParts();
    RecursiveCalls();
    PartialClosed(RECURSIVE, src);
    RecursiveOrder(src);
  }

  lemma {:induction false} RecursiveOrder(src: Source)
    requires Closed(src) && |src.bodies| == 2 && Calls(src.main) == [0] && Calls(src.bodies[0]) == [0]
    ensures Order(src) == [0]
  {
    MergeOne([], 0);
    assert CallsOf(Forest(src, 0)) == [0];
    assert Firsts([0], 2) == [0];
    assert CallsOf(Forest(src, 1)) == [0] + [0];
    MergeConcat([], [0], [0]);
    MergeOne([0], 0);
    assert Seen(src, 1) == [0];
    Stable(src, 1, 2);
  }
}
