/** The program of a grammar reads what the grammar reads.

    `Loaded` collects what is known of the program: the bodies that are jumped to
    stand at their entries.  Then every rendering leads the machine where `Read` says
    (`ElementLeads`), whether it stands in place or is jumped to.
  */
module Asn1Accepts {
  import opened Wrappers
  import opened Identities
  import opened Asn1Program
  import opened Asn1Grammar
  import opened Asn1Meaning
  import opened Asn1Machine

  // ------------------------------------------------------------- a loaded program

  datatype Image = Image(g: Grammar, p: seq<Opcode>, entry: seq<nat>, bodies: seq<Tree>, ids: set<Id>, levels: nat)

  predicate StandsAt(p: seq<Opcode>, n: nat, c: seq<Opcode>) {
    n + |c| <= |p| && p[n..n + |c|] == c
  }

  lemma {:induction false} StandsParts(p: seq<Opcode>, n: nat, c: seq<Opcode>, a: seq<Opcode>, mid: nat,
                                       b: seq<Opcode>)
    requires StandsAt(p, n, c) && c == a + b && mid == n + |a|
    ensures StandsAt(p, n, a) && StandsAt(p, mid, b)
  {
    assert p[n..n + |a|] == (a + b)[..|a|] == a;
    assert p[mid..mid + |b|] == (a + b)[|a|..] == b;
  }

  lemma {:induction false} StandsCode(p: seq<Opcode>, n: nat, c: seq<Opcode>, i: nat)
    requires StandsAt(p, n, c) && i < |c|
    ensures n + i < |p| && p[n + i] == c[i]
  {
    assert p[n..n + |c|][i] == c[i];
  }

  predicate BodyLoaded(w: Image, e: Id) {
    && e < |w.g| && e < |w.bodies| && e < |w.entry| && WellFormed(w.g)
    && ExpandsBody(w.g, e, w.bodies[e]) && LevelsOf(w.bodies[e].inside) <= w.levels
    && CallsAmong(Calls(w.bodies[e]), w.ids)
    && StandsAt(w.p, w.entry[e], Code(w.bodies[e], w.entry[e], w.entry))
  }

  predicate Loaded(w: Image) {
    Parsed(w.g) && forall e :: e in w.ids ==> BodyLoaded(w, e)
  }

  /** What `Read` needs for `k` steps of the machine. */
  function Fuel(w: Image, k: nat): nat {
    if k == 0 then 0 else Fuel(w, k - 1) + w.levels + 1
  }

  predicate Enough(w: Image, a: Aim, levels: nat, n: nat) {
    a.enough ==> Fuel(w, a.k) + levels <= n
  }

  /** Only the place is another one. */
  predicate Along(mid: Aim, a: Aim) {
    mid.back == a.back && mid.enough == a.enough && mid.k == a.k
  }

  // ----------------------------------------------------------------- the contents

  /** What stands behind the contents of an element with a body. */
  function Tail(e: Element, first: nat): seq<Opcode> {
    EndOf(e) + (if Repeats(e.compound) then [JumpTarget(first)] else []) + ActionCode(e)
  }

  lemma {:induction false} TailSequence(p: seq<Opcode>, rule: Rule, e: Element, m: State, r: Result, first: nat, a: Aim)
    requires e.compound.Sequence? && StandsAt(p, m.pc, Tail(e, first)) && r == ThenUp(Done(m.input), e)
    requires a.pc == m.pc + |Tail(e, first)| && a.back == m.back
    ensures Leads(p, rule, m, r, a)
  {
    StandsCode(p, m.pc, Tail(e, first), 0);
    if e.action.Some? { StandsCode(p, m.pc, Tail(e, first), 1); }
    OneTurn(p, rule, m, r, a);
  }

  /** At the end of the data a list ends. */
  lemma {:induction false} TailList(p: seq<Opcode>, rule: Rule, e: Element, m: State, r: Result, first: nat, a: Aim)
    requires Repeats(e.compound) && StandsAt(p, m.pc, Tail(e, first)) && r == ThenUp(Done(m.input), e)
    requires |m.input.rest| == 0 && a.pc == m.pc + |Tail(e, first)| && a.back == m.back
    ensures Leads(p, rule, m, r, a)
  {
    StandsCode(p, m.pc, Tail(e, first), 0);
    StandsCode(p, m.pc, Tail(e, first), 1);
    if e.action.Some? { StandsCode(p, m.pc, Tail(e, first), 2); }
    OneTurn(p, rule, m, r, a);
  }

  /** While there are more, it begins again. */
  lemma {:induction false} TailAgain(p: seq<Opcode>, rule: Rule, e: Element, m: State, first: nat)
    requires Repeats(e.compound) && StandsAt(p, m.pc, Tail(e, first)) && |m.input.rest| > 0
    ensures Next(p, rule, m) == At(State(first, m.back, m.input))
  {
    StandsCode(p, m.pc, Tail(e, first), 0);
    StandsCode(p, m.pc, Tail(e, first), 1);
  }

  function ContentsCode(e: Element, xs: Trees, first: nat, entry: seq<nat>): seq<Opcode> {
    CodeOf(xs, first, entry) + Tail(e, first)
  }

  /** The renderings of these elements, which jump to loaded bodies only. */
  predicate RowOf(w: Image, ids: seq<Id>, xs: Trees) {
    && Loaded(w) && Inside(w.g, ids) && AllAllowed(w.g, Plain(ids)) && ExpandsAll(w.g, Plain(ids), xs)
    && CallsAmong(CallsOf(xs), w.ids)
  }

  predicate Row(w: Image, ids: seq<Id>, xs: Trees, pc: nat) {
    RowOf(w, ids, xs) && StandsAt(w.p, pc, CodeOf(xs, pc, w.entry))
  }

  predicate Contents(w: Image, e: Id, xs: Trees, pc: nat) {
    && e < |w.g| && HasBody(w.g[e].compound) && Row(w, w.g[e].children, xs, pc)
    && StandsAt(w.p, pc + |CodeOf(xs, pc, w.entry)|, Tail(w.g[e], pc))
  }

  lemma {:induction false} ContentsParts(p: seq<Opcode>, e: Element, xs: Trees, pc: nat, mid: nat, entry: seq<nat>)
    requires StandsAt(p, pc, ContentsCode(e, xs, pc, entry)) && mid == pc + |CodeOf(xs, pc, entry)|
    ensures StandsAt(p, pc, CodeOf(xs, pc, entry)) && StandsAt(p, mid, Tail(e, pc))
  {
    StandsParts(p, pc, ContentsCode(e, xs, pc, entry), CodeOf(xs, pc, entry), mid, Tail(e, pc));
  }

  lemma {:induction false} ContentsFrom(w: Image, e: Id, xs: Trees, pc: nat, mid: nat)
    requires e < |w.g| && HasBody(w.g[e].compound) && RowOf(w, w.g[e].children, xs)
    requires StandsAt(w.p, pc, ContentsCode(w.g[e], xs, pc, w.entry)) && mid == pc + |CodeOf(xs, pc, w.entry)|
    ensures Contents(w, e, xs, pc)
  {
    ContentsParts(w.p, w.g[e], xs, pc, mid, w.entry);
  }

  lemma {:induction false} SequenceGlue(p: seq<Opcode>, rule: Rule, e: Element, first: nat, m: State, r: Result,
                                        mid: Aim, a: Aim)
    requires Leads(p, rule, m, r, mid) && e.compound.Sequence? && StandsAt(p, mid.pc, Tail(e, first))
    requires Along(mid, a) && a.pc == mid.pc + |Tail(e, first)|
    ensures Leads(p, rule, m, ThenUp(r, e), a)
  {
    if r.Done? {
      TailSequence(p, rule, e, State(mid.pc, mid.back, r.input), ThenUp(r, e), first, a);
    }
    Chain(p, rule, m, r, mid, ThenUp(r, e), a);
  }

  lemma {:induction false} ContentsLead(w: Image, rule: Rule, n: nat, e: Id, xs: Trees, m: State, a: Aim)
    requires Contents(w, e, xs, m.pc) && Enough(w, a, LevelsOf(xs) + 1, n)
    requires a.pc == m.pc + |ContentsCode(w.g[e], xs, m.pc, w.entry)| && a.back == m.back
    ensures Leads(w.p, rule, m, ReadContents(w.g, rule, n, e, m.input), a)
    decreases n, 3, xs
  {
    var el, c := w.g[e], CodeOf(xs, m.pc, w.entry);
    var mid := a.(pc := m.pc + |c|);
    if Repeats(el.compound) {
      forall i: nat, s: Input, b: Aim | i < n && b.pc == mid.pc && b.back == m.back && Enough(w, b, LevelsOf(xs), i)
        ensures Leads(w.p, rule, State(m.pc, m.back, s), ReadAll(w.g, rule, i, el.children, s), b)
      {
        AllLead(w, rule, i, el.children, xs, State(m.pc, m.back, s), b);
      }
      ListLeads(w, rule, n, e, LevelsOf(xs), m, mid, a);
    } else {
      AllLead(w, rule, n, el.children, xs, m, mid);
      SequenceGlue(w.p, rule, el, m.pc, m, ReadAll(w.g, rule, n, el.children, m.input), mid, a);
    }
  }

  /** Once through the list, and then again or to the end. */
  function Again(r: Result, again: Result, e: Element): Result {
    if r.Done? && |r.input.rest| > 0 then again else ThenUp(r, e)
  }

  lemma {:induction false} ListGlue(p: seq<Opcode>, rule: Rule, e: Element, first: nat, m: State, r: Result,
                                    again: Result, mid: Aim, a: Aim)
    requires Leads(p, rule, m, r, mid) && Repeats(e.compound) && StandsAt(p, mid.pc, Tail(e, first))
    requires Along(mid, a) && a.pc == mid.pc + |Tail(e, first)|
    requires r.Done? ==> Leads(p, rule, State(first, mid.back, r.input), again, Sooner(a))
    ensures Leads(p, rule, m, Again(r, again, e), a)
  {
    if r.Done? {
      var m1 := State(mid.pc, mid.back, r.input);
      if |r.input.rest| > 0 {
        TailAgain(p, rule, e, m1, first);
        StepThen(p, rule, m1, State(first, mid.back, r.input), again, a);
      } else {
        TailList(p, rule, e, m1, ThenUp(r, e), first, a);
      }
    }
    Chain(p, rule, m, r, mid, Again(r, again, e), a);
  }

  lemma ListRead(g: Grammar, rule: Rule, n: nat, e: Id, s: Input)
    requires WellFormed(g) && e < |g| && Inside(g, g[e].children) && n > 0
    ensures var r := ReadAll(g, rule, n - 1, g[e].children, s);
            ReadList(g, rule, n, e, s)
            == Again(r, if r.Done? then ReadList(g, rule, n - 1, e, r.input) else r, g[e])
  {}

  /** Whenever the contents begin at `first`, they lead to `last`. */
  ghost predicate PassLeads(w: Image, rule: Rule, e: Id, levels: nat, first: nat, last: nat, back: seq<nat>, n: nat)
    requires WellFormed(w.g) && e < |w.g| && Inside(w.g, w.g[e].children)
  {
    forall i: nat, s: Input, b: Aim :: i < n && b.pc == last && b.back == back && Enough(w, b, levels, i) ==>
      Leads(w.p, rule, State(first, back, s), ReadAll(w.g, rule, i, w.g[e].children, s), b)
  }

  lemma {:induction false} ListLeads(w: Image, rule: Rule, n: nat, e: Id, levels: nat, m: State, mid: Aim, a: Aim)
    requires WellFormed(w.g) && e < |w.g| && Inside(w.g, w.g[e].children) && Repeats(w.g[e].compound)
    requires PassLeads(w, rule, e, levels, m.pc, mid.pc, m.back, n) && Enough(w, a, levels + 1, n)
    requires StandsAt(w.p, mid.pc, Tail(w.g[e], m.pc)) && Along(mid, a) && a.back == m.back
    requires a.pc == mid.pc + |Tail(w.g[e], m.pc)|
    ensures Leads(w.p, rule, m, ReadList(w.g, rule, n, e, m.input), a)
    decreases n
  {
    if n > 0 {
      var r := ReadAll(w.g, rule, n - 1, w.g[e].children, m.input);
      var again := r;
      assert Leads(w.p, rule, m, r, mid);
      if r.Done? {
        ListLeads(w, rule, n - 1, e, levels, State(m.pc, m.back, r.input), Sooner(mid), Sooner(a));
        again := ReadList(w.g, rule, n - 1, e, r.input);
      }
      ListRead(w.g, rule, n, e, m.input);
      ListGlue(w.p, rule, w.g[e], m.pc, m, r, again, mid, a);
    }
  }

  // ------------------------------------------------------------ several renderings

  lemma PlainInit(ids: seq<Id>)
    requires |ids| > 0
    ensures var s := Plain(ids); s[..|s| - 1] == Plain(ids[..|ids| - 1]) && s[|s| - 1] == (ids[|ids| - 1], None)
  {}

  predicate Reaches(w: Image, e: Id, t: Override, x: Tree, pc: nat) {
    && e < |w.g| && Loaded(w) && Allowed(w.g, t) && Expands(w.g, e, t, x)
    && CallsAmong(Calls(x), w.ids) && StandsAt(w.p, pc, Code(x, pc, w.entry))
  }

  lemma {:induction false} RowExpands(g: Grammar, ids: seq<Id>, xs: Trees)
    requires WellFormed(g) && Inside(g, ids) && AllAllowed(g, Plain(ids)) && ExpandsAll(g, Plain(ids), xs) && xs.Snoc?
    ensures |ids| > 0 && AllAllowed(g, Plain(ids[..|ids| - 1])) && ExpandsAll(g, Plain(ids[..|ids| - 1]), xs.init)
    ensures Expands(g, ids[|ids| - 1], None, xs.last)
  {
    PlainInit(ids);
  }

  lemma {:induction false} RowInit(w: Image, ids: seq<Id>, xs: Trees, pc: nat, mid: nat)
    requires Row(w, ids, xs, pc) && xs.Snoc? && mid == pc + |CodeOf(xs.init, pc, w.entry)|
    ensures |ids| > 0 && Row(w, ids[..|ids| - 1], xs.init, pc)
    ensures Reaches(w, ids[|ids| - 1], None, xs.last, mid)
    ensures |CodeOf(xs, pc, w.entry)| == mid - pc + |Code(xs.last, mid, w.entry)|
  {
    RowExpands(w.g, ids, xs);
    StandsParts(w.p, pc, CodeOf(xs, pc, w.entry), CodeOf(xs.init, pc, w.entry), mid, Code(xs.last, mid, w.entry));
  }

  lemma ReadLast(g: Grammar, rule: Rule, n: nat, ids: seq<Id>, s: Input)
    requires WellFormed(g) && Inside(g, ids) && |ids| > 0
    ensures var r := ReadAll(g, rule, n, ids[..|ids| - 1], s);
            ReadAll(g, rule, n, ids, s) == if r.Done? then Read(g, rule, n, ids[|ids| - 1], None, r.input) else r
  {}

  lemma {:induction false} AllLead(w: Image, rule: Rule, n: nat, ids: seq<Id>, xs: Trees, m: State, a: Aim)
    requires Row(w, ids, xs, m.pc) && Enough(w, a, LevelsOf(xs), n)
    requires a.pc == m.pc + |CodeOf(xs, m.pc, w.entry)| && a.back == m.back
    ensures Leads(w.p, rule, m, ReadAll(w.g, rule, n, ids, m.input), a)
    decreases n, 1, xs, 0
  {
    match xs
    case Nil =>
      NoSteps(w.p, rule, m, Done(m.input), a);
    case Snoc(init, last) =>
      var mid := a.(pc := m.pc + |CodeOf(init, m.pc, w.entry)|);
      RowInit(w, ids, xs, m.pc, mid.pc);
      AllLead(w, rule, n, ids[..|ids| - 1], init, m, mid);
      var r := ReadAll(w.g, rule, n, ids[..|ids| - 1], m.input);
      var r1 := r;
      if r.Done? {
        ElementLeads(w, rule, n, ids[|ids| - 1], None, last, State(mid.pc, mid.back, r.input), a);
        r1 := Read(w.g, rule, n, ids[|ids| - 1], None, r.input);
      }
      ReadLast(w.g, rule, n, ids, m.input);
      Chain(w.p, rule, m, r, mid, r1, a);
  }

  // ---------------------------------------------------------------- one rendering

  /** Here the machine decides as the grammar does. */
  lemma SameDecision(g: Grammar, rule: Rule, e: Id, t: Override, s: Input)
    requires e < |g| && Allowed(g, t) && !g[e].compound.Any?
    ensures var o := TagOf(g, e, t);
            && Legible(o) && o.cons == Constructed(g, e, t)
            && Judge(rule, Conditional(g, e, t), Skippable(g, e, t), s, Wanted(o.cls, o.cons, o.tag, s))
               == Decide(g, rule, e, t, s)
  {}

  lemma {:induction false} LeafCode(g: Grammar, e: Id, t: Override, x: Tree, base: nat, entry: seq<nat>)
    requires WellFormed(g) && e < |g| && Allowed(g, t) && Expands(g, e, t, x)
    requires g[e].compound.Any? || g[e].compound.NotCompound?
    ensures Code(x, base, entry) == Operation(g, e, t) + ActionCode(g[e])
  {
    assert x.inside.Nil?;
    Bare(x, base, entry);
  }

  lemma Bare(x: Tree, base: nat, entry: seq<nat>)
    requires x.jump.None? && x.inside.Nil? && x.end == [] && !x.loop
    ensures Code(x, base, entry) == x.operation + x.final
  {}

  lemma {:induction false} AnyTurn(p: seq<Opcode>, rule: Rule, g: Grammar, e: Id, t: Override, m: State, n: nat)
    requires WellFormed(g) && e < |g| && Allowed(g, t) && g[e].compound.Any? && n > 0
    requires StandsAt(p, m.pc, Operation(g, e, t) + ActionCode(g[e]))
    ensures Turns(p, rule, m, ReadTagged(g, rule, n, e, t, m.input),
                  m.pc + |Operation(g, e, t) + ActionCode(g[e])|, m.back)
  {
    var c := Operation(g, e, t) + ActionCode(g[e]);
    StandsCode(p, m.pc, c, 0);
    if g[e].action.Some? { StandsCode(p, m.pc, c, 1); }
  }

  lemma {:induction false} PrimitiveTurn(p: seq<Opcode>, rule: Rule, g: Grammar, e: Id, t: Override, m: State, n: nat)
    requires WellFormed(g) && e < |g| && Allowed(g, t) && g[e].compound.NotCompound? && n > 0
    requires StandsAt(p, m.pc, Operation(g, e, t) + ActionCode(g[e]))
    ensures Turns(p, rule, m, ReadTagged(g, rule, n, e, t, m.input),
                  m.pc + |Operation(g, e, t) + ActionCode(g[e])|, m.back)
  {
    var c := Operation(g, e, t) + ActionCode(g[e]);
    StandsCode(p, m.pc, c, 0);
    StandsCode(p, m.pc, c, 1);
    if g[e].action.Some? { StandsCode(p, m.pc, c, 2); }
    SameDecision(g, rule, e, t, m.input);
  }

  lemma Tagged(g: Grammar, rule: Rule, n: nat, e: Id, t: Override, s: Input)
    requires WellFormed(g) && e < |g| && Allowed(g, t) && n > 0
    requires g[e].compound.Any? || g[e].compound.NotCompound? || HasBody(g[e].compound)
    ensures Read(g, rule, n, e, t, s) == ReadTagged(g, rule, n, e, t, s)
  {}

  lemma {:induction false} LeafLeads(w: Image, rule: Rule, n: nat, e: Id, t: Override, x: Tree, m: State, a: Aim)
    requires Reaches(w, e, t, x, m.pc) && n > 0
    requires w.g[e].compound.Any? || w.g[e].compound.NotCompound?
    requires a.pc == m.pc + |Code(x, m.pc, w.entry)| && a.back == m.back
    ensures Leads(w.p, rule, m, Read(w.g, rule, n, e, t, m.input), a)
  {
    LeafCode(w.g, e, t, x, m.pc, w.entry);
    Tagged(w.g, rule, n, e, t, m.input);
    if w.g[e].compound.Any? {
      AnyTurn(w.p, rule, w.g, e, t, m, n);
    } else {
      PrimitiveTurn(w.p, rule, w.g, e, t, m, n);
    }
    OneTurn(w.p, rule, m, ReadTagged(w.g, rule, n, e, t, m.input), a);
  }

  /** What stands alone in the place of the element. */
  lemma {:induction false} OverrideShape(g: Grammar, e: Id, t: Override, x: Tree, pc: nat, entry: seq<nat>)
    requires WellFormed(g) && e < |g| && Allowed(g, t) && Expands(g, e, t, x) && g[e].compound.TagOverride?
    ensures |g[e].children| > 0 && g[e].children[0] < |g| && x.inside.Snoc?
    ensures Expands(g, g[e].children[0], Some(e), x.inside.last)
    ensures Code(x, pc, entry) == Code(x.inside.last, pc, entry) && Calls(x) == Calls(x.inside.last)
    ensures Levels(x.inside.last) < Levels(x)
  {
    assert LinksInside(g[e], |g|);
    OneStep(g, g[e].children[0], Some(e), x.inside, pc, entry);
    Wrapped(x, pc, entry);
  }

  lemma {:induction false} OverrideLeads(w: Image, rule: Rule, n: nat, e: Id, t: Override, x: Tree, m: State, a: Aim)
    requires Reaches(w, e, t, x, m.pc) && w.g[e].compound.TagOverride? && n > 0 && Enough(w, a, Levels(x), n)
    requires a.pc == m.pc + |Code(x, m.pc, w.entry)| && a.back == m.back
    ensures Leads(w.p, rule, m, Read(w.g, rule, n, e, t, m.input), a)
    decreases n, 0, x, 0
  {
    OverrideShape(w.g, e, t, x, m.pc, w.entry);
    ElementLeads(w, rule, n - 1, w.g[e].children[0], Some(e), x.inside.last, m, a);
  }

  /** The action behind a choice or a reference. */
  lemma {:induction false} FinalAct(p: seq<Opcode>, rule: Rule, e: Element, m: State, a: Aim)
    requires StandsAt(p, m.pc, ActCode(e) + ActionCode(e))
    requires a.pc == m.pc + |ActCode(e) + ActionCode(e)| && a.back == m.back
    ensures Leads(p, rule, m, Done(Acted(m.input, e)), a)
  {
    if e.action.Some? {
      StandsCode(p, m.pc, ActCode(e) + ActionCode(e), 0);
      StandsCode(p, m.pc, ActCode(e) + ActionCode(e), 1);
      OneTurn(p, rule, m, Done(Acted(m.input, e)), a);
    } else {
      NoSteps(p, rule, m, Done(Acted(m.input, e)), a);
    }
  }

  lemma {:induction false} ReferenceParts(x: Tree, e: Element, pc: nat, entry: seq<nat>)
    requires x.operation == x.end == [] && x.jump.None? && !x.loop && x.final == ActCode(e) + ActionCode(e)
    ensures Code(x, pc, entry) == CodeOf(x.inside, pc, entry) + (ActCode(e) + ActionCode(e))
    ensures Calls(x) == CallsOf(x.inside)
  {
    Plainly(x, pc, entry);
    InlineCode(x, pc, pc, entry);
    NoLoop(x, pc, entry);
  }

  lemma {:induction false} ReferenceShape(g: Grammar, e: Id, t: Override, x: Tree, pc: nat, entry: seq<nat>)
    requires Parsed(g) && e < |g| && Allowed(g, t) && Expands(g, e, t, x) && g[e].compound.TypeRef?
    ensures g[e].typeElement < |g| && x.inside.Snoc? && Expands(g, g[e].typeElement, t, x.inside.last)
    ensures Code(x, pc, entry) == Code(x.inside.last, pc, entry) + (ActCode(g[e]) + ActionCode(g[e]))
    ensures Calls(x) == Calls(x.inside.last) && Levels(x.inside.last) < Levels(x)
  {
    assert LinksInside(g[e], |g|) && AsParsed(g[e]);
    OneStep(g, g[e].typeElement, t, x.inside, pc, entry);
    ReferenceParts(x, g[e], pc, entry);
  }

  lemma {:induction false} ReferenceGlue(p: seq<Opcode>, rule: Rule, e: Element, m: State, r: Result, mid: Aim, a: Aim)
    requires Leads(p, rule, m, r, mid) && StandsAt(p, mid.pc, ActCode(e) + ActionCode(e))
    requires Along(mid, a) && a.pc == mid.pc + |ActCode(e) + ActionCode(e)|
    ensures Leads(p, rule, m, ThenAct(r, e), a)
  {
    if r.Done? {
      FinalAct(p, rule, e, State(mid.pc, mid.back, r.input), a);
    }
    Chain(p, rule, m, r, mid, ThenAct(r, e), a);
  }

  lemma {:induction false} ReferenceLeads(w: Image, rule: Rule, n: nat, e: Id, t: Override, x: Tree, m: State, a: Aim)
    requires Reaches(w, e, t, x, m.pc) && w.g[e].compound.TypeRef? && n > 0 && Enough(w, a, Levels(x), n)
    requires a.pc == m.pc + |Code(x, m.pc, w.entry)| && a.back == m.back
    ensures Leads(w.p, rule, m, Read(w.g, rule, n, e, t, m.input), a)
    decreases n, 0, x, 0
  {
    ReferenceShape(w.g, e, t, x, m.pc, w.entry);
    var c, id := Code(x.inside.last, m.pc, w.entry), w.g[e].typeElement;
    var mid := a.(pc := m.pc + |c|);
    StandsParts(w.p, m.pc, Code(x, m.pc, w.entry), c, mid.pc, ActCode(w.g[e]) + ActionCode(w.g[e]));
    ElementLeads(w, rule, n - 1, id, t, x.inside.last, m, mid);
    ReferenceGlue(w.p, rule, w.g[e], m, Read(w.g, rule, n - 1, id, t, m.input), mid, a);
  }

  function ChoiceEnd(e: Element, optional: bool): seq<Opcode> {
    (if optional then [] else [CondFail]) + (ActCode(e) + ActionCode(e))
  }

  /** One of the alternatives was there, or not. */
  lemma {:induction false} FailTail(p: seq<Opcode>, rule: Rule, e: Element, m: State, r: Result, a: Aim)
    requires m.pc < |p| && p[m.pc] == CondFail && StandsAt(p, m.pc + 1, ActCode(e) + ActionCode(e))
    requires a.pc == m.pc + 1 + |ActCode(e) + ActionCode(e)| && a.back == m.back
    requires r == ThenAct(ThenSome(Done(m.input), false), e)
    ensures Leads(p, rule, m, r, a)
  {
    if m.input.matched {
      var m1 := m.(pc := m.pc + 1);
      FinalAct(p, rule, e, m1, Sooner(a));
      StepThen(p, rule, m, m1, r, a);
    } else {
      OneTurn(p, rule, m, r, a);
    }
  }

  lemma {:induction false} ChoiceTail(p: seq<Opcode>, rule: Rule, e: Element, optional: bool, m: State, a: Aim)
    requires StandsAt(p, m.pc, ChoiceEnd(e, optional))
    requires a.pc == m.pc + |ChoiceEnd(e, optional)| && a.back == m.back
    ensures Leads(p, rule, m, ThenAct(ThenSome(Done(m.input), optional), e), a)
  {
    StandsParts(p, m.pc, ChoiceEnd(e, optional), if optional then [] else [CondFail],
                if optional then m.pc else m.pc + 1, ActCode(e) + ActionCode(e));
    if optional {
      FinalAct(p, rule, e, m, a);
    } else {
      StandsCode(p, m.pc, ChoiceEnd(e, optional), 0);
      FailTail(p, rule, e, m, ThenAct(ThenSome(Done(m.input), false), e), a);
    }
  }

  lemma {:induction false} ChoiceGlue(p: seq<Opcode>, rule: Rule, e: Element, optional: bool, m: State, r: Result,
                                      mid: Aim, a: Aim)
    requires Leads(p, rule, m, r, mid) && StandsAt(p, mid.pc, ChoiceEnd(e, optional))
    requires Along(mid, a) && a.pc == mid.pc + |ChoiceEnd(e, optional)|
    ensures Leads(p, rule, m, ThenAct(ThenSome(r, optional), e), a)
  {
    if r.Done? {
      ChoiceTail(p, rule, e, optional, State(mid.pc, mid.back, r.input), a);
    }
    Chain(p, rule, m, r, mid, ThenAct(ThenSome(r, optional), e), a);
  }

  lemma {:induction false} ChoiceParts(x: Tree, e: Element, optional: bool, pc: nat, entry: seq<nat>)
    requires x.operation == [] && x.jump.None? && x.end == (if optional then [] else [CondFail]) && !x.loop
    requires x.final == ActCode(e) + ActionCode(e)
    ensures Code(x, pc, entry) == CodeOf(x.inside, pc, entry) + ChoiceEnd(e, optional)
    ensures Calls(x) == CallsOf(x.inside)
  {
    Plainly(x, pc, entry);
    InlineCode(x, pc, pc, entry);
    NoLoop(x, pc, entry);
  }

  lemma {:induction false} ChoiceShape(g: Grammar, e: Id, t: Override, x: Tree, pc: nat, entry: seq<nat>)
    requires WellFormed(g) && e < |g| && Allowed(g, t) && Expands(g, e, t, x) && g[e].compound.Choice?
    ensures Inside(g, g[e].children) && AllAllowed(g, Plain(g[e].children))
    ensures ExpandsAll(g, Plain(g[e].children), x.inside)
    ensures Code(x, pc, entry) == CodeOf(x.inside, pc, entry) + ChoiceEnd(g[e], Skippable(g, e, t))
    ensures Calls(x) == CallsOf(x.inside)
  {
    assert LinksInside(g[e], |g|);
    ChoiceParts(x, g[e], Skippable(g, e, t), pc, entry);
  }

  lemma ChoiceRead(g: Grammar, rule: Rule, n: nat, e: Id, t: Override, s: Input)
    requires WellFormed(g) && e < |g| && Allowed(g, t) && g[e].compound.Choice? && n > 0 && Inside(g, g[e].children)
    ensures Read(g, rule, n, e, t, s)
            == ThenAct(ThenSome(ReadAll(g, rule, n - 1, g[e].children, s), Skippable(g, e, t)), g[e])
  {}

  lemma {:induction false} ChoiceStands(w: Image, e: Id, t: Override, x: Tree, pc: nat, end: nat)
    requires Reaches(w, e, t, x, pc) && w.g[e].compound.Choice? && end == pc + |CodeOf(x.inside, pc, w.entry)|
    ensures Row(w, w.g[e].children, x.inside, pc)
    ensures StandsAt(w.p, end, ChoiceEnd(w.g[e], Skippable(w.g, e, t)))
    ensures |Code(x, pc, w.entry)| == end - pc + |ChoiceEnd(w.g[e], Skippable(w.g, e, t))|
  {
    ChoiceShape(w.g, e, t, x, pc, w.entry);
    StandsParts(w.p, pc, Code(x, pc, w.entry), CodeOf(x.inside, pc, w.entry), end,
                ChoiceEnd(w.g[e], Skippable(w.g, e, t)));
  }

  lemma {:induction false} ChoiceLeads(w: Image, rule: Rule, n: nat, e: Id, t: Override, x: Tree, m: State, a: Aim)
    requires Reaches(w, e, t, x, m.pc) && w.g[e].compound.Choice? && n > 0 && Enough(w, a, Levels(x), n)
    requires a.pc == m.pc + |Code(x, m.pc, w.entry)| && a.back == m.back
    ensures Leads(w.p, rule, m, Read(w.g, rule, n, e, t, m.input), a)
    decreases n, 0, x, 0
  {
    var mid := a.(pc := m.pc + |CodeOf(x.inside, m.pc, w.entry)|);
    ChoiceStands(w, e, t, x, m.pc, mid.pc);
    ChoiceRowLeads(w, rule, n, e, t, x.inside, m, mid, a);
  }

  lemma {:induction false} ChoiceRowLeads(w: Image, rule: Rule, n: nat, e: Id, t: Override, xs: Trees, m: State,
                                          mid: Aim, a: Aim)
    requires e < |w.g| && Allowed(w.g, t) && Row(w, w.g[e].children, xs, m.pc) && w.g[e].compound.Choice? && n > 0
    requires mid.pc == m.pc + |CodeOf(xs, m.pc, w.entry)| && mid.back == m.back
    requires Enough(w, mid, LevelsOf(xs), n - 1) && StandsAt(w.p, mid.pc, ChoiceEnd(w.g[e], Skippable(w.g, e, t)))
    requires Along(mid, a) && a.pc == mid.pc + |ChoiceEnd(w.g[e], Skippable(w.g, e, t))|
    ensures Leads(w.p, rule, m, Read(w.g, rule, n, e, t, m.input), a)
    decreases n, 0, xs
  {
    AllLead(w, rule, n - 1, w.g[e].children, xs, m, mid);
    ChoiceRead(w.g, rule, n, e, t, m.input);
    var r := ReadAll(w.g, rule, n - 1, w.g[e].children, m.input);
    ChoiceGlue(w.p, rule, w.g[e], Skippable(w.g, e, t), m, r, mid, a);
  }

  lemma {:induction false} CodeParts(x: Tree, e: Element, pc: nat, entry: seq<nat>)
    requires x.jump.None? && |x.operation| == 2 && HasBody(e.compound)
    requires x.end == EndOf(e) && x.loop == Repeats(e.compound) && x.final == ActionCode(e)
    ensures Code(x, pc, entry) == x.operation + ContentsCode(e, x.inside, pc + 2, entry)
    ensures Calls(x) == CallsOf(x.inside)
  {
    InlineCode(x, pc, pc + 2, entry);
  }

  /** Contents in place, behind the operation and the tag. */
  lemma {:induction false} InlineShape(g: Grammar, e: Id, t: Override, x: Tree, pc: nat, entry: seq<nat>)
    requires Parsed(g) && e < |g| && Allowed(g, t) && Expands(g, e, t, x) && HasBody(g[e].compound)
    requires !Jumps(g, e, t)
    ensures Inside(g, g[e].children) && AllAllowed(g, Plain(g[e].children)) && |Operation(g, e, t)| == 2
    ensures ExpandsAll(g, Plain(g[e].children), x.inside)
    ensures Code(x, pc, entry) == Operation(g, e, t) + ContentsCode(g[e], x.inside, pc + 2, entry)
    ensures Calls(x) == CallsOf(x.inside)
  {
    assert LinksInside(g[e], |g|) && AsParsed(g[e]);
    if Repeats(g[e].compound) {
      assert Plain(g[e].children) == [(g[e].children[0], None)];
    }
    CodeParts(x, g[e], pc, entry);
  }

  lemma {:induction false} InPlace(w: Image, e: Id, t: Override, x: Tree, pc: nat)
    requires Reaches(w, e, t, x, pc) && HasBody(w.g[e].compound) && !Jumps(w.g, e, t)
    ensures Contents(w, e, x.inside, pc + 2) && StandsAt(w.p, pc, Operation(w.g, e, t))
    ensures |Code(x, pc, w.entry)| == 2 + |ContentsCode(w.g[e], x.inside, pc + 2, w.entry)|
  {
    InlineShape(w.g, e, t, x, pc, w.entry);
    var c := ContentsCode(w.g[e], x.inside, pc + 2, w.entry);
    StandsParts(w.p, pc, Code(x, pc, w.entry), Operation(w.g, e, t), pc + 2, c);
    assert RowOf(w, w.g[e].children, x.inside);
    ContentsFrom(w, e, x.inside, pc + 2, pc + 2 + |CodeOf(x.inside, pc + 2, w.entry)|);
  }

  /** A match that does not jump goes on behind its tag. */
  lemma {:induction false} InlineTurn(p: seq<Opcode>, rule: Rule, g: Grammar, e: Id, t: Override, m: State)
    requires Parsed(g) && e < |g| && Allowed(g, t) && HasBody(g[e].compound) && !Jumps(g, e, t)
    requires StandsAt(p, m.pc, Operation(g, e, t))
    ensures var v := Decide(g, rule, e, t, m.input);
            && (v.Refuse? ==> Next(p, rule, m) == Stuck) && !v.Leave?
            && (v.Take? ==> Next(p, rule, m) == At(State(m.pc + 2, m.back, Taken(m.input, true))))
  {
    assert AsParsed(g[e]);
    if t.Some? { assert AsParsed(g[t.value]); }
    StandsCode(p, m.pc, Operation(g, e, t), 0);
    StandsCode(p, m.pc, Operation(g, e, t), 1);
    SameDecision(g, rule, e, t, m.input);
  }

  /** What a type with contents reads. */
  lemma {:induction false} BodyRead(g: Grammar, rule: Rule, n: nat, e: Id, t: Override, s: Input)
    requires Parsed(g) && e < |g| && Allowed(g, t) && n > 0 && HasBody(g[e].compound)
    ensures var v, r := Decide(g, rule, e, t, s), Read(g, rule, n, e, t, s);
            && (v.Refuse? ==> r == Refused) && (v.Leave? ==> r == Done(s.(matched := v.matched)))
            && (v.Take? ==> r == ReadContents(g, rule, n - 1, e, Taken(s, true)))
  {
    assert AsParsed(g[e]);
    Tagged(g, rule, n, e, t, s);
  }

  lemma {:induction false} InlineGlue(p: seq<Opcode>, rule: Rule, g: Grammar, n: nat, e: Id, t: Override, m: State,
                                      inner: Result, a: Aim)
    requires Parsed(g) && e < |g| && Allowed(g, t) && HasBody(g[e].compound) && !Jumps(g, e, t) && n > 0
    requires StandsAt(p, m.pc, Operation(g, e, t))
    requires Decide(g, rule, e, t, m.input).Take? ==>
               && inner == ReadContents(g, rule, n - 1, e, Taken(m.input, true))
               && Leads(p, rule, State(m.pc + 2, m.back, Taken(m.input, true)), inner, Sooner(a))
    ensures Leads(p, rule, m, Read(g, rule, n, e, t, m.input), a)
  {
    InlineTurn(p, rule, g, e, t, m);
    BodyRead(g, rule, n, e, t, m.input);
    if Decide(g, rule, e, t, m.input).Take? {
      StepThen(p, rule, m, State(m.pc + 2, m.back, Taken(m.input, true)), inner, a);
    } else {
      OneTurn(p, rule, m, Refused, a);
    }
  }

  /** What a match that does not jump does, and then what it finds inside the value. */
  lemma {:induction false} InlineRowLeads(w: Image, rule: Rule, n: nat, e: Id, t: Override, xs: Trees, m: State, a: Aim)
    requires Contents(w, e, xs, m.pc + 2) && Allowed(w.g, t) && !Jumps(w.g, e, t) && n > 0
    requires StandsAt(w.p, m.pc, Operation(w.g, e, t)) && Enough(w, a, LevelsOf(xs) + 1, n)
    requires a.pc == m.pc + 2 + |ContentsCode(w.g[e], xs, m.pc + 2, w.entry)| && a.back == m.back
    ensures Leads(w.p, rule, m, Read(w.g, rule, n, e, t, m.input), a)
    decreases n, 0, xs
  {
    var inner := Refused;
    if Decide(w.g, rule, e, t, m.input).Take? {
      var m1 := State(m.pc + 2, m.back, Taken(m.input, true));
      ContentsLead(w, rule, n - 1, e, xs, m1, Sooner(a));
      inner := ReadContents(w.g, rule, n - 1, e, m1.input);
    }
    InlineGlue(w.p, rule, w.g, n, e, t, m, inner, a);
  }

  lemma {:induction false} InlineLeads(w: Image, rule: Rule, n: nat, e: Id, t: Override, x: Tree, m: State, a: Aim)
    requires Reaches(w, e, t, x, m.pc) && HasBody(w.g[e].compound) && !Jumps(w.g, e, t) && n > 0
    requires Enough(w, a, Levels(x), n)
    requires a.pc == m.pc + |Code(x, m.pc, w.entry)| && a.back == m.back
    ensures Leads(w.p, rule, m, Read(w.g, rule, n, e, t, m.input), a)
    decreases n, 0, x, 0
  {
    InPlace(w, e, t, x, m.pc);
    InlineRowLeads(w, rule, n, e, t, x.inside, m, a);
  }

  lemma Reassociate(c: seq<Opcode>, e: seq<Opcode>, l: seq<Opcode>, a: seq<Opcode>, r: seq<Opcode>)
    ensures c + e + l + (a + r) == c + (e + l + a) + r
  {}

  lemma {:induction false} BodyParts(x: Tree, e: Element, pc: nat, entry: seq<nat>)
    requires x.jump.None? && x.operation == [] && x.end == EndOf(e) && x.loop == Repeats(e.compound)
    requires x.final == ActionCode(e) + [Return]
    ensures Code(x, pc, entry) == ContentsCode(e, x.inside, pc, entry) + [Return]
    ensures Calls(x) == CallsOf(x.inside)
  {
    Plainly(x, pc, entry);
    InlineCode(x, pc, pc, entry);
    Reassociate(CodeOf(x.inside, pc, entry), x.end, if x.loop then [JumpTarget(pc)] else [], ActionCode(e), [Return]);
  }

  lemma {:induction false} BodyShape(g: Grammar, e: Id, x: Tree, pc: nat, entry: seq<nat>)
    requires WellFormed(g) && e < |g| && ExpandsBody(g, e, x)
    ensures Inside(g, g[e].children) && AllAllowed(g, Plain(g[e].children))
    ensures ExpandsAll(g, Plain(g[e].children), x.inside)
    ensures Code(x, pc, entry) == ContentsCode(g[e], x.inside, pc, entry) + [Return]
    ensures Calls(x) == CallsOf(x.inside)
  {
    assert LinksInside(g[e], |g|);
    BodyParts(x, g[e], pc, entry);
  }

  /** The contents at the entry, and behind them the return. */
  lemma {:induction false} AtEntry(w: Image, e: Id, pc: nat, xs: Trees, back: nat)
    requires e in w.ids && Loaded(w) && BodyLoaded(w, e) && HasBody(w.g[e].compound)
    requires pc == w.entry[e] && xs == w.bodies[e].inside && back == pc + |ContentsCode(w.g[e], xs, pc, w.entry)|
    ensures Contents(w, e, xs, pc) && back < |w.p| && w.p[back] == Return
  {
    BodyShape(w.g, e, w.bodies[e], pc, w.entry);
    var c := ContentsCode(w.g[e], xs, pc, w.entry);
    StandsParts(w.p, pc, Code(w.bodies[e], pc, w.entry), c, back, [Return]);
    assert RowOf(w, w.g[e].children, xs);
    ContentsFrom(w, e, xs, pc, pc + |CodeOf(xs, pc, w.entry)|);
    StandsCode(w.p, back, [Return], 0);
  }

  lemma ReturnTurn(p: seq<Opcode>, rule: Rule, m: State, r: Result, pc: nat, back: seq<nat>)
    requires m.pc < |p| && p[m.pc] == Return && |m.back| > 0 && r == Done(m.input)
    requires pc == m.back[|m.back| - 1] && back == m.back[..|m.back| - 1]
    ensures Turns(p, rule, m, r, pc, back)
  {}

  lemma {:induction false} BodyReturns(w: Image, rule: Rule, n: nat, e: Id, m: State, a: Aim)
    requires e in w.ids && Loaded(w) && BodyLoaded(w, e) && HasBody(w.g[e].compound) && m.pc == w.entry[e]
    requires Enough(w, a, w.levels + 1, n)
    requires |m.back| > 0 && a.pc == m.back[|m.back| - 1] && a.back == m.back[..|m.back| - 1]
    ensures Leads(w.p, rule, m, ReadContents(w.g, rule, n, e, m.input), a)
    decreases n, 4
  {
    var xs := w.bodies[e].inside;
    var mid := a.(pc := m.pc + |ContentsCode(w.g[e], xs, m.pc, w.entry)|, back := m.back);
    AtEntry(w, e, m.pc, xs, mid.pc);
    ContentsLead(w, rule, n, e, xs, m, mid);
    var r := ReadContents(w.g, rule, n, e, m.input);
    if r.Done? {
      var m1 := State(mid.pc, mid.back, r.input);
      ReturnTurn(w.p, rule, m1, r, a.pc, a.back);
      OneTurn(w.p, rule, m1, r, a);
    }
    Chain(w.p, rule, m, r, mid, r, a);
  }

  /** A match that jumps enters the body, or goes on behind the jump. */
  lemma {:induction false} JumpTurn(p: seq<Opcode>, rule: Rule, g: Grammar, e: Id, t: Override, m: State, target: nat)
    requires Parsed(g) && e < |g| && Allowed(g, t) && Jumps(g, e, t)
    requires StandsAt(p, m.pc, Operation(g, e, t) + [JumpTarget(target)])
    ensures var v := Decide(g, rule, e, t, m.input);
            && (v.Refuse? ==> Next(p, rule, m) == Stuck)
            && (v.Leave? ==> Next(p, rule, m) == At(State(m.pc + 3, m.back, m.input.(matched := v.matched))))
            && (v.Take? ==> Next(p, rule, m) == At(State(target, m.back + [m.pc + 3], Taken(m.input, true))))
  {
    var c := Operation(g, e, t) + [JumpTarget(target)];
    assert AsParsed(g[e]);
    StandsCode(p, m.pc, c, 0);
    StandsCode(p, m.pc, c, 1);
    StandsCode(p, m.pc, c, 2);
    SameDecision(g, rule, e, t, m.input);
  }

  lemma {:induction false} JumpShape(g: Grammar, e: Id, t: Override, x: Tree, pc: nat, entry: seq<nat>)
    requires WellFormed(g) && e < |g| && Allowed(g, t) && Expands(g, e, t, x) && Jumps(g, e, t) && e < |entry|
    ensures Code(x, pc, entry) == Operation(g, e, t) + [JumpTarget(entry[e])] && |Operation(g, e, t)| == 2
  {
    assert LinksInside(g[e], |g|);
    assert Steps(g, e, t) == [] && x.inside.Nil?;
    JumpCode(x, pc, entry);
  }

  lemma {:induction false} JumpsTo(w: Image, e: Id, t: Override, x: Tree, pc: nat)
    requires Reaches(w, e, t, x, pc) && Jumps(w.g, e, t)
    ensures e in w.ids && BodyLoaded(w, e)
  {
    assert x.jump == Some(e);
    assert Calls(x)[0] == e;
  }

  lemma {:induction false} JumpGlue(p: seq<Opcode>, rule: Rule, g: Grammar, n: nat, e: Id, t: Override, m: State,
                                    target: nat, inner: Result, a: Aim)
    requires Parsed(g) && e < |g| && Allowed(g, t) && Jumps(g, e, t) && n > 0
    requires StandsAt(p, m.pc, Operation(g, e, t) + [JumpTarget(target)])
    requires a.pc == m.pc + 3 && a.back == m.back
    requires Decide(g, rule, e, t, m.input).Take? ==>
               && inner == ReadContents(g, rule, n - 1, e, Taken(m.input, true))
               && Leads(p, rule, State(target, m.back + [m.pc + 3], Taken(m.input, true)), inner, Sooner(a))
    ensures Leads(p, rule, m, Read(g, rule, n, e, t, m.input), a)
  {
    JumpTurn(p, rule, g, e, t, m, target);
    BodyRead(g, rule, n, e, t, m.input);
    var v := Decide(g, rule, e, t, m.input);
    if v.Take? {
      StepThen(p, rule, m, State(target, m.back + [m.pc + 3], Taken(m.input, true)), inner, a);
    } else {
      OneTurn(p, rule, m, if v.Refuse? then Refused else Done(m.input.(matched := v.matched)), a);
    }
  }

  lemma {:induction false} JumpLeads(w: Image, rule: Rule, n: nat, e: Id, t: Override, x: Tree, m: State, a: Aim)
    requires Reaches(w, e, t, x, m.pc) && Jumps(w.g, e, t) && n > 0 && Enough(w, a, Levels(x), n)
    requires a.pc == m.pc + |Code(x, m.pc, w.entry)| && a.back == m.back
    ensures Leads(w.p, rule, m, Read(w.g, rule, n, e, t, m.input), a)
    decreases n, 0, x, 0
  {
    JumpsTo(w, e, t, x, m.pc);
    JumpShape(w.g, e, t, x, m.pc, w.entry);
    var inner := Refused;
    if Decide(w.g, rule, e, t, m.input).Take? {
      var m1 := State(w.entry[e], m.back + [m.pc + 3], Taken(m.input, true));
      assert m1.back[..|m1.back| - 1] == m.back;
      BodyReturns(w, rule, n - 1, e, m1, Sooner(a));
      inner := ReadContents(w.g, rule, n - 1, e, m1.input);
    }
    JumpGlue(w.p, rule, w.g, n, e, t, m, w.entry[e], inner, a);
  }

  /** The rendering of an element leads the machine where the grammar says. */
  lemma {:induction false} ElementLeads(w: Image, rule: Rule, n: nat, e: Id, t: Override, x: Tree, m: State, a: Aim)
    requires Reaches(w, e, t, x, m.pc) && Enough(w, a, Levels(x), n)
    requires a.pc == m.pc + |Code(x, m.pc, w.entry)| && a.back == m.back
    ensures Leads(w.p, rule, m, Read(w.g, rule, n, e, t, m.input), a)
    decreases n, 0, x, 1
  {
    if n > 0 {
      match w.g[e].compound
      case TagOverride => OverrideLeads(w, rule, n, e, t, x, m, a);
      case TypeRef => ReferenceLeads(w, rule, n, e, t, x, m, a);
      case Choice => ChoiceLeads(w, rule, n, e, t, x, m, a);
      case Any => LeafLeads(w, rule, n, e, t, x, m, a);
      case NotCompound => LeafLeads(w, rule, n, e, t, x, m, a);
      case _ =>
        if Jumps(w.g, e, t) {
          JumpLeads(w, rule, n, e, t, x, m, a);
        } else {
          InlineLeads(w, rule, n, e, t, x, m, a);
        }
    }
  }

  // ------------------------------------------------------------------ main result

  /** The machine ends with `s'`. */
  ghost predicate Accepts(p: seq<Opcode>, rule: Rule, s: Input, s': Input) {
    exists k: nat :: Run(p, rule, At(State(0, [], s)), k) == Finished(s')
  }

  ghost predicate GetsStuck(p: seq<Opcode>, rule: Rule, s: Input) {
    exists k: nat :: Run(p, rule, At(State(0, [], s)), k) == Stuck
  }

  /** The first type reads `s` and leaves `s'`. */
  ghost predicate Reads(g: Grammar, rule: Rule, s: Input, s': Input)
    requires WellFormed(g) && |g| > 0
  {
    exists n: nat :: Read(g, rule, n, ROOT, None, s) == Done(s')
  }

  ghost predicate Refuses(g: Grammar, rule: Rule, s: Input)
    requires WellFormed(g) && |g| > 0
  {
    exists n: nat :: Read(g, rule, n, ROOT, None, s) == Refused
  }

  lemma {:induction false} EndIsEnd(p: seq<Opcode>, rule: Rule, st: Status, i: nat, j: nat)
    requires !Run(p, rule, st, i).At? && !Run(p, rule, st, j).At?
    ensures Run(p, rule, st, i) == Run(p, rule, st, j)
  {
    if i <= j {
      RunAdd(p, rule, st, i, j - i);
    } else {
      RunAdd(p, rule, st, j, i - j);
    }
  }

  function ImageOf(g: Grammar, src: Source, p: seq<Opcode>, entry: seq<nat>): Image
    requires Closed(src)
  {
    Image(g, p, entry, src.bodies, Needed(src), MostLevels(src.bodies))
  }

  predicate Compiled(g: Grammar, src: Source, p: seq<Opcode>, entry: seq<nat>) {
    Parsed(g) && Means(g, src) && p == Whole(src, entry) && Placed(src, entry)
  }

  lemma {:induction false} NeededStands(src: Source, p: seq<Opcode>, entry: seq<nat>, i: nat)
    requires Closed(src) && p == Whole(src, entry) && Placed(src, entry) && i < |Order(src)|
    ensures var e := Order(src)[i];
            && e < |src.bodies| && e < |entry| && StandsAt(p, entry[e], Code(src.bodies[e], entry[e], entry))
  {
    BodiesAreAtTheirEntries(src, entry, i);
    assert PlacedAt(Order(src), Places(src, |Order(src)|), i, entry);
  }

  lemma {:induction false} NeededLoaded(g: Grammar, src: Source, p: seq<Opcode>, entry: seq<nat>, i: nat)
    requires Compiled(g, src, p, entry) && i < |Order(src)|
    ensures BodyLoaded(ImageOf(g, src, p, entry), Order(src)[i])
  {
    NeededStands(src, p, entry, i);
    BodyInForest(src, i);
  }

  lemma {:induction false} ProgramLoaded(g: Grammar, src: Source, p: seq<Opcode>, entry: seq<nat>)
    requires Compiled(g, src, p, entry)
    ensures Loaded(ImageOf(g, src, p, entry))
  {
    forall e | e in Needed(src) ensures BodyLoaded(ImageOf(g, src, p, entry), e) {
      var i :| 0 <= i < |Order(src)| && Order(src)[i] == e;
      NeededLoaded(g, src, p, entry, i);
    }
  }

  lemma PrefixStands(p: seq<Opcode>, c: seq<Opcode>)
    requires c <= p
    ensures StandsAt(p, 0, c)
  {}

  /** The first type's rendering stands at the beginning, and behind it the end. */
  lemma {:induction false} MainStands(g: Grammar, src: Source, p: seq<Opcode>, entry: seq<nat>) 
    requires Compiled(g, src, p, entry)
    ensures src.main.inside.Snoc?
    ensures var x := src.main.inside.last;
            && Reaches(ImageOf(g, src, p, entry), ROOT, None, x, 0)
            && var n := |Code(x, 0, entry)|; n < |p| && p[n] == Complete
  {
    ProgramLoaded(g, src, p, entry);
    MainFacts(g, src.main, entry);
    var c := Code(src.main.inside.last, 0, entry);
    ForestGrows(src, 0, |src.bodies|, entry);
    CallsInOrder(src, 0, Nil, src.main);
    PrefixStands(p, c + [Complete]);
    StandsParts(p, 0, c + [Complete], c, |c|, [Complete]);
    StandsCode(p, |c|, [Complete], 0);
  }

  lemma LastLevels(xs: Trees)
    requires xs.Snoc?
    ensures Levels(xs.last) <= LevelsOf(xs)
  {}

  /** The rendering of the first type leads where the grammar says. */
  lemma {:induction false} MainLeads(g: Grammar, src: Source, p: seq<Opcode>, entry: seq<nat>, rule: Rule, s: Input,
                                     n: nat, k: nat) returns (a: Aim)
    requires Compiled(g, src, p, entry)
    ensures Leads(p, rule, State(0, [], s), Read(g, rule, n, ROOT, None, s), a)
    ensures a.pc < |p| && p[a.pc] == Complete && a.back == [] && a.k == k
    ensures Fuel(ImageOf(g, src, p, entry), k) + LevelsOf(src.main.inside) <= n ==> a.enough
  {
    var w := ImageOf(g, src, p, entry);
    MainStands(g, src, p, entry);
    LastLevels(src.main.inside);
    var x := src.main.inside.last;
    a := Aim(|Code(x, 0, entry)|, [], Fuel(w, k) + Levels(x) <= n, k);
    ElementLeads(w, rule, n, ROOT, None, x, State(0, [], s), a);
  }

  lemma {:induction false} AtComplete(p: seq<Opcode>, rule: Rule, s: Input, r: Result, a: Aim)
    requires Leads(p, rule, State(0, [], s), r, a) && a.pc < |p| && p[a.pc] == Complete && a.back == []
    ensures (r.Done? ==> Accepts(p, rule, s, r.input)) && (r.Refused? ==> GetsStuck(p, rule, s))
  {
    if r.Done? {
      var st, m1 := At(State(0, [], s)), State(a.pc, [], r.input);
      var j: nat :| Run(p, rule, st, j) == At(m1);
      RunAdd(p, rule, st, j, 1);
      assert Run(p, rule, Next(p, rule, m1), 0) == Finished(r.input);
      assert Run(p, rule, st, j + 1) == Finished(r.input);
    }
  }

  /** What the grammar reads is where the machine ends. */
  lemma {:induction false} MachineFollows(g: Grammar, src: Source, p: seq<Opcode>, entry: seq<nat>, rule: Rule,
                                          s: Input, n: nat, k: nat)
    requires Compiled(g, src, p, entry)
    ensures var r := Read(g, rule, n, ROOT, None, s);
            && (r.Done? ==> Accepts(p, rule, s, r.input)) && (r.Refused? ==> GetsStuck(p, rule, s))
            && (r.More? && Fuel(ImageOf(g, src, p, entry), k) + LevelsOf(src.main.inside) <= n ==>
                  Run(p, rule, At(State(0, [], s)), k).At?)
  {
    var a := MainLeads(g, src, p, entry, rule, s, n, k);
    AtComplete(p, rule, s, Read(g, rule, n, ROOT, None, s), a);
  }

  /** If the machine comes to an end, the grammar has come to one. */
  lemma {:induction false} GrammarFollows(g: Grammar, src: Source, p: seq<Opcode>, entry: seq<nat>, rule: Rule,
                                          s: Input, k: nat)
    requires Compiled(g, src, p, entry) && !Run(p, rule, At(State(0, [], s)), k).At?
    ensures match Run(p, rule, At(State(0, [], s)), k)
            case Finished(s') => Reads(g, rule, s, s')
            case _ => Refuses(g, rule, s)
  {
    var n, st := Fuel(ImageOf(g, src, p, entry), k) + LevelsOf(src.main.inside), At(State(0, [], s));
    MachineFollows(g, src, p, entry, rule, s, n, k);
    var r := Read(g, rule, n, ROOT, None, s);
    if r.Done? {
      var j: nat :| Run(p, rule, st, j) == Finished(r.input);
      EndIsEnd(p, rule, st, j, k);
    } else {
      var j: nat :| Run(p, rule, st, j) == Stuck;
      EndIsEnd(p, rule, st, j, k);
    }
  }

  /** The program reads what the grammar reads, and refuses what it refuses. */
  lemma {:induction false} ProgramReads(g: Grammar, src: Source, p: seq<Opcode>, entry: seq<nat>, rule: Rule,
                                        s: Input, s': Input)
    requires Parsed(g) && Means(g, src) && p == Whole(src, entry) && Placed(src, entry)
    ensures Accepts(p, rule, s, s') <==> Reads(g, rule, s, s')
    ensures GetsStuck(p, rule, s) <==> Refuses(g, rule, s)
  {
    var st := At(State(0, [], s));
    if Accepts(p, rule, s, s') {
      var k: nat :| Run(p, rule, st, k) == Finished(s');
      GrammarFollows(g, src, p, entry, rule, s, k);
    }
    if GetsStuck(p, rule, s) {
      var k: nat :| Run(p, rule, st, k) == Stuck;
      GrammarFollows(g, src, p, entry, rule, s, k);
    }
    if Reads(g, rule, s, s') {
      var n: nat :| Read(g, rule, n, ROOT, None, s) == Done(s');
      MachineFollows(g, src, p, entry, rule, s, n, 0);
    }
    if Refuses(g, rule, s) {
      var n: nat :| Read(g, rule, n, ROOT, None, s) == Refused;
      MachineFollows(g, src, p, entry, rule, s, n, 0);
    }
  }
}
