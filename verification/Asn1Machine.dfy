/** What a rendered program reads.

    The machine goes through the opcodes with a position in the data and a stack of
    places to return to.  `Read` says what a grammar reads, by its compounds and its
    flags alone; it knows no opcodes and no jumps.  The program of the grammar reads
    exactly that, and performs the same actions in the same order.
  */
module Asn1Machine {
  import opened Wrappers
  import opened Identities
  import opened Asn1Program
  import opened Asn1Grammar

  // ------------------------------------------------------------------------ data

  /** A tagged value, and the values inside it. */
  datatype Datum = Datum(cls: nat, cons: bool, tag: nat, contents: seq<Datum>)

  datatype Event = Performed(action: nat) | Ended(compound: Compound)

  /** What is left to read here and around it, whether what came last was there, and
      what has happened. */
  datatype Input = Input(rest: seq<Datum>, outer: seq<seq<Datum>>, matched: bool, events: seq<Event>)

  function Happened(s: Input, event: Event): Input { s.(events := s.events + [event]) }

  /** Past the next value, or inside it if it is a constructed one. */
  function Taken(s: Input, cons: bool): Input
    requires |s.rest| > 0
  {
    if cons then s.(rest := s.rest[0].contents, outer := s.outer + [s.rest[1..]], matched := true)
    else s.(rest := s.rest[1..], matched := true)
  }

  /** Out of a constructed value, which has to be at its end. */
  function Up(s: Input, c: Compound): Option<Input> {
    if |s.rest| > 0 || |s.outer| == 0 then None
    else
      var n := |s.outer| - 1;
      Some(Happened(s.(rest := s.outer[n], outer := s.outer[..n], matched := true), Ended(c)))
  }

  /** Does what is wanted come next? */
  datatype Situation = Situation(cond: bool, orSkip: bool, matched: bool, atEnd: bool, fits: bool)

  /** Leaving out what is wanted says whether something was there all the same. */
  datatype Verdict = Take | Leave(matched: bool) | Refuse

  /** The decoder's decision: only what says so may be left out.  The decoder is not
      part of the repository, and a program reads what its grammar does by any rule. */
  type Rule = r: Situation -> Verdict | forall x :: r(x).Leave? ==> x.cond || x.orSkip
    witness (x: Situation) => Refuse

  function Judge(rule: Rule, cond: bool, orSkip: bool, s: Input, fits: bool): (v: Verdict)
    ensures (v.Take? ==> |s.rest| > 0) && (v.Leave? ==> cond || orSkip)
  {
    var v := rule(Situation(cond, orSkip, s.matched, |s.rest| == 0, fits));
    if v.Take? && |s.rest| == 0 then Refuse else v
  }

  predicate Wanted(cls: nat, cons: bool, tag: nat, s: Input) {
    |s.rest| > 0 && s.rest[0].cls == cls && s.rest[0].tag == tag && (cons ==> s.rest[0].cons)
  }

  // ----------------------------------------------------------------- the machine

  datatype State = State(pc: nat, back: seq<nat>, input: Input)
  datatype Status = At(state: State) | Stuck | Finished(input: Input)

  /** Universal tags have names, except these. */
  predicate Legible(o: Opcode) {
    o.Tag? && (o.named ==> o.cls == UNIV && o.tag !in {14, 15, 31})
  }

  function One(b: bool): nat { if b then 1 else 0 }

  /** Perform the action at `pc`, if there is to be one, and go on behind it. */
  function Perform(p: seq<Opcode>, pc: nat, back: seq<nat>, act: bool, s: Input): Status {
    if !act then At(State(pc, back, s))
    else if pc < |p| && p[pc].ActionOf? then At(State(pc + 1, back, Happened(s, Performed(p[pc].action))))
    else Stuck
  }

  function StepMatchAny(p: seq<Opcode>, rule: Rule, m: State, cond: bool, act: bool): Status {
    match Judge(rule, cond, false, m.input, true)
    case Refuse => Stuck
    case Leave(b) => At(State(m.pc + 1 + One(act), m.back, m.input.(matched := b)))
    case Take => Perform(p, m.pc + 1, m.back, act, Taken(m.input, false))
  }

  /** What is jumped to is entered with the place behind the jump on the stack. */
  function Enter(p: seq<Opcode>, m: State, jump: bool, act: bool, s: Input): Status {
    if !jump then Perform(p, m.pc + 2, m.back, act, s)
    else if m.pc + 2 < |p| && p[m.pc + 2].JumpTarget? then
      At(State(p[m.pc + 2].n, m.back + [m.pc + 3 + One(act)], s))
    else Stuck
  }

  function StepMatch(p: seq<Opcode>, rule: Rule, m: State, cond: bool, jump: bool, act: bool, orSkip: bool): Status {
    if m.pc + 1 < |p| && Legible(p[m.pc + 1]) then
      var o := p[m.pc + 1];
      match Judge(rule, cond, orSkip, m.input, Wanted(o.cls, o.cons, o.tag, m.input))
      case Refuse => Stuck
      case Leave(b) => At(State(m.pc + 2 + One(jump) + One(act), m.back, m.input.(matched := b)))
      case Take => Enter(p, m, jump, act, Taken(m.input, o.cons))
    else Stuck
  }

  function StepEnd(p: seq<Opcode>, pc: nat, m: State, act: bool, c: Compound): Status {
    match Up(m.input, c)
    case None => Stuck
    case Some(s) => Perform(p, pc, m.back, act, s)
  }

  /** Once more while there are data. */
  function StepRepeat(p: seq<Opcode>, m: State, act: bool, c: Compound): Status {
    if m.pc + 1 < |p| && p[m.pc + 1].JumpTarget? then
      if |m.input.rest| > 0 then At(State(p[m.pc + 1].n, m.back, m.input))
      else StepEnd(p, m.pc + 2, m, act, c)
    else Stuck
  }

  function StepReturn(m: State): Status {
    if |m.back| == 0 then Stuck
    else At(State(m.back[|m.back| - 1], m.back[..|m.back| - 1], m.input))
  }

  function Next(p: seq<Opcode>, rule: Rule, m: State): Status {
    if m.pc >= |p| then Stuck
    else
      match p[m.pc]
      case MatchAny(cond, act) => StepMatchAny(p, rule, m, cond, act)
      case Match(cond, jump, act, orSkip) => StepMatch(p, rule, m, cond, jump, act, orSkip)
      case EndSeq(act) => StepEnd(p, m.pc + 1, m, act, Sequence)
      case EndSeqOf(act) => StepRepeat(p, m, act, SequenceOf)
      case EndSetOf(act) => StepRepeat(p, m, act, SetOf)
      case Act => Perform(p, m.pc + 1, m.back, true, m.input)
      case CondFail => if m.input.matched then At(m.(pc := m.pc + 1)) else Stuck
      case Return => StepReturn(m)
      case Complete => if |m.back| == 0 then Finished(m.input) else Stuck
      case _ => Stuck
  }

  function Run(p: seq<Opcode>, rule: Rule, st: Status, k: nat): Status
    decreases k
  {
    if k == 0 || !st.At? then st else Run(p, rule, Next(p, rule, st.state), k - 1)
  }

  // ----------------------------------------------------------------- the grammar

  predicate AsParsed(e: Element) {
    && (HasBody(e.compound) ==> e.cons)
    && (Repeats(e.compound) ==> |e.children| == 1)
    && (e.compound.TypeRef? ==> Transparent(e))
    && (e.conditional ==> e.skippable)
  }

  /** What the parser makes sure of: constructed types have a constructed tag, a list
      has one element type, references carry no tag, and what is conditional may be
      left out. */
  predicate Parsed(g: Grammar) {
    WellFormed(g) && forall e :: 0 <= e < |g| ==> AsParsed(g[e])
  }

  datatype Result = Done(input: Input) | Refused | More

  function Acted(s: Input, e: Element): Input {
    if e.action.Some? then Happened(s, Performed(e.action.value)) else s
  }

  function ThenAct(r: Result, e: Element): Result {
    if r.Done? then Done(Acted(r.input, e)) else r
  }

  /** At least one of the alternatives has to be there, unless all may be absent. */
  function ThenSome(r: Result, optional: bool): Result {
    if r.Done? && !r.input.matched && !optional then Refused else r
  }

  /** A constructed value ends where its contents end. */
  function ThenUp(r: Result, e: Element): Result {
    if r.Done? then
      match Up(r.input, e.compound)
      case None => Refused
      case Some(s) => Done(Acted(s, e))
    else r
  }

  /** The tag is that of the overriding element, if there is one, and a constructed
      one if either is. */
  predicate Constructed(g: Grammar, e: Id, t: Override)
    requires e < |g| && Allowed(g, t)
  {
    g[e].cons || (t.Some? && g[t.value].cons)
  }

  predicate Comes(g: Grammar, e: Id, t: Override, s: Input)
    requires e < |g| && Allowed(g, t)
  {
    var owner := if t.Some? then t.value else e;
    Wanted(g[owner].cls, Constructed(g, e, t), g[owner].tag, s)
  }

  function Decide(g: Grammar, rule: Rule, e: Id, t: Override, s: Input): (v: Verdict)
    requires e < |g| && Allowed(g, t)
    ensures v.Take? ==> |s.rest| > 0
    ensures v.Leave? ==> Conditional(g, e, t) || (Skippable(g, e, t) && !g[e].compound.Any?)
  {
    if g[e].compound.Any? then Judge(rule, Conditional(g, e, t), false, s, true)
    else Judge(rule, Conditional(g, e, t), Skippable(g, e, t), s, Comes(g, e, t, s))
  }

  /** What the element reads, if that takes no more than `n` levels and repetitions. */
  function Read(g: Grammar, rule: Rule, n: nat, e: Id, t: Override, s: Input): Result
    requires WellFormed(g) && e < |g| && Allowed(g, t)
    decreases n, 1, 0
  {
    assert LinksInside(g[e], |g|);
    if n == 0 then More
    else
      match g[e].compound
      case TagOverride => Read(g, rule, n - 1, g[e].children[0], Some(e), s)
      case TypeRef => ThenAct(Read(g, rule, n - 1, g[e].typeElement, t, s), g[e])
      case Choice => ThenAct(ThenSome(ReadAll(g, rule, n - 1, g[e].children, s), Skippable(g, e, t)), g[e])
      case _ => ReadTagged(g, rule, n, e, t, s)
  }

  function ReadTagged(g: Grammar, rule: Rule, n: nat, e: Id, t: Override, s: Input): Result
    requires WellFormed(g) && e < |g| && Allowed(g, t) && n > 0
    decreases n, 0, 0
  {
    match Decide(g, rule, e, t, s)
    case Refuse => Refused
    case Leave(b) => Done(s.(matched := b))
    case Take =>
      var inner := Taken(s, !g[e].compound.Any? && Constructed(g, e, t));
      if HasBody(g[e].compound) then ReadContents(g, rule, n - 1, e, inner) else Done(Acted(inner, g[e]))
  }

  predicate Inside(g: Grammar, ids: seq<Id>) {
    forall i :: 0 <= i < |ids| ==> ids[i] < |g|
  }

  /** One element after the other. */
  function ReadAll(g: Grammar, rule: Rule, n: nat, ids: seq<Id>, s: Input): Result
    requires WellFormed(g) && Inside(g, ids)
    decreases n, 2, |ids|
  {
    if |ids| == 0 then Done(s)
    else
      var r := ReadAll(g, rule, n, ids[..|ids| - 1], s);
      if r.Done? then Read(g, rule, n, ids[|ids| - 1], None, r.input) else r
  }

  function ReadContents(g: Grammar, rule: Rule, n: nat, e: Id, s: Input): Result
    requires WellFormed(g) && e < |g|
    decreases n, 3, 0
  {
    assert LinksInside(g[e], |g|);
    if Repeats(g[e].compound) then ReadList(g, rule, n, e, s)
    else ThenUp(ReadAll(g, rule, n, g[e].children, s), g[e])
  }

  function ReadList(g: Grammar, rule: Rule, n: nat, e: Id, s: Input): Result
    requires WellFormed(g) && e < |g|
    decreases n, 2, 0
  {
    assert LinksInside(g[e], |g|);
    if n == 0 then More
    else
      var r := ReadAll(g, rule, n - 1, g[e].children, s);
      if r.Done? && |r.input.rest| > 0 then ReadList(g, rule, n - 1, e, r.input) else ThenUp(r, g[e])
  }

  // ------------------------------------------------------------------------ runs

  lemma {:induction false} RunAdd(p: seq<Opcode>, rule: Rule, st: Status, a: nat, b: nat)
    ensures Run(p, rule, st, a + b) == Run(p, rule, Run(p, rule, st, a), b)
    decreases a
  {
    if a > 0 && st.At? {
      RunAdd(p, rule, Next(p, rule, st.state), a - 1, b);
    }
  }

  lemma {:induction false} StillAt(p: seq<Opcode>, rule: Rule, st: Status, a: nat, b: nat)
    requires a <= b && Run(p, rule, st, b).At?
    ensures Run(p, rule, st, a).At?
  {
    RunAdd(p, rule, st, a, b - a);
  }

  /** Where the machine is to be, and, if `enough`, how many steps are looked at. */
  datatype Aim = Aim(pc: nat, back: seq<nat>, enough: bool, k: nat)

  /** The machine does from `m` what `r` says: it goes where it is to be, is stuck, or
      has not come to an end after the steps that are looked at. */
  ghost predicate Leads(p: seq<Opcode>, rule: Rule, m: State, r: Result, a: Aim) {
    match r
    case Done(s) => exists j: nat :: Run(p, rule, At(m), j) == At(State(a.pc, a.back, s))
    case Refused => exists j: nat :: Run(p, rule, At(m), j) == Stuck
    case More => a.enough ==> Run(p, rule, At(m), a.k).At?
  }

  /** After `r1`, the machine does what `r` says. */
  ghost predicate LeadsOn(p: seq<Opcode>, rule: Rule, r1: Result, mid: Aim, r: Result, a: Aim) {
    if r1.Done? then Leads(p, rule, State(mid.pc, mid.back, r1.input), r, a) else r == r1
  }

  lemma {:induction false} Chain(p: seq<Opcode>, rule: Rule, m: State, r1: Result, mid: Aim, r: Result, a: Aim)
    requires Leads(p, rule, m, r1, mid) && LeadsOn(p, rule, r1, mid, r, a)
    requires mid.enough == a.enough && mid.k == a.k
    ensures Leads(p, rule, m, r, a)
  {
    if r1.Done? {
      var m1 := State(mid.pc, mid.back, r1.input);
      var i: nat :| Run(p, rule, At(m), i) == At(m1);
      match r
      case Done(s) =>
        var j: nat :| Run(p, rule, At(m1), j) == At(State(a.pc, a.back, s));
        RunAdd(p, rule, At(m), i, j);
      case Refused =>
        var j: nat :| Run(p, rule, At(m1), j) == Stuck;
        RunAdd(p, rule, At(m), i, j);
      case More =>
        if a.enough {
          RunAdd(p, rule, At(m), i, a.k);
          StillAt(p, rule, At(m), a.k, i + a.k);
        }
    }
  }

  /** After one step there is one step less to look at. */
  function Sooner(a: Aim): Aim { a.(enough := a.enough && a.k > 0, k := if a.k > 0 then a.k - 1 else 0) }

  lemma {:induction false} StepThen(p: seq<Opcode>, rule: Rule, m: State, m1: State, r: Result, a: Aim)
    requires Next(p, rule, m) == At(m1) && Leads(p, rule, m1, r, Sooner(a))
    ensures Leads(p, rule, m, r, a)
  {
    match r
    case Done(s) =>
      var j: nat :| Run(p, rule, At(m1), j) == At(State(a.pc, a.back, s));
      assert Run(p, rule, At(m), j + 1) == At(State(a.pc, a.back, s));
    case Refused =>
      var j: nat :| Run(p, rule, At(m1), j) == Stuck;
      assert Run(p, rule, At(m), j + 1) == Stuck;
    case More =>
  }

  /** The next status is what `r` says. */
  predicate Turns(p: seq<Opcode>, rule: Rule, m: State, r: Result, pc: nat, back: seq<nat>) {
    match r
    case Done(s) => Next(p, rule, m) == At(State(pc, back, s))
    case Refused => Next(p, rule, m) == Stuck
    case More => false
  }

  lemma {:induction false} OneTurn(p: seq<Opcode>, rule: Rule, m: State, r: Result, a: Aim)
    requires Turns(p, rule, m, r, a.pc, a.back)
    ensures Leads(p, rule, m, r, a)
  {
    assert Run(p, rule, At(m), 1) == Next(p, rule, m) by {
      assert Run(p, rule, Next(p, rule, m), 0) == Next(p, rule, m);
    }
  }

  lemma {:induction false} NoSteps(p: seq<Opcode>, rule: Rule, m: State, r: Result, a: Aim)
    requires r == Done(m.input) && a.pc == m.pc && a.back == m.back
    ensures Leads(p, rule, m, r, a)
  {
    assert Run(p, rule, At(m), 0) == At(m);
  }
}
