/** Removing `#if` groups keeps the meaning of the text.

    `Preprocess` is the conditional inclusion of section 6.10.1 of
    ISO/IEC 9899:1999: it selects the ordinary lines that survive under an
    assignment of the macros.  `Run` is a whole run of the transition table over
    a file.  `MeaningPreserved` relates the two: for every assignment under which
    the verdicts on directives are right, the kept (and edited) lines preprocess to
    exactly what the input preprocesses to, each line taken as what it is scanned
    as.  Comments that reach from one line into another are the matter of
    `UnifdefComments`.
  */
module UnifdefMeaning {
  import opened Wrappers
  import opened UnifdefGrammar
  import opened UnifdefEval
  import opened UnifdefTable

  // -------------------------------------------------- conditional inclusion

  /** One open group: whether the text around it is included, whether one of
      its branches has been taken, whether the current one is included, and
      whether its `#else` has been seen. */
  datatype Group = Group(outer: bool, taken: bool, active: bool, inElse: bool)

  predicate Included(gs: seq<Group>) {
    gs == [] || gs[|gs| - 1].active
  }

  function OpenGroup(gs: seq<Group>, holds: bool): seq<Group> {
    gs + [Group(Included(gs), holds, Included(gs) && holds, false)]
  }

  predicate InBranches(gs: seq<Group>) {
    gs != [] && !gs[|gs| - 1].inElse
  }

  function ElifGroup(g: Group, holds: bool): Group {
    g.(active := g.outer && !g.taken && holds, taken := g.taken || holds)
  }

  function ElseGroup(g: Group): Group {
    g.(active := g.outer && !g.taken, taken := true, inElse := true)
  }

  /** The truth value of a directive with a condition. */
  predicate Holds(t: Text, env: Env) {
    match t
    case If(cond) => CondHolds(cond, env)
    case Ifdef(neg, cond) => IfdefHolds(neg, cond, env)
    case Elif(cond) => CondHolds(cond, env)
    case _ => true
  }

  /** The groups open after a line whose condition, if it has one, `holds` or not;
      none if the line is out of place. */
  function AdvanceBy(gs: seq<Group>, t: Text, holds: bool): Option<seq<Group>> {
    match t
    case Ordinary(_) => Some(gs)
    case If(_) | Ifdef(_, _) => Some(OpenGroup(gs, holds))
    case Elif(_) => if InBranches(gs) then Some(gs[|gs| - 1 := ElifGroup(gs[|gs| - 1], holds)]) else None
    case Else => if InBranches(gs) then Some(gs[|gs| - 1 := ElseGroup(gs[|gs| - 1])]) else None
    case Endif => if gs != [] then Some(gs[..|gs| - 1]) else None
  }

  function Advance(gs: seq<Group>, t: Text, env: Env): Option<seq<Group>> {
    AdvanceBy(gs, t, Holds(t, env))
  }

  function Selected(gs: seq<Group>, t: Text): seq<string> {
    if t.Ordinary? && Included(gs) then [t.s] else []
  }

  /** The ordinary lines that are included, or none if groups do not nest. */
  function Preprocess(gs: seq<Group>, ts: seq<Text>, env: Env): Option<seq<string>>
    decreases |ts|
  {
    if ts == [] then if gs == [] then Some([]) else None
    else
      match Advance(gs, ts[0], env)
      case None => None
      case Some(gs') =>
        match Preprocess(gs', ts[1..], env)
        case None => None
        case Some(out) => Some(Selected(gs, ts[0]) + out)
  }

  // ------------------------------------------------------------- whole runs

  datatype Options = Options(
    syms: Symbols,
    ignore: set<string>,   // symbols given by -iD or -iU
    strictlogic: bool,
    killconsts: bool,
    iocccok: bool)

  function IfDirective(known: Option<bool>, ignored: bool): Directive {
    match known
    case None => UnknownIf
    case Some(true) => if ignored then TrueI else TrueIf
    case Some(false) => if ignored then FalseI else FalseIf
  }

  function ElifDirective(known: Option<bool>): Directive {
    match known
    case None => UnknownElif
    case Some(true) => TrueElif
    case Some(false) => FalseElif
  }

  predicate Ignored(ts: seq<Token>, opts: Options) {
    ts != [] && ts[0].Name? && ts[0].s in opts.ignore
  }

  /** The line type that `parseline` reports. */
  function Classify(line: Line, opts: Options): LineType {
    match line.text
    case Ordinary(_) => PlainLine
    case If(cond) =>
      Dir(IfDirective(CondKnown(cond, opts.syms, opts.strictlogic, opts.killconsts), false), Dodgy(line))
    case Ifdef(neg, cond) =>
      Dir(IfDirective(IfdefKnown(neg, cond, opts.syms), Ignored(cond, opts)), Dodgy(line))
    case Elif(cond) =>
      Dir(ElifDirective(CondKnown(cond, opts.syms, opts.strictlogic, opts.killconsts)), Dodgy(line))
    case Else => Dir(ElseDir, Dodgy(line))
    case Endif => Dir(EndifDir, Dodgy(line))
  }

  /** One line handed to `flushline`. */
  datatype Flushed = Flushed(line: Line, keep: bool)
  datatype RunResult = RunResult(status: Status, flushed: seq<Flushed>)

  const START := Machine([Outside], [false], false)

  /** Scanning a line leaves its comment open or closes it. */
  function Scanned(m: Machine, line: Line): (m': Machine)
    ensures m'.states == m.states && m'.ignoring == m.ignoring
    ensures WellShaped(m) ==> WellShaped(m')
  {
    m.(incomment := line.after)
  }

  function Step(m: Machine, line: Line, opts: Options): Outcome
    requires WellShaped(m)
  {
    TransitionSafe(m, Classify(line, opts));
    Effect(Transition(Top(m), Classify(line, opts)), m, line, opts.iocccok)
  }

  /** Only the end of the file finishes a run. */
  lemma {:induction false} StepNeverFinishes(m: Machine, line: Line, opts: Options)
    requires WellShaped(m)
    ensures Step(m, line, opts).Stop? ==> Step(m, line, opts).status.Failed?
  {
    TransitionSafe(m, Classify(line, opts));
  }

  lemma {:induction false} StepShape(m: Machine, line: Line, opts: Options)
    requires WellShaped(m)
    ensures Step(m, line, opts).Go? ==> WellShaped(Step(m, line, opts).m)
  {
    TransitionSafe(m, Classify(line, opts));
    StepKeepsShape(m, Classify(line, opts), line, opts.iocccok);
  }

  function AtEof(m: Machine): Status
    requires WellShaped(m)
  {
    if Top(m) != Outside then Failed(PrematureEof)
    else if m.incomment then Failed(EofInComment)
    else Finished
  }

  /** Processing `lines` to the end of the file from a given machine state. */
  function Run(m: Machine, lines: seq<Line>, opts: Options): RunResult
    requires WellShaped(m)
    decreases |lines|
  {
    if lines == [] then RunResult(AtEof(m), [])
    else
      var scanned := Scanned(m, lines[0]);
      StepShape(scanned, lines[0], opts);
      match Step(scanned, lines[0], opts)
      case Stop(status) => RunResult(status, [])
      case Go(m', line, keep) =>
        var rest := Run(m', lines[1..], opts);
        RunResult(rest.status, [Flushed(line, keep)] + rest.flushed)
  }

  function Texts(lines: seq<Line>): (ts: seq<Text>)
    ensures |ts| == |lines|
  {
    if lines == [] then [] else [Whole(lines[0])] + Texts(lines[1..])
  }

  function Kept(fs: seq<Flushed>): seq<Text> {
    if fs == [] then []
    else (if fs[0].keep then [Whole(fs[0].line)] else []) + Kept(fs[1..])
  }

  // ------------------------------------------------------------- simulation

  /** States in which the output has a group open for the current one. */
  predicate HasOutput(st: Ifstate) {
    st.PassMiddle? || st.FalseMiddle? || st.TrueMiddle? || st.PassElse?
  }

  /** What a state says about the innermost group of the input alone. */
  predicate InputFits(st: Ifstate, g: Group) {
    match st
    case Outside => false
    case FalsePrefix => !g.taken && !g.active && !g.inElse
    case TruePrefix => g.taken && g.active == g.outer && !g.inElse
    case PassMiddle => !g.inElse
    case FalseMiddle => !g.active && !g.inElse
    case TrueMiddle => g.taken && !g.inElse
    case PassElse => g.inElse
    case FalseElse => g.inElse && !g.active
    case TrueElse => g.inElse && g.active == g.outer
    case FalseTrailer => !g.inElse && !g.active && (g.taken || !g.outer)
  }

  /** ... and about the group of the output that goes with it. */
  predicate OutputFits(st: Ifstate, g: Group, o: Group) {
    match st
    case PassMiddle => !o.inElse && o.taken == g.taken && o.active == g.active
    case FalseMiddle => !o.inElse && o.taken == g.taken
    case TrueMiddle => o.inElse && o.active == g.active
    case PassElse => o.inElse && o.active == g.active
    case _ => false
  }

  /** The nesting stack relates the groups open in the input to those open in
      the output written so far. */
  predicate Related(states: seq<Ifstate>, ins: seq<Group>, outs: seq<Group>)
    decreases |states|
  {
    if |states| <= 1 then states == [Outside] && ins == [] && outs == []
    else
      var n := |states| - 1;
      && ins != []
      && var st, g, outer := states[n], ins[|ins| - 1], ins[..|ins| - 1];
      && g.outer == Included(outer)
      && InputFits(st, g)
      && (Printing(states[n - 1]) || st == FalseTrailer || st == FalseElse)
      && if HasOutput(st) then
           && outs != []
           && var o, outer' := outs[|outs| - 1], outs[..|outs| - 1];
           && o.outer == Included(outer')
           && OutputFits(st, g, o)
           && Related(states[..n], outer, outer')
         else Related(states[..n], outer, outs)
  }

  /** Kept text is included in the output exactly if it is in the input; where
      text is dropped none is included in the input. */
  lemma {:induction false} RelatedIncluded(states: seq<Ifstate>, ins: seq<Group>, outs: seq<Group>)
    requires Related(states, ins, outs)
    ensures states != []
    ensures Printing(states[|states| - 1]) ==> Included(ins) == Included(outs)
    ensures !Printing(states[|states| - 1]) ==> !Included(ins)
    decreases |states|
  {
    if |states| > 1 {
      var n := |states| - 1;
      var outer := ins[..|ins| - 1];
      RelatedIncluded(states[..n], outer, if HasOutput(states[n]) then outs[..|outs| - 1] else outs);
      assert states[..n][|states[..n]| - 1] == states[n - 1];
    }
  }

  /** A state that may be pushed for a group whose condition `holds`. */
  predicate Opens(st: Ifstate, printing: bool, holds: bool) {
    match st
    case PassMiddle => printing
    case TruePrefix => printing && holds
    case FalsePrefix => printing && !holds
    case FalseTrailer => !printing
    case _ => false
  }

  /** Opening a group that is passed through, or one whose `#if` is dropped. */
  lemma {:induction false} RelatedOpen(states: seq<Ifstate>, ins: seq<Group>, outs: seq<Group>, st: Ifstate,
                                       holds: bool)
    requires Related(states, ins, outs)
    requires Opens(st, Printing(states[|states| - 1]), holds)
    ensures Related(states + [st], OpenGroup(ins, holds), if st.PassMiddle? then OpenGroup(outs, holds) else outs)
  {
    RelatedIncluded(states, ins, outs);
    var ins' := OpenGroup(ins, holds);
    var outs' := OpenGroup(outs, holds);
    assert (states + [st])[..|states|] == states;
    assert ins'[..|ins' | - 1] == ins;
    assert outs'[..|outs'| - 1] == outs;
  }

  /** Replacing the innermost group on both sides. */
  lemma {:induction false} RelatedReplace(states: seq<Ifstate>, ins: seq<Group>, outs: seq<Group>, st: Ifstate,
                                          g: Group, outs': seq<Group>)
    requires |states| >= 2 && Related(states, ins, outs)
    requires g.outer == ins[|ins| - 1].outer && InputFits(st, g)
    requires Printing(states[|states| - 2]) || st == FalseTrailer || st == FalseElse
    requires var old' := if HasOutput(states[|states| - 1]) then outs[..|outs| - 1] else outs;
             if HasOutput(st) then
               outs' != [] && outs'[..|outs'| - 1] == old' && outs'[|outs'| - 1].outer == Included(old')
               && OutputFits(st, g, outs'[|outs'| - 1])
             else outs' == old'
    ensures Related(states[|states| - 1 := st], ins[|ins| - 1 := g], outs')
  {
    var n := |states| - 1;
    assert states[n := st][..n] == states[..n];
    assert ins[|ins| - 1 := g][..|ins| - 1] == ins[..|ins| - 1];
  }

  /** What a line type claims about the line's condition is true of `env`. */
  predicate Claims(t: Text, d: Directive, env: Env) {
    match t
    case Ordinary(_) => false
    case If(cond) =>
      (match d
       case UnknownIf => true
       case TrueIf | TrueI => CondHolds(cond, env)
       case FalseIf | FalseI => !CondHolds(cond, env)
       case _ => false)
    case Ifdef(neg, cond) =>
      (match d
       case UnknownIf => true
       case TrueIf | TrueI => IfdefHolds(neg, cond, env)
       case FalseIf | FalseI => !IfdefHolds(neg, cond, env)
       case _ => false)
    case Elif(cond) =>
      (match d
       case UnknownElif => true
       case TrueElif => CondHolds(cond, env)
       case FalseElif => !CondHolds(cond, env)
       case _ => false)
    case Else => d == ElseDir
    case Endif => d == EndifDir
  }

  ghost predicate TextFits(t: Text) {
    match t
    case If(cond) => TokensFit(cond)
    case Elif(cond) => TokensFit(cond)
    case _ => true
  }

  /** What the line type claims is true of the whole directive. */
  predicate Right(line: Line, opts: Options, env: Env) {
    line.text.Ordinary? || Claims(Whole(line), Classify(line, opts).d, env)
  }

  predicate IsVerdict(d: Directive) {
    d in {TrueI, FalseI, TrueIf, FalseIf, TrueElif, FalseElif}
  }

  /** A verdict on the first line of a condition that goes on. */
  predicate HalfJudged(line: Line, opts: Options) {
    Rest(line) != [] && Classify(line, opts).Dir? && IsVerdict(Classify(line, opts).d)
  }

  lemma {:induction false} ClassifySound(line: Line, opts: Options, env: Env)
    requires Agrees(env, opts.syms) && SymbolsFit(opts.syms) && TextFits(line.text)
    requires !HalfJudged(line, opts)
    ensures Right(line, opts, env)
  {
    match line.text
    case If(cond) =>
      assert Rest(line) == [] ==> cond + Rest(line) == cond;
      if CondKnown(cond, opts.syms, opts.strictlogic, opts.killconsts).Some? {
        CondKnownSound(cond, opts.syms, opts.strictlogic, opts.killconsts, env);
      }
    case Elif(cond) =>
      assert Rest(line) == [] ==> cond + Rest(line) == cond;
      if CondKnown(cond, opts.syms, opts.strictlogic, opts.killconsts).Some? {
        CondKnownSound(cond, opts.syms, opts.strictlogic, opts.killconsts, env);
      }
    case Ifdef(_, cond) =>
      assert Rest(line) == [] ==> cond + Rest(line) == cond;
    case _ =>
  }

  /** Otherwise the verdict is right where the whole condition happens to have the
      truth value of its first line. */
  lemma {:induction false} VerdictRightIff(line: Line, opts: Options, env: Env)
    requires !line.text.Ordinary? && IsVerdict(Classify(line, opts).d)
    ensures Right(line, opts, env)
       <==> (Holds(Whole(line), env) <==> Classify(line, opts).d in {TrueI, TrueIf, TrueElif})
  {}

  /** Both sides of one step: the groups open afterwards, and what was written. */
  ghost predicate StepRelates(m: Machine, ins: seq<Group>, outs: seq<Group>, t: Text, r: Outcome, env: Env)
    requires r.Go?
  {
    var ins' := Advance(ins, t, env);
    var outs' := if r.keep then Advance(outs, Whole(r.line), env) else Some(outs);
    && ins'.Some? && outs'.Some?
    && Related(r.m.states, ins'.value, outs'.value)
    && Selected(ins, t) == (if r.keep then Selected(outs, Whole(r.line)) else [])
  }

  /** The state an action leaves on top of the stack. */
  function Target(a: Action): Ifstate {
    match a
    case Fpass | Oif | Oiffy | Pelif | Oelif | Mpass => PassMiddle
    case Ftrue | Itrue | Strue => TruePrefix
    case Ffalse | Ifalse | Sfalse => FalsePrefix
    case Fdrop | Idrop | Dfalse | Melif => FalseTrailer
    case Delif => FalseMiddle
    case Mtrue => TrueMiddle
    case Pelse => PassElse
    case Selse => TrueElse
    case Delse | Melse => FalseElse
    case _ => Outside
  }

  /** The line as an action writes it, if it does. */
  function Written(a: Action, t: Text): Option<Text> {
    match a
    case Print | Fpass | Oif | Oiffy | Pelif | Oelif | Pelse | Pendif => Some(t)
    case Mpass => Some(AsIf(t))
    case Mtrue => Some(Else)
    case Melif | Melse => Some(Endif)
    case _ => None
  }

  predicate OpensGroup(a: Action) {
    a in {Fpass, Oif, Oiffy, Ftrue, Itrue, Ffalse, Ifalse, Fdrop, Idrop}
  }

  predicate ChangesGroup(a: Action) {
    a in {Pelif, Oelif, Mpass, Strue, Sfalse, Dfalse, Melif, Delif, Mtrue, Pelse, Selse, Delse, Melse}
  }

  lemma EffectOnStack(a: Action, m: Machine, line: Line, iocccok: bool)
    requires |m.states| == |m.ignoring| && m.states != []
    requires NeedsGroup(a) ==> |m.states| >= 2
    ensures var r := Effect(a, m, line, iocccok);
            r.Go? ==>
              && !Fails(a)
              && (OpensGroup(a) ==> r.m.states == m.states + [Target(a)])
              && (ChangesGroup(a) ==> r.m.states == m.states[|m.states| - 1 := Target(a)])
              && (r.keep <==> Written(a, Whole(line)).Some?)
              && (r.keep ==> Whole(r.line) == Written(a, Whole(line)).value)
  {}

  /** The table on the first line of a group. */
  lemma OpeningEntries(st: Ifstate, d: Directive, dodgy: bool, holds: bool)
    requires d.UnknownIf? || ((d.TrueI? || d.TrueIf?) && holds) || ((d.FalseI? || d.FalseIf?) && !holds)
    ensures var a := Transition(st, Dir(d, dodgy));
            && OpensGroup(a) && !NeedsGroup(a) && Opens(Target(a), Printing(st), holds)
            && (!dodgy && Printing(st) ==> (Target(a).PassMiddle? <==> d.UnknownIf?))
  {}

  lemma {:induction false} OpeningRelates(m: Machine, ins: seq<Group>, outs: seq<Group>, t: Text, st: Ifstate,
                                          r: Outcome, env: Env)
    requires m.states != [] && Related(m.states, ins, outs)
    requires r.Go? && r.m.states == m.states + [st] && r.keep == st.PassMiddle? && (r.keep ==> Whole(r.line) == t)
    requires match t
             case If(cond) => Opens(st, Printing(Top(m)), CondHolds(cond, env))
             case Ifdef(neg, cond) => Opens(st, Printing(Top(m)), IfdefHolds(neg, cond, env))
             case _ => false
    ensures StepRelates(m, ins, outs, t, r, env)
  {
    var holds := if t.If? then CondHolds(t.cond, env) else IfdefHolds(t.neg, t.cond, env);
    RelatedOpen(m.states, ins, outs, st, holds);
  }

  lemma {:induction false} OpeningStep(m: Machine, ins: seq<Group>, outs: seq<Group>, line: Line, d: Directive,
                                       dodgy: bool, iocccok: bool, env: Env)
    requires WellShaped(m) && Related(m.states, ins, outs)
    requires line.text.If? || line.text.Ifdef?
    requires Claims(Whole(line), d, env)
    ensures !NeedsGroup(Transition(Top(m), Dir(d, dodgy)))
    ensures var r := Effect(Transition(Top(m), Dir(d, dodgy)), m, line, iocccok);
            r.Go? ==> StepRelates(m, ins, outs, Whole(line), r, env)
  {
    var t := Whole(line);
    var holds := if t.If? then CondHolds(t.cond, env) else IfdefHolds(t.neg, t.cond, env);
    var a := Transition(Top(m), Dir(d, dodgy));
    OpeningEntries(Top(m), d, dodgy, holds);
    EffectOnStack(a, m, line, iocccok);
    var r := Effect(a, m, line, iocccok);
    if r.Go? {
      OpeningRelates(m, ins, outs, t, Target(a), r, env);
    }
  }

  /** A state that may replace `st` at an `#elif` or `#else` which turns the
      input group `g` into `g'`, and how the line is written, if it is. */
  predicate Moves(st: Ifstate, st': Ifstate, t: Text, written: Option<Text>, g: Group, g': Group) {
    && InputFits(st', g')
    && if HasOutput(st) && HasOutput(st') then
         && (st.PassMiddle? || st.FalseMiddle?)
         && match st'
         case PassMiddle => written == Some(t) && t.Elif?
         case FalseMiddle => written == None && g'.taken == g.taken
         case TrueMiddle => written == Some(Else)
         case PassElse => written == Some(Else)
         case _ => false
       else if HasOutput(st) then written == Some(Endif)
       else if HasOutput(st') then st.FalsePrefix? && st'.PassMiddle? && t.Elif? && written == Some(If(t.cond))
       else written == None
  }

  /** The input group after an `#elif` or `#else`. */
  function NextGroup(g: Group, t: Text, holds: bool): Group {
    if t.Elif? then ElifGroup(g, holds) else ElseGroup(g)
  }

  /** The table on an `#elif` or `#else` line. */
  lemma MiddleEntries(st: Ifstate, g: Group, t: Text, d: Directive, dodgy: bool, holds: bool)
    requires InputFits(st, g)
    requires t.Elif? || t.Else?
    requires if t.Else? then d.ElseDir? else d.UnknownElif? || (d.TrueElif? && holds) || (d.FalseElif? && !holds)
    ensures var a := Transition(st, Dir(d, dodgy));
            Fails(a) ||
            (&& ChangesGroup(a) && !g.inElse
             && (st == FalseTrailer || st == FalseElse ==> Target(a) == FalseTrailer || Target(a) == FalseElse)
             && Moves(st, Target(a), t, Written(a, t), g, NextGroup(g, t, holds)))
  {}

  /** The groups of the output after a line that goes with `Moves`. */
  function NextOutput(outs: seq<Group>, written: Option<Text>, env: Env): seq<Group> {
    match written
    case None => outs
    case Some(t) => var next := Advance(outs, t, env); if next.Some? then next.value else outs
  }

  lemma {:induction false} MoveWithinOutput(states: seq<Ifstate>, ins: seq<Group>, outs: seq<Group>, t: Text,
                                            st': Ifstate, written: Option<Text>, holds: bool, env: Env)
    requires |states| >= 2 && Related(states, ins, outs)
    requires t.Elif? || t.Else?
    requires t.Elif? ==> holds == CondHolds(t.cond, env)
    requires var st, g := states[|states| - 1], ins[|ins| - 1];
             && !g.inElse && HasOutput(st) && HasOutput(st')
             && Moves(st, st', t, written, g, NextGroup(g, t, holds))
    ensures written.Some? ==> Advance(outs, written.value, env).Some?
    ensures Related(states[|states| - 1 := st'], ins[|ins| - 1 := NextGroup(ins[|ins| - 1], t, holds)],
                    NextOutput(outs, written, env))
  {
    var g' := NextGroup(ins[|ins| - 1], t, holds);
    RelatedIncluded(states[..|states| - 1], ins[..|ins| - 1], outs[..|outs| - 1]);
    RelatedReplace(states, ins, outs, st', g', NextOutput(outs, written, env));
  }

  lemma {:induction false} MoveElsewhere(states: seq<Ifstate>, ins: seq<Group>, outs: seq<Group>, t: Text,
                                         st': Ifstate, written: Option<Text>, holds: bool, env: Env)
    requires |states| >= 2 && Related(states, ins, outs)
    requires t.Elif? || t.Else?
    requires t.Elif? ==> holds == CondHolds(t.cond, env)
    requires var st, g := states[|states| - 1], ins[|ins| - 1];
             && !g.inElse && !(HasOutput(st) && HasOutput(st'))
             && (st == FalseTrailer || st == FalseElse ==> st' == FalseTrailer || st' == FalseElse)
             && Moves(st, st', t, written, g, NextGroup(g, t, holds))
    ensures written.Some? ==> Advance(outs, written.value, env).Some?
    ensures Related(states[|states| - 1 := st'], ins[|ins| - 1 := NextGroup(ins[|ins| - 1], t, holds)],
                    NextOutput(outs, written, env))
  {
    var g' := NextGroup(ins[|ins| - 1], t, holds);
    var outs' := NextOutput(outs, written, env);
    if HasOutput(st') {
      RelatedIncluded(states[..|states| - 1], ins[..|ins| - 1], outs);
      assert outs'[..|outs'| - 1] == outs;
    }
    RelatedReplace(states, ins, outs, st', g', outs');
  }

  lemma {:induction false} MiddleRelates(m: Machine, ins: seq<Group>, outs: seq<Group>, t: Text, st': Ifstate,
                                         written: Option<Text>, r: Outcome, env: Env)
    requires |m.states| >= 2 && Related(m.states, ins, outs)
    requires t.Elif? || t.Else?
    requires r.Go? && r.m.states == m.states[|m.states| - 1 := st']
    requires r.keep == written.Some? && (r.keep ==> Whole(r.line) == written.value)
    requires var g := ins[|ins| - 1];
             && !g.inElse
             && Moves(Top(m), st', t, written, g, NextGroup(g, t, t.Elif? && CondHolds(t.cond, env)))
    requires Top(m) == FalseTrailer || Top(m) == FalseElse ==> st' == FalseTrailer || st' == FalseElse
    ensures StepRelates(m, ins, outs, t, r, env)
  {
    var holds := t.Elif? && CondHolds(t.cond, env);
    if HasOutput(Top(m)) && HasOutput(st') {
      MoveWithinOutput(m.states, ins, outs, t, st', written, holds, env);
    } else {
      MoveElsewhere(m.states, ins, outs, t, st', written, holds, env);
    }
  }

  lemma {:induction false} MiddleStep(m: Machine, ins: seq<Group>, outs: seq<Group>, line: Line, d: Directive,
                                      dodgy: bool, iocccok: bool, env: Env)
    requires WellShaped(m) && Related(m.states, ins, outs)
    requires line.text.Elif? || line.text.Else?
    requires Claims(Whole(line), d, env)
    ensures NeedsGroup(Transition(Top(m), Dir(d, dodgy))) ==> |m.states| >= 2
    ensures |m.states| >= 2 ==>
              var r := Effect(Transition(Top(m), Dir(d, dodgy)), m, line, iocccok);
              r.Go? ==> StepRelates(m, ins, outs, Whole(line), r, env)
    ensures |m.states| == 1 ==> Fails(Transition(Top(m), Dir(d, dodgy)))
  {
    TransitionSafe(m, Dir(d, dodgy));
    if |m.states| >= 2 {
      var a := Transition(Top(m), Dir(d, dodgy));
      var t := Whole(line);
      MiddleEntries(Top(m), ins[|ins| - 1], t, d, dodgy, t.Elif? && CondHolds(t.cond, env));
      EffectOnStack(a, m, line, iocccok);
      var r := Effect(a, m, line, iocccok);
      if r.Go? {
        MiddleRelates(m, ins, outs, t, Target(a), Written(a, t), r, env);
      }
    }
  }

  /** The table on an `#endif` line. */
  lemma EndifEntries(st: Ifstate, dodgy: bool)
    ensures var a := Transition(st, Dir(EndifDir, dodgy));
            Fails(a) || (st != Outside && a == if HasOutput(st) then Pendif else Dendif)
  {}

  lemma {:induction false} EndifStep(m: Machine, ins: seq<Group>, outs: seq<Group>, line: Line, dodgy: bool,
                                     iocccok: bool, env: Env)
    requires WellShaped(m) && Related(m.states, ins, outs)
    requires line.text.Endif?
    ensures NeedsGroup(Transition(Top(m), Dir(EndifDir, dodgy))) ==> |m.states| >= 2
    ensures var r := Effect(Transition(Top(m), Dir(EndifDir, dodgy)), m, line, iocccok);
            r.Go? ==> StepRelates(m, ins, outs, Whole(line), r, env)
  {
    TransitionSafe(m, Dir(EndifDir, dodgy));
    EndifEntries(Top(m), dodgy);
  }

  lemma {:induction false} PlainStep(m: Machine, ins: seq<Group>, outs: seq<Group>, line: Line, iocccok: bool, env: Env)
    requires WellShaped(m) && Related(m.states, ins, outs)
    requires line.text.Ordinary?
    ensures var a := Transition(Top(m), PlainLine);
            && !NeedsGroup(a)
            && var r := Effect(a, m, line, iocccok);
            r.Go? && StepRelates(m, ins, outs, Whole(line), r, env)
  {
    RelatedIncluded(m.states, ins, outs);
  }

  /** One line keeps input and output in step, whatever the table does. */
  lemma {:induction false} StepPreserves(m: Machine, ins: seq<Group>, outs: seq<Group>, line: Line, opts: Options,
                                         env: Env)
    requires WellShaped(m) && Related(m.states, ins, outs)
    requires Right(line, opts, env)
    requires Step(m, line, opts).Go?
    ensures StepRelates(m, ins, outs, Whole(line), Step(m, line, opts), env)
  {
    if line.text.Ordinary? {
      PlainStep(m, ins, outs, line, opts.iocccok, env);
    } else {
      var lt := Classify(line, opts);
      match line.text
      case If(_) | Ifdef(_, _) => OpeningStep(m, ins, outs, line, lt.d, lt.dodgy, opts.iocccok, env);
      case Elif(_) | Else => MiddleStep(m, ins, outs, line, lt.d, lt.dodgy, opts.iocccok, env);
      case Endif => EndifStep(m, ins, outs, line, lt.dodgy, opts.iocccok, env);
    }
  }

  ghost predicate AllFit(lines: seq<Line>) {
    forall line :: line in lines ==> TextFits(line.text)
  }

  /** No condition that goes on is judged by its first line. */
  predicate NoneHalfJudged(lines: seq<Line>, opts: Options) {
    forall line :: line in lines ==> !HalfJudged(line, opts)
  }

  /** All verdicts are right. */
  predicate AllRight(lines: seq<Line>, opts: Options, env: Env) {
    forall line :: line in lines ==> Right(line, opts, env)
  }

  lemma {:induction false} ClassifyAllSound(lines: seq<Line>, opts: Options, env: Env)
    requires Agrees(env, opts.syms) && SymbolsFit(opts.syms) && AllFit(lines) && NoneHalfJudged(lines, opts)
    ensures AllRight(lines, opts, env)
  {
    forall line | line in lines ensures Right(line, opts, env) {
      ClassifySound(line, opts, env);
    }
  }

  lemma {:induction false} PreprocessCons(gs: seq<Group>, t: Text, ts: seq<Text>, env: Env)
    requires Advance(gs, t, env).Some?
    ensures var p := Preprocess(Advance(gs, t, env).value, ts, env);
            Preprocess(gs, [t] + ts, env) == if p.Some? then Some(Selected(gs, t) + p.value) else None
  {
    assert ([t] + ts)[1..] == ts;
  }

  lemma {:induction false} KeptCons(f: Flushed, fs: seq<Flushed>)
    ensures Kept([f] + fs) == if f.keep then [Whole(f.line)] + Kept(fs) else Kept(fs)
  {
    assert ([f] + fs)[1..] == fs;
  }

  lemma {:induction false} ComposeStep(m: Machine, ins: seq<Group>, outs: seq<Group>, t: Text, r: Outcome,
                                       ts: seq<Text>, rest: seq<Flushed>, env: Env)
    requires r.Go? && StepRelates(m, ins, outs, t, r, env)
    requires var ins' := Advance(ins, t, env).value;
             var outs' := if r.keep then Advance(outs, Whole(r.line), env).value else outs;
             && Preprocess(ins', ts, env).Some?
             && Preprocess(outs', Kept(rest), env) == Preprocess(ins', ts, env)
    ensures Preprocess(ins, [t] + ts, env).Some?
    ensures Preprocess(outs, Kept([Flushed(r.line, r.keep)] + rest), env) == Preprocess(ins, [t] + ts, env)
  {
    PreprocessCons(ins, t, ts, env);
    KeptCons(Flushed(r.line, r.keep), rest);
    if r.keep {
      PreprocessCons(outs, Whole(r.line), Kept(rest), env);
    } else {
      var p := Preprocess(outs, Kept(rest), env).value;
      assert [] + p == p;
    }
  }

  lemma {:induction false} RunPreserves(m: Machine, ins: seq<Group>, outs: seq<Group>, lines: seq<Line>,
                                        opts: Options, env: Env)
    requires WellShaped(m) && Related(m.states, ins, outs)
    requires AllRight(lines, opts, env)
    requires Run(m, lines, opts).status == Finished
    ensures Preprocess(ins, Texts(lines), env).Some?
    ensures Preprocess(outs, Kept(Run(m, lines, opts).flushed), env) == Preprocess(ins, Texts(lines), env)
    decreases |lines|
  {
    if lines == [] {
      assert |m.states| == 1;
    } else {
      var scanned := Scanned(m, lines[0]);
      StepShape(scanned, lines[0], opts);
      StepNeverFinishes(scanned, lines[0], opts);
      StepPreserves(scanned, ins, outs, lines[0], opts, env);
      var r, t := Step(scanned, lines[0], opts), Whole(lines[0]);
      var ins' := Advance(ins, t, env).value;
      var outs' := if r.keep then Advance(outs, Whole(r.line), env).value else outs;
      RunPreserves(r.m, ins', outs', lines[1..], opts, env);
      ComposeStep(scanned, ins, outs, t, r, Texts(lines[1..]), Run(r.m, lines[1..], opts).flushed, env);
    }
  }

  /** A run that reaches the end of the file has written directives and lines that
      nest, and that preprocess to the same text as those of the input under every
      assignment of the macros for which the verdicts are right.  If no condition
      that goes on is judged by its first line, these are all that agree with the
      command line (`ClassifyAllSound`). */
  lemma {:induction false} MeaningPreserved(lines: seq<Line>, opts: Options, env: Env)
    requires AllRight(lines, opts, env)
    requires Run(START, lines, opts).status == Finished
    ensures Preprocess([], Texts(lines), env).Some?
    ensures Preprocess([], Kept(Run(START, lines, opts).flushed), env) == Preprocess([], Texts(lines), env)
  {
    RunPreserves(START, [], [], lines, opts, env);
  }

  // ------------------------------------------------- which files are accepted

  /** Whether a comment is open at the end of the file. */
  predicate InCommentAfter(incomment: bool, lines: seq<Line>)
    decreases |lines|
  {
    if lines == [] then incomment else InCommentAfter(lines[0].after, lines[1..])
  }

  predicate ElseState(st: Ifstate) {
    st.PassElse? || st.FalseElse? || st.TrueElse?
  }

  /** The stack has one state per open group and knows which have had an `#else`. */
  predicate Mirrors(states: seq<Ifstate>, gs: seq<Group>) {
    && |states| == |gs| + 1
    && forall i :: 0 <= i < |gs| ==> gs[i].inElse == ElseState(states[i + 1])
  }

  /** The largest number of groups open at once, starting from `depth`. */
  function PeakDepth(depth: int, ts: seq<Text>): (peak: int)
    ensures peak >= depth
    decreases |ts|
  {
    if ts == [] then depth
    else
      var next := match ts[0]
                  case If(_) | Ifdef(_, _) => depth + 1
                  case Endif => depth - 1
                  case _ => depth;
      var rest := PeakDepth(next, ts[1..]);
      if rest > depth then rest else depth
  }

  /** A directive that a comment spreads over several lines is refused although
      it is in place. */
  predicate Refused(st: Ifstate, d: Directive, iocccok: bool) {
    match d
    case UnknownIf => false
    case TrueI | FalseI | TrueIf | FalseIf => Printing(st) && !iocccok
    case UnknownElif => st in {TruePrefix, FalseMiddle, TrueMiddle}
    case TrueElif | FalseElif =>
      st in {FalsePrefix, TruePrefix, FalseMiddle, TrueMiddle} || (st == PassMiddle && !iocccok)
    case ElseDir => st in {FalsePrefix, TruePrefix, FalseMiddle, TrueMiddle}
    case EndifDir => st in {FalsePrefix, TruePrefix, FalseMiddle, FalseElse, TrueElse, FalseTrailer}
  }

  /** Entries that depend on `-e`. */
  predicate Optional(a: Action) {
    a in {Oiffy, Oif, Oelif}
  }

  predicate GoesOn(a: Action, iocccok: bool) {
    Optional(a) ==> iocccok
  }

  predicate IfLike(d: Directive) {
    d in {TrueI, FalseI, UnknownIf, TrueIf, FalseIf}
  }

  /** What an entry does for a directive in its place or out of it. */
  predicate Accepts(st: Ifstate, d: Directive, a: Action, iocccok: bool) {
    if d.EndifDir? then if st == Outside then Fails(a) else a in {Pendif, Dendif}
    else if IfLike(d) then OpensGroup(a) && !ElseState(Target(a)) && GoesOn(a, iocccok)
    else if st == Outside || ElseState(st) then Fails(a)
    else ChangesGroup(a) && ElseState(Target(a)) == d.ElseDir? && GoesOn(a, iocccok)
  }

  /** The table by what it accepts and where it goes: directives on one line, ... */
  lemma EntriesOnLine(st: Ifstate, d: Directive, iocccok: bool)
    ensures Accepts(st, d, Transition(st, Dir(d, false)), iocccok)
  {}

  /** ... and those that spread over several. */
  lemma EntriesSpread(st: Ifstate, d: Directive, iocccok: bool)
    ensures var a := Transition(st, Dir(d, true));
            if Refused(st, d, iocccok) then Fails(a) || !GoesOn(a, iocccok) else Accepts(st, d, a, iocccok)
  {}

  /** Which actions go through. */
  lemma EffectGoes(a: Action, m: Machine, line: Line, iocccok: bool)
    requires |m.states| == |m.ignoring| && m.states != []
    requires NeedsGroup(a) ==> |m.states| >= 2
    ensures var r := Effect(a, m, line, iocccok);
            && (Fails(a) || !GoesOn(a, iocccok) ==> r.Stop?)
            && (ChangesGroup(a) && GoesOn(a, iocccok) ==> r.Go?)
            && (OpensGroup(a) && GoesOn(a, iocccok) ==> (r.Go? <==> |m.states| != MAXDEPTH))
            && (a in {Pendif, Dendif} ==> r.Go? && r.m.states == m.states[..|m.states| - 1])
            && (a in {Print, Drop} ==> r.Go? && r.m == m)
  {}

  /** The directive is of the kind of the text. */
  predicate KindOf(t: Text, d: Directive) {
    match t
    case Ordinary(_) => false
    case If(_) | Ifdef(_, _) => IfLike(d)
    case Elif(_) => d in {UnknownElif, TrueElif, FalseElif}
    case Else => d == ElseDir
    case Endif => d == EndifDir
  }

  lemma {:induction false} DirectiveStepMirrors(m: Machine, gs: seq<Group>, line: Line, d: Directive, dodgy: bool,
                                                iocccok: bool, env: Env)
    requires WellShaped(m) && Mirrors(m.states, gs) && KindOf(Whole(line), d)
    requires NeedsGroup(Transition(Top(m), Dir(d, dodgy))) ==> |m.states| >= 2
    ensures var r, t := Effect(Transition(Top(m), Dir(d, dodgy)), m, line, iocccok), Whole(line);
            var next := Advance(gs, t, env);
            if r.Go? then !(dodgy && Refused(Top(m), d, iocccok)) && next.Some? && Mirrors(r.m.states, next.value)
            else
              || (dodgy && Refused(Top(m), d, iocccok)) || next.None?
              || ((t.If? || t.Ifdef?) && |gs| == MAXDEPTH - 1)
  {
    var a := Transition(Top(m), Dir(d, dodgy));
    if dodgy {
      EntriesSpread(Top(m), d, iocccok);
    } else {
      EntriesOnLine(Top(m), d, iocccok);
    }
    EffectOnStack(a, m, line, iocccok);
    EffectGoes(a, m, line, iocccok);
    if |m.states| >= 2 {
      assert gs[|gs| - 1].inElse == ElseState(Top(m));
    }
  }

  /** The line is refused where it stands. */
  predicate RefusedAt(m: Machine, line: Line, opts: Options)
    requires m.states != []
  {
    !line.text.Ordinary? && Dodgy(line) && Refused(Top(m), Classify(line, opts).d, opts.iocccok)
  }

  lemma {:induction false} StepMirrors(m: Machine, gs: seq<Group>, line: Line, opts: Options, env: Env)
    requires WellShaped(m) && Mirrors(m.states, gs)
    ensures var r, t := Step(m, line, opts), Whole(line);
            var next := Advance(gs, t, env);
            if r.Go? then !RefusedAt(m, line, opts) && next.Some? && Mirrors(r.m.states, next.value)
            else RefusedAt(m, line, opts) || next.None? || ((t.If? || t.Ifdef?) && |gs| == MAXDEPTH - 1)
  {
    var lt := Classify(line, opts);
    TransitionSafe(m, lt);
    if line.text.Ordinary? {
      EffectGoes(Transition(Top(m), PlainLine), m, line, opts.iocccok);
    } else {
      DirectiveStepMirrors(m, gs, line, lt.d, lt.dodgy, opts.iocccok, env);
    }
  }

  /** No action looks at the comment or changes it. */
  lemma {:induction false} StepComment(m: Machine, line: Line, opts: Options)
    requires WellShaped(m)
    ensures Step(m, line, opts).Go? ==> Step(m, line, opts).m.incomment == m.incomment
  {
    TransitionSafe(m, Classify(line, opts));
  }

  /** One line that is in place, or else the end of all hopes. */
  lemma {:induction false} AcceptCons(gs: seq<Group>, t: Text, ts: seq<Text>, env: Env)
    ensures var next := Advance(gs, t, env);
            if next.None? then Preprocess(gs, [t] + ts, env).None?
            else
              && (Preprocess(gs, [t] + ts, env).Some? <==> Preprocess(next.value, ts, env).Some?)
              && PeakDepth(|gs|, [t] + ts) == var p := PeakDepth(|next.value|, ts); if p > |gs| then p else |gs|
  {
    assert ([t] + ts)[1..] == ts;
  }

  lemma {:induction false} OpeningPeak(depth: int, t: Text, ts: seq<Text>)
    requires t.If? || t.Ifdef?
    ensures PeakDepth(depth, [t] + ts) > depth
  {
    assert ([t] + ts)[1..] == ts;
  }

  /** Such a line is met in the run over `lines`. */
  predicate MeetsRefused(m: Machine, lines: seq<Line>, opts: Options)
    requires WellShaped(m)
    decreases |lines|
  {
    lines != [] &&
    (|| RefusedAt(m, lines[0], opts)
     || var scanned := Scanned(m, lines[0]);
        StepShape(scanned, lines[0], opts);
        match Step(scanned, lines[0], opts)
        case Stop(_) => false
        case Go(m', _, _) => MeetsRefused(m', lines[1..], opts))
  }

  /** One line of a run. */
  lemma {:induction false} RunUnfold(m: Machine, lines: seq<Line>, opts: Options)
    requires WellShaped(m) && lines != []
    ensures var r := Step(Scanned(m, lines[0]), lines[0], opts);
            if r.Stop? then r.status.Failed? && Run(m, lines, opts) == RunResult(r.status, [])
            else
              && WellShaped(r.m) && r.m.incomment == lines[0].after
              && var rest := Run(r.m, lines[1..], opts);
              Run(m, lines, opts) == RunResult(rest.status, [Flushed(r.line, r.keep)] + rest.flushed)
  {
    StepShape(Scanned(m, lines[0]), lines[0], opts);
    StepNeverFinishes(Scanned(m, lines[0]), lines[0], opts);
    StepComment(Scanned(m, lines[0]), lines[0], opts);
  }

  /** What acceptance of a file comes down to. */
  predicate Acceptable(m: Machine, gs: seq<Group>, lines: seq<Line>, opts: Options, env: Env)
    requires WellShaped(m)
  {
    && Preprocess(gs, Texts(lines), env).Some? && PeakDepth(|gs|, Texts(lines)) < MAXDEPTH
    && !InCommentAfter(m.incomment, lines) && !MeetsRefused(m, lines, opts)
  }

  lemma {:induction false} StopNotAcceptable(m: Machine, gs: seq<Group>, lines: seq<Line>, opts: Options, env: Env)
    requires WellShaped(m) && Mirrors(m.states, gs) && lines != []
    requires Step(Scanned(m, lines[0]), lines[0], opts).Stop?
    ensures !Acceptable(m, gs, lines, opts, env)
  {
    var t := Whole(lines[0]);
    StepMirrors(Scanned(m, lines[0]), gs, lines[0], opts, env);
    AcceptCons(gs, t, Texts(lines[1..]), env);
    if t.If? || t.Ifdef? {
      OpeningPeak(|gs|, t, Texts(lines[1..]));
    }
  }

  lemma {:induction false} MeetsRefusedCons(m: Machine, lines: seq<Line>, opts: Options)
    requires WellShaped(m) && lines != [] && Step(Scanned(m, lines[0]), lines[0], opts).Go?
    ensures var r := Step(Scanned(m, lines[0]), lines[0], opts);
            WellShaped(r.m) &&
            (MeetsRefused(m, lines, opts) <==> RefusedAt(m, lines[0], opts) || MeetsRefused(r.m, lines[1..], opts))
  {
    StepShape(Scanned(m, lines[0]), lines[0], opts);
  }

  lemma {:induction false} GoAcceptable(m: Machine, gs: seq<Group>, lines: seq<Line>, opts: Options, env: Env)
    requires WellShaped(m) && Mirrors(m.states, gs) && lines != []
    requires Step(Scanned(m, lines[0]), lines[0], opts).Go?
    ensures var r, next := Step(Scanned(m, lines[0]), lines[0], opts), Advance(gs, Whole(lines[0]), env);
            && WellShaped(r.m) && next.Some? && Mirrors(r.m.states, next.value)
            && (Acceptable(m, gs, lines, opts, env) <==> Acceptable(r.m, next.value, lines[1..], opts, env))
  {
    StepMirrors(Scanned(m, lines[0]), gs, lines[0], opts, env);
    StepComment(Scanned(m, lines[0]), lines[0], opts);
    MeetsRefusedCons(m, lines, opts);
    AcceptCons(gs, Whole(lines[0]), Texts(lines[1..]), env);
  }

  lemma {:induction false} RunAcceptsIff(m: Machine, gs: seq<Group>, lines: seq<Line>, opts: Options, env: Env)
    requires WellShaped(m) && Mirrors(m.states, gs)
    ensures Run(m, lines, opts).status == Finished <==> Acceptable(m, gs, lines, opts, env)
    decreases |lines|
  {
    if lines == [] {
      assert Top(m) == Outside <==> gs == [];
    } else {
      RunUnfold(m, lines, opts);
      var r := Step(Scanned(m, lines[0]), lines[0], opts);
      if r.Go? {
        GoAcceptable(m, gs, lines, opts, env);
        RunAcceptsIff(r.m, Advance(gs, Whole(lines[0]), env).value, lines[1..], opts, env);
      } else {
        StopNotAcceptable(m, gs, lines, opts, env);
      }
    }
  }

  /** A file is accepted if and only if its groups nest properly and never more
      than 63 deep, its last comment is closed, and no directive that spreads over
      several lines is refused.  Without such directives none is. */
  lemma {:induction false} AcceptsIff(lines: seq<Line>, opts: Options, env: Env)
    ensures Run(START, lines, opts).status == Finished
       <==> && Preprocess([], Texts(lines), env).Some? && PeakDepth(0, Texts(lines)) < MAXDEPTH
            && !InCommentAfter(false, lines) && !MeetsRefused(START, lines, opts)
    ensures (forall line :: line in lines ==> line.text.Ordinary? || !Dodgy(line)) ==>
              !MeetsRefused(START, lines, opts)
  {
    RunAcceptsIff(START, [], lines, opts, env);
    if forall line :: line in lines ==> line.text.Ordinary? || !Dodgy(line) {
      CleanNotRefused(START, lines, opts);
    }
  }

  lemma {:induction false} CleanNotRefused(m: Machine, lines: seq<Line>, opts: Options)
    requires WellShaped(m) && forall line :: line in lines ==> line.text.Ordinary? || !Dodgy(line)
    ensures !MeetsRefused(m, lines, opts)
    decreases |lines|
  {
    if lines != [] {
      var scanned := Scanned(m, lines[0]);
      StepShape(scanned, lines[0], opts);
      var r := Step(scanned, lines[0], opts);
      if r.Go? {
        CleanNotRefused(r.m, lines[1..], opts);
      }
    }
  }
}
