/** The lines, states and transition table of the `#if` processor, and what one
    table entry does to the nesting stack and to the current line. */
module UnifdefTable {
  import opened Wrappers
  import opened UnifdefGrammar

  /** A line of source text: an ordinary line or a directive with its operand. */
  datatype Text =
    | Ordinary(s: string)
    | If(cond: seq<Token>)
    | Ifdef(neg: bool, cond: seq<Token>)
    | Elif(cond: seq<Token>)
    | Else
    | Endif

  /** A line as it is scanned: `before` says that a comment is open where the
      line begins, and `after` that one is left open at its end.  `text` is what
      the first line of a directive says; if a backslash continues it, the next
      line is read into the same buffer, and `more` are the tokens on that. */
  datatype Line = Line(text: Text, before: bool, after: bool, more: Option<seq<Token>>)

  /** A comment makes the directive spread over several lines.  What is continued
      is scanned too late for a comment in it to count. */
  predicate Dodgy(line: Line) {
    line.before || (line.after && line.more.None?)
  }

  function Rest(line: Line): seq<Token> {
    if line.more.Some? then line.more.value else []
  }

  /** The directive as a compiler reads it, with all that is continued. */
  function Whole(line: Line): Text {
    match line.text
    case If(cond) => If(cond + Rest(line))
    case Ifdef(neg, cond) => Ifdef(neg, cond + Rest(line))
    case Elif(cond) => Elif(cond + Rest(line))
    case t => t
  }

  predicate IsBlank(t: Text) {
    t.Ordinary? && forall c :: c in t.s ==> c in {' ', '\t', '\r', '\n'}
  }

  datatype Directive =
    | TrueI | FalseI | UnknownIf | TrueIf | FalseIf
    | UnknownElif | TrueElif | FalseElif | ElseDir | EndifDir

  datatype LineType = Dir(d: Directive, dodgy: bool) | PlainLine | Eof

  datatype Ifstate =
    | Outside | FalsePrefix | TruePrefix | PassMiddle | FalseMiddle
    | TrueMiddle | PassElse | FalseElse | TrueElse | FalseTrailer

  datatype Action =
    | Eelif | Eelse | Eendif | Eeof | Eioccc
    | Print | Drop
    | Strue | Sfalse | Selse
    | Pelif | Pelse | Pendif
    | Dfalse | Delif | Delse | Dendif
    | Fdrop | Fpass | Ftrue | Ffalse
    | Oiffy | Oif | Oelif
    | Idrop | Itrue | Ifalse
    | Mpass | Mtrue | Melif | Melse
    | Finish

  datatype Fault =
    | InappropriateElif | InappropriateElse | InappropriateEndif
    | PrematureEof | Obfuscated | TooDeep | EofInComment

  datatype Status = Running | Finished | Failed(fault: Fault)

  const MAXDEPTH := 64

  // ----------------------------------------------------------------- table

  function Pick(d: Directive, a0: Action, a1: Action, a2: Action, a3: Action, a4: Action,
                a5: Action, a6: Action, a7: Action, a8: Action, a9: Action): Action
  {
    match d
    case TrueI => a0
    case FalseI => a1
    case UnknownIf => a2
    case TrueIf => a3
    case FalseIf => a4
    case UnknownElif => a5
    case TrueElif => a6
    case FalseElif => a7
    case ElseDir => a8
    case EndifDir => a9
  }

  /** Directives on one line. */
  function CleanEntry(st: Ifstate, d: Directive): Action {
    match st
    case Outside =>
      Pick(d, Itrue, Ifalse, Fpass, Ftrue, Ffalse, Eelif,  Eelif,  Eelif,  Eelse, Eendif)
    case FalsePrefix =>
      Pick(d, Idrop, Idrop,  Fdrop, Fdrop, Fdrop,  Mpass,  Strue,  Sfalse, Selse, Dendif)
    case TruePrefix =>
      Pick(d, Itrue, Ifalse, Fpass, Ftrue, Ffalse, Dfalse, Dfalse, Dfalse, Delse, Dendif)
    case PassMiddle =>
      Pick(d, Itrue, Ifalse, Fpass, Ftrue, Ffalse, Pelif,  Mtrue,  Delif,  Pelse, Pendif)
    case FalseMiddle =>
      Pick(d, Idrop, Idrop,  Fdrop, Fdrop, Fdrop,  Pelif,  Mtrue,  Delif,  Pelse, Pendif)
    case TrueMiddle =>
      Pick(d, Itrue, Ifalse, Fpass, Ftrue, Ffalse, Melif,  Melif,  Melif,  Melse, Pendif)
    case PassElse =>
      Pick(d, Itrue, Ifalse, Fpass, Ftrue, Ffalse, Eelif,  Eelif,  Eelif,  Eelse, Pendif)
    case FalseElse =>
      Pick(d, Idrop, Idrop,  Fdrop, Fdrop, Fdrop,  Eelif,  Eelif,  Eelif,  Eelse, Dendif)
    case TrueElse =>
      Pick(d, Itrue, Ifalse, Fpass, Ftrue, Ffalse, Eelif,  Eelif,  Eelif,  Eelse, Dendif)
    case FalseTrailer =>
      Pick(d, Idrop, Idrop,  Fdrop, Fdrop, Fdrop,  Dfalse, Dfalse, Dfalse, Delse, Dendif)
  }

  /** Directives spread over several lines. */
  function DodgyEntry(st: Ifstate, d: Directive): Action {
    match st
    case Outside =>
      Pick(d, Oiffy, Oiffy, Fpass, Oif,   Oif,   Eelif,  Eelif,  Eelif,  Eelse,  Eendif)
    case FalsePrefix =>
      Pick(d, Idrop, Idrop, Fdrop, Fdrop, Fdrop, Mpass,  Eioccc, Eioccc, Eioccc, Eioccc)
    case TruePrefix =>
      Pick(d, Oiffy, Oiffy, Fpass, Oif,   Oif,   Eioccc, Eioccc, Eioccc, Eioccc, Eioccc)
    case PassMiddle =>
      Pick(d, Oiffy, Oiffy, Fpass, Oif,   Oif,   Pelif,  Oelif,  Oelif,  Pelse,  Pendif)
    case FalseMiddle =>
      Pick(d, Idrop, Idrop, Fdrop, Fdrop, Fdrop, Eioccc, Eioccc, Eioccc, Eioccc, Eioccc)
    case TrueMiddle =>
      Pick(d, Oiffy, Oiffy, Fpass, Oif,   Oif,   Eioccc, Eioccc, Eioccc, Eioccc, Pendif)
    case PassElse =>
      Pick(d, Oiffy, Oiffy, Fpass, Oif,   Oif,   Eelif,  Eelif,  Eelif,  Eelse,  Pendif)
    case FalseElse =>
      Pick(d, Idrop, Idrop, Fdrop, Fdrop, Fdrop, Eelif,  Eelif,  Eelif,  Eelse,  Eioccc)
    case TrueElse =>
      Pick(d, Oiffy, Oiffy, Fpass, Oif,   Oif,   Eelif,  Eelif,  Eelif,  Eelse,  Eioccc)
    case FalseTrailer =>
      Pick(d, Idrop, Idrop, Fdrop, Fdrop, Fdrop, Dfalse, Dfalse, Dfalse, Delse,  Eioccc)
  }

  /** States in which ordinary lines are kept. */
  predicate Printing(st: Ifstate) {
    match st
    case Outside | TruePrefix | PassMiddle | TrueMiddle | PassElse | TrueElse => true
    case FalsePrefix | FalseMiddle | FalseElse | FalseTrailer => false
  }

  function Transition(st: Ifstate, lt: LineType): Action {
    match lt
    case Dir(d, dodgy) => if dodgy then DodgyEntry(st, d) else CleanEntry(st, d)
    case PlainLine => if Printing(st) then Print else Drop
    case Eof => if st == Outside then Finish else Eeof
  }

  // --------------------------------------------------- effect of an action

  /** The stacks `ifstate[0..depth]` and `ignoring[0..depth]`, and whether a
      comment is open. */
  datatype Machine = Machine(states: seq<Ifstate>, ignoring: seq<bool>, incomment: bool)

  predicate WellShaped(m: Machine) {
    && 1 <= |m.states| <= MAXDEPTH && |m.ignoring| == |m.states|
    && m.states[0] == Outside
    && forall i :: 1 <= i < |m.states| ==> m.states[i] != Outside
  }

  /** Either one line has been flushed, kept or not, or the run is over. */
  datatype Outcome = Go(m: Machine, line: Line, keep: bool) | Stop(status: Status)

  function Top(m: Machine): Ifstate
    requires m.states != []
  {
    m.states[|m.states| - 1]
  }

  function SetState(m: Machine, st: Ifstate): Machine
    requires m.states != []
  {
    m.(states := m.states[|m.states| - 1 := st])
  }

  function IgnoreAs(m: Machine, on: bool): Machine
    requires m.ignoring != []
  {
    m.(ignoring := m.ignoring[|m.ignoring| - 1 := on])
  }

  /** Set the state and take the ignore flag over from the enclosing group. */
  function Reset(m: Machine, st: Ifstate): Machine
    requires |m.states| == |m.ignoring| >= 2
  {
    IgnoreAs(SetState(m, st), m.ignoring[|m.ignoring| - 2])
  }

  function Open(m: Machine, st: Ifstate, ignore: bool, line: Line, keep: bool): Outcome
    requires m.ignoring != []
  {
    if |m.states| == MAXDEPTH then Stop(Failed(TooDeep))
    else
      var ignoring := m.ignoring + [ignore || m.ignoring[|m.ignoring| - 1]];
      Go(m.(states := m.states + [st], ignoring := ignoring), line, keep)
  }

  function Close(m: Machine): Machine
    requires m.states != [] && m.ignoring != []
  {
    m.(states := m.states[..|m.states| - 1], ignoring := m.ignoring[..|m.ignoring| - 1])
  }

  /** Actions that abort when no group is open. */
  predicate NeedsGroup(a: Action) {
    match a
    case Strue | Sfalse | Selse | Pelif | Pelse | Pendif | Dfalse | Delif | Delse | Dendif
       | Oelif | Mpass | Mtrue | Melif | Melse => true
    case _ => false
  }

  /** An `#elif` edited into an `#if`; the condition is untouched. */
  function AsIf(t: Text): Text {
    if t.Elif? then If(t.cond) else t
  }

  /** Exchanging the keyword cuts off everything behind it. */
  function Edited(line: Line, t: Text): Line {
    line.(text := t, after := false, more := None)
  }

  function Effect(a: Action, m: Machine, line: Line, iocccok: bool): Outcome
    requires |m.states| == |m.ignoring| && m.states != []
    requires NeedsGroup(a) ==> |m.states| >= 2
  {
    match a
    case Eelif => Stop(Failed(InappropriateElif))
    case Eelse => Stop(Failed(InappropriateElse))
    case Eendif => Stop(Failed(InappropriateEndif))
    case Eeof => Stop(Failed(PrematureEof))
    case Eioccc => Stop(Failed(Obfuscated))
    case Print => Go(m, line, true)
    case Drop => Go(m, line, false)
    case Strue => Go(Reset(m, TruePrefix), line, false)
    case Sfalse => Go(Reset(m, FalsePrefix), line, false)
    case Selse => Go(SetState(m, TrueElse), line, false)
    case Pelif => Go(Reset(m, PassMiddle), line, true)
    case Pelse => Go(SetState(m, PassElse), line, true)
    case Pendif => Go(Close(m), line, true)
    case Dfalse => Go(Reset(m, FalseTrailer), line, false)
    case Delif => Go(Reset(m, FalseMiddle), line, false)
    case Delse => Go(SetState(m, FalseElse), line, false)
    case Dendif => Go(Close(m), line, false)
    case Fdrop => Open(m, FalseTrailer, false, line, false)
    case Fpass => Open(m, PassMiddle, false, line, true)
    case Ftrue => Open(m, TruePrefix, false, line, false)
    case Ffalse => Open(m, FalsePrefix, false, line, false)
    case Oiffy => if !iocccok then Stop(Failed(Obfuscated)) else Open(m, PassMiddle, true, line, true)
    case Oif => if !iocccok then Stop(Failed(Obfuscated)) else Open(m, PassMiddle, false, line, true)
    case Oelif => if !iocccok then Stop(Failed(Obfuscated)) else Go(Reset(m, PassMiddle), line, true)
    case Idrop => Open(m, FalseTrailer, true, line, false)
    case Itrue => Open(m, TruePrefix, true, line, false)
    case Ifalse => Open(m, FalsePrefix, true, line, false)
    case Mpass => Go(Reset(m, PassMiddle), line.(text := AsIf(line.text)), true)
    case Mtrue => Go(SetState(m, TrueMiddle), Edited(line, Else), true)
    case Melif => Go(SetState(m, FalseTrailer), Edited(line, Endif), true)
    case Melse => Go(SetState(m, FalseElse), Edited(line, Endif), true)
    case Finish => Stop(if m.incomment then Failed(EofInComment) else Finished)
  }

  // ------------------------------------------------------------- properties

  /** No table entry can pop or reset a group when none is open. */
  lemma {:induction false} TransitionSafe(m: Machine, lt: LineType)
    requires WellShaped(m)
    ensures NeedsGroup(Transition(Top(m), lt)) ==> |m.states| >= 2
  {
    if |m.states| == 1 {
      assert Top(m) == Outside;
    }
  }

  /** `depth` stays within 0..63 and the bottom of the stack stays `Outside`. */
  lemma {:induction false} StepKeepsShape(m: Machine, lt: LineType, line: Line, iocccok: bool)
    requires WellShaped(m) && (NeedsGroup(Transition(Top(m), lt)) ==> |m.states| >= 2)
    ensures var r := Effect(Transition(Top(m), lt), m, line, iocccok); r.Go? ==> WellShaped(r.m)
  {
    var a := Transition(Top(m), lt);
    match a
    case Pendif | Dendif =>
    case _ =>
  }

  /** A group nested in one whose comments are ignored ignores them as well. */
  predicate IgnoringNests(m: Machine) {
    forall i :: 0 <= i < |m.ignoring| - 1 && m.ignoring[i] ==> m.ignoring[i + 1]
  }

  lemma StepKeepsIgnoring(m: Machine, a: Action, line: Line, iocccok: bool)
    requires |m.states| == |m.ignoring| && m.states != []
    requires NeedsGroup(a) ==> |m.states| >= 2
    requires IgnoringNests(m)
    ensures var r := Effect(a, m, line, iocccok); r.Go? ==> IgnoringNests(r.m)
  {}

  predicate Fails(a: Action) {
    a.Eelif? || a.Eelse? || a.Eendif? || a.Eeof? || a.Eioccc?
  }

  /** The dodgy half of the table, by what it does to the text around. */
  lemma DodgyEntries(st: Ifstate, d: Directive)
    ensures var a := DodgyEntry(st, d);
            Fails(a) ||
            (if Printing(st) then a in {Oiffy, Oif, Fpass, Pelif, Oelif, Pelse, Pendif}
             else if st == FalsePrefix && d == UnknownElif then a == Mpass
             else a in {Idrop, Fdrop, Dfalse, Delse})
    ensures DodgyEntry(st, d).Mpass? ==> !Printing(st)
  {}

  lemma EffectOnText(a: Action, m: Machine, line: Line, iocccok: bool)
    requires |m.states| == |m.ignoring| && m.states != []
    requires NeedsGroup(a) ==> |m.states| >= 2
    ensures var r := Effect(a, m, line, iocccok);
            r.Go? ==>
              && |r.m.states| >= 1
              && (a in {Oiffy, Oif, Fpass, Pelif, Oelif, Pelse, Mpass} ==> Printing(Top(r.m)))
              && (a == Pendif ==> Top(r.m) == m.states[|m.states| - 2])
              && (a in {Idrop, Fdrop, Dfalse, Delse} ==> !Printing(Top(r.m)))
  {}

  lemma {:induction false} SwitchOfAction(a: Action, lone: bool, m: Machine, line: Line, iocccok: bool)
    requires WellShaped(m)
    requires |m.states| >= 2 ==>
               Printing(m.states[|m.states| - 2]) || Top(m) == FalseTrailer || Top(m) == FalseElse
    requires NeedsGroup(a) ==> |m.states| >= 2
    requires Fails(a) ||
             (if Printing(Top(m)) then a in {Oiffy, Oif, Fpass, Pelif, Oelif, Pelse, Pendif}
              else if lone then a == Mpass
              else a in {Idrop, Fdrop, Dfalse, Delse})
    requires lone ==> !Printing(Top(m)) && !Fails(a)
    ensures var r := Effect(a, m, line, iocccok);
            r.Go? ==> r.m.states != [] && (Printing(Top(r.m)) != Printing(Top(m)) <==> lone)
  {
    EffectOnText(a, m, line, iocccok);
  }

  /** When a directive spreads over several lines the text around it must not
      switch between kept and dropped.  Entries that do not fail respect this
      with exactly one exception: an unknown `#elif` after a false prefix. */
  lemma {:induction false} DodgySwitchesIff(m: Machine, d: Directive, line: Line, iocccok: bool)
    requires WellShaped(m)
    requires |m.states| >= 2 ==>
               Printing(m.states[|m.states| - 2]) || Top(m) == FalseTrailer || Top(m) == FalseElse
    requires NeedsGroup(DodgyEntry(Top(m), d)) ==> |m.states| >= 2
    ensures var r := Effect(DodgyEntry(Top(m), d), m, line, iocccok);
            r.Go? ==> r.m.states != [] &&
                      (Printing(Top(r.m)) != Printing(Top(m)) <==> Top(m) == FalsePrefix && d == UnknownElif)
  {
    DodgyEntries(Top(m), d);
    SwitchOfAction(DodgyEntry(Top(m), d), Top(m) == FalsePrefix && d == UnknownElif, m, line, iocccok);
  }
}
