/** The driver of the `#if` processor: its stacks and buffers, the state
    functions, `flushline` with its options, and the main loop.

    `Processor.Process` is proved to carry out `UnifdefMeaning.Run` and to write
    what `UnifdefOutput` says of the flushed lines.
  */
module Unifdef {
  import opened Wrappers
  import opened UnifdefEval
  import opened UnifdefTable
  import opened UnifdefMeaning
  import opened UnifdefOutput

  /** Each line is flushed exactly once, in order, up to the end of the file. */
  lemma {:induction false} EachLineFlushedOnce(m: Machine, lines: seq<Line>, opts: Options)
    requires WellShaped(m)
    ensures |Run(m, lines, opts).flushed| <= |lines|
    ensures Run(m, lines, opts).status == Finished ==> |Run(m, lines, opts).flushed| == |lines|
    decreases |lines|
  {
    if lines != [] {
      var scanned := Scanned(m, lines[0]);
      StepShape(scanned, lines[0], opts);
      StepNeverFinishes(scanned, lines[0], opts);
      var r := Step(scanned, lines[0], opts);
      if r.Go? {
        EachLineFlushedOnce(r.m, lines[1..], opts);
      }
    }
  }

  /** What has been flushed and written, with what is still to come, makes up
      the whole run. */
  ghost predicate Remaining(all: RunResult, rest: RunResult, fo: FlushOptions, flushed: seq<Flushed>,
                            output: seq<Item>, printed: seq<Item>, k: Counters, n: nat)
  {
    && all == RunResult(rest.status, flushed + rest.flushed)
    && OutputFile(fo, INITIAL, all.flushed, 1) == output + OutputFile(fo, k, rest.flushed, n)
    && Printed(fo, INITIAL, all.flushed, 1) == printed + Printed(fo, k, rest.flushed, n)
  }

  lemma Regroup<T>(a: seq<T>, b: seq<T>, c: seq<T>)
    ensures (a + b) + c == a + (b + c)
  {}

  lemma {:induction false} RemainingAfterLine(all: RunResult, f: Flushed, rest: RunResult, fo: FlushOptions,
                           flushed: seq<Flushed>, output: seq<Item>, printed: seq<Item>, k: Counters, n: nat)
    requires Remaining(all, RunResult(rest.status, [f] + rest.flushed), fo, flushed, output, printed, k, n)
    ensures Remaining(all, rest, fo, flushed + [f], output + ToOutput(fo, k, f, n), printed + ToStdout(fo, k, f, n),
                      Counted(fo, k, f), n + 1)
  {
    assert ([f] + rest.flushed)[1..] == rest.flushed;
    Regroup(flushed, [f], rest.flushed);
    Regroup(output, ToOutput(fo, k, f, n), OutputFile(fo, Counted(fo, k, f), rest.flushed, n + 1));
    Regroup(printed, ToStdout(fo, k, f, n), Printed(fo, Counted(fo, k, f), rest.flushed, n + 1));
  }

  /** The run so far, continued from a machine and counters behind `n` lines, or
      ended with a status, is the run of the whole input. */
  ghost predicate OnCourseAt(input: seq<Line>, opts: Options, fo: FlushOptions, status: Status, m: Machine,
                             flushed: seq<Flushed>, output: seq<Item>, printed: seq<Item>, k: Counters, n: nat)
  {
    if status == Running then
      && n <= |input| && WellShaped(m)
      && Remaining(Run(START, input, opts), Run(m, input[n..], opts), fo, flushed, output, printed, k, n + 1)
    else Remaining(Run(START, input, opts), RunResult(status, []), fo, flushed, output, printed, k, n)
  }

  lemma {:induction false} OnCourseStop(input: seq<Line>, opts: Options, fo: FlushOptions, status: Status, m: Machine,
                                        flushed: seq<Flushed>, output: seq<Item>, printed: seq<Item>, k: Counters,
                                        n: nat)
    requires OnCourseAt(input, opts, fo, Running, m, flushed, output, printed, k, n)
    requires if n < |input| then Step(Scanned(m, input[n]), input[n], opts) == Stop(status) else status == AtEof(m)
    ensures status != Running
    ensures OnCourseAt(input, opts, fo, status, m, flushed, output, printed, k, n + 1)
  {
    if n < |input| {
      assert input[n..][0] == input[n];
      RunUnfold(m, input[n..], opts);
    }
  }

  lemma {:induction false} OnCourseGo(input: seq<Line>, opts: Options, fo: FlushOptions, m: Machine, r: Outcome,
                                      flushed: seq<Flushed>, output: seq<Item>, printed: seq<Item>, k: Counters, n: nat)
    requires OnCourseAt(input, opts, fo, Running, m, flushed, output, printed, k, n) && n < |input|
    requires r == Step(Scanned(m, input[n]), input[n], opts) && r.Go?
    ensures var f := Flushed(r.line, r.keep);
            OnCourseAt(input, opts, fo, Running, r.m, flushed + [f], output + ToOutput(fo, k, f, n + 1),
                       printed + ToStdout(fo, k, f, n + 1), Counted(fo, k, f), n + 1)
  {
    assert input[n..][0] == input[n] && input[n..][1..] == input[n + 1..];
    RunUnfold(m, input[n..], opts);
    RemainingAfterLine(Run(START, input, opts), Flushed(r.line, r.keep), Run(r.m, input[n + 1..], opts), fo, flushed,
                       output, printed, k, n + 1);
  }

  lemma {:induction false} EofEffect(m: Machine, line: Line, iocccok: bool)
    requires WellShaped(m)
    ensures !NeedsGroup(Transition(Top(m), Eof))
    ensures Effect(Transition(Top(m), Eof), m, line, iocccok) == Stop(AtEof(m))
  {
    TransitionSafe(m, Eof);
  }

  /** Setting the state and the flag of the new level opens a group. */
  lemma {:induction false} NestThenTurn(m: Machine, nested: Machine, st: Ifstate, ignore: bool, line: Line, keep: bool)
    requires |m.states| == |m.ignoring| && m.states != [] && |m.states| != MAXDEPTH
    requires |nested.states| == |nested.ignoring| == |m.states| + 1 && nested.incomment == m.incomment
    requires nested.states[..|m.states|] == m.states && nested.ignoring[..|m.states|] == m.ignoring
    ensures var turned := Reset(nested, st);
            Open(m, st, ignore, line, keep) == Go(if ignore then IgnoreAs(turned, true) else turned, line, keep)
  {
    var n := |m.states|;
    var turned := Reset(nested, st);
    assert turned.states == m.states + [st];
    assert turned.ignoring == m.ignoring + [m.ignoring[n - 1]];
    assert IgnoreAs(turned, true).ignoring == m.ignoring + [true];
  }

  // -------------------------------------------------------------- the driver

  class Processor {
    const opts: Options
    const fo: FlushOptions
    const eval: Evaluator
    const ifstate: array<Ifstate>
    const ignoring: array<bool>
    var depth: nat
    var incomment: bool
    var tline: Line
    var linenum: nat
    var delcount: nat
    var blankcount: nat
    var blankmax: nat
    var output: seq<Item>
    var printed: seq<Item>   // on the standard output, if the output is another file
    var status: Status
    ghost var flushed: seq<Flushed>

    constructor (opts: Options, fo: FlushOptions)
      ensures Bounded() && M() == START && fresh(ifstate) && fresh(ignoring) && fresh(eval)
      ensures this.opts == opts && this.fo == fo
      ensures linenum == 0 && Count() == INITIAL && status == Running
      ensures output == [] && printed == [] && flushed == []
    {
      this.opts, this.fo := opts, fo;
      eval := new Evaluator(opts.syms, opts.strictlogic, opts.killconsts);
      ifstate := new Ifstate[MAXDEPTH](_ => Outside);
      ignoring := new bool[MAXDEPTH](_ => false);
      depth, linenum, delcount, blankcount, blankmax := 0, 0, 0, 1000, 1000;
      tline, incomment := Line(Ordinary(""), false, false, None), false;
      output, printed, status, flushed := [], [], Running, [];
    }

    /** The arrays have their fixed size and `depth` is an index into them. */
    ghost predicate Bounded()
      reads this
    {
      && ifstate.Length == MAXDEPTH && ignoring.Length == MAXDEPTH && depth < MAXDEPTH
      && eval.syms == opts.syms && eval.strictlogic == opts.strictlogic && eval.killconsts == opts.killconsts
    }

    ghost function M(): (m: Machine)
      requires Bounded()
      reads this, ifstate, ignoring
      ensures |m.states| == |m.ignoring| == depth + 1
    {
      Machine(ifstate[..depth + 1], ignoring[..depth + 1], incomment)
    }

    ghost function Count(): Counters
      reads this
    {
      Counters(delcount, blankcount, blankmax)
    }

    /** The current line has been flushed as `f`. */
    twostate predicate Flushes(f: Flushed)
      reads this
    {
      && flushed == old(flushed) + [f]
      && Count() == Counted(fo, old(Count()), f)
      && output == old(output) + ToOutput(fo, old(Count()), f, linenum)
      && printed == old(printed) + ToStdout(fo, old(Count()), f, linenum)
      && linenum == old(linenum) && status == old(status)
    }

    /** What an outcome says has come about. */
    twostate predicate Reflects(r: Outcome)
      requires Bounded()
      reads this, ifstate, ignoring
    {
      match r
      case Stop(s) =>
        && status == s && flushed == old(flushed) && Count() == old(Count())
        && output == old(output) && printed == old(printed)
      case Go(m, line, keep) => M() == m && tline == line && Flushes(Flushed(line, keep))
    }

    twostate predicate Carried(a: Action)
      requires old(Bounded()) && Bounded()
      requires NeedsGroup(a) ==> old(depth) > 0
      reads this, ifstate, ignoring
    {
      Reflects(Effect(a, old(M()), old(tline), opts.iocccok))
    }

    // ---- utility functions of the state machine

    /** The mark goes to the standard output, whatever file -o names. */
    method PrintMark()
      modifies this`output, this`printed
      ensures output == old(output) + if fo.tofile then [] else [LineMark(linenum)]
      ensures printed == old(printed) + if fo.tofile then [LineMark(linenum)] else []
    {
      if fo.tofile {
        printed := printed + [LineMark(linenum)];
      } else {
        output := output + [LineMark(linenum)];
      }
    }

    method Flushline(keep: bool)
      modifies this`output, this`printed, this`delcount, this`blankcount, this`blankmax, this`flushed
      ensures Flushes(Flushed(tline, keep))
    {
      flushed := flushed + [Flushed(tline, keep)];
      if keep != fo.complement {
        var blankline := IsBlank(tline.text);
        if blankline && fo.compblank && blankcount != blankmax {
          delcount := delcount + 1;
          blankcount := blankcount + 1;
        } else {
          if fo.lnnum && delcount > 0 {
            PrintMark();
          }
          output := output + [Written(tline)];
          delcount := 0;
          blankcount := if blankline then blankcount + 1 else 0;
          blankmax := blankcount;
        }
      } else {
        if fo.lnblank {
          output := output + [BlankLine];
        }
        delcount := delcount + 1;
        blankcount := 0;
      }
    }

    method Ignoreoff()
      requires Bounded() && depth > 0
      modifies ignoring
      ensures M() == IgnoreAs(old(M()), old(M()).ignoring[depth - 1])
    {
      ignoring[depth] := ignoring[depth - 1];
    }

    method Ignoreon()
      requires Bounded()
      modifies ignoring
      ensures M() == IgnoreAs(old(M()), true)
    {
      ignoring[depth] := true;
    }

    method State(st: Ifstate)
      requires Bounded()
      modifies ifstate
      ensures M() == SetState(old(M()), st)
    {
      ifstate[depth] := st;
    }

    /** `false` is the fatal error of too many levels. */
    method Nest() returns (ok: bool)
      requires Bounded()
      modifies this`depth, this`status
      ensures Bounded()
      ensures ok == (old(depth) < MAXDEPTH - 1)
      ensures ok ==> depth == old(depth) + 1 && status == old(status)
      ensures ok ==> M().states[..depth] == old(M()).states && M().ignoring[..depth] == old(M()).ignoring
      ensures !ok ==> depth == old(depth) && status == Failed(TooDeep)
    {
      if depth == MAXDEPTH - 1 {
        status := Failed(TooDeep);
        return false;
      }
      depth := depth + 1;
      return true;
    }

    method Unnest()
      requires Bounded() && depth > 0
      modifies this`depth
      ensures Bounded() && M() == Close(old(M()))
    {
      depth := depth - 1;
    }

    method Keywordedit(replacement: Text)
      modifies this`tline, this`output, this`printed, this`delcount, this`blankcount, this`blankmax, this`flushed
      ensures tline == Edited(old(tline), replacement) && Flushes(Flushed(tline, true))
    {
      tline := Edited(tline, replacement);
      Flushline(true);
    }

    // ---- state functions, by shape

    /** Strue, Sfalse, Pelif, Dfalse and Delif. */
    method Turn(keep: bool, st: Ifstate)
      requires Bounded() && depth > 0
      modifies this`output, this`printed, this`delcount, this`blankcount, this`blankmax, this`flushed, ifstate, ignoring
      ensures Bounded() && M() == Reset(old(M()), st) && Flushes(Flushed(tline, keep))
    {
      Flushline(keep);
      Ignoreoff();
      State(st);
    }

    /** Selse, Pelse and Delse. */
    method TurnElse(keep: bool, st: Ifstate)
      requires Bounded() && depth > 0
      modifies this`output, this`printed, this`delcount, this`blankcount, this`blankmax, this`flushed, ifstate
      ensures Bounded() && M() == SetState(old(M()), st) && Flushes(Flushed(tline, keep))
    {
      Flushline(keep);
      State(st);
    }

    /** Pendif and Dendif. */
    method Leave(keep: bool)
      requires Bounded() && depth > 0
      modifies this`output, this`printed, this`delcount, this`blankcount, this`blankmax, this`flushed, this`depth
      ensures Bounded() && M() == Close(old(M())) && Flushes(Flushed(tline, keep))
    {
      Flushline(keep);
      Unnest();
    }

    /** Fdrop, Fpass, Ftrue, Ffalse and, with `ignore`, their I and O variants. */
    method First(keep: bool, st: Ifstate, ignore: bool)
      requires Bounded()
      modifies this`output, this`printed, this`delcount, this`blankcount, this`blankmax, this`flushed, this`depth,
               this`status, ifstate, ignoring
      ensures Bounded()
      ensures Reflects(Open(old(M()), st, ignore, tline, keep))
    {
      ghost var before := M();
      var ok := Nest();
      if ok {
        NestThenTurn(before, M(), st, ignore, tline, keep);
        Turn(keep, st);
        if ignore {
          Ignoreon();
        }
      }
    }

    /** Entries for the first line of a group. */
    method DispatchFirst(a: Action)
      requires Bounded() && status == Running && a in {Fdrop, Fpass, Ftrue, Ffalse}
      modifies this`output, this`printed, this`delcount, this`blankcount, this`blankmax, this`flushed, this`depth,
               this`status, ifstate, ignoring
      ensures Bounded() && Carried(a)
    {
      match a
      case Fdrop => First(false, FalseTrailer, false);
      case Fpass => First(true, PassMiddle, false);
      case Ftrue => First(false, TruePrefix, false);
      case Ffalse => First(false, FalsePrefix, false);
    }

    /** ... of a group whose comments are ignored. */
    method DispatchIgnored(a: Action)
      requires Bounded() && status == Running && a in {Idrop, Itrue, Ifalse}
      modifies this`output, this`printed, this`delcount, this`blankcount, this`blankmax, this`flushed, this`depth,
               this`status, ifstate, ignoring
      ensures Bounded() && Carried(a)
    {
      match a
      case Idrop => First(false, FalseTrailer, true);
      case Itrue => First(false, TruePrefix, true);
      case Ifalse => First(false, FalsePrefix, true);
    }

    /** Entries for directives that spread over several lines. */
    method DispatchObfuscated(a: Action)
      requires Bounded() && status == Running && a in {Oiffy, Oif, Oelif} && (a == Oelif ==> depth > 0)
      modifies this`output, this`printed, this`delcount, this`blankcount, this`blankmax, this`flushed, this`depth,
               this`status, ifstate, ignoring
      ensures Bounded() && Carried(a)
    {
      if !opts.iocccok {
        status := Failed(Obfuscated);
      } else {
        match a
        case Oiffy => First(true, PassMiddle, true);
        case Oif => First(true, PassMiddle, false);
        case Oelif => Turn(true, PassMiddle);
      }
    }

    method Mpass()
      requires Bounded() && depth > 0 && status == Running
      modifies this`tline, this`output, this`printed, this`delcount, this`blankcount, this`blankmax, this`flushed,
               ifstate, ignoring
      ensures Bounded() && Carried(Action.Mpass)
    {
      tline := tline.(text := AsIf(tline.text));
      Turn(true, PassMiddle);
    }

    /** Mtrue, Melif and Melse. */
    method DispatchEdit(a: Action)
      requires Bounded() && status == Running && a in {Mtrue, Melif, Melse} && depth > 0
      modifies this`tline, this`output, this`printed, this`delcount, this`blankcount, this`blankmax, this`flushed,
               ifstate
      ensures Bounded() && Carried(a)
    {
      match a
      case Mtrue =>
        Keywordedit(Else);
        State(TrueMiddle);
      case Melif =>
        Keywordedit(Endif);
        State(FalseTrailer);
      case Melse =>
        Keywordedit(Endif);
        State(FalseElse);
    }

    /** Entries that flush the line as it is and change the innermost group. */
    method DispatchTurn(a: Action)
      requires Bounded() && status == Running && depth > 0
      requires a in {Strue, Sfalse, Selse, Pelif, Pelse, Pendif, Dfalse, Delif, Delse, Dendif}
      modifies this`output, this`printed, this`delcount, this`blankcount, this`blankmax, this`flushed, this`depth,
               ifstate, ignoring
      ensures Bounded() && Carried(a)
    {
      match a
      case Strue => Turn(false, TruePrefix);
      case Sfalse => Turn(false, FalsePrefix);
      case Selse => TurnElse(false, TrueElse);
      case Pelif => Turn(true, PassMiddle);
      case Pelse => TurnElse(true, PassElse);
      case Pendif => Leave(true);
      case Dfalse => Turn(false, FalseTrailer);
      case Delif => Turn(false, FalseMiddle);
      case Delse => TurnElse(false, FalseElse);
      case Dendif => Leave(false);
    }

    method Done()
      modifies this`status
      ensures status == if incomment then Failed(EofInComment) else Finished
    {
      status := if incomment then Failed(EofInComment) else Finished;
    }

    /** Carry out a table entry. */
    method Dispatch(a: Action)
      requires Bounded() && status == Running
      requires NeedsGroup(a) ==> depth > 0
      modifies this`tline, this`output, this`printed, this`delcount, this`blankcount, this`blankmax,
               this`flushed, this`depth, this`status, ifstate, ignoring
      ensures Bounded() && Carried(a)
    {
      match a
      case Eelif => status := Failed(InappropriateElif);
      case Eelse => status := Failed(InappropriateElse);
      case Eendif => status := Failed(InappropriateEndif);
      case Eeof => status := Failed(PrematureEof);
      case Eioccc => status := Failed(Obfuscated);
      case Print => Flushline(true);
      case Drop => Flushline(false);
      case Oiffy | Oif | Oelif => DispatchObfuscated(a);
      case Mpass => Mpass();
      case Mtrue | Melif | Melse => DispatchEdit(a);
      case Finish => Done();
      case Strue | Sfalse | Selse | Pelif | Pelse | Pendif | Dfalse | Delif | Delse | Dendif => DispatchTurn(a);
      case Idrop | Itrue | Ifalse => DispatchIgnored(a);
      case Fdrop | Fpass | Ftrue | Ffalse => DispatchFirst(a);
    }

    /** The classification part of `parseline`, with the comment as it is left
        behind the line. */
    method Parseline() returns (lt: LineType)
      requires Bounded()
      modifies this`incomment, eval
      ensures Bounded() && lt == Classify(tline, opts) && M() == Scanned(old(M()), tline)
    {
      var dodgy := Dodgy(tline);
      incomment := tline.after;
      match tline.text
      case Ordinary(_) => lt := PlainLine;
      case If(cond) =>
        var known := eval.IfEval(cond);
        lt := Dir(IfDirective(known, false), dodgy);
      case Ifdef(neg, cond) =>
        var known := eval.IfdefEval(neg, cond);
        lt := Dir(IfDirective(known, Ignored(cond, opts)), dodgy);
      case Elif(cond) =>
        var known := eval.IfEval(cond);
        lt := Dir(ElifDirective(known), dodgy);
      case Else => lt := Dir(ElseDir, dodgy);
      case Endif => lt := Dir(EndifDir, dodgy);
    }

    /** One line through the table; without one, the end of the file. */
    method ProcessLine(line: Option<Line>)
      requires Bounded() && WellShaped(M()) && status == Running
      modifies this`tline, this`incomment, this`output, this`printed, this`delcount, this`blankcount,
               this`blankmax, this`flushed, this`depth, this`status, ifstate, ignoring, eval
      ensures Bounded() && linenum == old(linenum)
      ensures line.Some? ==> Reflects(Step(Scanned(old(M()), line.value), line.value, opts))
      ensures line.None? ==> Reflects(Stop(AtEof(old(M()))))
    {
      ghost var m := M();
      var lt := Eof;
      if line.Some? {
        tline := line.value;
        lt := Parseline();
        m := M();
      }
      TransitionSafe(m, lt);
      var a := Transition(ifstate[depth], lt);
      Dispatch(a);
      if line.None? {
        EofEffect(m, old(tline), opts.iocccok);
      }
    }

    /** The run so far, continued from here, is the run of the whole input. */
    ghost predicate OnCourse(input: seq<Line>)
      reads this, ifstate, ignoring
    {
      Bounded() && OnCourseAt(input, opts, fo, status, M(), flushed, output, printed, Count(), linenum)
    }

    method ProcessNext(input: seq<Line>)
      requires status == Running && OnCourse(input)
      modifies this, ifstate, ignoring, eval
      ensures OnCourse(input) && linenum == old(linenum) + 1
      ensures status == Running ==> linenum <= |input|
    {
      ghost var m, was, out, marks, count, n := M(), flushed, output, printed, Count(), linenum;
      linenum := linenum + 1;
      assert M() == m && Count() == count;
      if linenum <= |input| {
        ProcessLine(Some(input[linenum - 1]));
        ghost var r := Step(Scanned(m, input[n]), input[n], opts);
        if r.Go? {
          OnCourseGo(input, opts, fo, m, r, was, out, marks, count, n);
        } else {
          OnCourseStop(input, opts, fo, status, m, was, out, marks, count, n);
        }
      } else {
        ProcessLine(None);
        OnCourseStop(input, opts, fo, status, m, was, out, marks, count, n);
      }
    }

    /** The whole run: every line of the input goes through the table until the
        end of the file or a fatal error. */
    method Process(input: seq<Line>)
      requires Bounded() && M() == START && Count() == INITIAL
      requires linenum == 0 && output == [] && printed == [] && flushed == [] && status == Running
      modifies this, ifstate, ignoring, eval
      ensures RunResult(status, flushed) == Run(START, input, opts)
      ensures output == OutputFile(fo, INITIAL, flushed, 1) && printed == Printed(fo, INITIAL, flushed, 1)
    {
      assert input[0..] == input && [] + Run(START, input, opts).flushed == Run(START, input, opts).flushed;
      while status == Running
        invariant OnCourse(input) && linenum <= |input| + 1
        decreases |input| + 1 - linenum
      {
        ProcessNext(input);
      }
    }
  }
}
