/** Comments that reach over several lines.

    A directive that a comment reaches into or out of is still one directive to a
    compiler, but only as long as both ends of the comment are written.  `Compile`
    is what a compiler makes of lines as they stand in a file: comments first
    (section 5.1.1.2 of ISO/IEC 9899:1999), then conditional inclusion.
    `MeaningKeptIff` says for which files the program keeps it.
  */
module UnifdefComments {
  import opened Wrappers
  import opened UnifdefGrammar
  import opened UnifdefEval
  import opened UnifdefTable
  import opened UnifdefMeaning

  // ------------------------------------------------------------ reading lines

  /** Whether a comment is open behind a line.  A blank line changes nothing. */
  function AfterLine(open: bool, line: Line): bool {
    if IsBlank(line.text) then open else line.after
  }

  /** The characters of directives are not part of the model: what matters here
      is that a directive behind the lone end of a comment is an ordinary line. */
  const STRAY := "*/"

  /** A line as it is read with a comment open in front of it or not. */
  function ReadLine(open: bool, line: Line): Text {
    if open == line.before || line.text.Ordinary? then Whole(line) else Ordinary(STRAY)
  }

  function Read(open: bool, lines: seq<Line>): seq<Text>
    decreases |lines|
  {
    if lines == [] then [] else [ReadLine(open, lines[0])] + Read(AfterLine(open, lines[0]), lines[1..])
  }

  function OpenAfter(open: bool, lines: seq<Line>): bool
    decreases |lines|
  {
    if lines == [] then open else OpenAfter(AfterLine(open, lines[0]), lines[1..])
  }

  /** The selected lines, or none if the last comment is not closed or the
      groups do not nest. */
  function Compile(lines: seq<Line>, env: Env): Option<seq<string>> {
    if OpenAfter(false, lines) then None else Preprocess([], Read(false, lines), env)
  }

  /** Each line is scanned where the one before it has left the comment. */
  predicate Threaded(open: bool, lines: seq<Line>)
    decreases |lines|
  {
    lines == [] ||
    (lines[0].before == open && lines[0].after == AfterLine(open, lines[0]) && Threaded(lines[0].after, lines[1..]))
  }

  lemma {:induction false} ReadThreaded(open: bool, lines: seq<Line>)
    requires Threaded(open, lines)
    ensures Read(open, lines) == Texts(lines)
    ensures OpenAfter(open, lines) == InCommentAfter(open, lines)
    decreases |lines|
  {
    if lines != [] {
      ReadThreaded(lines[0].after, lines[1..]);
    }
  }

  /** Reading a line and the rest behind it. */
  lemma {:induction false} ReadCons(gs: seq<Group>, open: bool, lines: seq<Line>, env: Env)
    requires lines != []
    ensures var t := ReadLine(open, lines[0]);
            var next := Advance(gs, t, env);
            && OpenAfter(open, lines) == OpenAfter(AfterLine(open, lines[0]), lines[1..])
            && Preprocess(gs, Read(open, lines), env)
            == if next.None? then None
               else
                 var rest := Preprocess(next.value, Read(AfterLine(open, lines[0]), lines[1..]), env);
                 if rest.None? then None else Some(Selected(gs, t) + rest.value)
  {
    assert Read(open, lines)[1..] == Read(AfterLine(open, lines[0]), lines[1..]);
  }

  function KeptLines(fs: seq<Flushed>): seq<Line> {
    if fs == [] then [] else (if fs[0].keep then [fs[0].line] else []) + KeptLines(fs[1..])
  }

  lemma {:induction false} KeptTexts(fs: seq<Flushed>)
    ensures Texts(KeptLines(fs)) == Kept(fs)
  {
    if fs != [] {
      KeptTexts(fs[1..]);
      assert fs[0].keep ==> KeptLines(fs)[1..] == KeptLines(fs[1..]);
      assert !fs[0].keep ==> KeptLines(fs) == KeptLines(fs[1..]);
    }
  }

  // ---------------------------------------------------------------- stray ends

  /** An unknown `#elif` after a deleted beginning, with a comment open in front
      of it: the end of that comment is printed, but not its beginning. */
  predicate StrayElif(m: Machine, line: Line, opts: Options)
    requires m.states != []
  {
    Top(m) == FalsePrefix && line.before && Classify(line, opts) == Dir(UnknownElif, true)
  }

  /** Such a line is met in the run over `lines`. */
  predicate MeetsStray(m: Machine, lines: seq<Line>, opts: Options)
    requires WellShaped(m)
    decreases |lines|
  {
    lines != [] &&
    (|| StrayElif(m, lines[0], opts)
     || var scanned := Scanned(m, lines[0]);
        StepShape(scanned, lines[0], opts);
        match Step(scanned, lines[0], opts)
        case Stop(_) => false
        case Go(m', _, _) => MeetsStray(m', lines[1..], opts))
  }

  /** In the output a comment is open if one is in the input and lines are kept. */
  predicate InSync(m: Machine, open: bool)
    requires m.states != []
  {
    open == (Printing(Top(m)) && m.incomment)
  }

  /** What one step does to the comment in the output. */
  predicate CommentStep(m: Machine, open: bool, line: Line, stray: bool, r: Outcome)
    requires r.Go? && r.m.states != []
  {
    && r.line.before == line.before
    && IsBlank(r.line.text) == IsBlank(line.text)
    && (!r.keep ==> !open)
    && (r.keep && !stray ==> open == line.before)
    && (stray ==> r.keep && !open && line.before && r.line.text.If?)
    && InSync(r.m, if r.keep then AfterLine(open, r.line) else open)
  }

  /** What becomes of the comment around a directive when it is written. */
  lemma EffectOnLine(a: Action, m: Machine, line: Line, iocccok: bool)
    requires |m.states| == |m.ignoring| && m.states != []
    requires NeedsGroup(a) ==> |m.states| >= 2
    requires !line.text.Ordinary?
    ensures var r := Effect(a, m, line, iocccok);
            r.Go? ==>
              && r.m.states != [] && r.m.incomment == m.incomment
              && r.line.before == line.before && !r.line.text.Ordinary?
              && (r.line == line || r.line == line.(text := AsIf(line.text)) || (!r.line.after && r.line.more.None?))
              && (a in {Oiffy, Oif, Fpass, Pelif, Oelif, Pelse, Pendif} ==> r.keep && r.line == line)
              && (a == Mpass ==> r.keep && r.line == line.(text := AsIf(line.text)))
              && (a in {Idrop, Fdrop, Dfalse, Delse} ==> !r.keep)
              && (a in {Mtrue, Melif, Melse} ==> r.keep && !r.line.after && r.line.more.None?)
  {}

  lemma PlainComment(m: Machine, open: bool, line: Line, opts: Options)
    requires WellShaped(m) && line.text.Ordinary?
    requires InSync(m, open) && line.before == m.incomment && line.after == AfterLine(line.before, line)
    ensures var r := Step(Scanned(m, line), line, opts); r.Go? && CommentStep(m, open, line, false, r)
  {}

  predicate IsUnknown(d: Directive) {
    d == UnknownIf || d == UnknownElif
  }

  lemma UnknownEntries(st: Ifstate, d: Directive, dodgy: bool)
    requires IsUnknown(d)
    ensures var a := Transition(st, Dir(d, dodgy));
            Fails(a) || a in {Fpass, Pelif, Mpass} || a in {Fdrop, Dfalse, Melif}
  {}

  /** A condition without a verdict is written as it stands exactly where the lines
      behind it are: what is continued further goes with it, and so does a comment
      that is opened in what is continued. */
  lemma {:induction false} UnknownFollowed(m: Machine, line: Line, opts: Options)
    requires WellShaped(m) && !line.text.Ordinary? && IsUnknown(Classify(line, opts).d)
    ensures var r := Step(m, line, opts);
            r.Go? ==>
              && r.m.states != []
              && (Printing(Top(r.m)) ==> r.keep && r.line in {line, line.(text := AsIf(line.text))})
              && (!Printing(Top(r.m)) ==> !r.keep || (!r.line.after && r.line.more.None?))
  {
    var lt := Classify(line, opts);
    var a := Transition(Top(m), lt);
    TransitionSafe(m, lt);
    UnknownEntries(Top(m), lt.d, lt.dodgy);
    EffectOnLine(a, m, line, opts.iocccok);
    EffectOnStack(a, m, line, opts.iocccok);
  }

  /** A comment is opened in what is continued, behind a directive that may be
      dropped on its own. */
  predicate TornTail(line: Line, opts: Options) {
    line.more.Some? && line.after && Classify(line, opts).Dir? && !IsUnknown(Classify(line, opts).d)
  }

  lemma {:induction false} CleanComment(m: Machine, open: bool, line: Line, opts: Options)
    requires WellShaped(m) && !line.text.Ordinary? && !Dodgy(line) && !TornTail(line, opts)
    requires InSync(m, open) && line.before == m.incomment
    ensures var r := Step(Scanned(m, line), line, opts);
            r.Go? ==> r.m.states != [] && CommentStep(m, open, line, false, r)
  {
    var scanned := Scanned(m, line);
    TransitionSafe(scanned, Classify(line, opts));
    EffectOnLine(Transition(Top(m), Classify(line, opts)), scanned, line, opts.iocccok);
    if line.after {
      UnknownFollowed(scanned, line, opts);
    }
  }

  /** A group inside one that is dropped is dropped to its end. */
  predicate ParentsPrint(m: Machine) {
    forall i :: 1 <= i < |m.states| ==> Printing(m.states[i - 1]) || m.states[i] in {FalseTrailer, FalseElse}
  }

  lemma EntriesKeepDropped(st: Ifstate, lt: LineType)
    ensures var a := Transition(st, lt);
            && (OpensGroup(a) ==> Printing(st) || Target(a) == FalseTrailer)
            && (ChangesGroup(a) && st in {FalseTrailer, FalseElse} ==> Target(a) in {FalseTrailer, FalseElse})
            && (OpensGroup(a) || ChangesGroup(a) || Fails(a) || a in {Pendif, Dendif, Print, Drop, Finish})
  {}

  lemma {:induction false} StepKeepsParents(m: Machine, line: Line, opts: Options)
    requires WellShaped(m) && ParentsPrint(m)
    ensures Step(m, line, opts).Go? ==> ParentsPrint(Step(m, line, opts).m)
  {
    var a := Transition(Top(m), Classify(line, opts));
    TransitionSafe(m, Classify(line, opts));
    EntriesKeepDropped(Top(m), Classify(line, opts));
    EffectOnStack(a, m, line, opts.iocccok);
    EffectGoes(a, m, line, opts.iocccok);
  }

  lemma {:induction false} DodgyComment(m: Machine, open: bool, line: Line, opts: Options)
    requires WellShaped(m) && ParentsPrint(m) && !line.text.Ordinary? && Dodgy(line)
    requires InSync(m, open) && line.before == m.incomment
    ensures var r := Step(Scanned(m, line), line, opts);
            r.Go? ==> r.m.states != [] && CommentStep(m, open, line, StrayElif(m, line, opts), r)
  {
    var scanned, lt := Scanned(m, line), Classify(line, opts);
    assert lt.Dir? && lt.dodgy;
    assert lt.d == UnknownElif ==> line.text.Elif?;
    TransitionSafe(scanned, lt);
    DodgyEntries(Top(m), lt.d);
    DodgySwitchesIff(scanned, lt.d, line, opts.iocccok);
    EffectOnLine(DodgyEntry(Top(m), lt.d), scanned, line, opts.iocccok);
  }

  lemma {:induction false} LineComment(m: Machine, open: bool, line: Line, opts: Options)
    requires WellShaped(m) && ParentsPrint(m) && !TornTail(line, opts)
    requires InSync(m, open) && line.before == m.incomment && line.after == AfterLine(line.before, line)
    ensures var r := Step(Scanned(m, line), line, opts);
            r.Go? ==> r.m.states != [] && CommentStep(m, open, line, StrayElif(m, line, opts), r)
  {
    if line.text.Ordinary? {
      PlainComment(m, open, line, opts);
    } else if Dodgy(line) {
      DodgyComment(m, open, line, opts);
    } else {
      CleanComment(m, open, line, opts);
    }
  }

  // ------------------------------------------------------------- whole runs

  function Weight(t: Text): int {
    match t
    case If(_) | Ifdef(_, _) => 1
    case Endif => -1
    case _ => 0
  }

  /** How many more groups are opened than closed. */
  function Balance(ts: seq<Text>): int {
    if ts == [] then 0 else Weight(ts[0]) + Balance(ts[1..])
  }

  lemma {:induction false} PreprocessBalances(gs: seq<Group>, ts: seq<Text>, env: Env)
    requires Preprocess(gs, ts, env).Some?
    ensures |gs| + Balance(ts) == 0
    decreases |ts|
  {
    if ts != [] {
      PreprocessBalances(Advance(gs, ts[0], env).value, ts[1..], env);
    }
  }

  /** Reading lines with some stray ends among them or none. */
  predicate ReadsWith(open: bool, kept: seq<Line>, strays: bool) {
    && !OpenAfter(open, kept)
    && if strays then Balance(Read(open, kept)) < Balance(Texts(kept)) else Read(open, kept) == Texts(kept)
  }

  lemma {:induction false} ReadsWithCons(open: bool, line: Line, rest: seq<Line>, stray: bool, strays: bool)
    requires ReadsWith(AfterLine(open, line), rest, strays)
    requires if stray then !open && line.before && line.text.If? else open == line.before
    ensures ReadsWith(open, [line] + rest, stray || strays)
  {
    var kept := [line] + rest;
    assert kept[1..] == rest;
    var open' := AfterLine(open, line);
    assert Read(open, kept)[1..] == Read(open', rest) && Texts(kept)[1..] == Texts(rest);
  }

  lemma {:induction false} ReadsWithStep(m: Machine, open: bool, line: Line, stray: bool, r: Outcome,
                                         rest: seq<Flushed>, strays: bool)
    requires r.Go? && r.m.states != [] && CommentStep(m, open, line, stray, r)
    requires ReadsWith(if r.keep then AfterLine(open, r.line) else open, KeptLines(rest), strays)
    ensures ReadsWith(open, KeptLines([Flushed(r.line, r.keep)] + rest), stray || strays)
  {
    assert ([Flushed(r.line, r.keep)] + rest)[1..] == rest;
    if r.keep {
      ReadsWithCons(open, r.line, KeptLines(rest), stray, strays);
    } else {
      assert KeptLines([Flushed(r.line, r.keep)] + rest) == KeptLines(rest);
    }
  }

  /** A line that goes through, and the comment on both sides. */
  lemma {:induction false} LineKeeps(m: Machine, open: bool, line: Line, opts: Options)
    requires WellShaped(m) && ParentsPrint(m) && !TornTail(line, opts)
    requires InSync(m, open) && line.before == m.incomment && line.after == AfterLine(line.before, line)
    ensures var r := Step(Scanned(m, line), line, opts);
            if r.Stop? then r.status.Failed?
            else
              && WellShaped(r.m) && ParentsPrint(r.m) && r.m.incomment == line.after
              && CommentStep(m, open, line, StrayElif(m, line, opts), r)
  {
    var scanned := Scanned(m, line);
    StepShape(scanned, line, opts);
    StepNeverFinishes(scanned, line, opts);
    StepComment(scanned, line, opts);
    StepKeepsParents(scanned, line, opts);
    LineComment(m, open, line, opts);
  }

  predicate NoTornTails(lines: seq<Line>, opts: Options) {
    forall line :: line in lines ==> !TornTail(line, opts)
  }

  lemma {:induction false} RunComments(m: Machine, open: bool, lines: seq<Line>, opts: Options)
    requires WellShaped(m) && ParentsPrint(m)
    requires InSync(m, open) && Threaded(m.incomment, lines) && NoTornTails(lines, opts)
    requires Run(m, lines, opts).status == Finished
    ensures ReadsWith(open, KeptLines(Run(m, lines, opts).flushed), MeetsStray(m, lines, opts))
    decreases |lines|
  {
    if lines != [] {
      LineKeeps(m, open, lines[0], opts);
      var r := Step(Scanned(m, lines[0]), lines[0], opts);
      RunComments(r.m, if r.keep then AfterLine(open, r.line) else open, lines[1..], opts);
      ReadsWithStep(m, open, lines[0], StrayElif(m, lines[0], opts), r, Run(r.m, lines[1..], opts).flushed,
                    MeetsStray(r.m, lines[1..], opts));
    }
  }

  /** An accepted file means to a compiler what it meant before, under every
      assignment of the macros for which the verdicts are right, if and only if no
      unknown `#elif` is met after a deleted beginning with a comment open in front
      of it.  Otherwise the output does not even nest. */
  lemma {:induction false} MeaningKeptIfRight(lines: seq<Line>, opts: Options, env: Env)
    requires Threaded(false, lines) && NoTornTails(lines, opts) && AllRight(lines, opts, env)
    requires Run(START, lines, opts).status == Finished
    ensures var kept := KeptLines(Run(START, lines, opts).flushed);
            && Compile(lines, env).Some?
            && (Compile(kept, env) == Compile(lines, env) <==> !MeetsStray(START, lines, opts))
            && (MeetsStray(START, lines, opts) ==> Compile(kept, env) == None)
  {
    var fs := Run(START, lines, opts).flushed;
    MeaningPreserved(lines, opts, env);
    RunComments(START, false, lines, opts);
    ReadThreaded(false, lines);
    ClosedAtEnd(START, lines, opts);
    KeptTexts(fs);
    PreprocessBalances([], Kept(fs), env);
    if MeetsStray(START, lines, opts) && Preprocess([], Read(false, KeptLines(fs)), env).Some? {
      PreprocessBalances([], Read(false, KeptLines(fs)), env);
    }
  }

  /** The main theorem: in a file without continued directives that get a verdict
      by their first line, the verdicts are right under every assignment of the
      macros that agrees with the command line. */
  lemma {:induction false} MeaningKeptIff(lines: seq<Line>, opts: Options, env: Env)
    requires Threaded(false, lines) && NoTornTails(lines, opts) && NoneHalfJudged(lines, opts)
    requires Agrees(env, opts.syms) && SymbolsFit(opts.syms) && AllFit(lines)
    requires Run(START, lines, opts).status == Finished
    ensures var kept := KeptLines(Run(START, lines, opts).flushed);
            && Compile(lines, env).Some?
            && (Compile(kept, env) == Compile(lines, env) <==> !MeetsStray(START, lines, opts))
            && (MeetsStray(START, lines, opts) ==> Compile(kept, env) == None)
  {
    ClassifyAllSound(lines, opts, env);
    MeaningKeptIfRight(lines, opts, env);
  }

  lemma {:induction false} ClosedAtEnd(m: Machine, lines: seq<Line>, opts: Options)
    requires WellShaped(m) && Run(m, lines, opts).status == Finished
    ensures !InCommentAfter(m.incomment, lines)
    decreases |lines|
  {
    if lines != [] {
      var scanned := Scanned(m, lines[0]);
      StepShape(scanned, lines[0], opts);
      StepNeverFinishes(scanned, lines[0], opts);
      StepComment(scanned, lines[0], opts);
      ClosedAtEnd(Step(scanned, lines[0], opts).m, lines[1..], opts);
    }
  }

  /** `#ifdef A`, an opened comment, its end with `#elif` and an unknown condition
      behind it, a line and `#endif`. */
  function StrayFile(cond: seq<Token>): seq<Line> {
    [Line(Ifdef(false, [Name("A")]), false, false, None), Line(Ordinary("/* x"), false, true, None),
     Line(Elif(cond), true, false, None), Line(Ordinary("b"), false, false, None), Line(Endif, false, false, None)]
  }

  function StrayOutput(cond: seq<Token>): seq<Line> {
    [Line(If(cond), true, false, None), Line(Ordinary("b"), false, false, None), Line(Endif, false, false, None)]
  }

  const INFALSE := Machine([Outside, FalsePrefix], [false, false], false)
  const INPASS := Machine([Outside, PassMiddle], [false, false], false)

  predicate OnlyUndefA(cond: seq<Token>, opts: Options) {
    && opts.syms == map["A" := Undefined] && opts.ignore == {}
    && CondKnown(cond, opts.syms, opts.strictlogic, opts.killconsts).None?
  }

  lemma {:induction false} FalseOpens(line: Line, opts: Options)
    requires Classify(line, opts) == Dir(FalseIf, false)
    ensures Step(START, line, opts) == Go(INFALSE, line, false)
  {
    TransitionSafe(START, Classify(line, opts));
    assert Transition(Top(START), Classify(line, opts)) == Ffalse;
  }

  lemma {:induction false} ElifPasses(line: Line, opts: Options)
    requires Classify(line, opts) == Dir(UnknownElif, true) && line.text.Elif?
    ensures Step(INFALSE, line, opts) == Go(INPASS, line.(text := If(line.text.cond)), true)
  {
    TransitionSafe(INFALSE, Classify(line, opts));
    assert Transition(Top(INFALSE), Classify(line, opts)) == Mpass;
  }

  lemma {:induction false} StrayFileStart(cond: seq<Token>, opts: Options)
    requires OnlyUndefA(cond, opts)
    ensures var file := StrayFile(cond);
            && Step(START, file[0], opts) == Go(INFALSE, file[0], false)
            && Step(INFALSE.(incomment := true), file[1], opts) == Go(INFALSE.(incomment := true), file[1], false)
            && Step(INFALSE, file[2], opts) == Go(INPASS, StrayOutput(cond)[0], true)
  {
    assert IfdefKnown(false, [Name("A")], opts.syms) == Some(false);
    FalseOpens(StrayFile(cond)[0], opts);
    ElifPasses(StrayFile(cond)[2], opts);
  }

  lemma {:induction false} RunCons(m: Machine, line: Line, rest: seq<Line>, m': Machine, f: Flushed, opts: Options)
    requires WellShaped(m) && WellShaped(m')
    requires Step(Scanned(m, line), line, opts) == Go(m', f.line, f.keep)
    ensures var r := Run(m', rest, opts);
            Run(m, [line] + rest, opts) == RunResult(r.status, [f] + r.flushed)
    ensures MeetsStray(m, [line] + rest, opts) <==> StrayElif(m, line, opts) || MeetsStray(m', rest, opts)
  {
    assert ([line] + rest)[1..] == rest;
  }

  lemma {:induction false} StrayFileEnd(cond: seq<Token>, opts: Options)
    ensures var file, out := StrayFile(cond), StrayOutput(cond);
            && WellShaped(INPASS)
            && Run(INPASS, [file[3]] + ([file[4]] + []), opts)
            == RunResult(Finished, [Flushed(out[1], true)] + ([Flushed(out[2], true)] + []))
  {
    var file, out := StrayFile(cond), StrayOutput(cond);
    RunCons(INPASS, file[4], [], START, Flushed(out[2], true), opts);
    RunCons(INPASS, file[3], [file[4]] + [], INPASS, Flushed(out[1], true), opts);
  }

  lemma {:induction false} StrayFileMiddle(cond: seq<Token>, opts: Options)
    requires OnlyUndefA(cond, opts)
    ensures var file, out := StrayFile(cond), StrayOutput(cond);
            && var lines := [file[2]] + ([file[3]] + ([file[4]] + []));
            && WellShaped(INFALSE) && MeetsStray(Scanned(INFALSE, file[1]), lines, opts)
            && Run(Scanned(INFALSE, file[1]), lines, opts)
            == RunResult(Finished, [Flushed(out[0], true)] + ([Flushed(out[1], true)] + ([Flushed(out[2], true)] + [])))
  {
    var file, out := StrayFile(cond), StrayOutput(cond);
    StrayFileStart(cond, opts);
    StrayFileEnd(cond, opts);
    RunCons(Scanned(INFALSE, file[1]), file[2], [file[3]] + ([file[4]] + []), INPASS, Flushed(out[0], true), opts);
  }

  lemma {:induction false} StrayFileRun(cond: seq<Token>, opts: Options)
    requires OnlyUndefA(cond, opts)
    ensures var r := Run(START, StrayFile(cond), opts);
            r.status == Finished && KeptLines(r.flushed) == StrayOutput(cond)
    ensures MeetsStray(START, StrayFile(cond), opts)
  {
    var file := StrayFile(cond);
    var at2 := [file[2]] + ([file[3]] + ([file[4]] + []));
    StrayFileStart(cond, opts);
    StrayFileMiddle(cond, opts);
    RunCons(INFALSE, file[1], at2, Scanned(INFALSE, file[1]), Flushed(file[1], false), opts);
    RunCons(START, file[0], [file[1]] + at2, INFALSE, Flushed(file[0], false), opts);
    assert [file[0]] + ([file[1]] + at2) == file;
    StrayFileKept(cond);
  }

  lemma {:induction false} KeptLinesCons(f: Flushed, fs: seq<Flushed>)
    ensures KeptLines([f] + fs) == if f.keep then [f.line] + KeptLines(fs) else KeptLines(fs)
  {
    assert ([f] + fs)[1..] == fs;
  }

  lemma {:induction false} StrayFileKept(cond: seq<Token>)
    ensures var file, out := StrayFile(cond), StrayOutput(cond);
            var written := [Flushed(out[0], true)] + ([Flushed(out[1], true)] + ([Flushed(out[2], true)] + []));
            KeptLines([Flushed(file[0], false)] + ([Flushed(file[1], false)] + written)) == out
  {
    var file, out := StrayFile(cond), StrayOutput(cond);
    var f0, f1, f2 := Flushed(out[0], true), Flushed(out[1], true), Flushed(out[2], true);
    KeptLinesCons(f2, []);
    KeptLinesCons(f1, [f2] + []);
    KeptLinesCons(f0, [f1] + ([f2] + []));
    KeptLinesCons(Flushed(file[1], false), [f0] + ([f1] + ([f2] + [])));
    KeptLinesCons(Flushed(file[0], false), [Flushed(file[1], false)] + ([f0] + ([f1] + ([f2] + []))));
  }

  lemma {:induction false} ThreadedCons(open: bool, line: Line, rest: seq<Line>)
    requires line.before == open && line.after == AfterLine(open, line) && Threaded(line.after, rest)
    ensures Threaded(open, [line] + rest)
  {
    assert ([line] + rest)[1..] == rest;
  }

  lemma {:induction false} StrayFileThreaded(cond: seq<Token>)
    ensures Threaded(false, StrayFile(cond))
  {
    var file := StrayFile(cond);
    assert file[1].text.s[0] == '/' && '/' in file[1].text.s && !IsBlank(file[1].text);
    assert file[3].text.s[0] == 'b' && 'b' in file[3].text.s;
    ThreadedCons(false, file[4], []);
    ThreadedCons(false, file[3], [file[4]]);
    ThreadedCons(true, file[2], [file[3], file[4]]);
    ThreadedCons(false, file[1], [file[2], file[3], file[4]]);
    ThreadedCons(false, file[0], [file[1], file[2], file[3], file[4]]);
  }

  lemma {:induction false} StrayFilePlain(cond: seq<Token>, opts: Options)
    requires TokensFit(cond)
    ensures var file := StrayFile(cond);
            NoTornTails(file, opts) && NoneHalfJudged(file, opts) && AllFit(file)
  {
    forall line | line in StrayFile(cond)
      ensures !TornTail(line, opts) && !HalfJudged(line, opts) && TextFits(line.text)
    {
      assert line.more.None?;
    }
  }

  /** With -UA the output is the end of a comment with an `#if` behind it, which
      is no directive there, the line, and an `#endif` too many. */
  lemma {:induction false} StrayEndPrinted(cond: seq<Token>, opts: Options, env: Env)
    requires OnlyUndefA(cond, opts) && Agrees(env, opts.syms) && TokensFit(cond)
    ensures Run(START, StrayFile(cond), opts).status == Finished
    ensures KeptLines(Run(START, StrayFile(cond), opts).flushed) == StrayOutput(cond)
    ensures Threaded(false, StrayFile(cond)) && MeetsStray(START, StrayFile(cond), opts)
    ensures Compile(StrayFile(cond), env).Some? && Compile(StrayOutput(cond), env) == None
  {
    StrayFileRun(cond, opts);
    StrayFileThreaded(cond);
    StrayFilePlain(cond, opts);
    MeaningKeptIff(StrayFile(cond), opts, env);
  }

  /** An example of such a condition is any other symbol. */
  lemma {:induction false} OtherSymbolUnknown(s: string, opts: Options)
    requires opts.syms == map["A" := Undefined] && opts.ignore == {} && s != "A"
    ensures OnlyUndefA([Name(s)], opts)
  {
    ParseAllExact([Name(s)], Symbol(s));
  }
}
