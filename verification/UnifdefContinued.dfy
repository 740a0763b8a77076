/** Directives that a backslash continues on the next line.

    The verdict comes from the first line alone, so that a group can be decided by
    half of its condition.  `MeaningKeptIff` holds of files where none is;
    `DecidedByHalf` says what becomes of the others.
  */
module UnifdefContinued {
  import opened Wrappers
  import opened UnifdefGrammar
  import opened UnifdefEval
  import opened UnifdefTable
  import opened UnifdefMeaning
  import opened UnifdefComments

  /** One group with one line in it, whose condition goes on. */
  function OneGroup(cond: seq<Token>, more: seq<Token>, s: string): seq<Line> {
    [Line(If(cond), false, false, Some(more)), Line(Ordinary(s), false, false, None), Line(Endif, false, false, None)]
  }

  /** The machine inside of a group whose `#if` is dropped. */
  function Inside(b: bool): (m: Machine)
    ensures WellShaped(m)
  {
    Machine([Outside, if b then TruePrefix else FalsePrefix], [false, false], false)
  }

  predicate Decided(cond: seq<Token>, opts: Options, b: bool) {
    CondKnown(cond, opts.syms, opts.strictlogic, opts.killconsts) == Some(b)
  }

  lemma {:induction false} FirstStep(line: Line, opts: Options, b: bool)
    requires Classify(line, opts) == Dir(if b then TrueIf else FalseIf, false)
    ensures Step(START, line, opts) == Go(Inside(b), line, false)
  {
    TransitionSafe(START, Classify(line, opts));
    assert Transition(Outside, Classify(line, opts)) == if b then Ftrue else Ffalse;
  }

  lemma {:induction false} InsideStep(line: Line, opts: Options, b: bool)
    requires line.text.Ordinary?
    ensures Step(Inside(b), line, opts) == Go(Inside(b), line, b)
  {
    TransitionSafe(Inside(b), PlainLine);
    assert Transition(Top(Inside(b)), PlainLine) == if b then Print else Drop;
  }

  lemma {:induction false} LastStep(line: Line, opts: Options, b: bool)
    requires line.text.Endif? && !Dodgy(line)
    ensures Step(Inside(b), line, opts) == Go(START, line, false)
  {
    TransitionSafe(Inside(b), Dir(EndifDir, false));
    assert Transition(Top(Inside(b)), Dir(EndifDir, false)) == Dendif;
  }

  lemma {:induction false} OneGroupRun(cond: seq<Token>, more: seq<Token>, s: string, opts: Options, b: bool)
    requires Decided(cond, opts, b)
    ensures var file := OneGroup(cond, more, s);
            Run(START, file, opts)
            == RunResult(Finished,
                         [Flushed(file[0], false)] + ([Flushed(file[1], b)] + ([Flushed(file[2], false)] + [])))
  {
    var file := OneGroup(cond, more, s);
    FirstStep(file[0], opts, b);
    InsideStep(file[1], opts, b);
    LastStep(file[2], opts, b);
    RunCons(Inside(b), file[2], [], START, Flushed(file[2], false), opts);
    RunCons(Inside(b), file[1], [file[2]] + [], Inside(b), Flushed(file[1], b), opts);
    RunCons(START, file[0], [file[1]] + ([file[2]] + []), Inside(b), Flushed(file[0], false), opts);
    assert [file[0]] + ([file[1]] + ([file[2]] + [])) == file;
  }

  lemma {:induction false} OneGroupKept(cond: seq<Token>, more: seq<Token>, s: string, opts: Options, b: bool)
    requires Decided(cond, opts, b)
    ensures var r := Run(START, OneGroup(cond, more, s), opts);
            && r.status == Finished
            && KeptLines(r.flushed) == if b then [OneGroup(cond, more, s)[1]] else []
  {
    var file := OneGroup(cond, more, s);
    var f0, f1, f2 := Flushed(file[0], false), Flushed(file[1], b), Flushed(file[2], false);
    OneGroupRun(cond, more, s, opts, b);
    KeptLinesCons(f2, []);
    KeptLinesCons(f1, [f2] + []);
    KeptLinesCons(f0, [f1] + ([f2] + []));
  }

  lemma {:induction false} PlainLineMeans(s: string, env: Env)
    ensures Compile([Line(Ordinary(s), false, false, None)], env) == Some([s])
    ensures Compile([], env) == Some([])
  {
    var line := Line(Ordinary(s), false, false, None);
    assert Preprocess([], Read(false, []), env) == Some([]) && !OpenAfter(false, []);
    ReadCons([], false, [line], env);
    assert [line][1..] == [] && [s] + [] == [s];
  }

  /** A line and the end of the group that it is in. */
  lemma {:induction false} GroupEndMeans(g: seq<Group>, lines: seq<Line>, env: Env)
    requires |g| == 1 && |lines| == 2 && !lines[0].before && !lines[0].after && lines[0].text.Ordinary?
    requires lines[1] == Line(Endif, false, false, None)
    ensures Preprocess(g, Read(false, lines), env) == Some(Selected(g, lines[0].text))
    ensures !OpenAfter(false, lines)
  {
    var sel := Selected(g, lines[0].text);
    assert Preprocess([], Read(false, []), env) == Some([]) && !OpenAfter(false, []);
    assert lines[1..] == [lines[1]] && [lines[1]][1..] == [];
    ReadCons(g, false, lines, env);
    ReadCons(g, false, [lines[1]], env);
    assert g[..|g| - 1] == [] && Advance(g, Endif, env) == Some([]);
    assert Selected(g, Endif) + [] == [] && sel + [] == sel;
  }

  lemma {:induction false} OneGroupMeans(cond: seq<Token>, more: seq<Token>, s: string, env: Env)
    ensures Compile(OneGroup(cond, more, s), env) == Some(if CondHolds(cond + more, env) then [s] else [])
  {
    var file := OneGroup(cond, more, s);
    var g := OpenGroup([], CondHolds(cond + more, env));
    GroupEndMeans(g, [file[1], file[2]], env);
    ReadCons([], false, file, env);
    assert file[1..] == [file[1], file[2]] && Selected([], Whole(file[0])) == [];
    assert [] + Selected(g, file[1].text) == Selected(g, file[1].text);
  }

  /** A verdict on the first line decides the group: its line stays exactly if the
      first line alone holds, and so the file keeps its meaning exactly under the
      assignments that give the whole condition the same truth value. */
  lemma {:induction false} DecidedByHalf(cond: seq<Token>, more: seq<Token>, s: string, opts: Options, b: bool,
                                         env: Env)
    requires Decided(cond, opts, b)
    ensures var file := OneGroup(cond, more, s);
            var r := Run(START, file, opts);
            && r.status == Finished
            && (Compile(KeptLines(r.flushed), env) == Compile(file, env) <==> CondHolds(cond + more, env) == b)
            && (CondHolds(cond + more, env) == b <==> Right(file[0], opts, env))
  {
    OneGroupKept(cond, more, s, opts, b);
    OneGroupMeans(cond, more, s, env);
    PlainLineMeans(s, env);
    assert b ==> [s] != [];
  }

  /** Whether `A` holds is known, whether `A && B` does is not. */
  lemma {:induction false} HalfKnown(opts: Options, env: Env)
    requires opts.syms == map["A" := Defined(Some(1))]
    requires Agrees(env, opts.syms) && env.value("B") == 0
    ensures Decided([Name("A")], opts, true)
    ensures !CondHolds([Name("A")] + [Binary(And), Name("B")], env)
  {
    var both := Bin(And, Symbol("A"), Symbol("B"));
    ParseAllExact([Name("A")], Symbol("A"));
    assert Flat(both) == [Name("A")] + [Binary(And)] + [Name("B")] == [Name("A")] + [Binary(And), Name("B")];
    assert WellFormed(both, 0);
    ParseAllExact([Name("A")] + [Binary(And), Name("B")], both);
    assert CValue(both, env) == Apply(And, env.value("A"), env.value("B")) == 0;
  }

  /** `#if A` with `&& B` on the next line and -DA: `B` is never looked at, and the
      line stays although it should go if `B` is 0. */
  lemma {:induction false} SecondHalfLost(s: string, opts: Options, env: Env)
    requires opts.syms == map["A" := Defined(Some(1))]
    requires Agrees(env, opts.syms) && env.value("B") == 0
    ensures var file := OneGroup([Name("A")], [Binary(And), Name("B")], s);
            var r := Run(START, file, opts);
            && HalfJudged(file[0], opts)
            && r.status == Finished && KeptLines(r.flushed) == [file[1]]
            && Compile(file, env) == Some([]) && Compile(KeptLines(r.flushed), env) == Some([s])
  {
    HalfKnown(opts, env);
    OneGroupKept([Name("A")], [Binary(And), Name("B")], s, opts, true);
    OneGroupMeans([Name("A")], [Binary(And), Name("B")], s, env);
    PlainLineMeans(s, env);
  }

  // --------------------------------------------- comments in what is continued

  /** `#ifdef A`, an `#endif` that goes on with the beginning of a comment, its end
      with an unknown `#if` behind it, and the `#endif` of that. */
  function TornFile(cond: seq<Token>): seq<Line> {
    [Line(Ifdef(false, [Name("A")]), false, false, None), Line(Endif, false, true, Some([])),
     Line(If(cond), true, false, None), Line(Endif, false, false, None)]
  }

  lemma {:induction false} TornFileSteps(cond: seq<Token>, opts: Options)
    requires OnlyUndefA(cond, opts)
    ensures var file := TornFile(cond);
            && Step(INFALSE.(incomment := true), file[1], opts) == Go(START.(incomment := true), file[1], false)
            && Step(START, file[2], opts) == Go(INPASS, file[2], true)
            && Step(INPASS, file[3], opts) == Go(START, file[3], true)
  {
    var file := TornFile(cond);
    TransitionSafe(INFALSE.(incomment := true), Dir(EndifDir, false));
    assert Transition(FalsePrefix, Dir(EndifDir, false)) == Dendif;
    assert Classify(file[2], opts) == Dir(UnknownIf, true);
    assert Transition(Outside, Dir(UnknownIf, true)) == Fpass;
    assert Transition(PassMiddle, Dir(EndifDir, false)) == Pendif;
  }

  lemma {:induction false} TornFileRun(cond: seq<Token>, opts: Options)
    requires OnlyUndefA(cond, opts)
    ensures var file := TornFile(cond);
            var r := Run(START, file, opts);
            r.status == Finished && KeptLines(r.flushed) == [file[2], file[3]]
  {
    var file := TornFile(cond);
    var f0, f1 := Flushed(file[0], false), Flushed(file[1], false);
    var f2, f3 := Flushed(file[2], true), Flushed(file[3], true);
    TornFileSteps(cond, opts);
    FalseOpens(file[0], opts);
    RunCons(INPASS, file[3], [], START, f3, opts);
    RunCons(START.(incomment := true), file[2], [file[3]] + [], INPASS, f2, opts);
    RunCons(INFALSE, file[1], [file[2]] + ([file[3]] + []), START.(incomment := true), f1, opts);
    RunCons(START, file[0], [file[1]] + ([file[2]] + ([file[3]] + [])), INFALSE, f0, opts);
    assert [file[0]] + ([file[1]] + ([file[2]] + ([file[3]] + []))) == file;
    KeptLinesCons(f3, []);
    KeptLinesCons(f2, [f3] + []);
    KeptLinesCons(f1, [f2] + ([f3] + []));
    KeptLinesCons(f0, [f1] + ([f2] + ([f3] + [])));
  }

  lemma {:induction false} TornFileThreaded(cond: seq<Token>)
    ensures Threaded(false, TornFile(cond))
  {
    var file := TornFile(cond);
    ThreadedCons(false, file[3], []);
    ThreadedCons(true, file[2], [file[3]]);
    ThreadedCons(false, file[1], [file[2], file[3]]);
    ThreadedCons(false, file[0], [file[1], file[2], file[3]]);
  }

  /** A group without lines, followed by lines that mean something on their own. */
  lemma {:induction false} EmptyGroupMeans(open: bool, first: Line, last: Line, lines: seq<Line>, env: Env)
    requires |lines| >= 2 && lines[0] == first && lines[1..][0] == last
    requires ReadLine(open, first).If? || ReadLine(open, first).Ifdef?
    requires ReadLine(AfterLine(open, first), last) == Endif
    ensures var open' := AfterLine(AfterLine(open, first), last);
            && Preprocess([], Read(open, lines), env) == Preprocess([], Read(open', lines[1..][1..]), env)
            && OpenAfter(open, lines) == OpenAfter(open', lines[1..][1..])
  {
    var g := Advance([], ReadLine(open, first), env).value;
    ReadCons([], open, lines, env);
    ReadCons(g, AfterLine(open, first), lines[1..], env);
    assert g[..|g| - 1] == [] && Advance(g, Endif, env) == Some([]);
    assert Selected([], ReadLine(open, first)) == [] && Selected(g, Endif) == [];
    var p := Preprocess([], Read(AfterLine(AfterLine(open, first), last), lines[1..][1..]), env);
    assert p.Some? ==> [] + ([] + p.value) == p.value;
  }

  lemma {:induction false} TornFileMeans(cond: seq<Token>, env: Env)
    ensures Compile(TornFile(cond), env) == Some([])
    ensures Compile([TornFile(cond)[2], TornFile(cond)[3]], env) == None
  {
    var file := TornFile(cond);
    assert Preprocess([], Read(false, []), env) == Some([]) && !OpenAfter(false, []);
    var kept := [file[2], file[3]];
    assert kept[1..][1..] == [] && file[1..][1..] == kept;
    EmptyGroupMeans(true, file[2], file[3], kept, env);
    EmptyGroupMeans(false, file[0], file[1], file, env);
    ReadCons([], false, kept, env);
    assert kept[1..] == [file[3]] && ReadLine(false, file[2]) == Ordinary(STRAY);
    ReadCons([], false, [file[3]], env);
    assert Advance([], Endif, env) == None;
  }

  lemma MeansOtherwise(file: seq<Line>, kept: seq<Line>, opts: Options, env: Env)
    requires Run(START, file, opts).status == Finished && KeptLines(Run(START, file, opts).flushed) == kept
    requires Compile(file, env) == Some([]) && Compile(kept, env) == None
    ensures var r := Run(START, file, opts);
            && r.status == Finished && KeptLines(r.flushed) == kept
            && Compile(file, env) == Some([]) && Compile(KeptLines(r.flushed), env) == None
  {}

  /** With -UA the `#endif` goes with the beginning of the comment, and the end of
      it stays: `MeaningKeptIff` leaves out such tails because they are torn off. */
  lemma {:induction false} TailTornOff(cond: seq<Token>, opts: Options, env: Env)
    requires OnlyUndefA(cond, opts)
    ensures var file := TornFile(cond);
            var r := Run(START, file, opts);
            && Threaded(false, file) && TornTail(file[1], opts)
            && r.status == Finished && KeptLines(r.flushed) == [file[2], file[3]]
            && Compile(file, env) == Some([]) && Compile(KeptLines(r.flushed), env) == None
  {
    TornFileRun(cond, opts);
    TornFileThreaded(cond);
    TornFileMeans(cond, env);
    var file := TornFile(cond);
    MeansOtherwise(file, [file[2], file[3]], opts, env);
  }
}
