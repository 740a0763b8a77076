/** What the `#if` processor writes for the lines that are flushed, depending on
    its options, and what that means to a compiler: its text, and the numbers of
    its lines. */
module UnifdefOutput {
  import opened Wrappers
  import opened UnifdefEval
  import opened UnifdefTable
  import opened UnifdefMeaning
  import opened UnifdefComments

  // ---------------------------------------------------------------- flushing

  /** -c, -B, -b and -n, and whether -o names a file other than the standard
      output. */
  datatype FlushOptions =
    FlushOptions(complement: bool, compblank: bool, lnblank: bool, lnnum: bool, tofile: bool)

  datatype Counters = Counters(delcount: nat, blankcount: nat, blankmax: nat)

  datatype Item = Written(line: Line) | LineMark(n: nat) | BlankLine

  /** The line is written, and not deleted or left out as one blank line too many. */
  predicate Writes(fo: FlushOptions, k: Counters, f: Flushed) {
    f.keep != fo.complement && !(IsBlank(f.line.text) && fo.compblank && k.blankcount != k.blankmax)
  }

  function Counted(fo: FlushOptions, k: Counters, f: Flushed): Counters {
    if Writes(fo, k, f) then
      var count := if IsBlank(f.line.text) then k.blankcount + 1 else 0;
      Counters(0, count, count)
    else if f.keep != fo.complement then k.(delcount := k.delcount + 1, blankcount := k.blankcount + 1)
    else k.(delcount := k.delcount + 1, blankcount := 0)
  }

  /** A `#line` mark goes before the line. */
  predicate Marked(fo: FlushOptions, k: Counters, f: Flushed) {
    Writes(fo, k, f) && fo.lnnum && k.delcount > 0
  }

  /** What handing over line number `n` adds to the output, ... */
  function ToOutput(fo: FlushOptions, k: Counters, f: Flushed, n: nat): seq<Item> {
    if Writes(fo, k, f) then
      if Marked(fo, k, f) && !fo.tofile then [LineMark(n), Written(f.line)] else [Written(f.line)]
    else if f.keep == fo.complement && fo.lnblank then [BlankLine]
    else []
  }

  /** ... and to the standard output if that is another file: marks are printed
      there, whatever file -o names. */
  function ToStdout(fo: FlushOptions, k: Counters, f: Flushed, n: nat): seq<Item> {
    if Marked(fo, k, f) && fo.tofile then [LineMark(n)] else []
  }

  function OutputFile(fo: FlushOptions, k: Counters, fs: seq<Flushed>, n: nat): seq<Item>
    decreases |fs|
  {
    if fs == [] then [] else ToOutput(fo, k, fs[0], n) + OutputFile(fo, Counted(fo, k, fs[0]), fs[1..], n + 1)
  }

  function Printed(fo: FlushOptions, k: Counters, fs: seq<Flushed>, n: nat): seq<Item>
    decreases |fs|
  {
    if fs == [] then [] else ToStdout(fo, k, fs[0], n) + Printed(fo, Counted(fo, k, fs[0]), fs[1..], n + 1)
  }

  /** The file is treated as if many blank lines came before it. */
  const INITIAL := Counters(0, 1000, 1000)

  // --------------------------------------------------- the lines in the output

  const EMPTY := Line(Ordinary("\n"), false, false, None)

  /** The lines of a file, without the marks. */
  function LinesOf(items: seq<Item>): seq<Line> {
    if items == [] then []
    else
      match items[0]
      case Written(line) => [line] + LinesOf(items[1..])
      case BlankLine => [EMPTY] + LinesOf(items[1..])
      case LineMark(_) => LinesOf(items[1..])
  }

  lemma {:induction false} LinesOfCons(item: Item, items: seq<Item>)
    ensures LinesOf([item] + items)
         == if item.Written? then [item.line] + LinesOf(items)
            else if item.BlankLine? then [EMPTY] + LinesOf(items)
            else LinesOf(items)
  {
    assert ([item] + items)[1..] == items;
  }

  /** `a` and `b` differ by blank lines only. */
  predicate SameLines(a: seq<Line>, b: seq<Line>)
    decreases |a| + |b|
  {
    || (a == [] && b == [])
    || (a != [] && b != [] && a[0] == b[0] && SameLines(a[1..], b[1..]))
    || (a != [] && IsBlank(a[0].text) && SameLines(a[1..], b))
    || (b != [] && IsBlank(b[0].text) && SameLines(a, b[1..]))
  }

  lemma {:induction false} SameLinesCons(line: Line, a: seq<Line>, b: seq<Line>)
    requires SameLines(a, b)
    ensures SameLines([line] + a, [line] + b)
    ensures IsBlank(line.text) ==> SameLines([line] + a, b) && SameLines(a, [line] + b)
  {
    assert ([line] + a)[1..] == a && ([line] + b)[1..] == b;
  }

  /** What one line adds. */
  lemma {:induction false} LinesOfLine(fo: FlushOptions, k: Counters, f: Flushed, n: nat, rest: seq<Item>)
    ensures LinesOf(ToOutput(fo, k, f, n) + rest)
         == if Writes(fo, k, f) then [f.line] + LinesOf(rest)
            else if f.keep == fo.complement && fo.lnblank then [EMPTY] + LinesOf(rest)
            else LinesOf(rest)
  {
    if Writes(fo, k, f) {
      LinesOfCons(Written(f.line), rest);
      LinesOfCons(LineMark(n), [Written(f.line)] + rest);
      assert [LineMark(n), Written(f.line)] + rest == [LineMark(n)] + ([Written(f.line)] + rest);
    } else if f.keep == fo.complement && fo.lnblank {
      LinesOfCons(BlankLine, rest);
    } else {
      assert [] + rest == rest;
    }
  }

  /** Short of -c, the kept lines are in the output file, in order.  Only -B
      leaves out any, and only -b adds any, and those are blank. */
  lemma {:induction false} RenderKeeps(fo: FlushOptions, k: Counters, fs: seq<Flushed>, n: nat)
    requires !fo.complement
    ensures SameLines(LinesOf(OutputFile(fo, k, fs, n)), KeptLines(fs))
    ensures !fo.compblank && !fo.lnblank ==> LinesOf(OutputFile(fo, k, fs, n)) == KeptLines(fs)
    decreases |fs|
  {
    if fs != [] {
      var k' := Counted(fo, k, fs[0]);
      RenderKeeps(fo, k', fs[1..], n + 1);
      var rest := OutputFile(fo, k', fs[1..], n + 1);
      LinesOfLine(fo, k, fs[0], n, rest);
      SameLinesCons(if fs[0].keep then fs[0].line else EMPTY, LinesOf(rest), KeptLines(fs[1..]));
      assert !fs[0].keep ==> KeptLines(fs) == KeptLines(fs[1..]);
    }
  }

  /** With -b and without -n, and short of -B, as many lines are written as were
      read, a directive with what it is continued by being one. */
  lemma {:induction false} RenderCounts(fo: FlushOptions, k: Counters, fs: seq<Flushed>, n: nat)
    requires fo.lnblank && !fo.compblank && (fo.lnnum ==> fo.tofile)
    ensures |OutputFile(fo, k, fs, n)| == |fs|
    decreases |fs|
  {
    if fs != [] {
      RenderCounts(fo, Counted(fo, k, fs[0]), fs[1..], n + 1);
    }
  }

  // -------------------------------------------------- meaning of what is written

  function NonBlank(ss: seq<string>): seq<string> {
    if ss == [] then []
    else (if IsBlank(Ordinary(ss[0])) then [] else [ss[0]]) + NonBlank(ss[1..])
  }

  lemma {:induction false} NonBlankCons(s: string, ss: seq<string>)
    ensures NonBlank([s] + ss) == if IsBlank(Ordinary(s)) then NonBlank(ss) else [s] + NonBlank(ss)
  {
    assert ([s] + ss)[1..] == ss;
  }

  predicate SameButBlank(a: Option<seq<string>>, b: Option<seq<string>>) {
    if a.None? || b.None? then a == b else NonBlank(a.value) == NonBlank(b.value)
  }

  lemma {:induction false} SelectedSame(gs: seq<Group>, t: Text, a: seq<string>, b: seq<string>)
    requires NonBlank(a) == NonBlank(b)
    ensures NonBlank(Selected(gs, t) + a) == NonBlank(Selected(gs, t) + b)
    ensures IsBlank(t) ==> NonBlank(a) == NonBlank(Selected(gs, t) + b)
    ensures IsBlank(t) ==> NonBlank(Selected(gs, t) + a) == NonBlank(b)
  {
    var sel := Selected(gs, t);
    if sel == [] {
      assert sel + a == a && sel + b == b;
    } else {
      assert sel == [t.s];
      NonBlankCons(t.s, a);
      NonBlankCons(t.s, b);
    }
  }

  /** Blank lines more or less change nothing but blank lines, in comments too. */
  lemma {:induction false} SameLinesPreprocess(a: seq<Line>, b: seq<Line>, gs: seq<Group>, open: bool, env: Env)
    requires SameLines(a, b)
    ensures SameButBlank(Preprocess(gs, Read(open, a), env), Preprocess(gs, Read(open, b), env))
    ensures OpenAfter(open, a) == OpenAfter(open, b)
    decreases |a| + |b|
  {
    if a == [] && b == [] {
    } else if a != [] && b != [] && a[0] == b[0] && SameLines(a[1..], b[1..]) {
      ReadCons(gs, open, a, env);
      ReadCons(gs, open, b, env);
      var t := ReadLine(open, a[0]);
      var open', next := AfterLine(open, a[0]), Advance(gs, t, env);
      if next.Some? {
        SameLinesPreprocess(a[1..], b[1..], next.value, open', env);
        var p, q := Preprocess(next.value, Read(open', a[1..]), env), Preprocess(next.value, Read(open', b[1..]), env);
        if p.Some? {
          SelectedSame(gs, t, p.value, q.value);
        }
      } else {
        SameLinesPreprocess(a[1..], b[1..], gs, open', env);
      }
    } else if a != [] && IsBlank(a[0].text) && SameLines(a[1..], b) {
      ReadCons(gs, open, a, env);
      SameLinesPreprocess(a[1..], b, gs, open, env);
      var p, q := Preprocess(gs, Read(open, a[1..]), env), Preprocess(gs, Read(open, b), env);
      if p.Some? {
        SelectedSame(gs, a[0].text, p.value, q.value);
      }
    } else {
      ReadCons(gs, open, b, env);
      SameLinesPreprocess(a, b[1..], gs, open, env);
      var p, q := Preprocess(gs, Read(open, a), env), Preprocess(gs, Read(open, b[1..]), env);
      if p.Some? {
        SelectedSame(gs, b[0].text, p.value, q.value);
      }
    }
  }

  /** The file written means what the file read means, for every assignment of
      the macros that agrees with the command line, if and only if no stray end
      of a comment is printed: exactly without -b and -B, and up to blank lines
      with them. */
  lemma {:induction false} OutputMeaning(lines: seq<Line>, opts: Options, fo: FlushOptions, env: Env)
    requires !fo.complement && Threaded(false, lines) && NoTornTails(lines, opts) && NoneHalfJudged(lines, opts)
    requires Agrees(env, opts.syms) && SymbolsFit(opts.syms) && AllFit(lines)
    requires Run(START, lines, opts).status == Finished
    ensures var out := LinesOf(OutputFile(fo, INITIAL, Run(START, lines, opts).flushed, 1));
            && Compile(lines, env).Some?
            && (SameButBlank(Compile(out, env), Compile(lines, env)) <==> !MeetsStray(START, lines, opts))
            && (!fo.compblank && !fo.lnblank && !MeetsStray(START, lines, opts) ==>
                  Compile(out, env) == Compile(lines, env))
  {
    MeaningKeptIff(lines, opts, env);
    var fs := Run(START, lines, opts).flushed;
    RenderKeeps(fo, INITIAL, fs, 1);
    SameLinesPreprocess(LinesOf(OutputFile(fo, INITIAL, fs, 1)), KeptLines(fs), [], false, env);
  }

  // ------------------------------------------------------------ line numbers

  datatype Located = Located(line: Line, number: nat)

  /** How many lines a compiler counts.  The processor counts one. */
  function Height(line: Line): nat {
    if line.more.Some? then 2 else 1
  }

  /** The source lines of a file with the numbers a compiler gives them.  Inside
      of a comment a mark is a line of the comment. */
  function Numbered(items: seq<Item>, next: nat, open: bool): seq<Located>
    decreases |items|
  {
    if items == [] then []
    else
      match items[0]
      case Written(line) => [Located(line, next)] + Numbered(items[1..], next + Height(line), AfterLine(open, line))
      case LineMark(n) => Numbered(items[1..], if open then next + 1 else n, open)
      case BlankLine => Numbered(items[1..], next + 1, open)
  }

  lemma {:induction false} NumberedCons(item: Item, items: seq<Item>, next: nat, open: bool)
    ensures Numbered([item] + items, next, open)
         == if item.Written? then
              [Located(item.line, next)] + Numbered(items, next + Height(item.line), AfterLine(open, item.line))
            else if item.LineMark? then Numbered(items, if open then next + 1 else item.n, open)
            else Numbered(items, next + 1, open)
  {
    assert ([item] + items)[1..] == items;
  }

  /** The lines that are written, with the numbers they had: `lines` are the lines
      that were flushed as `fs`, and `p` is the number of the first of them. */
  function Origins(fo: FlushOptions, k: Counters, lines: seq<Line>, fs: seq<Flushed>, p: nat): seq<Located>
    requires |fs| <= |lines|
    decreases |fs|
  {
    if fs == [] then []
    else
      (if Writes(fo, k, fs[0]) then [Located(fs[0].line, p)] else [])
      + Origins(fo, Counted(fo, k, fs[0]), lines[1..], fs[1..], p + Height(lines[0]))
  }

  function KeptNumbered(lines: seq<Line>, fs: seq<Flushed>, p: nat): seq<Located>
    requires |fs| <= |lines|
    decreases |fs|
  {
    if fs == [] then []
    else
      (if fs[0].keep then [Located(fs[0].line, p)] else [])
      + KeptNumbered(lines[1..], fs[1..], p + Height(lines[0]))
  }

  /** Without -B the lines that are written are the kept ones. */
  lemma {:induction false} OriginsKept(fo: FlushOptions, k: Counters, lines: seq<Line>, fs: seq<Flushed>, p: nat)
    requires |fs| <= |lines| && !fo.complement && !fo.compblank
    ensures Origins(fo, k, lines, fs, p) == KeptNumbered(lines, fs, p)
    decreases |fs|
  {
    if fs != [] {
      OriginsKept(fo, Counted(fo, k, fs[0]), lines[1..], fs[1..], p + Height(lines[0]));
    }
  }

  /** What the output is behind the source: `lost` lines are missing in it, and the
      processor has counted `lag` lines too few. */
  datatype Drift = Drift(lost: int, lag: nat)

  function Drifted(fo: FlushOptions, k: Counters, d: Drift, line: Line, f: Flushed): Drift {
    var lost :=
      if Writes(fo, k, f) then Height(line) - Height(f.line)
      else d.lost + Height(line) - |ToOutput(fo, k, f, 0)|;
    Drift(lost, d.lag + Height(line) - 1)
  }

  /** The line gets another number than it had: lines are missing in front of it,
      and there is no mark, or it is part of a comment and makes up for one line by
      being one, or it says the number that the processor has counted to. */
  predicate Misled(fo: FlushOptions, k: Counters, f: Flushed, open: bool, d: Drift) {
    if Marked(fo, k, f) && !fo.tofile then if open then d.lost != 1 else d.lag != 0 else d.lost != 0
  }

  /** This is so for one of the lines that are written. */
  predicate SomeMisled(fo: FlushOptions, k: Counters, open: bool, lines: seq<Line>, fs: seq<Flushed>, d: Drift)
    requires |fs| <= |lines|
    decreases |fs|
  {
    fs != [] &&
    var k', d' := Counted(fo, k, fs[0]), Drifted(fo, k, d, lines[0], fs[0]);
    if Writes(fo, k, fs[0]) then
      Misled(fo, k, fs[0], open, d) || SomeMisled(fo, k', AfterLine(open, fs[0].line), lines[1..], fs[1..], d')
    else SomeMisled(fo, k', open, lines[1..], fs[1..], d')
  }

  function NumberGiven(fo: FlushOptions, k: Counters, f: Flushed, n: nat, next: nat, open: bool): nat {
    if Marked(fo, k, f) && !fo.tofile then if open then next + 1 else n else next
  }

  lemma {:induction false} NumberedWritten(fo: FlushOptions, k: Counters, f: Flushed, n: nat, next: nat, open: bool,
                                           rest: seq<Item>)
    requires Writes(fo, k, f)
    ensures var number := NumberGiven(fo, k, f, n, next, open);
            Numbered(ToOutput(fo, k, f, n) + rest, next, open)
            == [Located(f.line, number)] + Numbered(rest, number + Height(f.line), AfterLine(open, f.line))
  {
    if Marked(fo, k, f) && !fo.tofile {
      NumberedCons(Written(f.line), rest, if open then next + 1 else n, open);
      NumberedCons(LineMark(n), [Written(f.line)] + rest, next, open);
      assert [LineMark(n), Written(f.line)] + rest == [LineMark(n)] + ([Written(f.line)] + rest);
    } else {
      NumberedCons(Written(f.line), rest, next, open);
    }
  }

  lemma {:induction false} NumberedUnwritten(fo: FlushOptions, k: Counters, f: Flushed, n: nat, next: nat, open: bool,
                                             rest: seq<Item>)
    requires !Writes(fo, k, f)
    ensures Numbered(ToOutput(fo, k, f, n) + rest, next, open)
         == Numbered(rest, next + |ToOutput(fo, k, f, 0)|, open)
  {
    if f.keep == fo.complement && fo.lnblank {
      NumberedCons(BlankLine, rest, next, open);
    } else {
      assert ToOutput(fo, k, f, n) + rest == rest;
    }
  }

  lemma {:induction false} ConsSame(a: Located, b: Located, x: seq<Located>, y: seq<Located>)
    ensures [a] + x == [b] + y <==> a == b && x == y
  {
    if [a] + x == [b] + y {
      assert ([a] + x)[0] == ([b] + y)[0];
      assert ([a] + x)[1..] == x && ([b] + y)[1..] == y;
    }
  }

  /** A compiler gives every line of the output file the number that it had.  Line
      `n` of the processor's count is line `p` of the source, and the next one in
      the output is line `next`. */
  predicate NumbersKept(fo: FlushOptions, k: Counters, open: bool, lines: seq<Line>, fs: seq<Flushed>, n: nat, p: nat,
                        next: nat)
    requires |fs| <= |lines|
  {
    Numbered(OutputFile(fo, k, fs, n), next, open) == Origins(fo, k, lines, fs, p)
  }

  /** The line gets its number, and so do the lines behind it. */
  lemma {:induction false} WrittenKept(fo: FlushOptions, k: Counters, open: bool, lines: seq<Line>, fs: seq<Flushed>,
                                       n: nat, p: nat, next: nat)
    requires 0 < |fs| <= |lines| && n <= p && Writes(fo, k, fs[0])
    ensures NumbersKept(fo, k, open, lines, fs, n, p, next)
       <==> && !Misled(fo, k, fs[0], open, Drift(p - next, p - n))
            && NumbersKept(fo, Counted(fo, k, fs[0]), AfterLine(open, fs[0].line), lines[1..], fs[1..], n + 1,
                           p + Height(lines[0]), p + Height(fs[0].line))
  {
    var f, k' := fs[0], Counted(fo, k, fs[0]);
    var rest, number := OutputFile(fo, k', fs[1..], n + 1), NumberGiven(fo, k, f, n, next, open);
    NumberedWritten(fo, k, f, n, next, open, rest);
    ConsSame(Located(f.line, number), Located(f.line, p),
             Numbered(rest, number + Height(f.line), AfterLine(open, f.line)),
             Origins(fo, k', lines[1..], fs[1..], p + Height(lines[0])));
  }

  lemma {:induction false} UnwrittenKept(fo: FlushOptions, k: Counters, open: bool, lines: seq<Line>,
                                         fs: seq<Flushed>, n: nat, p: nat, next: nat)
    requires 0 < |fs| <= |lines| && !Writes(fo, k, fs[0])
    ensures NumbersKept(fo, k, open, lines, fs, n, p, next)
       <==> NumbersKept(fo, Counted(fo, k, fs[0]), open, lines[1..], fs[1..], n + 1, p + Height(lines[0]),
                        next + |ToOutput(fo, k, fs[0], 0)|)
  {
    NumberedUnwritten(fo, k, fs[0], n, next, open, OutputFile(fo, Counted(fo, k, fs[0]), fs[1..], n + 1));
    assert Origins(fo, k, lines, fs, p)
        == Origins(fo, Counted(fo, k, fs[0]), lines[1..], fs[1..], p + Height(lines[0]));
  }

  /** The number that comes next behind a line that gets its own number, if it is
      written. */
  function NextNumber(fo: FlushOptions, k: Counters, f: Flushed, p: nat, next: nat): nat {
    if Writes(fo, k, f) then p + Height(f.line) else next + |ToOutput(fo, k, f, 0)|
  }

  function NextOpen(fo: FlushOptions, k: Counters, f: Flushed, open: bool): bool {
    if Writes(fo, k, f) then AfterLine(open, f.line) else open
  }

  /** One line is misled, or one of the lines behind it. */
  lemma {:induction false} SomeMisledUnfold(fo: FlushOptions, k: Counters, open: bool, lines: seq<Line>,
                                            fs: seq<Flushed>, n: nat, p: nat, next: nat)
    requires 0 < |fs| <= |lines| && n <= p
    ensures var f, d := fs[0], Drift(p - next, p - n);
            var p', next' := p + Height(lines[0]), NextNumber(fo, k, fs[0], p, next);
            SomeMisled(fo, k, open, lines, fs, d) <==>
            || (Writes(fo, k, f) && Misled(fo, k, f, open, d))
            || SomeMisled(fo, Counted(fo, k, f), NextOpen(fo, k, f, open), lines[1..], fs[1..],
                          Drift(p' - next', p' - (n + 1)))
  {
    var p', next' := p + Height(lines[0]), NextNumber(fo, k, fs[0], p, next);
    assert Drifted(fo, k, Drift(p - next, p - n), lines[0], fs[0]) == Drift(p' - next', p' - (n + 1));
  }

  lemma {:induction false} NumbersKeptUnfold(fo: FlushOptions, k: Counters, open: bool, lines: seq<Line>,
                                             fs: seq<Flushed>, n: nat, p: nat, next: nat)
    requires 0 < |fs| <= |lines| && n <= p
    ensures var f := fs[0];
            NumbersKept(fo, k, open, lines, fs, n, p, next) <==>
            && !(Writes(fo, k, f) && Misled(fo, k, f, open, Drift(p - next, p - n)))
            && NumbersKept(fo, Counted(fo, k, f), NextOpen(fo, k, f, open), lines[1..], fs[1..], n + 1,
                           p + Height(lines[0]), NextNumber(fo, k, f, p, next))
  {
    if Writes(fo, k, fs[0]) {
      WrittenKept(fo, k, open, lines, fs, n, p, next);
    } else {
      UnwrittenKept(fo, k, open, lines, fs, n, p, next);
    }
  }

  predicate KeptIff(fo: FlushOptions, k: Counters, open: bool, lines: seq<Line>, fs: seq<Flushed>, n: nat, p: nat,
                    next: nat)
    requires |fs| <= |lines| && n <= p
  {
    NumbersKept(fo, k, open, lines, fs, n, p, next) <==> !SomeMisled(fo, k, open, lines, fs, Drift(p - next, p - n))
  }

  lemma {:induction false} KeptIffStep(fo: FlushOptions, k: Counters, open: bool, lines: seq<Line>, fs: seq<Flushed>,
                                       n: nat, p: nat, next: nat)
    requires 0 < |fs| <= |lines| && n <= p
    requires KeptIff(fo, Counted(fo, k, fs[0]), NextOpen(fo, k, fs[0], open), lines[1..], fs[1..], n + 1,
                     p + Height(lines[0]), NextNumber(fo, k, fs[0], p, next))
    ensures KeptIff(fo, k, open, lines, fs, n, p, next)
  {
    SomeMisledUnfold(fo, k, open, lines, fs, n, p, next);
    NumbersKeptUnfold(fo, k, open, lines, fs, n, p, next);
  }

  lemma {:induction false} EveryKeptIff(fo: FlushOptions, k: Counters, open: bool, lines: seq<Line>, fs: seq<Flushed>,
                                        n: nat, p: nat, next: nat)
    requires |fs| <= |lines| && n <= p
    ensures KeptIff(fo, k, open, lines, fs, n, p, next)
    decreases |fs|
  {
    if fs != [] {
      EveryKeptIff(fo, Counted(fo, k, fs[0]), NextOpen(fo, k, fs[0], open), lines[1..], fs[1..], n + 1,
                   p + Height(lines[0]), NextNumber(fo, k, fs[0], p, next));
      KeptIffStep(fo, k, open, lines, fs, n, p, next);
    }
  }

  /** Exactly when this is so, for all options. */
  lemma {:induction false} NumbersKeptIff(fo: FlushOptions, k: Counters, open: bool, lines: seq<Line>,
                                          fs: seq<Flushed>, n: nat, p: nat, next: nat)
    requires |fs| <= |lines| && n <= p
    ensures NumbersKept(fo, k, open, lines, fs, n, p, next)
       <==> !SomeMisled(fo, k, open, lines, fs, Drift(p - next, p - n))
  {
    EveryKeptIff(fo, k, open, lines, fs, n, p, next);
  }

  /** A line that is left out is followed by one that is written. */
  predicate GapFollowed(fo: FlushOptions, k: Counters, fs: seq<Flushed>)
    decreases |fs|
  {
    fs != [] &&
    ((Writes(fo, k, fs[0]) && k.delcount > 0) || GapFollowed(fo, Counted(fo, k, fs[0]), fs[1..]))
  }

  /** Inside of a comment nothing has been left out since the last line that is
      not blank, so that -B does not leave out anything either. */
  predicate Caught(k: Counters, open: bool) {
    open ==> k.delcount == 0 && k.blankcount == k.blankmax
  }

  predicate NoneContinued(lines: seq<Line>) {
    forall line :: line in lines ==> line.more.None?
  }

  /** No edit lengthens a line. */
  lemma {:induction false} StepHeight(m: Machine, line: Line, opts: Options)
    requires WellShaped(m) && line.more.None?
    ensures var r := Step(m, line, opts); r.Go? ==> r.line.more.None?
  {
    TransitionSafe(m, Classify(line, opts));
  }

  /** Without continued directives nothing but left-out lines is missing. */
  function PlainDrift(fo: FlushOptions, k: Counters): Drift {
    Drift(if fo.lnblank then 0 else k.delcount, 0)
  }

  predicate MarksOff(fo: FlushOptions) {
    !fo.lnblank && (!fo.lnnum || fo.tofile)
  }

  lemma {:induction false} PlainDrifted(fo: FlushOptions, k: Counters, open: bool, line: Line, f: Flushed)
    requires line.more.None? && f.line.more.None? && !(fo.compblank && fo.lnblank) && Caught(k, open)
    ensures Drifted(fo, k, PlainDrift(fo, k), line, f) == PlainDrift(fo, Counted(fo, k, f))
    ensures Writes(fo, k, f) ==> (Misled(fo, k, f, open, PlainDrift(fo, k)) <==> MarksOff(fo) && k.delcount > 0)
  {}

  lemma {:induction false} SomeMisledCons(fo: FlushOptions, k: Counters, open: bool, lines: seq<Line>, f: Flushed,
                                          rest: seq<Flushed>, d: Drift)
    requires lines != [] && |rest| < |lines|
    ensures var k', d' := Counted(fo, k, f), Drifted(fo, k, d, lines[0], f);
            var open' := if Writes(fo, k, f) then AfterLine(open, f.line) else open;
            && (SomeMisled(fo, k, open, lines, [f] + rest, d) <==>
                (Writes(fo, k, f) && Misled(fo, k, f, open, d)) || SomeMisled(fo, k', open', lines[1..], rest, d'))
            && (GapFollowed(fo, k, [f] + rest) <==>
                (Writes(fo, k, f) && k.delcount > 0) || GapFollowed(fo, k', rest))
  {
    assert ([f] + rest)[1..] == rest;
  }

  /** What one step does to the counters. */
  lemma {:induction false} CaughtStep(m: Machine, open: bool, line: Line, stray: bool, r: Outcome, fo: FlushOptions,
                                      k: Counters)
    requires r.Go? && r.m.states != [] && CommentStep(m, open, line, stray, r)
    requires !fo.complement && Caught(k, open)
    ensures var f := Flushed(r.line, r.keep);
            var open' := if Writes(fo, k, f) then AfterLine(open, f.line) else open;
            Caught(Counted(fo, k, f), open') && InSync(r.m, open')
  {}

  /** No line is written inside of a comment right behind one that is left out,
      so that every mark on the standard output counts. */
  lemma {:induction false} MarksCount(m: Machine, open: bool, lines: seq<Line>, opts: Options, fo: FlushOptions,
                                      k: Counters)
    requires WellShaped(m) && ParentsPrint(m) && InSync(m, open) && Threaded(m.incomment, lines)
    requires NoneContinued(lines) && !fo.complement && !(fo.compblank && fo.lnblank) && Caught(k, open)
    ensures |Run(m, lines, opts).flushed| <= |lines|
    ensures SomeMisled(fo, k, open, lines, Run(m, lines, opts).flushed, PlainDrift(fo, k))
       <==> MarksOff(fo) && GapFollowed(fo, k, Run(m, lines, opts).flushed)
    decreases |lines|
  {
    if lines != [] {
      LineKeeps(m, open, lines[0], opts);
      StepHeight(Scanned(m, lines[0]), lines[0], opts);
      RunUnfold(m, lines, opts);
      var r := Step(Scanned(m, lines[0]), lines[0], opts);
      if r.Go? {
        var f := Flushed(r.line, r.keep);
        var open' := if Writes(fo, k, f) then AfterLine(open, f.line) else open;
        CaughtStep(m, open, lines[0], StrayElif(m, lines[0], opts), r, fo, k);
        MarksCount(r.m, open', lines[1..], opts, fo, Counted(fo, k, f));
        PlainDrifted(fo, k, open, lines[0], f);
        SomeMisledCons(fo, k, open, lines, f, Run(r.m, lines[1..], opts).flushed, PlainDrift(fo, k));
      }
    }
  }

  /** From a machine and counters that start a file. */
  lemma {:induction false} NumbersFrom(m: Machine, lines: seq<Line>, opts: Options, fo: FlushOptions, k: Counters,
                                       n: nat)
    requires WellShaped(m) && ParentsPrint(m) && InSync(m, false) && Threaded(m.incomment, lines)
    requires NoneContinued(lines) && !fo.complement && !(fo.compblank && fo.lnblank) && k.delcount == 0
    ensures |Run(m, lines, opts).flushed| <= |lines|
    ensures var fs := Run(m, lines, opts).flushed;
            NumbersKept(fo, k, false, lines, fs, n, n, n) <==>
            fo.lnblank || (fo.lnnum && !fo.tofile) || !GapFollowed(fo, k, fs)
  {
    MarksCount(m, false, lines, opts, fo, k);
    NumbersKeptIff(fo, k, false, lines, Run(m, lines, opts).flushed, n, n, n);
  }

  /** Short of -c, and without continued directives, a compiler gives every line of
      the output file the number it had if and only if deleted lines are made blank,
      or there are marks and the output is the standard output, where they go, or no
      line that is left out is followed by one that is written. */
  lemma {:induction false} LineNumbersKeptIff(lines: seq<Line>, opts: Options, fo: FlushOptions)
    requires Threaded(false, lines) && NoneContinued(lines) && !fo.complement && !(fo.compblank && fo.lnblank)
    ensures |Run(START, lines, opts).flushed| <= |lines|
    ensures var fs := Run(START, lines, opts).flushed;
            NumbersKept(fo, INITIAL, false, lines, fs, 1, 1, 1) <==>
            fo.lnblank || (fo.lnnum && !fo.tofile) || !GapFollowed(fo, INITIAL, fs)
    ensures !fo.compblank ==>
              var fs := Run(START, lines, opts).flushed;
              Origins(fo, INITIAL, lines, fs, 1) == KeptNumbered(lines, fs, 1)
  {
    NumbersFrom(START, lines, opts, fo, INITIAL, 1);
    if !fo.compblank {
      OriginsKept(fo, INITIAL, lines, Run(START, lines, opts).flushed, 1);
    }
  }

  /** With -n and -o the mark is printed elsewhere: the kept line behind a deleted
      one is number 1 of the file, and was number 2. */
  lemma {:induction false} MarkElsewhere(fo: FlushOptions, deleted: Line, kept: Line)
    requires fo == FlushOptions(false, false, false, true, true) && deleted.more.None?
    ensures var lines, fs := [deleted, kept], [Flushed(deleted, false), Flushed(kept, true)];
            && OutputFile(fo, INITIAL, fs, 1) == [Written(kept)]
            && Printed(fo, INITIAL, fs, 1) == [LineMark(2)]
            && Numbered(OutputFile(fo, INITIAL, fs, 1), 1, false) == [Located(kept, 1)]
            && KeptNumbered(lines, fs, 1) == [Located(kept, 2)]
  {
    var lines, fs := [deleted, kept], [Flushed(deleted, false), Flushed(kept, true)];
    var k := Counters(1, 0, 1000);
    assert fs[1..] == [fs[1]] && fs[1..][1..] == [] && lines[1..] == [kept];
    assert OutputFile(fo, k, fs[1..], 2) == [Written(kept)] && Printed(fo, k, fs[1..], 2) == [LineMark(2)];
    assert Numbered([Written(kept)], 1, false) == [Located(kept, 1)];
    assert KeptNumbered(lines[1..], fs[1..], 2) == [Located(kept, 2)];
  }

  /** With -n a directive that was continued makes every mark behind it one too low:
      the line behind a deleted one is said to be number 3, and was number 4. */
  lemma {:induction false} MarkTooLow(fo: FlushOptions, continued: Line, deleted: Line, kept: Line)
    requires fo == FlushOptions(false, false, false, true, false)
    requires continued.more.Some? && !continued.text.Ordinary? && !continued.after && deleted.more.None?
    ensures var lines := [continued, deleted, kept];
            var fs := [Flushed(continued, true), Flushed(deleted, false), Flushed(kept, true)];
            && OutputFile(fo, INITIAL, fs, 1) == [Written(continued), LineMark(3), Written(kept)]
            && Numbered(OutputFile(fo, INITIAL, fs, 1), 1, false) == [Located(continued, 1), Located(kept, 3)]
            && KeptNumbered(lines, fs, 1) == [Located(continued, 1), Located(kept, 4)]
  {
    var lines := [continued, deleted, kept];
    var fs := [Flushed(continued, true), Flushed(deleted, false), Flushed(kept, true)];
    var k := Counters(0, 0, 0);
    assert fs[1..] == [fs[1], fs[2]] && lines[1..] == [deleted, kept];
    assert [fs[1], fs[2]][1..] == [fs[2]] && [deleted, kept][1..] == [kept] && [fs[2]][1..] == [];
    assert OutputFile(fo, Counters(1, 0, 0), [fs[2]], 3) == [LineMark(3), Written(kept)];
    assert OutputFile(fo, k, [fs[1], fs[2]], 2) == [LineMark(3), Written(kept)];
    assert KeptNumbered([kept], [fs[2]], 4) == [Located(kept, 4)];
    assert KeptNumbered([deleted, kept], [fs[1], fs[2]], 3) == [Located(kept, 4)];
    NumberedCons(Written(kept), [], 3, false);
    NumberedCons(LineMark(3), [Written(kept)], 3, false);
    NumberedCons(Written(continued), [LineMark(3), Written(kept)], 1, false);
  }
}
