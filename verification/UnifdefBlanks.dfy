/** What -B does to blank lines.

    Between two lines that are not blank, some blank lines are kept and some lines are
    deleted.  With -B as many blank lines are written there as are kept in the longest
    run between deletions, so that what is deleted does not add up the blank lines
    around it.
  */
module UnifdefBlanks {
  import opened UnifdefTable
  import opened UnifdefMeaning
  import opened UnifdefOutput

  predicate Kept(fo: FlushOptions, f: Flushed) { f.keep != fo.complement }

  /** What is kept of these lines is blank. */
  predicate OnlyBlanks(fo: FlushOptions, fs: seq<Flushed>) {
    forall i :: 0 <= i < |fs| && Kept(fo, fs[i]) ==> IsBlank(fs[i].line.text)
  }

  function Max(a: nat, b: nat): nat { if a > b then a else b }

  /** The longest run of kept lines without a deleted one in it, where `run` come
      before. */
  function Longest(fo: FlushOptions, fs: seq<Flushed>, run: nat): nat {
    if fs == [] then run
    else if Kept(fo, fs[0]) then Longest(fo, fs[1..], run + 1)
    else Max(run, Longest(fo, fs[1..], 0))
  }

  lemma {:induction false} LongestAtLeast(fo: FlushOptions, fs: seq<Flushed>, run: nat)
    ensures Longest(fo, fs, run) >= run
  {
    if fs != [] && Kept(fo, fs[0]) { LongestAtLeast(fo, fs[1..], run + 1); }
  }

  /** As many blank lines are written as the longest run exceeds what has been
      written. */
  lemma {:induction false} BlanksWritten(fo: FlushOptions, k: Counters, fs: seq<Flushed>, n: nat)
    requires fo.compblank && !fo.lnblank && OnlyBlanks(fo, fs) && k.blankcount <= k.blankmax
    ensures |LinesOf(OutputFile(fo, k, fs, n))| == Max(k.blankmax, Longest(fo, fs, k.blankcount)) - k.blankmax
    ensures forall line :: line in LinesOf(OutputFile(fo, k, fs, n)) ==> IsBlank(line.text)
    decreases |fs|
  {
    if fs != [] {
      var k' := Counted(fo, k, fs[0]);
      BlanksWritten(fo, k', fs[1..], n + 1);
      LinesOfLine(fo, k, fs[0], n, OutputFile(fo, k', fs[1..], n + 1));
      LongestAtLeast(fo, fs[1..], k'.blankcount);
    }
  }

  /** Behind a line that is not blank the longest run is written, ... */
  lemma {:induction false} LongestRunWritten(fo: FlushOptions, k: Counters, f: Flushed, gap: seq<Flushed>, n: nat)
    requires fo.compblank && !fo.lnblank && Kept(fo, f) && !IsBlank(f.line.text) && OnlyBlanks(fo, gap)
    ensures var out := LinesOf(OutputFile(fo, k, [f] + gap, n));
            && |out| == 1 + Longest(fo, gap, 0) && out[0] == f.line
            && forall line :: line in out[1..] ==> IsBlank(line.text)
  {
    var k' := Counted(fo, k, f);
    assert ([f] + gap)[1..] == gap;
    BlanksWritten(fo, k', gap, n + 1);
    LinesOfLine(fo, k, f, n, OutputFile(fo, k', gap, n + 1));
    var rest := LinesOf(OutputFile(fo, k', gap, n + 1));
    assert ([f.line] + rest)[1..] == rest;
  }

  /** ... and at the beginning of the file what is kept before the first deletion,
      unless a run behind it is by a thousand lines longer. */
  lemma {:induction false} FirstRunWritten(fo: FlushOptions, fs: seq<Flushed>)
    requires fo.compblank && !fo.lnblank && OnlyBlanks(fo, fs)
    ensures |LinesOf(OutputFile(fo, INITIAL, fs, 1))| == Longest(fo, fs, 1000) - 1000
  {
    LongestAtLeast(fo, fs, 1000);
    BlanksWritten(fo, INITIAL, fs, 1);
  }

  /** Without -B all that is kept is written. */
  lemma {:induction false} AllBlanksWritten(fo: FlushOptions, k: Counters, fs: seq<Flushed>, n: nat)
    requires !fo.compblank && !fo.lnblank
    ensures LinesOf(OutputFile(fo, k, fs, n)) == KeptOf(fo, fs)
    decreases |fs|
  {
    if fs != [] {
      AllBlanksWritten(fo, Counted(fo, k, fs[0]), fs[1..], n + 1);
      LinesOfLine(fo, k, fs[0], n, OutputFile(fo, Counted(fo, k, fs[0]), fs[1..], n + 1));
    }
  }

  function KeptOf(fo: FlushOptions, fs: seq<Flushed>): seq<Line> {
    if fs == [] then [] else if Kept(fo, fs[0]) then [fs[0].line] + KeptOf(fo, fs[1..]) else KeptOf(fo, fs[1..])
  }
}
