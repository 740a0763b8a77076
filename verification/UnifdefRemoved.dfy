/** What a run removes.

    The conditions without a verdict may be true or false, each of them on its own.
    `KeptExactly` says that a finished run keeps exactly the lines that some such
    choice selects, and no directive whose condition has a verdict: nothing that the
    command line decides is left.
  */
module UnifdefRemoved {
  import opened Wrappers
  import opened UnifdefTable
  import opened UnifdefMeaning

  // ------------------------------------------------------------------- choices

  /** The truth value that the verdict on a line gives its condition, or the chosen
      one if there is no verdict. */
  predicate Decide(line: Line, opts: Options, choice: bool) {
    var lt := Classify(line, opts);
    if lt.Dir? && lt.d in {TrueI, TrueIf, TrueElif} then true
    else if lt.Dir? && lt.d in {FalseI, FalseIf, FalseElif} then false
    else choice
  }

  predicate NoVerdict(line: Line, opts: Options) {
    Classify(line, opts).Dir? && Classify(line, opts).d in {UnknownIf, UnknownElif}
  }

  function Next(gs: seq<Group>, line: Line, opts: Options, choice: bool): Option<seq<Group>> {
    AdvanceBy(gs, line.text, Decide(line, opts, choice))
  }

  /** The groups open behind some lines, when the conditions are chosen. */
  function Chosen(gs: seq<Group>, lines: seq<Line>, opts: Options, choices: seq<bool>): Option<seq<Group>>
    requires |choices| == |lines|
    decreases |lines|
  {
    if lines == [] then Some(gs)
    else
      match Next(gs, lines[0], opts, choices[0])
      case None => None
      case Some(gs') => Chosen(gs', lines[1..], opts, choices[1..])
  }

  /** Some choice includes the line behind `before`. */
  ghost predicate Selectable(before: seq<Line>, opts: Options) {
    exists choices: seq<bool> :: |choices| == |before| && Includes(Chosen([], before, opts, choices))
  }

  predicate Includes(gs: Option<seq<Group>>) {
    gs.Some? && Included(gs.value)
  }

  /** The condition of a directive in this place is looked at. */
  predicate Asks(gs: Option<seq<Group>>, t: Text) {
    && gs.Some?
    && match t
       case If(_) | Ifdef(_, _) => Included(gs.value)
       case Elif(_) => InBranches(gs.value) && gs.value[|gs.value| - 1].outer && !gs.value[|gs.value| - 1].taken
       case _ => false
  }

  /** Some choice makes the preprocessor look at it. */
  ghost predicate Askable(before: seq<Line>, t: Text, opts: Options) {
    exists choices: seq<bool> :: |choices| == |before| && Asks(Chosen([], before, opts, choices), t)
  }

  // ------------------------------------------------------- all choices together

  /** The groups that may be open behind one line more. */
  function Image(all: set<seq<Group>>, line: Line, opts: Options): (r: set<seq<Group>>)
    ensures forall gs, c :: gs in all && Next(gs, line, opts, c).Some? ==> Next(gs, line, opts, c).value in r
    ensures forall g :: g in r ==> exists gs, c :: gs in all && Next(gs, line, opts, c) == Some(g)
  {
    set gs, c | gs in all && c in {true, false} && Next(gs, line, opts, c).Some? :: Next(gs, line, opts, c).value
  }

  function Images(all: set<seq<Group>>, lines: seq<Line>, opts: Options): set<seq<Group>>
    decreases |lines|
  {
    if lines == [] then all else Images(Image(all, lines[0], opts), lines[1..], opts)
  }

  ghost predicate Reached(all: set<seq<Group>>, lines: seq<Line>, opts: Options, g: seq<Group>) {
    exists gs, choices: seq<bool> ::
      gs in all && |choices| == |lines| && Chosen(gs, lines, opts, choices) == Some(g)
  }

  lemma {:induction false} ImagesChosen(all: set<seq<Group>>, lines: seq<Line>, opts: Options, g: seq<Group>)
    ensures g in Images(all, lines, opts) <==> Reached(all, lines, opts, g)
    decreases |lines|
  {
    if lines == [] {
      if g in all {
        assert Chosen(g, lines, opts, []) == Some(g);
      }
    } else {
      var next := Image(all, lines[0], opts);
      ImagesChosen(next, lines[1..], opts, g);
      if Reached(all, lines, opts, g) {
        var gs, cs: seq<bool> :| gs in all && |cs| == |lines| && Chosen(gs, lines, opts, cs) == Some(g);
        assert Next(gs, lines[0], opts, cs[0]).value in next;
        assert Chosen(Next(gs, lines[0], opts, cs[0]).value, lines[1..], opts, cs[1..]) == Some(g);
      }
      if Reached(next, lines[1..], opts, g) {
        var gs', cs: seq<bool> :|
          gs' in next && |cs| == |lines[1..]| && Chosen(gs', lines[1..], opts, cs) == Some(g);
        var gs, c :| gs in all && Next(gs, lines[0], opts, c) == Some(gs');
        assert ([c] + cs)[1..] == cs;
        assert Chosen(gs, lines, opts, [c] + cs) == Some(g);
      }
    }
  }

  // --------------------------------------------------- what a state stands for

  /** Every group is one that goes with its state. */
  predicate Fits(states: seq<Ifstate>, gs: seq<Group>) {
    && |states| == |gs| + 1 && states[0].Outside?
    && forall k :: 0 <= k < |gs| ==> gs[k].outer == Included(gs[..k]) && InputFits(states[k + 1], gs[k])
  }

  /** Behind groups in this state another branch may still be taken. */
  predicate Undecided(st: Ifstate) {
    st.FalsePrefix? || st.PassMiddle? || st.FalseMiddle?
  }

  /** The text at this level may be included. */
  ghost predicate MayInclude(all: set<seq<Group>>, k: nat) {
    exists gs: seq<Group> :: gs in all && k <= |gs| && Included(gs[..k])
  }

  /** The next branch of the group at this level may be looked at. */
  ghost predicate MayAsk(all: set<seq<Group>>, k: nat) {
    exists gs: seq<Group> :: gs in all && k < |gs| && gs[k].outer && !gs[k].taken
  }

  ghost predicate LevelFits(states: seq<Ifstate>, all: set<seq<Group>>, k: nat)
    requires k < |states|
  {
    && (Printing(states[k]) ==> MayInclude(all, k))
    && (k > 0 && Undecided(states[k]) ==> MayAsk(all, k - 1))
    && (k > 0 ==> Printing(states[k - 1]) || states[k] in {FalseTrailer, FalseElse})
  }

  ghost predicate Covers(states: seq<Ifstate>, all: set<seq<Group>>) {
    && states != [] && all != {}
    && (forall gs :: gs in all ==> Fits(states, gs))
    && forall k: nat :: k < |states| ==> LevelFits(states, all, k)
  }

  /** The state of a group whose condition has or has no verdict. */
  function Opened(st: Ifstate, known: Option<bool>): Ifstate {
    if !Printing(st) then FalseTrailer
    else
      match known
      case None => PassMiddle
      case Some(true) => TruePrefix
      case Some(false) => FalsePrefix
  }

  function AfterElif(st: Ifstate, known: Option<bool>): Ifstate {
    match st
    case FalsePrefix => Opened(Outside, known)
    case PassMiddle | FalseMiddle =>
      (match known
       case None => PassMiddle
       case Some(true) => TrueMiddle
       case Some(false) => FalseMiddle)
    case _ => FalseTrailer
  }

  function AfterElse(st: Ifstate): Ifstate {
    match st
    case FalsePrefix => TrueElse
    case PassMiddle | FalseMiddle => PassElse
    case _ => FalseElse
  }

  function KnownOf(d: Directive): Option<bool> {
    if d in {TrueI, TrueIf, TrueElif} then Some(true)
    else if d in {FalseI, FalseIf, FalseElif} then Some(false)
    else None
  }

  lemma OpeningExact(st: Ifstate, d: Directive)
    requires IfLike(d)
    ensures var a := CleanEntry(st, d);
            && OpensGroup(a) && Target(a) == Opened(st, KnownOf(d))
            && (Written(a, Endif).Some? <==> Printing(st) && KnownOf(d) == None)
  {}

  lemma ElifExact(st: Ifstate, d: Directive, t: Text)
    requires d in {UnknownElif, TrueElif, FalseElif} && t.Elif?
    ensures var a := CleanEntry(st, d);
            Fails(a) ||
            (&& ChangesGroup(a) && Target(a) == AfterElif(st, KnownOf(d))
             && (Written(a, t).Some? && !Written(a, t).value.Else? && !Written(a, t).value.Endif?
            <==> Undecided(st) && KnownOf(d) == None))
  {}

  lemma ElseExact(st: Ifstate)
    ensures var a := CleanEntry(st, ElseDir);
            Fails(a) ||
            (&& ChangesGroup(a) && Target(a) == AfterElse(st)
             && (Written(a, Else).Some? ==> Written(a, Else).value in {Else, Endif}))
  {}

  // ------------------------------------------------------------ one line more

  function Last<T>(s: seq<T>): T
    requires s != []
  {
    s[|s| - 1]
  }

  /** A directive that does not fail on one line. */
  predicate InPlace(states: seq<Ifstate>, t: Text) {
    match t
    case Elif(_) | Else => |states| >= 2 && !Last(states).Outside? && !ElseState(Last(states))
    case Endif => |states| >= 2
    case _ => states != []
  }

  function NextStates(states: seq<Ifstate>, line: Line, opts: Options): seq<Ifstate>
    requires InPlace(states, line.text)
  {
    var known := if Classify(line, opts).Dir? then KnownOf(Classify(line, opts).d) else None;
    match line.text
    case Ordinary(_) => states
    case If(_) | Ifdef(_, _) => states + [Opened(Last(states), known)]
    case Elif(_) => states[|states| - 1 := AfterElif(Last(states), known)]
    case Else => states[|states| - 1 := AfterElse(Last(states))]
    case Endif => states[..|states| - 1]
  }

  lemma {:induction false} IncludedWhere(states: seq<Ifstate>, gs: seq<Group>)
    requires Fits(states, gs) && !Printing(Last(states))
    ensures !Included(gs)
  {
    assert gs != [] ==> InputFits(states[|gs| - 1 + 1], gs[|gs| - 1]);
  }

  lemma {:induction false} OpenFits(states: seq<Ifstate>, gs: seq<Group>, st: Ifstate, h: bool)
    requires Fits(states, gs)
    requires st == if !Printing(Last(states)) then FalseTrailer else st
    requires st in {FalseTrailer, PassMiddle, TruePrefix, FalsePrefix}
    requires st == FalseTrailer ==> !Printing(Last(states))
    requires st == TruePrefix ==> h
    requires st == FalsePrefix ==> !h
    ensures Fits(states + [st], OpenGroup(gs, h))
  {
    var gs' := OpenGroup(gs, h);
    if !Printing(Last(states)) {
      IncludedWhere(states, gs);
    }
    forall k | 0 <= k < |gs'|
      ensures gs'[k].outer == Included(gs'[..k]) && InputFits((states + [st])[k + 1], gs'[k])
    {
      if k < |gs| {
        assert gs'[..k] == gs[..k] && InputFits(states[k + 1], gs[k]);
      } else {
        assert gs'[..k] == gs;
      }
    }
  }

  lemma {:induction false} ChangeFits(states: seq<Ifstate>, gs: seq<Group>, st: Ifstate, g: Group)
    requires Fits(states, gs) && gs != [] && g.outer == Last(gs).outer && InputFits(st, g)
    ensures Fits(states[|states| - 1 := st], gs[|gs| - 1 := g])
  {
    var gs', n := gs[|gs| - 1 := g], |gs| - 1;
    forall k | 0 <= k < |gs'|
      ensures gs'[k].outer == Included(gs'[..k]) && InputFits(states[|states| - 1 := st][k + 1], gs'[k])
    {
      assert gs'[..k] == gs[..k];
      assert k < n ==> InputFits(states[k + 1], gs[k]);
    }
  }

  lemma {:induction false} CloseFits(states: seq<Ifstate>, gs: seq<Group>)
    requires Fits(states, gs) && gs != []
    ensures Fits(states[..|states| - 1], gs[..|gs| - 1])
  {
    var gs' := gs[..|gs| - 1];
    forall k | 0 <= k < |gs'|
      ensures gs'[k].outer == Included(gs'[..k]) && InputFits(states[..|states| - 1][k + 1], gs'[k])
    {
      assert gs'[..k] == gs[..k] && InputFits(states[k + 1], gs[k]);
    }
  }

  lemma AfterElifFits(st: Ifstate, g: Group, known: Option<bool>, h: bool)
    requires InputFits(st, g) && !ElseState(st) && (known.Some? ==> h == known.value)
    ensures !g.inElse && InputFits(AfterElif(st, known), ElifGroup(g, h))
  {}

  lemma AfterElseFits(st: Ifstate, g: Group)
    requires InputFits(st, g) && !ElseState(st)
    ensures !g.inElse && InputFits(AfterElse(st), ElseGroup(g))
  {}

  lemma {:induction false} NextFits(states: seq<Ifstate>, gs: seq<Group>, line: Line, opts: Options, c: bool)
    requires Fits(states, gs) && InPlace(states, line.text)
    ensures var next := Next(gs, line, opts, c);
            next.Some? && Fits(NextStates(states, line, opts), next.value)
  {
    var h := Decide(line, opts, c);
    match line.text
    case Ordinary(_) =>
    case If(_) | Ifdef(_, _) =>
      OpenFits(states, gs, Opened(Last(states), KnownOf(Classify(line, opts).d)), h);
    case Elif(_) =>
      assert InputFits(states[|gs| - 1 + 1], gs[|gs| - 1]);
      var known := KnownOf(Classify(line, opts).d);
      AfterElifFits(Last(states), Last(gs), known, h);
      ChangeFits(states, gs, AfterElif(Last(states), known), ElifGroup(Last(gs), h));
    case Else =>
      assert InputFits(states[|gs| - 1 + 1], gs[|gs| - 1]);
      AfterElseFits(Last(states), Last(gs));
      ChangeFits(states, gs, AfterElse(Last(states)), ElseGroup(Last(gs)));
    case Endif =>
      CloseFits(states, gs);
  }

  // ------------------------------------------------- choices that lead somewhere

  /** How many of the levels a line leaves as they are. */
  function Untouched(states: seq<Ifstate>, t: Text): nat
    requires InPlace(states, t)
  {
    if t.Elif? || t.Else? || t.Endif? then |states| - 1 else |states|
  }

  /** A line changes no more than the last group. */
  lemma AdvancePrefix(gs: seq<Group>, t: Text, h: bool, n: nat)
    requires AdvanceBy(gs, t, h).Some? && n == if t.Elif? || t.Else? || t.Endif? then |gs| - 1 else |gs|
    ensures var next := AdvanceBy(gs, t, h).value; n <= |next| && next[..n] == gs[..n]
  {}

  lemma {:induction false} NextImage(states: seq<Ifstate>, all: set<seq<Group>>, gs: seq<Group>, line: Line,
                                     opts: Options, c: bool)
    requires Covers(states, all) && InPlace(states, line.text) && gs in all
    ensures var next := Next(gs, line, opts, c);
            && next.Some? && next.value in Image(all, line, opts)
            && |gs| + 1 == |states| && Untouched(states, line.text) - 1 <= |next.value|
            && next.value[..Untouched(states, line.text) - 1] == gs[..Untouched(states, line.text) - 1]
  {
    assert Fits(states, gs);
    NextFits(states, gs, line, opts, c);
    AdvancePrefix(gs, line.text, Decide(line, opts, c), Untouched(states, line.text) - 1);
  }

  lemma {:induction false} ShorterPrefix<T>(a: seq<T>, b: seq<T>, n: nat, k: nat)
    requires k <= n <= |a| && n <= |b| && a[..n] == b[..n]
    ensures a[..k] == b[..k]
  {
    assert a[..k] == a[..n][..k] && b[..k] == b[..n][..k];
  }

  lemma {:induction false} IncludeStays(states: seq<Ifstate>, all: set<seq<Group>>, line: Line, opts: Options, k: nat)
    requires Covers(states, all) && InPlace(states, line.text) && k < Untouched(states, line.text)
    requires MayInclude(all, k)
    ensures MayInclude(Image(all, line, opts), k)
  {
    var gs: seq<Group> :| gs in all && k <= |gs| && Included(gs[..k]);
    NextImage(states, all, gs, line, opts, true);
    ShorterPrefix(Next(gs, line, opts, true).value, gs, Untouched(states, line.text) - 1, k);
  }

  lemma {:induction false} AskStays(states: seq<Ifstate>, all: set<seq<Group>>, line: Line, opts: Options, k: nat)
    requires Covers(states, all) && InPlace(states, line.text) && k + 1 < Untouched(states, line.text)
    requires MayAsk(all, k)
    ensures MayAsk(Image(all, line, opts), k)
  {
    var gs: seq<Group> :| gs in all && k < |gs| && gs[k].outer && !gs[k].taken;
    NextImage(states, all, gs, line, opts, true);
    var gs', n := Next(gs, line, opts, true).value, Untouched(states, line.text) - 1;
    assert gs'[k] == gs'[..n][k] == gs[..n][k] == gs[k];
  }

  lemma StatesStay(states: seq<Ifstate>, line: Line, opts: Options, k: nat)
    requires InPlace(states, line.text) && k < Untouched(states, line.text)
    ensures var states' := NextStates(states, line, opts);
            k < |states'| && states'[k] == states[k] && (k > 0 ==> states'[k - 1] == states[k - 1])
  {}

  lemma LevelSame(states: seq<Ifstate>, states': seq<Ifstate>, all: set<seq<Group>>, all': set<seq<Group>>, k: nat)
    requires k < |states| && k < |states'| && states'[k] == states[k] && (k > 0 ==> states'[k - 1] == states[k - 1])
    requires LevelFits(states, all, k) && (Printing(states[k]) ==> MayInclude(all', k))
    requires k > 0 && Undecided(states[k]) ==> MayAsk(all', k - 1)
    ensures LevelFits(states', all', k)
  {}

  /** What may be is still possible. */
  lemma {:induction false} LevelIncludes(states: seq<Ifstate>, all: set<seq<Group>>, line: Line, opts: Options, k: nat)
    requires Covers(states, all) && InPlace(states, line.text) && k < Untouched(states, line.text) && k < |states|
    requires LevelFits(states, all, k)
    ensures Printing(states[k]) ==> MayInclude(Image(all, line, opts), k)
  {
    if Printing(states[k]) {
      IncludeStays(states, all, line, opts, k);
    }
  }

  lemma {:induction false} LevelAsks(states: seq<Ifstate>, all: set<seq<Group>>, line: Line, opts: Options, k: nat)
    requires Covers(states, all) && InPlace(states, line.text) && k < Untouched(states, line.text) && k < |states|
    requires LevelFits(states, all, k)
    ensures k > 0 && Undecided(states[k]) ==> MayAsk(Image(all, line, opts), k - 1)
  {
    if k > 0 && Undecided(states[k]) {
      AskStays(states, all, line, opts, k - 1);
    }
  }

  lemma {:induction false} LevelStays(states: seq<Ifstate>, all: set<seq<Group>>, all': set<seq<Group>>, line: Line,
                                      opts: Options, k: nat)
    requires InPlace(states, line.text) && k < Untouched(states, line.text) && k < |states|
    requires LevelFits(states, all, k) && (Printing(states[k]) ==> MayInclude(all', k))
    requires k > 0 && Undecided(states[k]) ==> MayAsk(all', k - 1)
    ensures k < |NextStates(states, line, opts)| && LevelFits(NextStates(states, line, opts), all', k)
  {
    StatesStay(states, line, opts, k);
    LevelSame(states, NextStates(states, line, opts), all, all', k);
  }

  /** Choosing true includes what the group begins with, and choosing false leaves the
      next branch open. */
  lemma {:induction false} GroupAsked(states: seq<Ifstate>, gs: seq<Group>, line: Line, opts: Options, c: bool)
    requires Fits(states, gs) && (line.text.If? || line.text.Ifdef?) && Printing(Last(states)) && Included(gs)
    ensures var next, st := Next(gs, line, opts, c), Last(NextStates(states, line, opts));
            && next.Some? && |next.value| == |gs| + 1
            && (c && Printing(st) ==> Included(next.value))
            && (!c && Undecided(st) ==> Last(next.value).outer && !Last(next.value).taken)
  {}

  lemma {:induction false} OpenedLevel(states: seq<Ifstate>, all: set<seq<Group>>, line: Line, opts: Options)
    requires Covers(states, all) && (line.text.If? || line.text.Ifdef?)
    ensures LevelFits(NextStates(states, line, opts), Image(all, line, opts), |states|)
  {
    var n := |states| - 1;
    assert LevelFits(states, all, n);
    if Printing(Last(states)) {
      var gs: seq<Group> :| gs in all && n <= |gs| && Included(gs[..n]);
      assert Fits(states, gs) && gs[..n] == gs;
      GroupAsked(states, gs, line, opts, true);
      GroupAsked(states, gs, line, opts, false);
      NextMay(all, Next(gs, line, opts, true).value, Next(gs, line, opts, false).value, line, opts, n + 1);
    }
  }

  /** Choosing true takes the next branch, and choosing false leaves it. */
  lemma {:induction false} BranchAsked(states: seq<Ifstate>, gs: seq<Group>, line: Line, opts: Options, c: bool)
    requires Fits(states, gs) && InPlace(states, line.text) && (line.text.Elif? || line.text.Else?)
    requires Undecided(Last(states)) && Last(gs).outer && !Last(gs).taken
    ensures var next, st := Next(gs, line, opts, c), Last(NextStates(states, line, opts));
            && next.Some? && |next.value| == |gs|
            && (c && Printing(st) ==> Included(next.value))
            && (!c && Undecided(st) ==> Last(next.value).outer && !Last(next.value).taken)
  {
    NextFits(states, gs, line, opts, c);
  }

  lemma {:induction false} ChangedLevel(states: seq<Ifstate>, all: set<seq<Group>>, line: Line, opts: Options)
    requires Covers(states, all) && InPlace(states, line.text) && (line.text.Elif? || line.text.Else?)
    ensures LevelFits(NextStates(states, line, opts), Image(all, line, opts), |states| - 1)
  {
    var n := |states| - 1;
    assert LevelFits(states, all, n);
    if Undecided(Last(states)) {
      var gs: seq<Group> :| gs in all && n - 1 < |gs| && gs[n - 1].outer && !gs[n - 1].taken;
      assert Fits(states, gs);
      BranchAsked(states, gs, line, opts, true);
      BranchAsked(states, gs, line, opts, false);
      NextMay(all, Next(gs, line, opts, true).value, Next(gs, line, opts, false).value, line, opts, n);
    }
  }

  /** What these two choices lead to. */
  lemma {:induction false} NextMay(all: set<seq<Group>>, yes: seq<Group>, no: seq<Group>, line: Line, opts: Options,
                                   n: nat)
    requires yes in Image(all, line, opts) && no in Image(all, line, opts) && |yes| == |no| == n > 0
    ensures Included(yes) ==> MayInclude(Image(all, line, opts), n)
    ensures Last(no).outer && !Last(no).taken ==> MayAsk(Image(all, line, opts), n - 1)
  {
    assert yes[..n] == yes && Last(no) == no[n - 1];
  }

  lemma {:induction false} ImageFits(states: seq<Ifstate>, all: set<seq<Group>>, line: Line, opts: Options,
                                     g: seq<Group>)
    requires Covers(states, all) && InPlace(states, line.text) && g in Image(all, line, opts)
    ensures Fits(NextStates(states, line, opts), g)
  {
    var gs, c :| gs in all && Next(gs, line, opts, c) == Some(g);
    NextFits(states, gs, line, opts, c);
  }

  lemma {:induction false} LevelNext(states: seq<Ifstate>, all: set<seq<Group>>, line: Line, opts: Options, k: nat)
    requires Covers(states, all) && InPlace(states, line.text) && k < |NextStates(states, line, opts)|
    ensures LevelFits(NextStates(states, line, opts), Image(all, line, opts), k)
  {
    if k < Untouched(states, line.text) {
      assert LevelFits(states, all, k);
      LevelIncludes(states, all, line, opts, k);
      LevelAsks(states, all, line, opts, k);
      LevelStays(states, all, Image(all, line, opts), line, opts, k);
    } else if line.text.If? || line.text.Ifdef? {
      OpenedLevel(states, all, line, opts);
    } else {
      ChangedLevel(states, all, line, opts);
    }
  }

  lemma {:induction false} ImageNotEmpty(states: seq<Ifstate>, all: set<seq<Group>>, line: Line, opts: Options)
    requires Covers(states, all) && InPlace(states, line.text)
    ensures Image(all, line, opts) != {} && NextStates(states, line, opts) != []
  {
    var some :| some in all;
    NextImage(states, all, some, line, opts, true);
  }

  lemma {:induction false} CoversNext(states: seq<Ifstate>, all: set<seq<Group>>, line: Line, opts: Options)
    requires Covers(states, all) && InPlace(states, line.text)
    ensures Covers(NextStates(states, line, opts), Image(all, line, opts))
  {
    ImageNotEmpty(states, all, line, opts);
    forall g | g in Image(all, line, opts) ensures Fits(NextStates(states, line, opts), g) {
      ImageFits(states, all, line, opts, g);
    }
    forall k: nat | k < |NextStates(states, line, opts)|
      ensures LevelFits(NextStates(states, line, opts), Image(all, line, opts), k)
    {
      LevelNext(states, all, line, opts, k);
    }
  }

  // --------------------------------------------------------------- the machine

  /** The line is written, as a directive with a condition. */
  predicate KeepsCondition(f: Flushed) {
    f.keep && (f.line.text.If? || f.line.text.Ifdef? || f.line.text.Elif?)
  }

  predicate OnOneLine(line: Line) {
    line.text.Ordinary? || !Dodgy(line)
  }

  /** What one line does, by its state. */
  predicate StepKeeps(states: seq<Ifstate>, line: Line, opts: Options, f: Flushed)
    requires states != []
  {
    match line.text
    case Ordinary(_) => f.keep <==> Printing(Last(states))
    case If(_) | Ifdef(_, _) => KeepsCondition(f) <==> Printing(Last(states)) && NoVerdict(line, opts)
    case Elif(_) => KeepsCondition(f) <==> Undecided(Last(states)) && NoVerdict(line, opts)
    case _ => !KeepsCondition(f)
  }

  predicate StepIsExact(m: Machine, line: Line, opts: Options)
    requires WellShaped(m)
  {
    var r := Step(m, line, opts);
    r.Go? ==>
      && InPlace(m.states, line.text) && r.m.states == NextStates(m.states, line, opts)
      && StepKeeps(m.states, line, opts, Flushed(r.line, r.keep))
  }

  /** The step is the effect of the entry in the table, and what it does to the stack. */
  lemma {:induction false} StepEffect(m: Machine, line: Line, opts: Options)
    requires WellShaped(m)
    ensures var a, r := Transition(Top(m), Classify(line, opts)), Step(m, line, opts);
            r.Go? ==>
              && !Fails(a) && (NeedsGroup(a) ==> |m.states| >= 2)
              && (OpensGroup(a) ==> r.m.states == m.states + [Target(a)])
              && (ChangesGroup(a) ==> r.m.states == m.states[|m.states| - 1 := Target(a)])
              && (r.keep <==> Written(a, Whole(line)).Some?)
              && (r.keep ==> Whole(r.line) == Written(a, Whole(line)).value)
              && (a in {Pendif, Dendif} ==> r.m.states == m.states[..|m.states| - 1])
              && (a in {Print, Drop} ==> r.m == m)
  {
    var a := Transition(Top(m), Classify(line, opts));
    TransitionSafe(m, Classify(line, opts));
    EffectGoes(a, m, line, opts.iocccok);
    EffectOnStack(a, m, line, opts.iocccok);
  }

  lemma {:induction false} OpeningStep(m: Machine, line: Line, opts: Options)
    requires WellShaped(m) && OnOneLine(line) && (line.text.If? || line.text.Ifdef?)
    ensures StepIsExact(m, line, opts)
  {
    StepEffect(m, line, opts);
    OpeningExact(Top(m), Classify(line, opts).d);
  }

  lemma {:induction false} ElifStep(m: Machine, line: Line, opts: Options)
    requires WellShaped(m) && OnOneLine(line) && line.text.Elif?
    ensures StepIsExact(m, line, opts)
  {
    StepEffect(m, line, opts);
    ElifExact(Top(m), Classify(line, opts).d, Whole(line));
  }

  lemma {:induction false} ElseStep(m: Machine, line: Line, opts: Options)
    requires WellShaped(m) && OnOneLine(line) && line.text.Else?
    ensures StepIsExact(m, line, opts)
  {
    StepEffect(m, line, opts);
    ElseExact(Top(m));
  }

  lemma {:induction false} PlainStep(m: Machine, line: Line, opts: Options)
    requires WellShaped(m) && OnOneLine(line) && (line.text.Ordinary? || line.text.Endif?)
    ensures StepIsExact(m, line, opts)
  {
    StepEffect(m, line, opts);
    if line.text.Endif? { EndifEntries(Top(m), false); }
  }

  lemma {:induction false} StepExact(m: Machine, line: Line, opts: Options)
    requires WellShaped(m) && OnOneLine(line) && Step(m, line, opts).Go?
    ensures var r := Step(m, line, opts);
            && InPlace(m.states, line.text) && r.m.states == NextStates(m.states, line, opts)
            && StepKeeps(m.states, line, opts, Flushed(r.line, r.keep))
  {
    match line.text
    case Ordinary(_) => PlainStep(m, line, opts);
    case If(_) | Ifdef(_, _) => OpeningStep(m, line, opts);
    case Elif(_) => ElifStep(m, line, opts);
    case Else => ElseStep(m, line, opts);
    case Endif => PlainStep(m, line, opts);
  }

  /** Where text is printed some choice includes it, and where it is dropped none does. */
  lemma {:induction false} PrintingIff(states: seq<Ifstate>, all: set<seq<Group>>)
    requires Covers(states, all)
    ensures Printing(Last(states)) <==> exists gs :: gs in all && Included(gs)
  {
    var n := |states| - 1;
    assert LevelFits(states, all, n);
    if Printing(Last(states)) {
      var gs: seq<Group> :| gs in all && n <= |gs| && Included(gs[..n]);
      assert Fits(states, gs) && gs[..n] == gs;
    } else {
      forall gs | gs in all ensures !Included(gs) {
        IncludedWhere(states, gs);
      }
    }
  }

  /** Another branch may be looked at exactly where the state leaves it open. */
  lemma {:induction false} UndecidedAsks(states: seq<Ifstate>, all: set<seq<Group>>, t: Text) returns (gs: seq<Group>)
    requires Covers(states, all) && t.Elif? && InPlace(states, t) && Undecided(Last(states))
    ensures gs in all && Asks(Some(gs), t)
  {
    var n := |states| - 1;
    assert LevelFits(states, all, n);
    gs :| gs in all && n - 1 < |gs| && gs[n - 1].outer && !gs[n - 1].taken;
    assert Fits(states, gs) && InputFits(states[n - 1 + 1], gs[n - 1]);
  }

  lemma {:induction false} DecidedAsksNot(states: seq<Ifstate>, gs: seq<Group>, t: Text)
    requires Fits(states, gs) && t.Elif? && InPlace(states, t) && !Undecided(Last(states))
    ensures !Asks(Some(gs), t)
  {
    assert InputFits(states[|gs| - 1 + 1], gs[|gs| - 1]);
  }

  /** Another branch may be looked at exactly where the state leaves it open. */
  lemma {:induction false} UndecidedIff(states: seq<Ifstate>, all: set<seq<Group>>, t: Text)
    requires Covers(states, all) && t.Elif? && InPlace(states, t)
    ensures Undecided(Last(states)) <==> exists gs :: gs in all && Asks(Some(gs), t)
  {
    if Undecided(Last(states)) {
      var gs := UndecidedAsks(states, all, t);
    } else {
      forall gs | gs in all ensures !Asks(Some(gs), t) {
        DecidedAsksNot(states, gs, t);
      }
    }
  }

  /** What is kept, in terms of the groups that may be open. */
  ghost predicate KeepsExactly(all: set<seq<Group>>, line: Line, opts: Options, f: Flushed) {
    if line.text.Ordinary? then f.keep <==> exists gs :: gs in all && Included(gs)
    else
      KeepsCondition(f) <==> NoVerdict(line, opts) && exists gs :: gs in all && Asks(Some(gs), line.text)
  }

  lemma {:induction false} StepKeepsExactly(states: seq<Ifstate>, all: set<seq<Group>>, line: Line, opts: Options,
                                            f: Flushed)
    requires Covers(states, all) && InPlace(states, line.text) && StepKeeps(states, line, opts, f)
    ensures KeepsExactly(all, line, opts, f)
  {
    match line.text
    case Ordinary(_) => PrintingIff(states, all);
    case If(_) | Ifdef(_, _) =>
      PrintingIff(states, all);
      assert forall gs :: Asks(Some(gs), line.text) <==> Included(gs);
    case Elif(_) => UndecidedIff(states, all, line.text);
    case _ =>
  }

  lemma {:induction false} ImagesUnfold(all: set<seq<Group>>, lines: seq<Line>, opts: Options, i: nat)
    requires i <= |lines|
    ensures i == 0 ==> Images(all, lines[..i], opts) == all
    ensures i > 0 ==> Images(all, lines[..i], opts) == Images(Image(all, lines[0], opts), lines[1..][..i - 1], opts)
  {
    if i > 0 {
      assert lines[..i][0] == lines[0] && lines[..i][1..] == lines[1..][..i - 1];
    }
  }

  /** This line is among those that were flushed, and kept or not as it should be. */
  ghost predicate ExactAt(all: set<seq<Group>>, line: Line, opts: Options, fs: seq<Flushed>, i: nat) {
    i < |fs| && KeepsExactly(all, line, opts, fs[i])
  }

  lemma ExactBehind(all: set<seq<Group>>, line: Line, opts: Options, f: Flushed, fs: seq<Flushed>, i: nat)
    ensures ExactAt(all, line, opts, fs, i) ==> ExactAt(all, line, opts, [f] + fs, i + 1)
    ensures KeepsExactly(all, line, opts, f) ==> ExactAt(all, line, opts, [f] + fs, 0)
  {}

  lemma {:induction false} RunKeepsExactly(m: Machine, all: set<seq<Group>>, lines: seq<Line>, opts: Options, i: nat)
    requires WellShaped(m) && Covers(m.states, all) && forall line :: line in lines ==> OnOneLine(line)
    requires Run(m, lines, opts).status == Finished && i < |lines|
    ensures ExactAt(Images(all, lines[..i], opts), lines[i], opts, Run(m, lines, opts).flushed, i)
    decreases |lines|
  {
    var scanned := Scanned(m, lines[0]);
    RunUnfold(m, lines, opts);
    ImagesUnfold(all, lines, opts, i);
    var r := Step(scanned, lines[0], opts);
    StepExact(scanned, lines[0], opts);
    var f, rest := Flushed(r.line, r.keep), Run(r.m, lines[1..], opts).flushed;
    if i == 0 {
      StepKeepsExactly(m.states, all, lines[0], opts, f);
      ExactBehind(all, lines[0], opts, f, rest, 0);
    } else {
      var next := Image(all, lines[0], opts);
      CoversNext(m.states, all, lines[0], opts);
      RunKeepsExactly(r.m, next, lines[1..], opts, i - 1);
      ExactBehind(Images(next, lines[1..][..i - 1], opts), lines[i], opts, f, rest, i - 1);
    }
  }

  /** A finished run over directives on one line keeps an ordinary line if and only if
      some choice of truth values for the conditions without a verdict selects it, and
      keeps a condition if and only if it has no verdict and some choice makes the
      preprocessor look at it. */
  lemma {:induction false} KeptExactly(lines: seq<Line>, opts: Options, i: nat)
    requires Run(START, lines, opts).status == Finished && i < |lines|
    requires forall line :: line in lines ==> OnOneLine(line)
    ensures i < |Run(START, lines, opts).flushed|
    ensures var f := Run(START, lines, opts).flushed[i];
            if lines[i].text.Ordinary? then f.keep <==> Selectable(lines[..i], opts)
            else KeepsCondition(f) <==> NoVerdict(lines[i], opts) && Askable(lines[..i], lines[i].text, opts)
  {
    var all: set<seq<Group>> := {[]};
    assert forall gs :: gs in all ==> Fits(START.states, gs);
    assert MayInclude(all, 0) by { assert [] in all && Included([][..0]); }
    RunKeepsExactly(START, all, lines, opts, i);
    ChoicesAreImages(lines[..i], opts, lines[i].text);
  }

  lemma {:induction false} ChoicesAreImages(before: seq<Line>, opts: Options, t: Text)
    ensures var all := Images({[]}, before, opts);
            && (Selectable(before, opts) <==> exists gs :: gs in all && Included(gs))
            && (Askable(before, t, opts) <==> exists gs :: gs in all && Asks(Some(gs), t))
  {
    var all := Images({[]}, before, opts);
    forall g: seq<Group> ensures g in all <==> Reached({[]}, before, opts, g) {
      ImagesChosen({[]}, before, opts, g);
    }
    if gs :| gs in all && Included(gs) {
      var cs: seq<bool> :| |cs| == |before| && Chosen([], before, opts, cs) == Some(gs);
      assert Includes(Chosen([], before, opts, cs));
    }
    if gs :| gs in all && Asks(Some(gs), t) {
      var cs: seq<bool> :| |cs| == |before| && Chosen([], before, opts, cs) == Some(gs);
      assert Asks(Chosen([], before, opts, cs), t);
    }
    if Selectable(before, opts) {
      var cs: seq<bool> :| |cs| == |before| && Includes(Chosen([], before, opts, cs));
      assert Reached({[]}, before, opts, Chosen([], before, opts, cs).value);
    }
    if Askable(before, t, opts) {
      var cs: seq<bool> :| |cs| == |before| && Asks(Chosen([], before, opts, cs), t);
      assert Reached({[]}, before, opts, Chosen([], before, opts, cs).value);
    }
  }
}
