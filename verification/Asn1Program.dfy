/** Programs with out-of-line bodies, and the labels that jumps need.

    A rendering is some opcodes, the renderings of further elements, and some more
    opcodes. It may jump to the body of an element, which is appended after the
    main program, once, in the order in which bodies are first jumped to.
  */
module Asn1Program {
  import opened Wrappers
  import opened Identities

  datatype Opcode =
    | MatchAny(cond: bool, act: bool)
    | Match(cond: bool, jump: bool, act: bool, orSkip: bool)
    | Tag(named: bool, cls: nat, cons: bool, tag: nat)
    | JumpTarget(n: nat)
    | EndSeq(act: bool)
    | EndSeqOf(act: bool)
    | EndSetOf(act: bool)
    | Act
    | ActionOf(action: nat)
    | CondFail
    | Return
    | Complete

  /** Opcodes, a jump to a body, what is rendered inside, the end of it, a jump back
      to the beginning of the inside, and final opcodes. */
  datatype Tree = Node(operation: seq<Opcode>, jump: Option<Id>, inside: Trees,
                       end: seq<Opcode>, loop: bool, final: seq<Opcode>)
  datatype Trees = Nil | Snoc(init: Trees, last: Tree)

  function Start(t: Tree, entry: seq<nat>): seq<Opcode> {
    t.operation + if t.jump.Some? && t.jump.value < |entry| then [JumpTarget(entry[t.jump.value])]
                  else if t.jump.Some? then [JumpTarget(0)] else []
  }

  function Finish(t: Tree, first: nat): seq<Opcode> {
    t.end + (if t.loop then [JumpTarget(first)] else []) + t.final
  }

  /** The opcodes of a tree at position `base`, where `entry` has the places of the
      bodies. */
  function Code(t: Tree, base: nat, entry: seq<nat>): seq<Opcode> {
    var s := Start(t, entry);
    s + CodeOf(t.inside, base + |s|, entry) + Finish(t, base + |s|)
  }

  function CodeOf(ts: Trees, base: nat, entry: seq<nat>): seq<Opcode> {
    match ts
    case Nil => []
    case Snoc(init, last) =>
      var c := CodeOf(init, base, entry);
      c + Code(last, base + |c|, entry)
  }

  /** The code from the first opcode inside a tree to the last one before the final
      opcodes. */
  function InsideCode(t: Tree, first: nat, entry: seq<nat>): seq<Opcode> {
    CodeOf(t.inside, first, entry) + t.end + if t.loop then [JumpTarget(first)] else []
  }

  lemma NoLoop(t: Tree, first: nat, entry: seq<nat>)
    requires !t.loop
    ensures InsideCode(t, first, entry) == CodeOf(t.inside, first, entry) + t.end
    ensures t.end == [] ==> InsideCode(t, first, entry) == CodeOf(t.inside, first, entry)
  {}

  lemma InlineCode(t: Tree, base: nat, first: nat, entry: seq<nat>)
    requires t.jump.None? && first == base + |t.operation|
    ensures Code(t, base, entry) == t.operation + InsideCode(t, first, entry) + t.final
    ensures Calls(t) == CallsOf(t.inside)
  {}

  lemma JumpCode(t: Tree, base: nat, entry: seq<nat>)
    requires t.jump.Some? && t.jump.value < |entry| && t.inside.Nil? && t.end == t.final == [] && !t.loop
    ensures Code(t, base, entry) == t.operation + [JumpTarget(entry[t.jump.value])]
    ensures Calls(t) == [t.jump.value]
  {}

  lemma Wrapped(t: Tree, base: nat, entry: seq<nat>)
    requires t.jump.None? && t.operation == t.end == t.final == [] && !t.loop
    ensures Code(t, base, entry) == CodeOf(t.inside, base, entry) && Calls(t) == CallsOf(t.inside)
  {}

  /** The bodies that are jumped to, in order, with repetitions. */
  function Calls(t: Tree): seq<Id> {
    (if t.jump.Some? then [t.jump.value] else []) + CallsOf(t.inside)
  }

  function CallsOf(ts: Trees): seq<Id> {
    match ts
    case Nil => []
    case Snoc(init, last) => CallsOf(init) + Calls(last)
  }

  function Len(ts: Trees): nat {
    match ts
    case Nil => 0
    case Snoc(init, _) => Len(init) + 1
  }

  /** The first `i` trees. */
  function Take(ts: Trees, i: nat): Trees
    requires i <= Len(ts)
  {
    if i == Len(ts) then ts else Take(ts.init, i)
  }

  function Nth(ts: Trees, i: nat): Tree
    requires i < Len(ts)
  {
    if i == Len(ts) - 1 then ts.last else Nth(ts.init, i)
  }

  lemma {:induction false} TakeNext(ts: Trees, i: nat)
    requires i < Len(ts)
    ensures Take(ts, i + 1) == Snoc(Take(ts, i), Nth(ts, i)) && Take(ts, 0) == Nil
  {
    if i < Len(ts) - 1 {
      TakeNext(ts.init, i);
    } else {
      assert Take(ts, i) == Take(ts.init, i) == ts.init;
      TakeNone(ts);
    }
  }

  lemma {:induction false} TakeNone(ts: Trees)
    ensures Take(ts, 0) == Nil
  {
    if ts.Snoc? { TakeNone(ts.init); }
  }

  // -------------------------------------------------------------- order of bodies

  /** Append what is new. */
  function Merge(seen: seq<Id>, calls: seq<Id>): (r: seq<Id>)
    requires Distinct(seen)
    ensures Distinct(r) && seen <= r
    ensures forall x :: x in r <==> x in seen || x in calls
  {
    if |calls| == 0 then seen
    else
      var r := Merge(seen, calls[..|calls| - 1]);
      var last := calls[|calls| - 1];
      assert calls == calls[..|calls| - 1] + [last];
      if last in r then r
      else
        DistinctSnoc(r, last);
        r + [last]
  }

  lemma {:induction false} MergeOne(seen: seq<Id>, e: Id)
    requires Distinct(seen)
    ensures Merge(seen, [e]) == if e in seen then seen else seen + [e]
  {
    assert [e][..0] == [];
    assert Merge(seen, []) == seen;
  }

  lemma {:induction false} MergeConcat(seen: seq<Id>, a: seq<Id>, b: seq<Id>)
    requires Distinct(seen)
    ensures Merge(seen, a + b) == Merge(Merge(seen, a), b)
  {
    if |b| == 0 {
      assert a + b == a;
    } else {
      assert (a + b)[..|a + b| - 1] == a + b[..|b| - 1];
      MergeConcat(seen, a, b[..|b| - 1]);
    }
  }

  lemma {:induction false} TakeCalls(ts: Trees, i: nat)
    requires i <= Len(ts)
    ensures CallsOf(Take(ts, i)) <= CallsOf(ts)
  {
    if i < Len(ts) { TakeCalls(ts.init, i); }
  }

  /** A main program, and a body for each element. */
  datatype Source = Source(main: Tree, bodies: seq<Tree>)

  predicate Known(calls: seq<Id>, n: nat) {
    forall i :: 0 <= i < |calls| ==> calls[i] < n
  }

  /** Whatever is jumped to has a body. */
  predicate Closed(src: Source) {
    && Known(Calls(src.main), |src.bodies|)
    && forall e :: 0 <= e < |src.bodies| ==> Known(Calls(src.bodies[e]), |src.bodies|)
  }

  /** Distinct elements in the order of their first occurrence. */
  function Firsts(calls: seq<Id>, n: nat): (r: seq<Id>)
    requires Known(calls, n)
    ensures Distinct(r) && Known(r, n)
  {
    var r := Merge([], calls);
    assert forall i :: 0 <= i < |r| ==> r[i] in r;
    r
  }

  /** Append the body with number `i` of those that are jumped to, if there is one. */
  function Extend(src: Source, f: Trees, i: nat): (r: Trees)
    requires Closed(src) && Known(CallsOf(f), |src.bodies|)
    ensures Known(CallsOf(r), |src.bodies|)
  {
    var s := Firsts(CallsOf(f), |src.bodies|);
    if i < |s| then Snoc(f, src.bodies[s[i]]) else f
  }

  /** The main program and the first `k` bodies, where the next body is always the
      first one that is jumped to and not there yet. */
  function Forest(src: Source, k: nat): (f: Trees)
    requires Closed(src)
    ensures Known(CallsOf(f), |src.bodies|)
  {
    if k == 0 then Snoc(Nil, src.main) else Extend(src, Forest(src, k - 1), k - 1)
  }

  /** The bodies that are jumped to in there. */
  function Seen(src: Source, k: nat): (r: seq<Id>)
    requires Closed(src)
    ensures Distinct(r) && Known(r, |src.bodies|)
  {
    Firsts(CallsOf(Forest(src, k)), |src.bodies|)
  }

  function Program(src: Source, k: nat, entry: seq<nat>): seq<Opcode>
    requires Closed(src)
  {
    CodeOf(Forest(src, k), 0, entry)
  }

  lemma Extended(src: Source, k: nat)
    requires Closed(src)
    ensures |Seen(src, k)| <= k ==> Forest(src, k + 1) == Forest(src, k)
    ensures Forest(src, k + 1) == Extend(src, Forest(src, k), k)
  {}

  lemma ExtendCalls(src: Source, f: Trees, i: nat)
    requires Closed(src) && Known(CallsOf(f), |src.bodies|)
    ensures CallsOf(f) <= CallsOf(Extend(src, f, i))
  {}

  lemma {:induction false} GrowOnce(src: Source, k: nat)
    requires Closed(src)
    ensures CallsOf(Forest(src, k)) <= CallsOf(Forest(src, k + 1))
  {
    Extended(src, k);
    ExtendCalls(src, Forest(src, k), k);
  }

  lemma {:induction false} CallsGrow(src: Source, k: nat, n: nat)
    requires Closed(src) && k <= n
    ensures CallsOf(Forest(src, k)) <= CallsOf(Forest(src, n))
    decreases n - k
  {
    if k < n {
      CallsGrow(src, k + 1, n);
      GrowOnce(src, k);
      PrefixOfPrefix(CallsOf(Forest(src, k)), CallsOf(Forest(src, k + 1)), CallsOf(Forest(src, n)));
    }
  }

  lemma PrefixOfPrefix(a: seq<Id>, b: seq<Id>, c: seq<Id>)
    requires a <= b <= c
    ensures a <= c
  {}

  lemma {:induction false} SeenGrows(src: Source, k: nat, n: nat)
    requires Closed(src) && k <= n
    ensures Seen(src, k) <= Seen(src, n)
  {
    CallsGrow(src, k, n);
    var a, b := CallsOf(Forest(src, k)), CallsOf(Forest(src, n));
    assert b == a + b[|a|..];
    MergeConcat([], a, b[|a|..]);
  }

  lemma {:induction false} Stable(src: Source, k: nat, n: nat)
    requires Closed(src) && k <= n && |Seen(src, k)| <= k
    ensures Forest(src, n) == Forest(src, k)
    decreases n - k
  {
    if k < n {
      Extended(src, k);
      Stable(src, k + 1, n);
    }
  }

  /** All bodies of the program, in order. */
  function Order(src: Source): (r: seq<Id>)
    requires Closed(src)
    ensures |r| <= |src.bodies|
  {
    DistinctBound(Seen(src, |src.bodies|), AllIds(|src.bodies|));
    Seen(src, |src.bodies|)
  }

  // ----------------------------------------------------------------------- places

  /** How long a rendering is does not depend on where it is and where bodies are. */
  lemma {:induction false} CodeLength(t: Tree, base: nat, entry: seq<nat>, base': nat, entry': seq<nat>)
    ensures |Code(t, base, entry)| == |Code(t, base', entry')|
  {
    var s, s' := Start(t, entry), Start(t, entry');
    CodeOfLength(t.inside, base + |s|, entry, base' + |s'|, entry');
  }

  lemma {:induction false} CodeOfLength(ts: Trees, base: nat, entry: seq<nat>, base': nat, entry': seq<nat>)
    ensures |CodeOf(ts, base, entry)| == |CodeOf(ts, base', entry')|
  {
    match ts
    case Nil =>
    case Snoc(init, last) =>
      CodeOfLength(init, base, entry, base', entry');
      var c, c' := CodeOf(init, base, entry), CodeOf(init, base', entry');
      CodeLength(last, base + |c|, entry, base' + |c'|, entry');
  }

  /** Where the body with number `k` begins. */
  function Place(src: Source, k: nat): nat
    requires Closed(src)
  {
    |Program(src, k, [])|
  }

  predicate PlacedAt(order: seq<Id>, places: seq<nat>, i: nat, entry: seq<nat>)
    requires i < |order| == |places|
  {
    order[i] < |entry| && entry[order[i]] == places[i]
  }

  /** `entry` has the places of the first `k` bodies. */
  predicate PlacedIn(order: seq<Id>, places: seq<nat>, k: nat, entry: seq<nat>)
    requires |order| == |places|
  {
    forall i: nat :: i < k && i < |order| ==> PlacedAt(order, places, i, entry)
  }

  /** Where the bodies begin, in order. */
  function Places(src: Source, n: nat): (r: seq<nat>)
    requires Closed(src)
    ensures |r| == n && forall i :: 0 <= i < |r| ==> r[i] == Place(src, i)
  {
    seq(n, (i: nat) requires i < n => Place(src, i))
  }

  /** `entry` has the places of all bodies. */
  predicate Placed(src: Source, entry: seq<nat>)
    requires Closed(src)
  {
    |entry| == |src.bodies| && PlacedIn(Order(src), Places(src, |Order(src)|), |Order(src)|, entry)
  }

  // ----------------------------------------------------------------------- labels

  predicate NoJumps(code: seq<Opcode>) {
    forall i :: 0 <= i < |code| ==> !code[i].JumpTarget?
  }

  predicate EndsWithTag(code: seq<Opcode>) {
    |code| > 0 && code[|code| - 1].Tag?
  }

  predicate EndsWithRepeat(code: seq<Opcode>) {
    |code| > 0 && (code[|code| - 1].EndSeqOf? || code[|code| - 1].EndSetOf?)
  }

  /** Jump operands stand where a tree says so, behind a tag or the end of a
      repetition. */
  predicate Proper(t: Tree) {
    && NoJumps(t.operation) && NoJumps(t.end) && NoJumps(t.final) && AllProper(t.inside)
    && (t.jump.Some? ==> EndsWithTag(t.operation))
    && (t.loop ==> EndsWithRepeat(t.end))
  }

  predicate AllProper(ts: Trees) {
    match ts
    case Nil => true
    case Snoc(init, last) => AllProper(init) && Proper(last)
  }

  /** The operand at `k` is behind a tag and is the place of one of the bodies, or
      ends a repetition that begins in this code and before this operand. */
  predicate OperandAt(code: seq<Opcode>, k: int, base: nat, calls: seq<Id>, entry: seq<nat>) {
    0 < k < |code| && code[k].JumpTarget?
    && ((code[k - 1].Tag? && exists i :: 0 <= i < |calls| && calls[i] < |entry| && code[k].n == entry[calls[i]])
        || ((code[k - 1].EndSeqOf? || code[k - 1].EndSetOf?) && base <= code[k].n < base + k))
  }

  predicate Labelled(code: seq<Opcode>, base: nat, calls: seq<Id>, entry: seq<nat>) {
    forall k :: 0 <= k < |code| && code[k].JumpTarget? ==> OperandAt(code, k, base, calls, entry)
  }

  lemma {:induction false} KnownParts(a: seq<Id>, b: seq<Id>, n: nat)
    requires Known(a + b, n)
    ensures Known(a, n) && Known(b, n)
  {
    assert forall i :: 0 <= i < |a| ==> a[i] == (a + b)[i];
    assert forall i :: 0 <= i < |b| ==> b[i] == (a + b)[|a| + i];
  }

  lemma {:induction false} LabelledConcat(a: seq<Opcode>, b: seq<Opcode>, c: seq<Opcode>, base: nat,
                       ca: seq<Id>, cb: seq<Id>, calls: seq<Id>, entry: seq<nat>)
    requires Labelled(a, base, ca, entry) && Labelled(b, base + |a|, cb, entry)
    requires c == a + b && calls == ca + cb
    ensures Labelled(c, base, calls, entry)
  {
    forall k | 0 <= k < |c| && c[k].JumpTarget? ensures OperandAt(c, k, base, calls, entry) {
      if k < |a| {
        assert OperandAt(a, k, base, ca, entry);
        if a[k - 1].Tag? {
          var i :| 0 <= i < |ca| && ca[i] < |entry| && a[k].n == entry[ca[i]];
          assert calls[i] == ca[i];
        }
      } else {
        assert OperandAt(b, k - |a|, base + |a|, cb, entry);
        if b[k - |a| - 1].Tag? {
          var i :| 0 <= i < |cb| && cb[i] < |entry| && b[k - |a|].n == entry[cb[i]];
          assert calls[|ca| + i] == cb[i];
        }
      }
    }
  }

  lemma {:induction false} StartLabelled(t: Tree, base: nat, calls: seq<Id>, entry: seq<nat>)
    requires Proper(t) && Known(calls, |entry|) && calls == if t.jump.Some? then [t.jump.value] else []
    ensures Labelled(Start(t, entry), base, calls, entry)
  {
    var s, k := Start(t, entry), |t.operation|;
    if t.jump.Some? {
      assert calls[0] == t.jump.value;
      assert s[k].n == entry[calls[0]] && s[k - 1].Tag?;
    }
  }

  lemma {:induction false} CodeLabelled(t: Tree, base: nat, entry: seq<nat>)
    requires Proper(t) && Known(Calls(t), |entry|)
    ensures Labelled(Code(t, base, entry), base, Calls(t), entry)
  {
    var s := Start(t, entry);
    var calls := if t.jump.Some? then [t.jump.value] else [];
    assert Calls(t) == calls + CallsOf(t.inside);
    KnownParts(calls, CallsOf(t.inside), |entry|);
    StartLabelled(t, base, calls, entry);
    CodeOfLabelled(t.inside, base + |s|, entry);
    var c := CodeOf(t.inside, base + |s|, entry);
    LabelledConcat(s, c, s + c, base, calls, CallsOf(t.inside), Calls(t), entry);
    FinishLabelled(s + c, t, base, |s|, Calls(t), entry);
  }

  lemma {:induction false} FinishLabelled(c: seq<Opcode>, t: Tree, base: nat, first: nat, calls: seq<Id>,
                                          entry: seq<nat>)
    requires Proper(t) && first <= |c| && Labelled(c, base, calls, entry)
    ensures Labelled(c + Finish(t, base + first), base, calls, entry)
  {
    var f := Finish(t, base + first);
    var d := c + f;
    forall k | 0 <= k < |d| && d[k].JumpTarget? ensures OperandAt(d, k, base, calls, entry) {
      if k < |c| {
        assert OperandAt(c, k, base, calls, entry);
      } else {
        assert f[k - |c|].JumpTarget?;
        assert k - |c| == |t.end| && t.loop;
        assert d[k - 1] == t.end[|t.end| - 1];
      }
    }
  }

  lemma {:induction false} CodeOfLabelled(ts: Trees, base: nat, entry: seq<nat>)
    requires AllProper(ts) && Known(CallsOf(ts), |entry|)
    ensures Labelled(CodeOf(ts, base, entry), base, CallsOf(ts), entry)
  {
    match ts
    case Nil =>
    case Snoc(init, last) =>
      KnownParts(CallsOf(init), Calls(last), |entry|);
      CodeOfLabelled(init, base, entry);
      var c := CodeOf(init, base, entry);
      CodeLabelled(last, base + |c|, entry);
      LabelledConcat(c, Code(last, base + |c|, entry), CodeOf(ts, base, entry), base,
                     CallsOf(init), Calls(last), CallsOf(ts), entry);
  }

  // ------------------------------------------------------------------ main results

  predicate AllBodiesProper(src: Source) {
    Proper(src.main) && forall e :: 0 <= e < |src.bodies| ==> Proper(src.bodies[e])
  }

  lemma ExtendProper(src: Source, f: Trees, i: nat)
    requires Closed(src) && AllBodiesProper(src) && AllProper(f) && Known(CallsOf(f), |src.bodies|)
    ensures AllProper(Extend(src, f, i))
  {}

  lemma {:induction false} ForestProper(src: Source, k: nat)
    requires Closed(src) && AllBodiesProper(src)
    ensures AllProper(Forest(src, k))
  {
    if k > 0 {
      ForestProper(src, k - 1);
      ExtendProper(src, Forest(src, k - 1), k - 1);
    }
  }

  lemma {:induction false} ForestGrows(src: Source, k: nat, n: nat, entry: seq<nat>)
    requires Closed(src) && k <= n
    ensures Program(src, k, entry) <= Program(src, n, entry)
    decreases n - k
  {
    if k < n {
      ForestGrows(src, k + 1, n, entry);
      Extended(src, k);
      assert CodeOf(Forest(src, k), 0, entry) <= CodeOf(Extend(src, Forest(src, k), k), 0, entry);
    }
  }

  /** The whole program. */
  function Whole(src: Source, entry: seq<nat>): seq<Opcode>
    requires Closed(src)
  {
    Program(src, |src.bodies|, entry)
  }

  /** The body of `x` stands at `n`. */
  predicate BodyStands(src: Source, machine: seq<Opcode>, entry: seq<nat>, x: Id, n: nat) {
    x < |src.bodies|
    && var c := Code(src.bodies[x], n, entry);
       n + |c| <= |machine| && machine[n..n + |c|] == c
  }

  /** Exactly the bodies in `Order` are in the program, each one once, and the body
      of every element begins at its entry. */
  lemma {:induction false} BodiesAreAtTheirEntries(src: Source, entry: seq<nat>, i: nat)
    requires Closed(src) && Placed(src, entry) && i < |Order(src)|
    ensures var x := Order(src)[i]; BodyStands(src, Whole(src, entry), entry, x, entry[x])
  {
    var x, f := Order(src)[i], Forest(src, i);
    assert PlacedAt(Order(src), Places(src, |Order(src)|), i, entry);
    SeenAt(src, i);
    Extended(src, i);
    assert Extend(src, f, i) == Snoc(f, src.bodies[x]);
    CodeOfLength(f, 0, entry, 0, []);
    assert entry[x] == |CodeOf(f, 0, entry)|;
    PrefixAt(src, f, x, i, entry);
  }

  lemma {:induction false} Middle(a: seq<Opcode>, c: seq<Opcode>, p: seq<Opcode>, whole: seq<Opcode>)
    requires p == a + c && p <= whole
    ensures |a| + |c| <= |whole| && whole[|a|..|a| + |c|] == c
  {
    assert whole[|a|..|a| + |c|] == p[|a|..|a| + |c|];
  }

  lemma {:induction false} PrefixAt(src: Source, f: Trees, x: Id, i: nat, entry: seq<nat>)
    requires Closed(src) && x < |src.bodies| && i < |src.bodies| && Forest(src, i + 1) == Snoc(f, src.bodies[x])
    ensures var n := |CodeOf(f, 0, entry)|; var c := Code(src.bodies[x], n, entry);
            n + |c| <= |Whole(src, entry)| && Whole(src, entry)[n..n + |c|] == c
  {
    ForestGrows(src, i + 1, |src.bodies|, entry);
    var p, a := Program(src, i + 1, entry), CodeOf(f, 0, entry);
    var c := Code(src.bodies[x], |a|, entry);
    assert p == a + c;
    Middle(a, c, p, Whole(src, entry));
  }

  /** The body with number `i` is known before it is its turn. */
  lemma {:induction false} SeenAt(src: Source, i: nat)
    requires Closed(src) && i < |Order(src)|
    ensures i < |Seen(src, i)| && Seen(src, i)[i] == Order(src)[i]
  {
    if |Seen(src, i)| <= i {
      Stable(src, i, |src.bodies|);
      assert false;
    }
    SeenGrows(src, i, |src.bodies|);
  }

  /** Every jump operand is the place where the body of an element begins, or ends a
      repetition and goes back into it. */
  lemma {:induction false} JumpsLand(src: Source, entry: seq<nat>, k: nat)
    requires Closed(src) && AllBodiesProper(src) && Placed(src, entry)
    requires k < |Whole(src, entry)| && Whole(src, entry)[k].JumpTarget?
    ensures k > 0
    ensures var p := Whole(src, entry);
            (p[k - 1].Tag? && exists x :: x in Order(src) && BodyStands(src, p, entry, x, p[k].n))
            || ((p[k - 1].EndSeqOf? || p[k - 1].EndSetOf?) && p[k].n < k)
  {
    var n, p := |src.bodies|, Whole(src, entry);
    var calls := CallsOf(Forest(src, n));
    ForestProper(src, n);
    CodeOfLabelled(Forest(src, n), 0, entry);
    assert OperandAt(p, k, 0, calls, entry);
    if p[k - 1].Tag? {
      var j :| 0 <= j < |calls| && p[k].n == entry[calls[j]];
      var x := calls[j];
      assert x in Merge([], calls);
      var i :| 0 <= i < |Order(src)| && Order(src)[i] == x;
      BodiesAreAtTheirEntries(src, entry, i);
    }
  }

  lemma ExtendSnoc(src: Source, f: Trees, i: nat, x: Id)
    requires Closed(src) && Known(CallsOf(f), |src.bodies|) && i < |Firsts(CallsOf(f), |src.bodies|)|
    requires x == Firsts(CallsOf(f), |src.bodies|)[i]
    ensures x < |src.bodies| && Extend(src, f, i) == Snoc(f, src.bodies[x])
  {}

  lemma {:induction false} ForestNext(src: Source, k: nat)
    requires Closed(src) && k < |Order(src)|
    ensures Order(src)[k] < |src.bodies| && Forest(src, k + 1) == Snoc(Forest(src, k), src.bodies[Order(src)[k]])
  {
    SeenAt(src, k);
    Extended(src, k);
    ExtendSnoc(src, Forest(src, k), k, Order(src)[k]);
  }

  lemma ForestFirst(src: Source, k: nat)
    requires Closed(src) && k == 0
    ensures Forest(src, k) == Snoc(Nil, src.main) && Len(Forest(src, k)) == 1
  {}

  lemma SnocNth(ts: Trees, t: Tree, i: nat)
    requires i <= Len(ts)
    ensures Len(Snoc(ts, t)) == Len(ts) + 1
    ensures Nth(Snoc(ts, t), i) == if i == Len(ts) then t else Nth(ts, i)
  {}

  /** A first tree and these bodies. */
  predicate HasBodies(f: Trees, bodies: seq<Tree>, order: seq<Id>, k: nat) {
    && Len(f) == k + 1 && k <= |order| && Known(order, |bodies|)
    && forall i: nat :: i < k ==> Nth(f, i + 1) == bodies[order[i]]
  }

  lemma {:induction false} OneBodyMore(f: Trees, g: Trees, bodies: seq<Tree>, order: seq<Id>, k: nat)
    requires 0 < k <= |order| && HasBodies(f, bodies, order, k - 1) && g == Snoc(f, bodies[order[k - 1]])
    ensures HasBodies(g, bodies, order, k)
  {
    forall i: nat | i < k ensures Nth(g, i + 1) == bodies[order[i]] {
      SnocNth(f, bodies[order[k - 1]], i + 1);
    }
    SnocNth(f, bodies[order[k - 1]], 0);
  }

  predicate BodiesIn(src: Source, order: seq<Id>, k: nat)
    requires Closed(src)
  {
    HasBodies(Forest(src, k), src.bodies, order, k)
  }

  lemma {:induction false} BodiesFirst(src: Source, order: seq<Id>, k: nat)
    requires Closed(src) && order == Order(src) && k == 0
    ensures BodiesIn(src, order, k)
  {
    ForestFirst(src, k);
  }

  lemma {:induction false} BodiesNext(src: Source, order: seq<Id>, k: nat)
    requires Closed(src) && order == Order(src) && 0 < k <= |order| && BodiesIn(src, order, k - 1)
    ensures BodiesIn(src, order, k)
  {
    ForestNext(src, k - 1);
    OneBodyMore(Forest(src, k - 1), Forest(src, k), src.bodies, order, k);
  }

  lemma {:induction false} ForestBodies(src: Source, order: seq<Id>, k: nat)
    requires Closed(src) && order == Order(src) && k <= |order|
    ensures BodiesIn(src, order, k)
  {
    if k == 0 {
      BodiesFirst(src, order, k);
    } else {
      ForestBodies(src, order, k - 1);
      BodiesNext(src, order, k);
    }
  }

  lemma {:induction false} NthOfForest(src: Source, k: nat, i: nat)
    requires Closed(src) && i < k <= |Order(src)|
    ensures Len(Forest(src, k)) == k + 1
    ensures Nth(Forest(src, k), i + 1) == src.bodies[Order(src)[i]]
  {
    ForestBodies(src, Order(src), k);
  }

  lemma {:induction false} WholeForest(src: Source)
    requires Closed(src)
    ensures Forest(src, |src.bodies|) == Forest(src, |Order(src)|)
  {
    var n := |Order(src)|;
    if |Seen(src, n)| > n {
      SeenGrows(src, n, |src.bodies|);
      assert false;
    }
    Stable(src, n, |src.bodies|);
  }

  lemma {:induction false} ForestLength(src: Source)
    requires Closed(src)
    ensures Len(Forest(src, |src.bodies|)) == |Order(src)| + 1
  {
    WholeForest(src);
    if |Order(src)| == 0 {
      assert Len(Forest(src, 0)) == 1;
    } else {
      NthOfForest(src, |Order(src)|, 0);
    }
  }

  lemma {:induction false} CalledInOrder(src: Source, x: Id)
    requires Closed(src)
    ensures x in Order(src) <==> x in CallsOf(Forest(src, |src.bodies|))
  {
    var calls := CallsOf(Forest(src, |src.bodies|));
    assert x in Merge([], calls) <==> x in calls;
  }

  /** The program is the main program and one body for each element in `Order`, which
      are exactly the elements that are jumped to, without repetition. */
  lemma {:induction false} EachBodyOnce(src: Source)
    requires Closed(src)
    ensures var f := Forest(src, |src.bodies|);
            && Len(f) == |Order(src)| + 1 && Distinct(Order(src))
            && (forall i :: 0 <= i < |Order(src)| ==> Nth(f, i + 1) == src.bodies[Order(src)[i]])
            && forall x :: x in Order(src) <==> x in CallsOf(f)
  {
    ForestLength(src);
    forall i | 0 <= i < |Order(src)| ensures Nth(Forest(src, |src.bodies|), i + 1) == src.bodies[Order(src)[i]] {
      WholeForest(src);
      NthOfForest(src, |Order(src)|, i);
    }
    forall x ensures x in Order(src) <==> x in CallsOf(Forest(src, |src.bodies|)) { CalledInOrder(src, x); }
  }
}
