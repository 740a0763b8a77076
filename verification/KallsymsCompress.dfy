/** The compressor: the pair histogram, the choice of tokens and the table that
    results.

    `Compressed` is what every step of the compressor keeps: each symbol, with
    its bytes looked up in the table again and again, spells its original name.
  */
module KallsymsCompress {
  import opened ByteStrings
  import opened KallsymsTokens
  import opened KallsymsSymbol

  // --------------------------------------------------------------- invariant

  /** Names as they are read: a type byte, no NUL, not too long. */
  ghost predicate Readable(orig: seq<Bytes>) {
    forall j :: 0 <= j < |orig| ==> orig[j] != [] && |orig[j]| <= MAX_SYMBOL && 0 !in orig[j]
  }

  function Longest(syms: seq<Bytes>): (n: nat)
    ensures forall j :: 0 <= j < |syms| ==> |syms[j]| <= n
  {
    if syms == [] then 0
    else
      var n := Longest(syms[1..]);
      assert forall j :: 1 <= j < |syms| ==> syms[j] == syms[1..][j - 1];
      if |syms[0]| > n then |syms[0]| else n
  }

  lemma {:induction false} LongestReadable(orig: seq<Bytes>, n: nat)
    requires forall j :: 0 <= j < |orig| ==> |orig[j]| <= n
    ensures Longest(orig) <= n
  {
    if orig != [] {
      LongestReadable(orig[1..], n);
    }
  }

  /** No token is longer than the longest name. */
  ghost predicate Compressed(slots: Slots, cur: seq<Bytes>, orig: seq<Bytes>) {
    && Acyclic(slots) && !IsChar(slots, 0)
    && |cur| == |orig|
    && (forall j :: 0 <= j < |cur| ==>
          InUse(slots, cur[j]) && Expand(slots, cur[j]) == orig[j] && |cur[j]| <= |orig[j]|)
    && forall c: Byte :: |ExpandByte(slots, c)| <= Longest(orig)
  }

  ghost predicate Replaced(before: seq<Bytes>, after: seq<Bytes>, a: Byte, b: Byte, t: Byte) {
    && |after| == |before|
    && forall j :: 0 <= j < |before| ==> after[j] == Replace(before[j], a, b, t)
  }

  /** A pair that occurs in a symbol spells a part of the symbol's name. */
  lemma {:induction false} PairExpansion(slots: Slots, s: Bytes, a: Byte, b: Byte)
    requires Acyclic(slots) && Occurs(s, a, b)
    ensures |ExpandByte(slots, a)| + |ExpandByte(slots, b)| <= |Expand(slots, s)|
    ensures a in s && b in s
  {
    var i :| PairAt(s, i, a, b);
    assert s == s[..i] + ([a, b] + s[i + 2..]);
    ExpandConcat(slots, s[..i], [a, b] + s[i + 2..]);
    ExpandConcat(slots, [a, b], s[i + 2..]);
    assert [a, b][1..] == [b];
  }

  /** A new token for a pair that occurs may be put into the next empty slot. */
  lemma {:induction false} TokenFits(slots: Slots, cur: seq<Bytes>, orig: seq<Bytes>, t: Byte, a: Byte, b: Byte)
    requires Compressed(slots, cur, orig) && Readable(orig)
    requires slots[t] == [] && forall c: Byte :: c <= t ==> |slots[c]| != 2
    requires exists j :: 0 <= j < |cur| && Occurs(cur[j], a, b)
    ensures CanAdd(slots, t, a, b)
    ensures |ExpandByte(slots, a)| + |ExpandByte(slots, b)| <= Longest(orig)
  {
    var j :| 0 <= j < |cur| && Occurs(cur[j], a, b);
    PairExpansion(slots, cur[j], a, b);
  }

  /** One step of the compressor keeps every expansion. */
  lemma {:induction false} CompressionKeeps(slots: Slots, cur: seq<Bytes>, after: seq<Bytes>, orig: seq<Bytes>,
                                            t: Byte, a: Byte, b: Byte)
    requires Compressed(slots, cur, orig) && CanAdd(slots, t, a, b)
    requires |ExpandByte(slots, a)| + |ExpandByte(slots, b)| <= Longest(orig)
    requires Replaced(cur, after, a, b, t)
    ensures Compressed(slots[t := [a, b]], after, orig)
  {
    var slots' := slots[t := [a, b]];
    AddKeepsAcyclic(slots, t, a, b);
    forall c: Byte ensures |ExpandByte(slots', c)| <= Longest(orig) {
      if c == t {
        AddKeepsByte(slots, t, a, b, a);
        AddKeepsByte(slots, t, a, b, b);
      } else {
        AddKeepsByte(slots, t, a, b, c);
      }
    }
    forall j | 0 <= j < |after|
      ensures InUse(slots', after[j]) && Expand(slots', after[j]) == orig[j] && |after[j]| <= |orig[j]|
    {
      assert InUse(slots, cur[j]);
      ReplaceKeepsExpansion(slots, t, a, b, cur[j]);
      ReplaceShortens(cur[j], a, b, t);
    }
  }

  /** ... and makes the table as a whole smaller. */
  lemma {:induction false} CompressionShrinks(cur: seq<Bytes>, after: seq<Bytes>, a: Byte, b: Byte, t: Byte)
    requires Replaced(cur, after, a, b, t)
    ensures TotalLength(after) <= TotalLength(cur)
    ensures (exists j :: 0 <= j < |cur| && Occurs(cur[j], a, b)) ==> TotalLength(after) < TotalLength(cur)
  {
    if cur != [] {
      ReplaceShortens(cur[0], a, b, t);
      CompressionShrinks(cur[1..], after[1..], a, b, t);
      if j :| 1 <= j < |cur| && Occurs(cur[j], a, b) {
        assert Occurs(cur[1..][j - 1], a, b);
      }
    }
  }

  ghost predicate NulFree(syms: seq<Bytes>) {
    forall j :: 0 <= j < |syms| ==> 0 !in syms[j]
  }

  /** What the choice of a pair that occurs guarantees ... */
  lemma {:induction false} PairFits(slots: Slots, cur: seq<Bytes>, orig: seq<Bytes>, t: Byte, a: Byte, b: Byte)
    requires Compressed(slots, cur, orig) && Readable(orig) && NulFree(cur)
    requires slots[t] == [] && forall c: Byte :: c <= t ==> |slots[c]| != 2
    requires Total(cur, a, b) > 0
    ensures a != 0 && b != 0 && CanAdd(slots, t, a, b)
    ensures |ExpandByte(slots, a)| + |ExpandByte(slots, b)| <= Longest(orig)
    ensures exists j :: 0 <= j < |cur| && Occurs(cur[j], a, b)
  {
    TotalOccurs(cur, a, b);
    TokenFits(slots, cur, orig, t, a, b);
    var j :| 0 <= j < |cur| && Occurs(cur[j], a, b);
    PairExpansion(slots, cur[j], a, b);
  }

  /** ... and what its replacement everywhere keeps. */
  lemma {:induction false} StepKeeps(slots: Slots, cur: seq<Bytes>, after: seq<Bytes>, orig: seq<Bytes>, t: Byte,
                                     a: Byte, b: Byte)
    requires Compressed(slots, cur, orig) && CanAdd(slots, t, a, b) && NulFree(cur)
    requires |ExpandByte(slots, a)| + |ExpandByte(slots, b)| <= Longest(orig)
    requires exists j :: 0 <= j < |cur| && Occurs(cur[j], a, b)
    requires Replaced(cur, after, a, b, t)
    ensures Compressed(slots[t := [a, b]], after, orig)
    ensures TotalLength(after) < TotalLength(cur)
    ensures t != 0 ==> NulFree(after)
  {
    CompressionKeeps(slots, cur, after, orig, t, a, b);
    CompressionShrinks(cur, after, a, b, t);
    forall j | 0 <= j < |after| && t != 0 ensures 0 !in after[j] {
      ReplaceShortens(cur[j], a, b, t);
    }
  }

  // ------------------------------------------------------ how far it goes

  ghost function Filled(slots: Slots): set<Byte> {
    set c: Byte | slots[c] != []
  }

  /** Every character in use in the slot that is its own index. */
  ghost function CharacterSlots(syms: seq<Bytes>): Slots {
    seq(256, (c: int) requires 0 <= c < 256 => if Used(syms, c) then [c as Byte] else [])
  }

  ghost function Characters(syms: seq<Bytes>): set<Byte> {
    set c: Byte | Used(syms, c)
  }

  /** Plain characters spell themselves. */
  lemma {:induction false} ExpandPlain(slots: Slots, s: Bytes)
    requires Acyclic(slots) && forall x :: x in s ==> IsChar(slots, x)
    ensures Expand(slots, s) == s
  {
    if s != [] {
      ExpandPlain(slots, s[1..]);
    }
  }

  /** The table of the characters in use is where compression starts. */
  lemma {:induction false} InitiallyCompressed(slots: Slots, orig: seq<Bytes>)
    requires Readable(orig)
    requires forall c: Byte :: slots[c] == if Used(orig, c) then [c] else []
    ensures Compressed(slots, orig, orig) && NulFree(orig) && Filled(slots) == Characters(orig)
  {
    forall j | 0 <= j < |orig| ensures InUse(slots, orig[j]) && Expand(slots, orig[j]) == orig[j] {
      forall x | x in orig[j] ensures IsChar(slots, x) {
        assert Used(orig, x);
      }
      ExpandPlain(slots, orig[j]);
    }
    forall c: Byte | Used(orig, c) ensures 1 <= Longest(orig) {
      var j :| 0 <= j < |orig| && c in orig[j];
      assert |orig[j]| >= 1;
    }
  }

  lemma {:induction false} FilledMore(slots: Slots, t: Byte, a: Byte, b: Byte)
    requires slots[t] == []
    ensures |Filled(slots[t := [a, b]])| == |Filled(slots)| + 1
  {
    assert Filled(slots[t := [a, b]]) == Filled(slots) + {t};
  }

  lemma {:induction false} AllFilled(slots: Slots)
    requires forall c: Byte :: slots[c] != []
    ensures |Filled(slots)| == 256
  {
    assert Filled(slots) == AllBytes(256);
  }

  lemma {:induction false} PairCounted(syms: seq<Bytes>, j: nat)
    requires j < |syms| && |syms[j]| >= 2
    ensures Total(syms, syms[j][0], syms[j][1]) > 0
  {
    assert PairAt(syms[j], 0, syms[j][0], syms[j][1]);
    TotalOccurs(syms, syms[j][0], syms[j][1]);
  }

  ghost function AllBytes(n: nat): (r: set<Byte>)
    requires n <= 256
    ensures |r| == n && forall c: Byte :: c in r <==> c < n
  {
    if n == 0 then {} else AllBytes(n - 1) + {n - 1}
  }

  /** Each slot that is filled costs one byte of the table at least, so that a
      name on its own ends as a single byte. */
  lemma {:induction false} LoneNameIsToken(slots: Slots, cur: seq<Bytes>, orig: seq<Bytes>)
    requires Readable(orig) && Compressed(slots, cur, orig) && |orig| == 1
    requires (exists c: Byte :: slots[c] == []) ==> forall a: Byte, b: Byte :: Total(cur, a, b) == 0
    requires |Filled(slots)| + TotalLength(cur) <= |Characters(orig)| + TotalLength(orig) <= 256
    ensures |cur[0]| == 1 && ExpandByte(slots, cur[0][0]) == orig[0]
  {
    assert Expand(slots, cur[0]) == orig[0];
    assert TotalLength(cur) == |cur[0]| + TotalLength(cur[1..]);
    if forall c: Byte :: slots[c] != [] {
      AllFilled(slots);
    }
    if |cur[0]| >= 2 {
      PairCounted(cur, 0);
    } else {
      assert cur[0][1..] == [];
    }
  }

  /** Bounds the depth of the recursion of `expand_symbol`. */
  function ByteRank(slots: Slots, c: Byte): nat {
    var v: int := c;
    if IsChar(slots, c) then 0 else 256 - v
  }

  function Rank(slots: Slots, s: Bytes): nat {
    if s == [] then 0
    else
      var first, rest := ByteRank(slots, s[0]), Rank(slots, s[1..]);
      if first > rest then first else rest
  }

  lemma {:induction false} RankOfPart(slots: Slots, s: Bytes, k: nat)
    requires k < |s|
    ensures ByteRank(slots, s[k]) <= Rank(slots, s)
  {
    if k > 0 {
      RankOfPart(slots, s[1..], k - 1);
    }
  }

  lemma {:induction false} SlotRankDrops(slots: Slots, s: Bytes, k: nat)
    requires Acyclic(slots) && k < |s| && !IsChar(slots, s[k])
    ensures Rank(slots, slots[s[k]]) < Rank(slots, s)
    ensures ExpandByte(slots, s[k]) == Expand(slots, slots[s[k]])
  {
    RankOfPart(slots, s, k);
    var slot := slots[s[k]];
    if slot != [] {
      var x, y := slot[0], slot[1];
      assert MayUse(slots, s[k], x) && MayUse(slots, s[k], y);
      assert slot == [x, y] && [x, y][1..] == [y];
      assert ByteRank(slots, x) < ByteRank(slots, s[k]) && ByteRank(slots, y) < ByteRank(slots, s[k]);
      assert Rank(slots, [y]) == ByteRank(slots, y);
      assert Expand(slots, [y]) == ExpandByte(slots, y);
    }
  }

  lemma {:induction false} SlotOfByte(slots: Slots, c: Byte)
    requires Acyclic(slots) && !IsChar(slots, c)
    ensures Rank(slots, slots[c]) < ByteRank(slots, c)
    ensures ExpandByte(slots, c) == Expand(slots, slots[c])
  {
    SlotRankDrops(slots, [c], 0);
  }

  // --------------------------------------------------------------- histogram

  const TOKENS := 0x1_0000

  function Lo(t: int): Byte { t % 256 }

  function Hi(t: int): Byte
    requires 0 <= t < TOKENS
  {
    t / 256
  }

  function Index(x: Byte, y: Byte): (t: int)
    ensures 0 <= t < TOKENS && Lo(t) == x && Hi(t) == y
  {
    x + 256 * y
  }

  ghost predicate Used(syms: seq<Bytes>, c: Byte) {
    exists j :: 0 <= j < |syms| && c in syms[j]
  }

  lemma {:induction false} UsedSnoc(syms: seq<Bytes>, s: Bytes)
    ensures forall c: Byte :: Used(syms + [s], c) <==> Used(syms, c) || c in s
  {
    forall c: Byte ensures Used(syms + [s], c) <==> Used(syms, c) || c in s {
      if j :| 0 <= j < |syms| && c in syms[j] {
        assert (syms + [s])[j] == syms[j];
      }
      if c in s {
        assert (syms + [s])[|syms|] == s;
      }
    }
  }

  // ------------------------------------------------------------ the choice of pairs

  /** No pair occurs more often, and none with a smaller number as often. */
  ghost predicate Best(syms: seq<Bytes>, a: Byte, b: Byte) {
    && Total(syms, a, b) > 0
    && forall x: Byte, y: Byte :: Total(syms, x, y) <= Total(syms, a, b)
                               && (Index(x, y) < Index(a, b) ==> Total(syms, x, y) < Total(syms, a, b))
  }

  /** The table and the names at some time. */
  datatype Stage = Stage(slots: Slots, names: seq<Bytes>)

  /** The best pair is put into the last empty slot, and replaced everywhere. */
  ghost predicate Greedy(s: Stage, s': Stage, t: Byte, a: Byte, b: Byte) {
    && s.slots[t] == [] && (forall c: Byte :: c > t ==> s.slots[c] != [])
    && Best(s.names, a, b) && s'.slots == s.slots[t := [a, b]] && Replaced(s.names, s'.names, a, b, t)
  }

  ghost predicate GreedyStep(s: Stage, s': Stage) {
    exists t: Byte, a: Byte, b: Byte :: Greedy(s, s', t, a, b)
  }

  /** As long as there is an empty slot and a pair that occurs. */
  ghost predicate GreedyRun(run: seq<Stage>, first: Stage, last: Stage) {
    && |run| > 0 && run[0] == first && run[|run| - 1] == last
    && forall k :: 0 < k < |run| ==> GreedyStep(run[k - 1], run[k])
  }

  /** Nothing is left to do. */
  ghost predicate Exhausted(s: Stage) {
    (exists c: Byte :: s.slots[c] == []) ==> forall a: Byte, b: Byte :: Total(s.names, a, b) == 0
  }

  lemma {:induction false} BestUnique(syms: seq<Bytes>, a: Byte, b: Byte, x: Byte, y: Byte)
    requires Best(syms, a, b) && Best(syms, x, y)
    ensures a == x && b == y
  {
    assert Index(a, b) == Index(x, y);
    assert Lo(Index(a, b)) == Lo(Index(x, y)) && Hi(Index(a, b)) == Hi(Index(x, y));
  }

  lemma {:induction false} GreedyUnique(s: Stage, x: Stage, y: Stage)
    requires GreedyStep(s, x) && GreedyStep(s, y)
    ensures x == y
  {
    var t: Byte, a: Byte, b: Byte :| Greedy(s, x, t, a, b);
    var u: Byte, c: Byte, d: Byte :| Greedy(s, y, u, c, d);
    BestUnique(s.names, a, b, c, d);
    assert t == u;
    assert x.names == y.names;
  }

  lemma {:induction false} ExhaustedEnds(s: Stage, s': Stage)
    requires Exhausted(s)
    ensures !GreedyStep(s, s')
  {}

  /** Whatever runs there are, there is only one end. */
  lemma {:induction false} GreedyOnce(run: seq<Stage>, other: seq<Stage>, first: Stage, last: Stage, end: Stage)
    requires GreedyRun(run, first, last) && GreedyRun(other, first, end) && Exhausted(last) && Exhausted(end)
    ensures last == end
  {
    if |run| == 1 && |other| > 1 {
      assert GreedyStep(other[0], other[1]);
      ExhaustedEnds(first, other[1]);
    } else if |run| > 1 && |other| == 1 {
      assert GreedyStep(run[0], run[1]);
      ExhaustedEnds(first, run[1]);
    } else if |run| > 1 {
      assert GreedyStep(run[0], run[1]) && GreedyStep(other[0], other[1]);
      GreedyUnique(first, run[1], other[1]);
      GreedyTail(run, first, last);
      GreedyTail(other, first, end);
      GreedyOnce(run[1..], other[1..], run[1], last, end);
    }
  }

  lemma {:induction false} GreedyTail(run: seq<Stage>, first: Stage, last: Stage)
    requires GreedyRun(run, first, last) && |run| > 1
    ensures GreedyRun(run[1..], run[1], last)
  {
    var r := run[1..];
    forall k | 0 < k < |r| ensures GreedyStep(r[k - 1], r[k]) {
      assert GreedyStep(run[k], run[k + 1]);
    }
  }

  lemma {:induction false} GreedyMore(run: seq<Stage>, first: Stage, last: Stage, next: Stage)
    requires GreedyRun(run, first, last) && GreedyStep(last, next)
    ensures GreedyRun(run + [next], first, next)
  {
    var r := run + [next];
    forall k | 0 < k < |r| ensures GreedyStep(r[k - 1], r[k]) {
      if k < |run| { assert GreedyStep(run[k - 1], run[k]); }
    }
  }

  class Compressor {
    const table: seq<SymEntry>
    const token_profit: array<int>
    const best_table: array2<Byte>
    const best_table_len: array<nat>
    ghost var cur: seq<Bytes>
    ghost var slots: Slots

    /** All objects are distinct and of their fixed sizes. */
    ghost predicate Separate() {
      && token_profit.Length == TOKENS && best_table_len.Length == 256
      && best_table.Length0 == 256 && best_table.Length1 == 2
      && forall i, j :: 0 <= i < j < |table| ==> table[i] != table[j] && table[i].sym != table[j].sym
    }

    ghost function Entries(): (entries: set<SymEntry>)
      ensures forall e :: e in table ==> e in entries
    {
      set e | e in table
    }

    ghost function Texts(): (texts: set<array<Byte>>)
      ensures forall e :: e in table ==> e.sym in texts
    {
      set e | e in table :: e.sym
    }

    /** `cur` are the names as they stand in the entries. */
    ghost predicate Names()
      reads this, Entries(), Texts()
    {
      && Separate() && |cur| == |table|
      && forall i :: 0 <= i < |table| ==> table[i].Valid() && table[i].Name() == cur[i]
    }

    /** The histogram is exact. */
    ghost predicate Exact(syms: seq<Bytes>)
      requires token_profit.Length == TOKENS
      reads token_profit
    {
      forall t :: 0 <= t < TOKENS ==> token_profit[t] == Total(syms, Lo(t), Hi(t))
    }

    method LearnSymbol(e: SymEntry)
      requires Separate() && e.Valid()
      modifies token_profit
      ensures forall t :: 0 <= t < TOKENS ==>
                token_profit[t] == old(token_profit[t]) + Count(e.Name(), Lo(t), Hi(t))
    {
      var i := 0;
      while i < e.len - 1
        invariant 0 <= i && (e.len > 0 ==> i < e.len)
        invariant e.len == 0 ==> i == 0
        invariant forall t :: 0 <= t < TOKENS ==>
                    token_profit[t]
                    == old(token_profit[t]) + Count(e.sym[..if e.len == 0 then 0 else i + 1], Lo(t), Hi(t))
      {
        var k := Index(e.sym[i], e.sym[i + 1]);
        ghost var s, x := e.sym[..i + 1], e.sym[i + 1];
        token_profit[k] := token_profit[k] + 1;
        forall t | 0 <= t < TOKENS
          ensures Count(e.sym[..i + 2], Lo(t), Hi(t)) == Count(s, Lo(t), Hi(t)) + if t == k then 1 else 0
        {
          CountSnoc(s, x, Lo(t), Hi(t));
          assert e.sym[..i + 2] == s + [x];
        }
        i := i + 1;
      }
    }

    method ForgetSymbol(e: SymEntry)
      requires Separate() && e.Valid()
      modifies token_profit
      ensures forall t :: 0 <= t < TOKENS ==>
                token_profit[t] == old(token_profit[t]) - Count(e.Name(), Lo(t), Hi(t))
    {
      var i := 0;
      while i < e.len - 1
        invariant 0 <= i && (e.len > 0 ==> i < e.len)
        invariant e.len == 0 ==> i == 0
        invariant forall t :: 0 <= t < TOKENS ==>
                    token_profit[t]
                    == old(token_profit[t]) - Count(e.sym[..if e.len == 0 then 0 else i + 1], Lo(t), Hi(t))
      {
        var k := Index(e.sym[i], e.sym[i + 1]);
        ghost var s, x := e.sym[..i + 1], e.sym[i + 1];
        token_profit[k] := token_profit[k] - 1;
        forall t | 0 <= t < TOKENS
          ensures Count(e.sym[..i + 2], Lo(t), Hi(t)) == Count(s, Lo(t), Hi(t)) + if t == k then 1 else 0
        {
          CountSnoc(s, x, Lo(t), Hi(t));
          assert e.sym[..i + 2] == s + [x];
        }
        i := i + 1;
      }
    }

    /** The histogram of all symbols, as `build_initial_tok_table` leaves it. */
    method BuildInitialTokTable()
      requires Names() && Exact([])
      modifies token_profit
      ensures Names() && Exact(cur)
    {
      var i := 0;
      while i < |table|
        invariant 0 <= i <= |table| && Names() && Exact(cur[..i])
      {
        LearnSymbol(table[i]);
        assert cur[..i + 1] == cur[..i] + [cur[i]];
        forall t | 0 <= t < TOKENS ensures Total(cur[..i + 1], Lo(t), Hi(t))
          == Total(cur[..i], Lo(t), Hi(t)) + Count(cur[i], Lo(t), Hi(t)) {
          TotalSnoc(cur[..i], cur[i], Lo(t), Hi(t));
        }
        i := i + 1;
      }
      assert cur[..i] == cur;
    }

    /** The most frequent pair, and the least one among equals. */
    method FindBestToken() returns (best: nat)
      requires token_profit.Length == TOKENS
      requires forall t :: 0 <= t < TOKENS ==> token_profit[t] >= 0
      ensures best < TOKENS
      ensures forall t :: 0 <= t < TOKENS ==> token_profit[t] <= token_profit[best]
      ensures forall t :: 0 <= t < best ==> token_profit[t] < token_profit[best]
    {
      var bestprofit := -10000;
      best := 0;
      for i := 0 to TOKENS
        invariant best < TOKENS
        invariant i == 0 ==> best == 0 && bestprofit == -10000
        invariant i > 0 ==> best < i && bestprofit == token_profit[best]
        invariant forall t :: 0 <= t < i ==> token_profit[t] <= bestprofit
        invariant forall t :: 0 <= t < best ==> token_profit[t] < bestprofit
      {
        if token_profit[i] > bestprofit {
          best := i;
          bestprofit := token_profit[i];
        }
      }
    }

    /** One symbol of `compress_symbols`: the histogram forgets the old form of
        the symbol and learns the new one. */
    method CompressSymbol(i: nat, a: Byte, b: Byte, t: Byte)
      requires Names() && Exact(cur) && i < |table| && a != 0 && b != 0
      modifies token_profit, table[i], table[i].sym, this`cur
      ensures Names() && Exact(cur)
      ensures cur == old(cur)[i := Replace(old(cur)[i], a, b, t)]
    {
      var e := table[i];
      ghost var before, s := cur, cur[i];
      assert e.sym[0..0 + e.len] == s;
      var p2 := FindToken(e.sym, 0, e.len, a, b);
      if p2 == NotFound {
        ReplaceNone(s, a, b, t);
        return;
      }
      ForgetSymbol(e);
      e.ReplaceToken(p2.pos, a, b, t);
      LearnSymbol(e);
      cur := cur[i := Replace(s, a, b, t)];
      forall t | 0 <= t < TOKENS ensures token_profit[t] == Total(cur, Lo(t), Hi(t)) {
        TotalUpdate(before, i, cur[i], Lo(t), Hi(t));
      }
    }

    /** Replace the token in all symbols. */
    method CompressSymbols(a: Byte, b: Byte, t: Byte)
      requires Names() && Exact(cur) && a != 0 && b != 0
      modifies token_profit, Entries(), Texts(), this`cur
      ensures Names() && Exact(cur) && Replaced(old(cur), cur, a, b, t)
      ensures unchanged(best_table, best_table_len) && slots == old(slots)
    {
      var i := 0;
      while i < |table|
        invariant 0 <= i <= |table| && Names() && Exact(cur)
        invariant forall j :: 0 <= j < i ==> cur[j] == Replace(old(cur)[j], a, b, t)
        invariant forall j :: i <= j < |table| ==> cur[j] == old(cur)[j]
      {
        CompressSymbol(i, a, b, t);
        i := i + 1;
      }
    }

    constructor (table: seq<SymEntry>)
      requires forall i, j :: 0 <= i < j < |table| ==> table[i] != table[j] && table[i].sym != table[j].sym
      requires forall i :: 0 <= i < |table| ==> table[i].Valid()
      ensures this.table == table && Names() && Exact([])
      ensures fresh(token_profit) && fresh(best_table) && fresh(best_table_len)
    {
      this.table := table;
      token_profit := new int[TOKENS](_ => 0);
      best_table := new Byte[256, 2];
      best_table_len := new nat[256];
      slots := seq(256, _ => []);
      new;
      cur := [];
      while |cur| < |table|
        invariant |cur| <= |table| && forall i :: 0 <= i < |table| ==> table[i].Valid()
        invariant forall i :: 0 <= i < |cur| ==> table[i].Name() == cur[i]
        invariant forall t :: 0 <= t < TOKENS ==> token_profit[t] == 0
      {
        cur := cur + [table[|cur|].Name()];
      }
    }

    /** The arrays `best_table` and `best_table_len` spell the slots. */
    ghost predicate Tabulated()
      reads this, best_table, best_table_len
    {
      && Separate()
      && forall c: Byte ::
           && |slots[c]| == best_table_len[c] <= 2
           && (|slots[c]| >= 1 ==> slots[c][0] == best_table[c, 0])
           && (|slots[c]| == 2 ==> slots[c][1] == best_table[c, 1])
    }

    /** The characters of one symbol. */
    method InsertSymbol(e: SymEntry)
      requires Tabulated() && e.Valid()
      requires forall c: Byte :: slots[c] == [] || slots[c] == [c]
      modifies best_table, best_table_len, this`slots
      ensures Tabulated()
      ensures forall c: Byte :: slots[c] == if old(slots)[c] != [] || c in e.Name() then [c] else []
    {
      var j := 0;
      while j < e.len
        invariant 0 <= j <= e.len && Tabulated()
        invariant forall c: Byte :: slots[c] == if old(slots)[c] != [] || c in e.Name()[..j] then [c] else []
      {
        var c := e.sym[j];
        assert e.Name()[..j + 1] == e.Name()[..j] + [c];
        best_table[c, 0] := c;
        best_table_len[c] := 1;
        slots := slots[c := [c]];
        j := j + 1;
      }
      assert e.Name()[..j] == e.Name();
    }

    /** The `memset` of both arrays. */
    method ClearTable()
      requires Separate()
      modifies best_table, best_table_len, this`slots
      ensures Tabulated() && forall c: Byte :: slots[c] == []
    {
      forall c, k | 0 <= c < 256 && 0 <= k < 2 { best_table[c, k] := 0; }
      forall c | 0 <= c < 256 { best_table_len[c] := 0; }
      slots := seq(256, _ => []);
    }

    /** Every character in use gets the slot that is its own index; all other
        slots are empty. */
    method InsertRealSymbolsInTable()
      requires Names()
      modifies best_table, best_table_len, this`slots
      ensures Tabulated()
      ensures forall c: Byte :: slots[c] == if Used(cur, c) then [c] else []
    {
      ClearTable();
      var i := 0;
      while i < |table|
        invariant 0 <= i <= |table| && Names() && Tabulated()
        invariant forall c: Byte :: slots[c] == if Used(cur[..i], c) then [c] else []
      {
        InsertSymbol(table[i]);
        assert cur[..i + 1] == cur[..i] + [cur[i]];
        UsedSnoc(cur[..i], cur[i]);
        i := i + 1;
      }
      assert cur[..i] == cur;
    }

    /** What holds between two slots of `optimize_result`: slots up to `i` hold
        characters or nothing. */
    ghost predicate Optimizing(i: int, orig: seq<Bytes>)
      reads this, token_profit, best_table, best_table_len, Entries(), Texts()
    {
      && Names() && Tabulated() && Exact(cur)
      && Compressed(slots, cur, orig)
      && (forall c: Byte :: c <= i ==> |slots[c]| != 2)
      && (i >= 0 ==> NulFree(cur))
    }

    method SetPair(t: Byte, a: Byte, b: Byte)
      requires Tabulated()
      modifies best_table, best_table_len, this`slots
      ensures Tabulated() && slots == old(slots)[t := [a, b]]
    {
      best_table_len[t] := 2;
      best_table[t, 0] := a;
      best_table[t, 1] := b;
      slots := slots[t := [a, b]];
    }

    /** The pair gets a slot and is replaced everywhere. */
    method ReplacePair(a: Byte, b: Byte, t: Byte)
      requires Names() && Tabulated() && Exact(cur) && a != 0 && b != 0
      modifies token_profit, best_table, best_table_len, Entries(), Texts(), this`cur, this`slots
      ensures Names() && Tabulated() && Exact(cur)
      ensures Replaced(old(cur), cur, a, b, t) && slots == old(slots)[t := [a, b]]
    {
      SetPair(t, a, b);
      CompressSymbols(a, b, t);
    }

    method AddToken(i: Byte, best: nat, ghost orig: seq<Bytes>)
      requires Optimizing(i, orig) && Readable(orig)
      requires slots[i] == [] && best < TOKENS && token_profit[best] > 0
      modifies token_profit, best_table, best_table_len, Entries(), Texts(), this`cur, this`slots
      ensures Optimizing(i - 1, orig)
      ensures slots == old(slots)[i := [Lo(best), Hi(best)]]
      ensures Replaced(old(cur), cur, Lo(best), Hi(best), i)
      ensures TotalLength(cur) < old(TotalLength(cur))
      ensures |Filled(slots)| == |Filled(old(slots))| + 1
    {
      var a, b := Lo(best), Hi(best);
      ghost var before, was := cur, slots;
      assert Total(cur, a, b) > 0;
      PairFits(was, before, orig, i, a, b);
      ReplacePair(a, b, i);
      StepKeeps(was, before, cur, orig, i, a, b);
      FilledMore(was, i, a, b);
    }

    /** What the histogram says is best. */
    lemma {:induction false} BestFound(best: nat)
      requires Separate() && Exact(cur) && best < TOKENS && token_profit[best] > 0
      requires forall t :: 0 <= t < TOKENS ==> token_profit[t] <= token_profit[best]
      requires forall t :: 0 <= t < best ==> token_profit[t] < token_profit[best]
      ensures Best(cur, Lo(best), Hi(best))
    {
      assert Index(Lo(best), Hi(best)) == best;
      forall x: Byte, y: Byte
        ensures Total(cur, x, y) <= Total(cur, Lo(best), Hi(best))
        ensures Index(x, y) < best ==> Total(cur, x, y) < Total(cur, Lo(best), Hi(best))
      {
        assert token_profit[Index(x, y)] == Total(cur, x, y);
      }
    }

    lemma {:induction false} NoneFound(best: nat)
      requires Separate() && Exact(cur) && best < TOKENS && token_profit[best] == 0
      requires forall t :: 0 <= t < TOKENS ==> token_profit[t] <= token_profit[best]
      ensures forall a: Byte, b: Byte :: Total(cur, a, b) == 0
    {
      forall a: Byte, b: Byte ensures Total(cur, a, b) == 0 {
        assert token_profit[Index(a, b)] == Total(cur, a, b);
      }
    }

    ghost function Now(): Stage
      reads this
    {
      Stage(slots, cur)
    }

    /** The best pair gets the slot. */
    method AddBest(i: Byte, best: nat, ghost orig: seq<Bytes>)
      requires Optimizing(i, orig) && Readable(orig) && slots[i] == [] && forall c: Byte :: c > i ==> slots[c] != []
      requires best < TOKENS && token_profit[best] > 0
      requires forall t :: 0 <= t < TOKENS ==> token_profit[t] <= token_profit[best]
      requires forall t :: 0 <= t < best ==> token_profit[t] < token_profit[best]
      modifies token_profit, best_table, best_table_len, Entries(), Texts(), this`cur, this`slots
      ensures Optimizing(i - 1, orig) && GreedyStep(old(Now()), Now()) && TotalLength(cur) < old(TotalLength(cur))
      ensures |Filled(slots)| == |Filled(old(slots))| + 1 && forall c: Byte :: c >= i ==> slots[c] != []
    {
      BestFound(best);
      ghost var before := Now();
      AddToken(i, best, orig);
      assert Greedy(before, Now(), i, Lo(best), Hi(best));
    }

    /** The slot is filled, if there is a pair. */
    method FillSlot(i: Byte, ghost orig: seq<Bytes>) returns (done: bool)
      requires Optimizing(i, orig) && Readable(orig) && slots[i] == [] && forall c: Byte :: c > i ==> slots[c] != []
      modifies token_profit, best_table, best_table_len, Entries(), Texts(), this`cur, this`slots
      ensures done ==> Now() == old(Now()) && Optimizing(i, orig) && forall a: Byte, b: Byte :: Total(cur, a, b) == 0
      ensures !done ==>
                && Optimizing(i - 1, orig) && GreedyStep(old(Now()), Now()) && TotalLength(cur) < old(TotalLength(cur))
                && |Filled(slots)| == |Filled(old(slots))| + 1 && forall c: Byte :: c >= i ==> slots[c] != []
    {
      var best := FindBestToken();
      if token_profit[best] == 0 {
        NoneFound(best);
        return true;
      }
      AddBest(i, best, orig);
      done := false;
    }

    /** Slots are filled from the top as long as some pair occurs, with the pair that
        occurs most. */
    method OptimizeResult(ghost orig: seq<Bytes>) returns (ghost run: seq<Stage>)
      requires Optimizing(255, orig) && Readable(orig)
      modifies token_profit, best_table, best_table_len, Entries(), Texts(), this`cur, this`slots
      ensures Names() && Tabulated() && Compressed(slots, cur, orig)
      ensures TotalLength(cur) <= old(TotalLength(cur))
      ensures |Filled(slots)| + TotalLength(cur) <= old(|Filled(slots)| + TotalLength(cur))
      ensures Exhausted(Now()) && GreedyRun(run, old(Now()), Now())
    {
      var i := 255;
      run := [Now()];
      while i >= 0
        invariant -1 <= i <= 255 && Optimizing(i, orig)
        invariant TotalLength(cur) <= old(TotalLength(cur))
        invariant |Filled(slots)| + TotalLength(cur) <= old(|Filled(slots)| + TotalLength(cur))
        invariant forall c: Byte :: c > i ==> slots[c] != []
        invariant GreedyRun(run, old(Now()), Now())
      {
        if best_table_len[i] == 0 {
          ghost var before := Now();
          var done := FillSlot(i, orig);
          if done {
            return;
          }
          GreedyMore(run, old(Now()), before, Now());
          run := run + [Now()];
        }
        i := i - 1;
      }
    }

    /** Counts and characters. */
    method Prepare()
      requires Names() && Exact([]) && Readable(cur)
      modifies token_profit, best_table, best_table_len, this`slots
      ensures Optimizing(255, cur) && Filled(slots) == Characters(cur) && slots == CharacterSlots(cur)
    {
      BuildInitialTokTable();
      InsertRealSymbolsInTable();
      InitiallyCompressed(slots, cur);
    }

    /** Build the table from the names as they stand; an empty table is an error. */
    method OptimizeTokenTable() returns (ok: bool, ghost run: seq<Stage>)
      requires Names() && Exact([]) && Readable(cur)
      modifies token_profit, best_table, best_table_len, Entries(), Texts(), this`cur, this`slots
      ensures ok <==> table != []
      ensures ok ==> Names() && Tabulated() && Compressed(slots, cur, old(cur))
      ensures ok ==> TotalLength(cur) <= old(TotalLength(cur))
      ensures ok ==> |Filled(slots)| + TotalLength(cur) <= |Characters(old(cur))| + TotalLength(old(cur))
      ensures ok ==> Exhausted(Now()) && GreedyRun(run, Stage(CharacterSlots(old(cur)), old(cur)), Now())
    {
      Prepare();
      if |table| == 0 {
        return false, [];
      }
      run := OptimizeResult(cur);
      return true, run;
    }

    /** The first `best_table_len[c]` bytes of `best_table[c]`. */
    method Slot(c: Byte) returns (slot: Bytes)
      requires Tabulated()
      ensures slot == slots[c]
    {
      slot := [];
      for j := 0 to best_table_len[c]
        invariant slot == slots[c][..j]
      {
        slot := slot + [best_table[c, j]];
      }
    }

    /** `expand_symbol`: recursive, because slots may hold tokens themselves.
        `ok` is false where the original writes behind the end of `result`. */
    method ExpandSymbol(data: Bytes, result: array<Byte>, at: nat) returns (ok: bool, total: nat)
      requires Tabulated() && Acyclic(slots) && at <= result.Length
      modifies result
      ensures ok <==> at + |Expand(slots, data)| < result.Length
      ensures ok ==> total == |Expand(slots, data)| && Ended(old(result[..]), result[..], at, Expand(slots, data))
      decreases Rank(slots, data), 1
    {
      total := 0;
      var k := 0;
      ghost var begun := result[..];
      while k < |data|
        invariant 0 <= k <= |data| && total == |Expand(slots, data[..k])|
        invariant Spelled(begun, result[..], at, Expand(slots, data[..k]))
      {
        ghost var before := result[..];
        RankOfPart(slots, data, k);
        var fits, rlen := ExpandChar(data[k], result, at + total);
        if !fits {
          ExpandNext(slots, data, k);
          return false, total;
        }
        SpelledNext(begun, before, result[..], at, slots, data, k);
        total := total + rlen;
        k := k + 1;
      }
      assert data[..k] == data;
      if at + total == result.Length {
        return false, total;
      }
      ghost var before := result[..];
      result[at + total] := 0;
      EndedByNul(begun, before, result[..], at, Expand(slots, data));
      return true, total;
    }

    /** One turn of its loop. */
    method ExpandChar(c: Byte, result: array<Byte>, at: nat) returns (fits: bool, rlen: nat)
      requires Tabulated() && Acyclic(slots) && at <= result.Length
      modifies result
      ensures fits ==> rlen == |ExpandByte(slots, c)| && Spelled(old(result[..]), result[..], at, ExpandByte(slots, c))
      ensures !fits ==> at + |ExpandByte(slots, c)| >= result.Length
      decreases ByteRank(slots, c), 0
    {
      if best_table_len[c] == 1 && best_table[c, 0] == c {
        if at == result.Length {
          return false, 0;
        }
        result[at] := c;
        StoredChar(old(result[..]), result[..], at, c);
        return true, 1;
      }
      var slot := Slot(c);
      SlotOfByte(slots, c);
      fits, rlen := ExpandSymbol(slot, result, at);
    }
  }

  /** `s` has been put at `at`, and nothing more than one byte behind it. */
  ghost predicate Spelled(before: Bytes, after: Bytes, at: nat, s: Bytes) {
    && |after| == |before| && at + |s| <= |after|
    && after[..at] == before[..at] && after[at..at + |s|] == s
    && forall i :: at + |s| < i < |after| ==> after[i] == before[i]
  }

  /** ... and ended by NUL. */
  ghost predicate Ended(before: Bytes, after: Bytes, at: nat, s: Bytes) {
    Spelled(before, after, at, s) && at + |s| < |after| && after[at + |s|] == 0
  }

  lemma EndedByNul(begun: Bytes, before: Bytes, after: Bytes, at: nat, s: Bytes)
    requires Spelled(begun, before, at, s) && at + |s| < |before| && after == before[at + |s| := 0]
    ensures Ended(begun, after, at, s)
  {}

  lemma StoredChar(before: Bytes, after: Bytes, p: nat, c: Byte)
    requires p < |before| && after == before[p := c]
    ensures Spelled(before, after, p, [c])
  {}

  lemma {:induction false} SpelledNext(begun: Bytes, before: Bytes, after: Bytes, at: nat, slots: Slots, data: Bytes,
                                       k: nat)
    requires Acyclic(slots) && k < |data| && Spelled(begun, before, at, Expand(slots, data[..k]))
    requires Spelled(before, after, at + |Expand(slots, data[..k])|, ExpandByte(slots, data[k]))
    ensures Spelled(begun, after, at, Expand(slots, data[..k + 1]))
    ensures |Expand(slots, data[..k + 1])| == |Expand(slots, data[..k])| + |ExpandByte(slots, data[k])|
  {
    ExpandNext(slots, data, k);
    SpelledOn(begun, before, after, at, Expand(slots, data[..k]), ExpandByte(slots, data[k]));
  }

  lemma {:induction false} SpelledOn(before: Bytes, mid: Bytes, after: Bytes, at: nat, s: Bytes, t: Bytes)
    requires Spelled(before, mid, at, s) && Spelled(mid, after, at + |s|, t)
    ensures Spelled(before, after, at, s + t)
  {
    assert after[..at + |s|][..at] == mid[..at + |s|][..at] == mid[..at];
    assert after[at..at + |s|] == after[..at + |s|][at..] == mid[at..at + |s|];
    assert after[at..at + |s + t|] == after[at..at + |s|] + after[at + |s|..at + |s| + |t|];
  }

  /** One more byte of the string. */
  lemma {:induction false} ExpandNext(slots: Slots, data: Bytes, k: nat)
    requires Acyclic(slots) && k < |data|
    ensures Expand(slots, data[..k + 1]) == Expand(slots, data[..k]) + ExpandByte(slots, data[k])
    ensures |Expand(slots, data[..k + 1])| <= |Expand(slots, data)|
  {
    assert data[..k + 1] == data[..k] + [data[k]];
    ExpandConcat(slots, data[..k], [data[k]]);
    assert Expand(slots, [data[k]]) == ExpandByte(slots, data[k]);
    assert data == data[..k + 1] + data[k + 1..];
    ExpandConcat(slots, data[..k + 1], data[k + 1..]);
  }
}
