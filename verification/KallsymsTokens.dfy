/** Byte-pair compression of symbol names: what one replacement step and the
    token table mean.

    A slot of the token table is empty, holds the character that is its own
    index, or holds a pair of bytes that are in turn looked up in the table.
  */
module KallsymsTokens {
  import opened ByteStrings

  const KSYM_NAME_LEN := 128

  /** A name may have `KSYM_NAME_LEN` characters, and the type byte goes in front. */
  const MAX_SYMBOL := KSYM_NAME_LEN + 1

  // ------------------------------------------------------------ replacement

  predicate PairAt(s: Bytes, i: int, a: Byte, b: Byte) {
    0 <= i < |s| - 1 && s[i] == a && s[i + 1] == b
  }

  ghost predicate Occurs(s: Bytes, a: Byte, b: Byte) {
    exists i :: PairAt(s, i, a, b)
  }

  ghost predicate NoPairBefore(s: Bytes, i: int, a: Byte, b: Byte) {
    forall j :: 0 <= j < i ==> !PairAt(s, j, a, b)
  }

  /** Leftmost, non-overlapping replacement of the pair `a b` by `t`. */
  function Replace(s: Bytes, a: Byte, b: Byte, t: Byte): Bytes {
    if |s| < 2 then s
    else if s[0] == a && s[1] == b then [t] + Replace(s[2..], a, b, t)
    else [s[0]] + Replace(s[1..], a, b, t)
  }

  lemma {:induction false} ReplaceNone(s: Bytes, a: Byte, b: Byte, t: Byte)
    requires !Occurs(s, a, b)
    ensures Replace(s, a, b, t) == s
  {
    if |s| >= 2 {
      assert !PairAt(s, 0, a, b);
      forall i ensures !PairAt(s[1..], i, a, b) {
        assert !PairAt(s, i + 1, a, b);
      }
      ReplaceNone(s[1..], a, b, t);
    }
  }

  /** Replacement from the first occurrence on. */
  lemma {:induction false} ReplaceFirst(s: Bytes, a: Byte, b: Byte, t: Byte, i: int)
    requires PairAt(s, i, a, b)
    requires NoPairBefore(s, i, a, b)
    ensures Replace(s, a, b, t) == s[..i] + [t] + Replace(s[i + 2..], a, b, t)
    decreases |s|
  {
    if i > 0 {
      assert !PairAt(s, 0, a, b);
      forall j | 0 <= j < i - 1 ensures !PairAt(s[1..], j, a, b) {
        assert !PairAt(s, j + 1, a, b);
      }
      ReplaceFirst(s[1..], a, b, t, i - 1);
      var tail := Replace(s[i + 2..], a, b, t);
      assert s[1..][i + 1..] == s[i + 2..];
      assert [s[0]] + (s[1..][..i - 1] + [t] + tail) == s[..i] + [t] + tail;
    }
  }

  /** Replacement uses no other bytes, and shortens what contains the pair. */
  lemma {:induction false} ReplaceShortens(s: Bytes, a: Byte, b: Byte, t: Byte)
    ensures |Replace(s, a, b, t)| <= |s|
    ensures Occurs(s, a, b) ==> |Replace(s, a, b, t)| < |s|
    ensures forall x :: x in Replace(s, a, b, t) ==> x in s || (x == t && Occurs(s, a, b))
    ensures s != [] ==> Replace(s, a, b, t) != []
    decreases |s|
  {
    if |s| >= 2 {
      if s[0] == a && s[1] == b {
        assert PairAt(s, 0, a, b);
        ReplaceShortens(s[2..], a, b, t);
      } else {
        ReplaceShortens(s[1..], a, b, t);
        if Occurs(s, a, b) {
          var i :| PairAt(s, i, a, b);
          assert PairAt(s[1..], i - 1, a, b);
        }
        if Occurs(s[1..], a, b) {
          var i :| PairAt(s[1..], i, a, b);
          assert PairAt(s, i + 1, a, b);
        }
      }
    }
  }

  // ------------------------------------------------------------- pair counts

  function Count(s: Bytes, a: Byte, b: Byte): nat {
    if |s| < 2 then 0
    else (if s[0] == a && s[1] == b then 1 else 0) + Count(s[1..], a, b)
  }

  /** Counting may as well proceed from the front. */
  lemma {:induction false} CountSnoc(s: Bytes, x: Byte, a: Byte, b: Byte)
    requires s != []
    ensures Count(s + [x], a, b) == Count(s, a, b) + if s[|s| - 1] == a && x == b then 1 else 0
  {
    if |s| == 1 {
      assert (s + [x])[1..] == [x];
    } else {
      CountSnoc(s[1..], x, a, b);
      assert (s + [x])[1..] == s[1..] + [x];
    }
  }

  lemma {:induction false} CountOccurs(s: Bytes, a: Byte, b: Byte)
    ensures Count(s, a, b) > 0 <==> Occurs(s, a, b)
  {
    if |s| >= 2 {
      CountOccurs(s[1..], a, b);
      if s[0] == a && s[1] == b {
        assert PairAt(s, 0, a, b);
      } else if Occurs(s, a, b) {
        var i :| PairAt(s, i, a, b);
        assert PairAt(s[1..], i - 1, a, b);
      }
      if Occurs(s[1..], a, b) {
        var i :| PairAt(s[1..], i, a, b);
        assert PairAt(s, i + 1, a, b);
      }
    }
  }

  function Total(syms: seq<Bytes>, a: Byte, b: Byte): nat {
    if syms == [] then 0 else Count(syms[0], a, b) + Total(syms[1..], a, b)
  }

  lemma {:induction false} TotalUpdate(syms: seq<Bytes>, i: nat, s: Bytes, a: Byte, b: Byte)
    requires i < |syms|
    ensures Total(syms[i := s], a, b) == Total(syms, a, b) - Count(syms[i], a, b) + Count(s, a, b)
    decreases i
  {
    if i > 0 {
      TotalUpdate(syms[1..], i - 1, s, a, b);
      assert syms[i := s][1..] == syms[1..][i - 1 := s];
    }
  }

  lemma {:induction false} TotalSnoc(syms: seq<Bytes>, s: Bytes, a: Byte, b: Byte)
    ensures Total(syms + [s], a, b) == Total(syms, a, b) + Count(s, a, b)
  {
    if syms == [] {
      assert syms + [s] == [s];
    } else {
      TotalSnoc(syms[1..], s, a, b);
      assert (syms + [s])[1..] == syms[1..] + [s];
    }
  }

  lemma {:induction false} TotalOccurs(syms: seq<Bytes>, a: Byte, b: Byte)
    ensures Total(syms, a, b) > 0 <==> exists i :: 0 <= i < |syms| && Occurs(syms[i], a, b)
  {
    if syms != [] {
      CountOccurs(syms[0], a, b);
      TotalOccurs(syms[1..], a, b);
      if i :| 0 <= i < |syms[1..]| && Occurs(syms[1..][i], a, b) {
        assert Occurs(syms[i + 1], a, b);
      }
      if i :| 1 <= i < |syms| && Occurs(syms[i], a, b) {
        assert Occurs(syms[1..][i - 1], a, b);
      }
    }
  }

  function TotalLength(syms: seq<Bytes>): nat {
    if syms == [] then 0 else |syms[0]| + TotalLength(syms[1..])
  }

  // --------------------------------------------------------------- the table

  type Slots = s: seq<Bytes> | |s| == 256 witness seq(256, _ => [])

  predicate IsChar(slots: Slots, c: Byte) {
    slots[c] == [c]
  }

  /** A byte of a pair is a plain character, or a pair that was made earlier and
      therefore has a higher index. */
  predicate MayUse(slots: Slots, c: Byte, x: Byte) {
    IsChar(slots, x) || (x > c && |slots[x]| == 2)
  }

  ghost predicate Acyclic(slots: Slots) {
    forall c: Byte ::
      slots[c] == [] || slots[c] == [c] ||
      (|slots[c]| == 2 && MayUse(slots, c, slots[c][0]) && MayUse(slots, c, slots[c][1]))
  }

  /** The characters a byte stands for. */
  ghost function ExpandByte(slots: Slots, c: Byte): Bytes
    requires Acyclic(slots)
    decreases if IsChar(slots, c) then 0 else 256 - c
  {
    if IsChar(slots, c) then [c]
    else if |slots[c]| == 2 then ExpandByte(slots, slots[c][0]) + ExpandByte(slots, slots[c][1])
    else []
  }

  ghost function Expand(slots: Slots, s: Bytes): Bytes
    requires Acyclic(slots)
  {
    if s == [] then [] else ExpandByte(slots, s[0]) + Expand(slots, s[1..])
  }

  ghost predicate InUse(slots: Slots, s: Bytes) {
    forall x :: x in s ==> slots[x] != []
  }

  lemma Regroup(a: Bytes, b: Bytes, c: Bytes)
    ensures (a + b) + c == a + (b + c)
  {}

  lemma {:induction false} ExpandConcat(slots: Slots, s: Bytes, t: Bytes)
    requires Acyclic(slots)
    ensures Expand(slots, s + t) == Expand(slots, s) + Expand(slots, t)
  {
    if s == [] {
      assert s + t == t;
    } else {
      ExpandConcat(slots, s[1..], t);
      assert (s + t)[0] == s[0] && (s + t)[1..] == s[1..] + t;
      Regroup(ExpandByte(slots, s[0]), Expand(slots, s[1..]), Expand(slots, t));
    }
  }

  /** No character is NUL unless NUL is used as a character. */
  lemma {:induction false} ExpandByteNoNul(slots: Slots, c: Byte)
    requires Acyclic(slots) && !IsChar(slots, 0)
    ensures 0 !in ExpandByte(slots, c)
    decreases if IsChar(slots, c) then 0 else 256 - c
  {
    if !IsChar(slots, c) && |slots[c]| == 2 {
      ExpandByteNoNul(slots, slots[c][0]);
      ExpandByteNoNul(slots, slots[c][1]);
    }
  }

  // ------------------------------------------------------ one more token

  /** The new token goes into an empty slot below all pairs made so far. */
  ghost predicate CanAdd(slots: Slots, t: Byte, a: Byte, b: Byte) {
    && Acyclic(slots) && slots[t] == [] && slots[a] != [] && slots[b] != []
    && forall c: Byte :: c <= t ==> |slots[c]| != 2
  }

  lemma {:induction false} AddKeepsAcyclic(slots: Slots, t: Byte, a: Byte, b: Byte)
    requires CanAdd(slots, t, a, b)
    ensures Acyclic(slots[t := [a, b]])
  {
    var slots' := slots[t := [a, b]];
    forall c: Byte
      ensures slots'[c] == [] || slots'[c] == [c] ||
              (|slots'[c]| == 2 && MayUse(slots', c, slots'[c][0]) && MayUse(slots', c, slots'[c][1]))
    {
      if c == t {
        assert MayUse(slots', t, a) && MayUse(slots', t, b);
      } else if |slots[c]| == 2 {
        assert MayUse(slots, c, slots[c][0]) && MayUse(slots, c, slots[c][1]);
      }
    }
  }

  /** Nothing else changes its meaning. */
  lemma {:induction false} AddKeepsByte(slots: Slots, t: Byte, a: Byte, b: Byte, c: Byte)
    requires CanAdd(slots, t, a, b) && c != t
    ensures Acyclic(slots[t := [a, b]])
    ensures ExpandByte(slots[t := [a, b]], c) == ExpandByte(slots, c)
    decreases if IsChar(slots, c) then 0 else 256 - c
  {
    AddKeepsAcyclic(slots, t, a, b);
    if !IsChar(slots, c) && |slots[c]| == 2 {
      assert MayUse(slots, c, slots[c][0]) && MayUse(slots, c, slots[c][1]);
      AddKeepsByte(slots, t, a, b, slots[c][0]);
      AddKeepsByte(slots, t, a, b, slots[c][1]);
    }
  }

  lemma {:induction false} AddKeepsString(slots: Slots, t: Byte, a: Byte, b: Byte, s: Bytes)
    requires CanAdd(slots, t, a, b) && t !in s
    ensures Acyclic(slots[t := [a, b]])
    ensures Expand(slots[t := [a, b]], s) == Expand(slots, s)
  {
    AddKeepsAcyclic(slots, t, a, b);
    if s != [] {
      AddKeepsByte(slots, t, a, b, s[0]);
      AddKeepsString(slots, t, a, b, s[1..]);
    }
  }

  /** Compressing a symbol with a new token leaves its expansion alone. */
  lemma ExpandFirst(slots: Slots, x: Byte, rest: Bytes)
    requires Acyclic(slots)
    ensures Expand(slots, [x] + rest) == ExpandByte(slots, x) + Expand(slots, rest)
  {
    assert ([x] + rest)[1..] == rest;
  }

  lemma {:induction false} ReplaceKeepsExpansion(slots: Slots, t: Byte, a: Byte, b: Byte, s: Bytes)
    requires CanAdd(slots, t, a, b) && t !in s
    ensures Acyclic(slots[t := [a, b]])
    ensures Expand(slots[t := [a, b]], Replace(s, a, b, t)) == Expand(slots, s)
    decreases |s|
  {
    AddKeepsAcyclic(slots, t, a, b);
    var slots' := slots[t := [a, b]];
    if |s| < 2 {
      AddKeepsString(slots, t, a, b, s);
    } else if s[0] == a && s[1] == b {
      ReplaceKeepsExpansion(slots, t, a, b, s[2..]);
      AddKeepsByte(slots, t, a, b, a);
      AddKeepsByte(slots, t, a, b, b);
      var rest := Replace(s[2..], a, b, t);
      ExpandFirst(slots', t, rest);
      assert s[1..][1..] == s[2..];
      assert Expand(slots, s) == ExpandByte(slots, a) + (ExpandByte(slots, b) + Expand(slots, s[2..]));
      Regroup(ExpandByte(slots, a), ExpandByte(slots, b), Expand(slots, s[2..]));
    } else {
      ReplaceKeepsExpansion(slots, t, a, b, s[1..]);
      AddKeepsByte(slots, t, a, b, s[0]);
      ExpandFirst(slots', s[0], Replace(s[1..], a, b, t));
    }
  }
}
