/** One entry of the symbol table and the in-place replacement of a token. */
module KallsymsSymbol {
  import opened ByteStrings
  import opened KallsymsTokens

  /** First occurrence of the pair among the `n` bytes from `from` on. */
  ghost predicate FirstPair(s: Bytes, from: nat, n: nat, a: Byte, b: Byte, p: nat)
    requires from + n <= |s|
  {
    && from <= p && PairAt(s[from..from + n], p - from, a, b)
    && NoPairBefore(s[from..from + n], p - from, a, b)
  }

  datatype Found = NotFound | At(pos: nat)

  method FindToken(sym: array<Byte>, from: nat, n: nat, a: Byte, b: Byte) returns (r: Found)
    requires from + n <= sym.Length
    ensures r.NotFound? ==> !Occurs(sym[from..from + n], a, b)
    ensures r.At? ==> FirstPair(sym[..], from, n, a, b, r.pos)
  {
    var i := 0;
    while i < n - 1
      invariant 0 <= i && (n >= 1 ==> i <= n - 1)
      invariant NoPairBefore(sym[from..from + n], i, a, b)
    {
      if sym[from + i] == a && sym[from + i + 1] == b {
        assert sym[..][from..from + n] == sym[from..from + n];
        return At(from + i);
      }
      i := i + 1;
    }
    return NotFound;
  }

  /** The part of a symbol that has been dealt with, and what is left of it,
      followed by the zero bytes that the shrinking has uncovered. */
  ghost predicate Progress(s: Bytes, p1: nat, len: nat, end: nat, a: Byte, b: Byte, t: Byte, goal: Bytes) {
    && p1 <= len <= end < |s|
    && (forall k :: len <= k <= end ==> s[k] == 0)
    && s[..p1] + Replace(s[p1..len], a, b, t) == goal
  }

  /** Without the pair in the scanned bytes nothing is left to do. */
  lemma {:induction false} ProgressDone(s: Bytes, p1: nat, len: nat, end: nat, a: Byte, b: Byte, t: Byte, goal: Bytes)
    requires Progress(s, p1, len, end, a, b, t, goal)
    requires end - p1 < 2 || !Occurs(s[p1..end], a, b)
    ensures s[..len] == goal
  {
    var rest := s[p1..len];
    if end - p1 >= 2 {
      forall i ensures !PairAt(rest, i, a, b) {
        assert !PairAt(s[p1..end], i, a, b);
      }
      ReplaceNone(rest, a, b, t);
    }
    assert s[..p1] + rest == s[..len];
  }

  /** The token is stored over the first byte of the pair, and everything behind
      the second moves down by one, with one of the trailing zeroes. */
  lemma {:induction false} ProgressStep(s: Bytes, s': Bytes, p1: nat, p2: nat, len: nat, end: nat, a: Byte, b: Byte,
                                        t: Byte, goal: Bytes)
    requires Progress(s, p1, len, end, a, b, t, goal)
    requires a != 0 && b != 0 && FirstPair(s, p1, end - p1, a, b, p2)
    requires |s'| == |s| && s'[..p2] == s[..p2] && s'[p2] == t
    requires s'[p2 + 1..end] == s[p2 + 2..end + 1] && s'[end] == s[end]
    ensures p2 + 2 <= len
    ensures Progress(s', p2 + 1, len - 1, end, a, b, t, goal)
  {
    var rest := s[p1..len];
    var i := p2 - p1;
    assert s[p1..end][i] == s[p2] && s[p1..end][i + 1] == s[p2 + 1];
    assert p2 + 1 < len;
    FirstPairWithin(s, p1, len, end, a, b, p2);
    ReplaceFirst(rest, a, b, t, i);
    ShiftedDown(s, s', p2, len, end);
    SliceOfSlice(s, p1, len, i);
    SliceOfSlice(s, p1, len, i + 2);
    TokenStored(s, s', p1, p2, t, Replace(s[p2 + 2..len], a, b, t));
  }

  lemma TokenStored(s: Bytes, s': Bytes, p1: nat, p2: nat, t: Byte, tail: Bytes)
    requires p1 <= p2 < |s| == |s'| && s'[..p2] == s[..p2] && s'[p2] == t
    ensures s[..p1] + (s[p1..p2] + [t] + tail) == s[..p2] + [t] + tail == s'[..p2 + 1] + tail
  {
    assert s'[..p2 + 1] == s[..p2] + [t];
  }

  lemma SliceOfSlice(s: Bytes, lo: nat, hi: nat, i: nat)
    requires lo + i <= hi <= |s|
    ensures s[lo..hi][..i] == s[lo..lo + i] && s[lo..hi][i..] == s[lo + i..hi]
  {}

  /** The first pair among more bytes is the first among fewer, if it is there. */
  lemma {:induction false} FirstPairWithin(s: Bytes, p1: nat, len: nat, end: nat, a: Byte, b: Byte, p2: nat)
    requires p1 <= len <= end <= |s| && p2 + 1 < len
    requires FirstPair(s, p1, end - p1, a, b, p2)
    ensures PairAt(s[p1..len], p2 - p1, a, b) && NoPairBefore(s[p1..len], p2 - p1, a, b)
  {
    var all, some, i := s[p1..end], s[p1..len], p2 - p1;
    assert all[i] == some[i] && all[i + 1] == some[i + 1];
    forall j | 0 <= j < i ensures !PairAt(some, j, a, b) {
      assert !PairAt(all, j, a, b);
      assert all[j] == some[j] && all[j + 1] == some[j + 1];
    }
  }

  lemma {:induction false} ShiftedDown(s: Bytes, s': Bytes, p2: nat, len: nat, end: nat)
    requires p2 + 2 <= len <= end < |s| == |s'|
    requires s'[p2 + 1..end] == s[p2 + 2..end + 1] && s'[end] == s[end]
    requires forall k :: len <= k <= end ==> s[k] == 0
    ensures s'[p2 + 1..len - 1] == s[p2 + 2..len]
    ensures forall k :: len - 1 <= k <= end ==> s'[k] == 0
  {
    forall k | p2 + 1 <= k < end ensures s'[k] == s[k + 1] {
      assert s'[k] == s'[p2 + 1..end][k - p2 - 1];
    }
  }

  /** `memmove(p, p + 1, n)`. */
  method MoveDown(sym: array<Byte>, p: nat, n: nat)
    requires p + n < sym.Length
    modifies sym
    ensures sym[p..p + n] == old(sym[p + 1..p + 1 + n])
    ensures sym[..p] == old(sym[..p]) && sym[p + n..] == old(sym[p + n..])
  {
    forall k | 0 <= k < n {
      sym[p + k] := sym[p + k + 1];
    }
  }

  class SymEntry {
    const addr: nat
    const start_pos: nat
    var len: nat
    const sym: array<Byte>

    constructor (addr: nat, start_pos: nat, name: Bytes)
      ensures Valid() && Name() == name && fresh(sym)
      ensures this.addr == addr && this.start_pos == start_pos
    {
      this.addr, this.start_pos, this.len := addr, start_pos, |name|;
      sym := new Byte[|name| + 1](i requires 0 <= i <= |name| => if i < |name| then name[i] else 0);
    }

    /** The buffer keeps its original size; what is not in use is zero. */
    ghost predicate Valid()
      reads this, sym
    {
      && len < sym.Length
      && forall k :: len <= k < sym.Length ==> sym[k] == 0
    }

    ghost function Name(): Bytes
      requires len <= sym.Length
      reads this, sym
    {
      sym[..len]
    }

    /** One round: store the token and close the gap. */
    method StoreToken(p1: nat, p2: nat, size: nat, a: Byte, b: Byte, t: Byte, ghost goal: Bytes)
      requires a != 0 && b != 0
      requires Progress(sym[..], p1, len, p1 + size, a, b, t, goal) && FirstPair(sym[..], p1, size, a, b, p2)
      modifies this`len, sym
      ensures p2 < p1 + size
      ensures Progress(sym[..], p2 + 1, len, p1 + size, a, b, t, goal)
      ensures sym[p1 + size..] == old(sym[p1 + size..])
    {
      ghost var before, end := sym[..], p1 + size;
      assert before[p1..end][p2 - p1] == sym[p2];
      sym[p2] := t;
      assert sym[..p2] == before[..p2] && sym[p2 + 1..] == before[p2 + 1..];
      MoveDown(sym, p2 + 1, size - (p2 + 1 - p1));
      ghost var after := sym[..];
      assert after[..p2 + 1] == before[..p2] + [t] && after[end..] == before[end..];
      assert after[p2 + 1..end] == before[p2 + 2..end + 1];
      ProgressStep(before, after, p1, p2, len, end, a, b, t, goal);
      len := len - 1;
    }

    /** The replacement loop of `compress_symbols`, from the first occurrence on.
        `size` counts one zero byte more with every round. */
    method ReplaceToken(p: nat, a: Byte, b: Byte, t: Byte)
      requires Valid() && a != 0 && b != 0
      requires FirstPair(sym[..], 0, len, a, b, p)
      modifies this`len, sym
      ensures Valid()
      ensures Name() == Replace(old(Name()), a, b, t)
    {
      ghost var goal := Replace(Name(), a, b, t);
      ghost var end := len;
      var size: nat, p1: nat, p2: nat := len, 0, p;
      var more := true;
      assert sym[..][..0] + Replace(sym[..][0..len], a, b, t) == goal;
      while more
        invariant p1 + size == end && sym[end..] == old(sym[end..])
        invariant Progress(sym[..], p1, len, end, a, b, t, goal)
        invariant more ==> FirstPair(sym[..], p1, size, a, b, p2)
        invariant !more ==> sym[..len] == goal
        decreases more, size
      {
        StoreToken(p1, p2, size, a, b, t, goal);
        p2 := p2 + 1;
        size := size - (p2 - p1);
        p1 := p2;
        if size < 2 {
          more := false;
          ProgressDone(sym[..], p1, len, end, a, b, t, goal);
        } else {
          var found := FindToken(sym, p1, size, a, b);
          match found
          case NotFound =>
            more := false;
            assert sym[..][p1..end] == sym[p1..p1 + size];
            ProgressDone(sym[..], p1, len, end, a, b, t, goal);
          case At(pos) => p2 := pos;
        }
      }
    }
  }
}
