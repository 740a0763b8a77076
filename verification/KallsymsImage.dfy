/** The tables that the generator writes and the kernel reads: names in
    length-prefixed form, a marker for every 256th name, the text of the tokens
    and an index into it.

    `Layout` is what the generator promises about an image; `Decode` is what a
    reader makes of one, knowing nothing of the compressor.  `RoundTrip` says
    that the reader gets back what the generator was given.
  */
module KallsymsImage {
  import opened ByteStrings
  import opened KallsymsTokens
  import opened KallsymsCompress

  datatype Image = Image(
    addresses: seq<nat>,
    names: Bytes,
    markers: seq<nat>,
    tokenTable: Bytes,
    tokenIndex: seq<nat>)

  // ----------------------------------------------------------------- layout

  /** Every name can be stored with its length in one byte. */
  ghost predicate Storable(syms: seq<Bytes>) {
    forall j :: 0 <= j < |syms| ==> |syms[j]| <= MAX_SYMBOL
  }

  function Encoded(s: Bytes): Bytes
    requires |s| <= MAX_SYMBOL
  {
    [|s|] + s
  }

  /** The first `n` names, one after the other. */
  ghost function NamesOf(syms: seq<Bytes>, n: nat): Bytes
    requires n <= |syms| && Storable(syms)
  {
    if n == 0 then [] else NamesOf(syms, n - 1) + Encoded(syms[n - 1])
  }

  /** Where name `n` starts. */
  function Offset(syms: seq<Bytes>, n: nat): nat
    requires n <= |syms|
  {
    if n == 0 then 0 else Offset(syms, n - 1) + |syms[n - 1]| + 1
  }

  /** The text of the tokens below `n`, each ended by NUL. */
  ghost function TokenText(slots: Slots, n: nat): Bytes
    requires n <= |slots| && Acyclic(slots)
  {
    if n == 0 then [] else TokenText(slots, n - 1) + ExpandByte(slots, n - 1) + [0]
  }

  const MARKER_STEP := 256

  ghost predicate Layout(img: Image, slots: Slots, syms: seq<Bytes>)
    requires Acyclic(slots)
  {
    && Storable(syms)
    && |img.addresses| == |syms|
    && img.names == NamesOf(syms, |syms|)
    && |img.markers| == (|syms| + MARKER_STEP - 1) / MARKER_STEP
    && (forall k :: 0 <= k < |img.markers| ==> img.markers[k] == Offset(syms, MARKER_STEP * k))
    && img.tokenTable == TokenText(slots, |slots|)
    && |img.tokenIndex| == 256
    && (forall c: Byte :: img.tokenIndex[c] == |TokenText(slots, c)|)
  }

  /** The index entries fit into the 16 bits of a `.short`. */
  lemma {:induction false} TokenTextBound(slots: Slots, n: nat)
    requires n <= |slots| && Acyclic(slots)
    requires forall c: Byte :: |ExpandByte(slots, c)| <= MAX_SYMBOL
    ensures |TokenText(slots, n)| <= n * 130 < 0x1_0000
  {
    if n > 0 {
      TokenTextBound(slots, n - 1);
      assert |ExpandByte(slots, n - 1)| <= MAX_SYMBOL == 129;
    }
  }

  lemma {:induction false} NamesLength(syms: seq<Bytes>, n: nat)
    requires n <= |syms| && Storable(syms)
    ensures |NamesOf(syms, n)| == Offset(syms, n)
  {
    if n > 0 {
      NamesLength(syms, n - 1);
    }
  }

  lemma {:induction false} NamesPrefix(syms: seq<Bytes>, m: nat, n: nat)
    requires m <= n <= |syms| && Storable(syms)
    ensures NamesOf(syms, m) <= NamesOf(syms, n)
  {
    if m < n {
      NamesPrefix(syms, m, n - 1);
    }
  }

  lemma {:induction false} TokenPrefix(slots: Slots, m: nat, n: nat)
    requires m <= n <= |slots| && Acyclic(slots)
    ensures TokenText(slots, m) <= TokenText(slots, n)
  {
    if m < n {
      TokenPrefix(slots, m, n - 1);
    }
  }

  /** Name `i` is found at its offset. */
  lemma {:induction false} NameStored(syms: seq<Bytes>, i: nat, names: Bytes)
    requires i < |syms| && Storable(syms) && names == NamesOf(syms, |syms|)
    ensures var off := Offset(syms, i);
            && off + 1 + |syms[i]| <= |names|
            && names[off] == |syms[i]|
            && names[off + 1..off + 1 + |syms[i]|] == syms[i]
            && Offset(syms, i + 1) == off + 1 + |syms[i]|
  {
    NamesPrefix(syms, i + 1, |syms|);
    NamesLength(syms, i);
    NamesLength(syms, i + 1);
    var before := NamesOf(syms, i);
    var upto := before + Encoded(syms[i]);
    assert upto == NamesOf(syms, i + 1);
    assert upto[|before| + 1..] == syms[i];
    assert names[..|upto|] == upto;
    assert names[|before|] == upto[|before|];
    assert names[|before| + 1..|upto|] == upto[|before| + 1..];
  }

  // ----------------------------------------------------------------- reading

  lemma {:induction false} CStringAt(t: Bytes, before: Bytes, s: Bytes, after: Bytes)
    requires t == before + s + [0] + after && 0 !in s
    ensures CString(t, |before|) == s
    decreases |s|
  {
    if s != [] {
      assert t[|before|] == s[0];
      assert t == (before + [s[0]]) + s[1..] + [0] + after;
      CStringAt(t, before + [s[0]], s[1..], after);
    }
  }

  /** What the bytes of a compressed name stand for, by the index and the text. */
  function Decode(img: Image, data: Bytes): Bytes
    requires |img.tokenIndex| == 256
  {
    if data == [] then [] else CString(img.tokenTable, img.tokenIndex[data[0]]) + Decode(img, data[1..])
  }

  lemma {:induction false} TokenStored(img: Image, slots: Slots, syms: seq<Bytes>, c: Byte)
    requires Acyclic(slots) && !IsChar(slots, 0) && Layout(img, slots, syms)
    ensures CString(img.tokenTable, img.tokenIndex[c]) == ExpandByte(slots, c)
    ensures img.tokenIndex[c] + |ExpandByte(slots, c)| < |img.tokenTable|
    ensures img.tokenTable[img.tokenIndex[c] + |ExpandByte(slots, c)|] == 0
  {
    TokenPrefix(slots, c + 1, |slots|);
    ExpandByteNoNul(slots, c);
    TextThenNul(img.tokenTable, TokenText(slots, c), ExpandByte(slots, c));
  }

  lemma {:induction false} TextThenNul(t: Bytes, before: Bytes, s: Bytes)
    requires before + s + [0] <= t && 0 !in s
    ensures CString(t, |before|) == s
    ensures |before| + |s| < |t| && t[|before| + |s|] == 0
  {
    var upto := before + s + [0];
    PrefixSplit(upto, t);
    CStringAt(t, before, s, t[|upto|..]);
    assert upto[|before| + |s|] == 0;
  }

  lemma PrefixSplit(p: Bytes, t: Bytes)
    requires p <= t
    ensures t == p + t[|p|..]
    ensures forall i :: 0 <= i < |p| ==> t[i] == p[i]
  {}

  lemma {:induction false} DecodeExpands(img: Image, slots: Slots, syms: seq<Bytes>, data: Bytes)
    requires Acyclic(slots) && !IsChar(slots, 0) && Layout(img, slots, syms)
    ensures Decode(img, data) == Expand(slots, data)
  {
    if data != [] {
      TokenStored(img, slots, syms, data[0]);
      DecodeExpands(img, slots, syms, data[1..]);
    }
  }

  /** The stored bytes of the name at an offset. */
  predicate StoredAt(img: Image, off: nat) {
    off < |img.names| && off + 1 + img.names[off] <= |img.names|
  }

  function DataAt(img: Image, off: nat): Bytes
    requires StoredAt(img, off)
  {
    img.names[off + 1..off + 1 + img.names[off]]
  }

  lemma {:induction false} NameReadable(img: Image, slots: Slots, syms: seq<Bytes>, i: nat)
    requires Acyclic(slots) && Layout(img, slots, syms) && i < |syms|
    ensures StoredAt(img, Offset(syms, i)) && DataAt(img, Offset(syms, i)) == syms[i]
    ensures Offset(syms, i + 1) == Offset(syms, i) + 1 + img.names[Offset(syms, i)]
  {
    NameStored(syms, i, img.names);
  }

  function WithoutType(s: Bytes): Bytes {
    if s == [] then [] else s[1..]
  }

  /** The name a reader sees: decoded, without the type byte. */
  function NameAt(img: Image, off: nat): Bytes
    requires |img.tokenIndex| == 256 && StoredAt(img, off)
  {
    WithoutType(Decode(img, DataAt(img, off)))
  }

  /** From the original table through compression, layout and decoding back to
      the original name. */
  lemma {:induction false} RoundTrip(img: Image, slots: Slots, cur: seq<Bytes>, orig: seq<Bytes>, i: nat)
    requires Compressed(slots, cur, orig) && Layout(img, slots, cur)
    requires i < |orig|
    ensures StoredAt(img, Offset(cur, i))
    ensures NameAt(img, Offset(cur, i)) == WithoutType(orig[i])
  {
    NameReadable(img, slots, cur, i);
    DecodeExpands(img, slots, cur, cur[i]);
  }
}
