/** `write_src`: the image that goes into the kernel. */
module KallsymsWriter {
  import opened ByteStrings
  import opened KallsymsTokens
  import opened KallsymsSymbol
  import opened KallsymsCompress
  import opened KallsymsImage

  /** Addresses, lengths and names, and a marker for every 256th name. */
  method WriteNames(c: Compressor) returns (addresses: seq<nat>, names: Bytes, markers: seq<nat>)
    requires c.Names() && Storable(c.cur)
    ensures |addresses| == |c.table| && forall i :: 0 <= i < |addresses| ==> addresses[i] == c.table[i].addr
    ensures names == NamesOf(c.cur, |c.cur|)
    ensures |markers| == (|c.cur| + MARKER_STEP - 1) / MARKER_STEP
    ensures forall k :: 0 <= k < |markers| ==> markers[k] == Offset(c.cur, MARKER_STEP * k)
  {
    addresses, names, markers := [], [], [];
    var off := 0;
    var i := 0;
    while i < |c.table|
      invariant 0 <= i <= |c.table| && |addresses| == i
      invariant forall j :: 0 <= j < i ==> addresses[j] == c.table[j].addr
      invariant names == NamesOf(c.cur, i) && off == Offset(c.cur, i)
      invariant |markers| == (i + MARKER_STEP - 1) / MARKER_STEP
      invariant forall k :: 0 <= k < |markers| ==> MARKER_STEP * k < i && markers[k] == Offset(c.cur, MARKER_STEP * k)
    {
      if i % MARKER_STEP == 0 {
        assert MARKER_STEP * |markers| == i;
        markers := markers + [off];
      }
      var e := c.table[i];
      assert e.sym[..e.len] == c.cur[i];
      addresses := addresses + [e.addr];
      names := names + ([e.len] + e.sym[..e.len]);
      off := off + e.len + 1;
      i := i + 1;
    }
  }

  /** Every token and the NUL behind it have room in `buf`. */
  ghost predicate TokensFit(slots: Slots)
    requires Acyclic(slots)
  {
    forall c: Byte :: |ExpandByte(slots, c)| < KSYM_NAME_LEN
  }

  /** The tokens below `i` have been written. */
  ghost predicate Indexed(slots: Slots, tokenTable: Bytes, tokenIndex: seq<nat>, i: nat)
    requires Acyclic(slots) && i <= 256
  {
    && |tokenIndex| == i && tokenTable == TokenText(slots, i)
    && forall t: Byte :: t < i ==>
         tokenIndex[t] == |TokenText(slots, t)| && |ExpandByte(slots, t)| < KSYM_NAME_LEN
  }

  lemma IndexedNext(slots: Slots, tokenTable: Bytes, tokenIndex: seq<nat>, i: Byte, text: Bytes)
    requires Acyclic(slots) && Indexed(slots, tokenTable, tokenIndex, i)
    requires text == ExpandByte(slots, i) && |text| < KSYM_NAME_LEN
    ensures Indexed(slots, tokenTable + text + [0], tokenIndex + [|tokenTable|], i + 1)
  {}

  /** The text of all 256 tokens, and where each of them starts.  Each is expanded
      into a buffer of KSYM_NAME_LEN bytes, which is too small for a token of that
      length: `ok` is false where the original writes behind its end. */
  method WriteTokens(c: Compressor) returns (ok: bool, tokenTable: Bytes, tokenIndex: seq<nat>)
    requires c.Tabulated() && Acyclic(c.slots) && !IsChar(c.slots, 0)
    ensures ok <==> TokensFit(c.slots)
    ensures ok ==> tokenTable == TokenText(c.slots, |c.slots|)
    ensures ok ==> |tokenIndex| == 256 && forall t: Byte :: tokenIndex[t] == |TokenText(c.slots, t)|
  {
    tokenTable, tokenIndex := [], [];
    var buf := new Byte[KSYM_NAME_LEN];
    var off := 0;
    var i := 0;
    while i < 256
      invariant 0 <= i <= 256 && off == |tokenTable| && c.Tabulated()
      invariant Indexed(c.slots, tokenTable, tokenIndex, i)
    {
      tokenIndex := tokenIndex + [off];
      assert tokenIndex[..i] + [off] == tokenIndex;
      var text: Bytes;
      ok, text := WriteToken(c, i, buf);
      if !ok {
        return;
      }
      IndexedNext(c.slots, tokenTable, tokenIndex[..i], i, text);
      tokenTable := tokenTable + text + [0];
      off := off + |text| + 1;
      i := i + 1;
    }
    ok := true;
  }

  /** One token, as `printf` takes it from the buffer. */
  method WriteToken(c: Compressor, i: Byte, buf: array<Byte>) returns (ok: bool, text: Bytes)
    requires c.Tabulated() && Acyclic(c.slots) && !IsChar(c.slots, 0) && buf.Length == KSYM_NAME_LEN
    modifies buf
    ensures ok <==> |ExpandByte(c.slots, i)| < KSYM_NAME_LEN
    ensures ok ==> text == ExpandByte(c.slots, i)
  {
    text := [];
    var slot := c.Slot(i);
    var total;
    ghost var was := buf[..];
    ExpandSlot(c.slots, i);
    ok, total := c.ExpandSymbol(slot, buf, 0);
    if ok {
      text := CString(buf[..], 0);
      ExpandByteNoNul(c.slots, i);
      EndedText(was, buf[..], ExpandByte(c.slots, i));
    }
  }

  /** A buffer that begins with a text and NUL is that text as a C string. */
  lemma {:induction false} EndedText(before: Bytes, after: Bytes, text: Bytes)
    requires Ended(before, after, 0, text) && 0 !in text
    ensures CString(after, 0) == text
  {
    assert after == [] + text + [0] + after[|text| + 1..];
    CStringAt(after, [], text, after[|text| + 1..]);
  }

  /** Expanding what a slot holds is expanding its index. */
  lemma {:induction false} ExpandSlot(slots: Slots, c: Byte)
    requires Acyclic(slots)
    ensures Expand(slots, slots[c]) == ExpandByte(slots, c)
  {
    if IsChar(slots, c) {
      assert [c][1..] == [];
    } else {
      assert [c][0] == c;
      SlotRankDrops(slots, [c], 0);
    }
  }

  // -------------------------------------------------- when the buffer suffices

  predicate ShortNames(orig: seq<Bytes>) {
    forall j :: 0 <= j < |orig| ==> |orig[j]| < KSYM_NAME_LEN
  }

  /** It does if no entry with its type byte has more than 127 bytes. */
  lemma {:induction false} ShortNamesFit(slots: Slots, cur: seq<Bytes>, orig: seq<Bytes>)
    requires Compressed(slots, cur, orig) && ShortNames(orig)
    ensures TokensFit(slots)
  {
    LongestReadable(orig, KSYM_NAME_LEN - 1);
  }

  /** A single entry that leaves enough slots becomes one token. */
  predicate Lone(orig: seq<Bytes>, characters: nat) {
    |orig| == 1 && characters + |orig[0]| <= 256
  }

  /** For a single entry it does only then. */
  lemma {:induction false} LoneNameFitsIff(slots: Slots, cur: seq<Bytes>, orig: seq<Bytes>)
    requires Readable(orig) && Compressed(slots, cur, orig) && Lone(orig, |Characters(orig)|)
    requires (exists c: Byte :: slots[c] == []) ==> forall a: Byte, b: Byte :: Total(cur, a, b) == 0
    requires |Filled(slots)| + TotalLength(cur) <= |Characters(orig)| + TotalLength(orig)
    ensures TokensFit(slots) <==> ShortNames(orig)
  {
    assert TotalLength(orig) == |orig[0]| + TotalLength(orig[1..]);
    LoneNameIsToken(slots, cur, orig);
    if ShortNames(orig) {
      ShortNamesFit(slots, cur, orig);
    }
  }

  /** The symbol `t` with a name of 128 times `a`, which `read_symbol` accepts. */
  function LongName(): Bytes {
    [0x74] + seq(KSYM_NAME_LEN, _ => 0x61)
  }

  lemma {:induction false} LongNameLone()
    ensures var orig := [LongName()];
            Readable(orig) && Lone(orig, |Characters(orig)|) && !ShortNames(orig)
  {
    var orig := [LongName()];
    assert forall c: Byte :: Used(orig, c) <==> c in orig[0];
    assert orig[0][0] == 0x74 && orig[0][1] == 0x61;
    assert Characters(orig) == {0x61, 0x74};
  }

  /** The image of a compressed table. */
  method WriteSrc(c: Compressor, ghost orig: seq<Bytes>) returns (ok: bool, img: Image)
    requires c.Names() && c.Tabulated() && Compressed(c.slots, c.cur, orig) && Readable(orig)
    ensures ok <==> TokensFit(c.slots)
    ensures ok ==> Layout(img, c.slots, c.cur)
    ensures ok ==> forall i :: 0 <= i < |c.table| ==> img.addresses[i] == c.table[i].addr
    ensures ok ==> forall t :: t in img.tokenIndex ==> t < 0x1_0000
  {
    var addresses, names, markers := WriteNames(c);
    var tokenTable, tokenIndex;
    ok, tokenTable, tokenIndex := WriteTokens(c);
    img := Image(addresses, names, markers, tokenTable, tokenIndex);
    if ok {
      IndexBound(c.slots, tokenIndex);
    }
  }

  /** A table with that symbol alone: compression succeeds, and then the buffer for
      the tokens is overrun. */
  method LongNameOverruns(addr: nat) returns (compressed: bool, written: bool)
    ensures compressed && !written
  {
    var e := new SymEntry(addr, 0, LongName());
    var c := new Compressor([e]);
    ghost var orig := c.cur;
    assert orig == [LongName()];
    LongNameLone();
    ghost var run;
    compressed, run := c.OptimizeTokenTable();
    LoneNameFitsIff(c.slots, c.cur, orig);
    var img;
    written, img := WriteSrc(c, orig);
  }

  lemma {:induction false} IndexBound(slots: Slots, tokenIndex: seq<nat>)
    requires Acyclic(slots) && TokensFit(slots)
    requires |tokenIndex| == 256 && forall t: Byte :: tokenIndex[t] == |TokenText(slots, t)|
    ensures forall t :: t in tokenIndex ==> t < 0x1_0000
  {
    forall t | t in tokenIndex ensures t < 0x1_0000 {
      var k :| 0 <= k < 256 && tokenIndex[k] == t;
      var b: Byte := k;
      assert tokenIndex[b] == |TokenText(slots, b)|;
      TokenTextBound(slots, b);
    }
  }
}
