/** The bytes of a blob, where the Devicetree Specification has them.

    Reader and writer share the names of the tags and the order of the header words,
    and would still agree on others.  Here they are numbers: `Big` reads a big-endian
    number at an offset, and the tags are bytes.
  */
module DtbLayout {
  import opened ByteStrings
  import opened DtbFormat
  import opened DtbBlob

  predicate Inside(b: Bytes, i: nat) { i + 4 <= |b| }

  /** Four bytes from `i` on, most significant first. */
  function Big(b: Bytes, i: nat): nat
    requires Inside(b, i)
  {
    var w: nat, x: nat, y: nat, z: nat := b[i], b[i + 1], b[i + 2], b[i + 3];
    w * 0x100_0000 + x * 0x1_0000 + y * 0x100 + z
  }

  lemma {:induction false} BigField(b: Bytes, i: nat)
    requires 4 * i + 4 <= |b|
    ensures Big(b, 4 * i) == Field(b, i)
  {
    var s := b[4 * i..];
    assert s[0] == b[4 * i] && s[1] == b[4 * i + 1] && s[2] == b[4 * i + 2] && s[3] == b[4 * i + 3];
  }

  lemma {:induction false} BigWord(n: nat, rest: Bytes)
    requires n < CELL
    ensures Big(Word(n) + rest, 0) == n
  {
    WordFront(n, rest);
    var s := Word(n) + rest;
    assert s[0..] == s;
    BigField(s, 0);
  }

  lemma BigBehind(a: Bytes, b: Bytes, i: nat)
    requires Inside(b, i)
    ensures Inside(a + b, |a| + i) && Big(a + b, |a| + i) == Big(b, i)
  {}

  // ------------------------------------------------------------------- the header

  /** The words of section 5.2 of the Devicetree Specification: magic number, size of
      the blob, places of structure, strings and reserve map, version, last compatible
      version, boot CPU, sizes of strings and structure. */
  predicate HasHeader(b: Bytes, structure: nat, strings: nat, reserves: nat, version: nat, cpu: nat, sizeStrings: nat,
                      sizeStructure: nat)
  {
    && |b| >= 40 && b[..4] == [0xd0, 0x0d, 0xfe, 0xed] && Big(b, 4) == |b|
    && Big(b, 8) == structure && Big(b, 12) == strings && Big(b, 16) == reserves
    && Big(b, 20) == version && Big(b, 24) == 16 && Big(b, 28) == cpu
    && Big(b, 32) == sizeStrings && Big(b, 36) == sizeStructure
  }

  lemma {:induction false} MagicBytes(b: Bytes)
    requires |b| >= 4 && Big(b, 0) == 0xd00d_feed
    ensures b[..4] == [0xd0, 0x0d, 0xfe, 0xed]
  {}

  /** The header of what is written. */
  lemma {:induction false} HeaderLayout(bi: BootInfo, version: nat, slots: nat, padlen: nat)
    requires (version == 16 || version == 17) && Representable(bi, slots, padlen)
    ensures var b, rs, dt := Blob(bi, version, slots, padlen), |ReserveBlock(bi, slots)|, |StructBlock(bi)|;
            HasHeader(b, 40 + rs, 40 + rs + dt, 40, version, bi.cpu, |FlatNode(bi.dt, []).tab|,
                      if version == 17 then dt else 0)
  {
    var rs, dt, st := ReserveBlock(bi, slots), StructBlock(bi), FlatNode(bi.dt, []).tab;
    var ws := HeaderWords(version, |rs|, |dt|, |st|, bi.cpu, padlen);
    var body := rs + (dt + (st + Zeroes(padlen)));
    HeaderFields(ws, body);
    HeaderBig(Words(ws) + body, ws);
    MagicBytes(Words(ws) + body);
  }

  lemma {:induction false} HeaderBig(b: Bytes, ws: seq<nat>)
    requires |ws| == 10 && |b| >= 40 && forall i :: 0 <= i < 10 ==> Field(b, i) == ws[i]
    ensures Big(b, 0) == ws[0] && Big(b, 4) == ws[1] && Big(b, 8) == ws[2] && Big(b, 12) == ws[3]
    ensures Big(b, 16) == ws[4] && Big(b, 20) == ws[5] && Big(b, 24) == ws[6] && Big(b, 28) == ws[7]
    ensures Big(b, 32) == ws[8] && Big(b, 36) == ws[9]
  {
    BigField(b, 0);
    BigField(b, 1);
    BigField(b, 2);
    BigField(b, 3);
    BigField(b, 4);
    BigField(b, 5);
    BigField(b, 6);
    BigField(b, 7);
    BigField(b, 8);
    BigField(b, 9);
  }

  /** The sections stand where the header says, and fill the blob. */
  lemma {:induction false} SectionLayout(bi: BootInfo, version: nat, slots: nat, padlen: nat)
    ensures var b := Blob(bi, version, slots, padlen);
            var rs, dt, st := ReserveBlock(bi, slots), StructBlock(bi), FlatNode(bi.dt, []).tab;
            && |b| == 40 + |rs| + |dt| + |st| + padlen && b[40..40 + |rs|] == rs
            && b[40 + |rs|..40 + |rs| + |dt|] == dt && b[40 + |rs| + |dt|..40 + |rs| + |dt| + |st|] == st
            && forall i :: |b| - padlen <= i < |b| ==> b[i] == 0
  {
    var rs, dt, st := ReserveBlock(bi, slots), StructBlock(bi), FlatNode(bi.dt, []).tab;
    Sections(Words(HeaderWords(version, |rs|, |dt|, |st|, bi.cpu, padlen)), rs, dt, st, Zeroes(padlen));
  }

  // ------------------------------------------------------------- the structure block

  lemma {:induction false} NameFirst(name: Bytes)
    ensures var s := Padded(name + [0]); |s| > |name| && s[..|name|] == name && s[|name|] == 0
  {
    var s := Padded(name + [0]);
    assert s[..|name| + 1] == name + [0];
    assert (name + [0])[..|name|] == name;
  }

  lemma {:induction false} InPart(s: Bytes, n: nat, part: Bytes, k: nat)
    requires n + |part| <= |s| && s[n..n + |part|] == part && k < |part|
    ensures s[n..n + k] == part[..k] && s[n + k] == part[k]
  {
    assert s[n + k] == s[n..n + |part|][k];
  }

  /** Section 5.4.1 of the Devicetree Specification: a node begins with tag 1 and its
      name, and ends with tag 2. */
  lemma {:induction false} NodeLayout(node: Node, tab: Bytes)
    requires !node.deleted
    ensures var s := FlatNode(node, tab).bytes; var name := node.name;
            && |s| >= |name| + 9 && s[..4] == [0, 0, 0, 1] && s[4..4 + |name|] == name && s[4 + |name|] == 0
            && s[|s| - 4..] == [0, 0, 0, 2]
  {
    var ps := FlatProps(node.props, tab);
    var cs := FlatChildren(node.children, ps.tab);
    var name := Padded(node.name + [0]);
    var begin, end := Word(FDT_BEGIN_NODE), Word(FDT_END_NODE);
    var s := begin + (name + (ps.bytes + (cs.bytes + end)));
    assert FlatNode(node, tab).bytes == s;
    assert begin == [0, 0, 0, 1] && end == [0, 0, 0, 2];
    NodeParts(name, ps.bytes, cs.bytes, begin, end);
    NameFirst(node.name);
    InPart(s, 4, name, |node.name|);
  }

  lemma NodeParts(name: Bytes, ps: Bytes, cs: Bytes, begin: Bytes, end: Bytes)
    requires |begin| == 4 && |end| == 4
    ensures var s := begin + (name + (ps + (cs + end)));
            && |s| == 8 + |name| + |ps| + |cs| && s[..4] == begin && s[4..4 + |name|] == name
            && s[4 + |name|..4 + |name| + |ps|] == ps && s[4 + |name| + |ps|..4 + |name| + |ps| + |cs|] == cs
            && s[|s| - 4..] == end
  {}

  lemma {:induction false} TwoNumbers(a: Bytes, m: nat, n: nat, rest: Bytes)
    requires |a| == 4 && m < CELL && n < CELL
    ensures var s := a + (Word(m) + (Word(n) + rest)); |s| >= 12 && Big(s, 4) == m && Big(s, 8) == n
  {
    var inner := Word(m) + (Word(n) + rest);
    BigWord(m, Word(n) + rest);
    BigWord(n, rest);
    BigBehind(Word(m), Word(n) + rest, 0);
    BigBehind(a, inner, 0);
    BigBehind(a, inner, 4);
  }

  lemma {:induction false} NameThere(tab: Bytes, name: Bytes)
    requires TableOk(tab) && 0 !in name
    ensures var off := Search(tab, name, 0); CString(Inserted(tab, name), off) == name && Ends(Inserted(tab, name), off)
  {
    InsertedStays(tab, name, []);
    assert Inserted(tab, name) + [] == Inserted(tab, name);
  }

  /** A property has tag 3, the length of its value, and the offset of its name among
      the strings, ... */
  lemma {:induction false} PropLayout(p: Property, tab: Bytes)
    requires TableOk(tab) && 0 !in p.name && |p.val| < CELL && |tab| < CELL
    ensures var s, strings := FlatProp(p, tab).bytes, FlatProp(p, tab).tab;
            && |s| >= 12 && s[..4] == [0, 0, 0, 3] && Big(s, 4) == |p.val|
            && CString(strings, Big(s, 8)) == p.name && Ends(strings, Big(s, 8))
  {
    assert Word(FDT_PROP) == [0, 0, 0, 3];
    TwoNumbers(Word(FDT_PROP), |p.val|, Search(tab, p.name, 0), Padded(p.val));
    NameThere(tab, p.name);
  }

  /** ... and then the value, filled up with zeroes to whole cells. */
  lemma {:induction false} ValueLayout(p: Property, tab: Bytes)
    ensures var s, n := FlatProp(p, tab).bytes, |p.val|;
            && 12 + n <= |s| < 16 + n && |s| % 4 == 0 && s[12..12 + n] == p.val
            && forall i :: 12 + n <= i < |s| ==> s[i] == 0
  {
    var off, pad := Search(tab, p.name, 0), Zeroes(Gap(|p.val|));
    ValueBehind(Word(FDT_PROP), Word(|p.val|), Word(off), p.val, pad);
    PadOnly(FlatProp(p, tab).bytes, 12 + |p.val|, pad);
  }

  lemma {:induction false} PadOnly(s: Bytes, n: nat, pad: Bytes)
    requires n <= |s| && s[n..] == pad && forall i :: 0 <= i < |pad| ==> pad[i] == 0
    ensures forall i :: n <= i < |s| ==> s[i] == 0
  {
    forall i | n <= i < |s| ensures s[i] == 0 {
      assert s[i] == s[n..][i - n];
    }
  }

  lemma ValueBehind(a: Bytes, b: Bytes, c: Bytes, val: Bytes, pad: Bytes)
    requires |a| == |b| == |c| == 4
    ensures var s := a + (b + (c + (val + pad)));
            s[..4] == a && s[12..12 + |val|] == val && s[12 + |val|..] == pad && |s| == 12 + |val| + |pad|
  {}

  /** The structure block is the root node and tag 9. */
  lemma {:induction false} StructLayout(bi: BootInfo)
    ensures StructBlock(bi) == FlatNode(bi.dt, []).bytes + [0, 0, 0, 9]
  {
    assert Word(FDT_END) == [0, 0, 0, 9];
  }

  function Nops(n: nat): Bytes {
    if n == 0 then [] else [0, 0, 0, 4] + Nops(n - 1)
  }

  /** Tag 4 means nothing, however often it stands there. */
  lemma {:induction false} NopsIgnored(n: nat, s: Bytes, tab: Bytes, ps: seq<Property>, cs: seq<Node>)
    ensures ReadItems(Nops(n) + s, tab, ps, cs) == ReadItems(s, tab, ps, cs)
  {
    if n == 0 {
      assert Nops(n) + s == s;
    } else {
      var rest := Nops(n - 1) + s;
      NopsIgnored(n - 1, s, tab, ps, cs);
      assert Word(FDT_NOP) == [0, 0, 0, 4] && Nops(n) + s == Word(FDT_NOP) + rest;
      WordFront(FDT_NOP, rest);
    }
  }

  /** Inside a node nothing but tags 1 to 4 is read. */
  lemma {:induction false} OtherTagsRefused(s: Bytes, tab: Bytes, ps: seq<Property>, cs: seq<Node>)
    requires ReadItems(s, tab, ps, cs).Got?
    ensures |s| >= 4 && 1 <= Big(s, 0) <= 4
  {
    assert s[0..] == s;
    BigField(s, 0);
  }

  // ---------------------------------------------------------------- the reserve map

  /** An entry is an address and a size, of two words each. */
  lemma {:induction false} EntryLayout(r: Reserve, rest: Bytes)
    requires r.address < CELL * CELL && r.size < CELL * CELL
    ensures var s := Entry(r) + rest;
            && Big(s, 0) * 0x1_0000_0000 + Big(s, 4) == r.address
            && Big(s, 8) * 0x1_0000_0000 + Big(s, 12) == r.size
  {
    var s := Entry(r) + rest;
    EntryFront(r, rest);
    assert s[0..] == s && s[4..] == s[4 * 1..] && s[8..] == s[4 * 2..] && s[8..][4..] == s[4 * 3..];
    BigField(s, 0);
    BigField(s, 1);
    BigField(s, 2);
    BigField(s, 3);
  }
}
