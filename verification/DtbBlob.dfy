/** The whole blob: header, memory reserve map, structure block and strings.

    `BlobRoundTrip` says what `dt_from_blob` makes of what `dt_to_blob` wrote, for
    versions 16 and 17: the live tree, the boot CPU, and the reserve map up to its
    first entry of size zero.
  */
module DtbBlob {
  import opened Wrappers
  import opened ByteStrings
  import opened DtbFormat
  import opened DtbData
  import opened DtbWriter
  import opened DtbReader

  datatype Reserve = Reserve(address: nat, size: nat)
  datatype BootInfo = BootInfo(reserves: seq<Reserve>, dt: Node, cpu: nat)

  // ---------------------------------------------------------- reserve entries

  function DWord(n: nat): (s: Bytes)
    ensures |s| == 8
  {
    Word(n / CELL) + Word(n % CELL)
  }

  function DWordValue(s: Bytes): nat
    requires |s| >= 8
  {
    WordValue(s) * CELL + WordValue(s[4..])
  }

  lemma {:induction false} DWordFront(n: nat, rest: Bytes)
    requires n < CELL * CELL
    ensures DWordValue(DWord(n) + rest) == n && (DWord(n) + rest)[8..] == rest
  {
    TwoWords(n / CELL, n % CELL, rest);
    Assoc(Word(n / CELL), Word(n % CELL), rest);
  }

  function Entry(r: Reserve): (s: Bytes)
    ensures |s| == 16
  {
    DWord(r.address) + DWord(r.size)
  }

  function FlatReserves(rs: seq<Reserve>): (s: Bytes)
    ensures |s| == 16 * |rs|
  {
    if rs == [] then [] else Entry(rs[0]) + FlatReserves(rs[1..])
  }

  /** Entries up to the first of size zero. */
  function ReadReserves(s: Bytes): Option<seq<Reserve>>
    decreases |s|
  {
    if |s| < 16 then None
    else
      var r := Reserve(DWordValue(s), DWordValue(s[8..]));
      if r.size == 0 then Some([])
      else
        match ReadReserves(s[16..])
        case None => None
        case Some(rs) => Some([r] + rs)
  }

  function UntilEmpty(rs: seq<Reserve>): seq<Reserve> {
    if rs == [] || rs[0].size == 0 then [] else [rs[0]] + UntilEmpty(rs[1..])
  }

  predicate SmallReserves(rs: seq<Reserve>) {
    forall r :: r in rs ==> r.address < CELL * CELL && r.size < CELL * CELL
  }

  lemma {:induction false} EntryFront(r: Reserve, rest: Bytes)
    requires r.address < CELL * CELL && r.size < CELL * CELL
    ensures var s := Entry(r) + rest;
            DWordValue(s) == r.address && DWordValue(s[8..]) == r.size && s[16..] == rest
  {
    Assoc(DWord(r.address), DWord(r.size), rest);
    DWordFront(r.address, DWord(r.size) + rest);
    DWordFront(r.size, rest);
    var s := Entry(r) + rest;
    assert s[16..] == s[8..][8..];
  }

  /** The reader stops at the first empty entry, at the latest at the one that
      the writer puts behind the list. */
  lemma {:induction false} ReservesRoundTrip(rs: seq<Reserve>, rest: Bytes)
    requires SmallReserves(rs)
    ensures ReadReserves(FlatReserves(rs) + (Entry(Reserve(0, 0)) + rest)) == Some(UntilEmpty(rs))
  {
    var tail := Entry(Reserve(0, 0)) + rest;
    if rs == [] {
      assert [] + tail == tail;
      EntryFront(Reserve(0, 0), rest);
    } else {
      Assoc(Entry(rs[0]), FlatReserves(rs[1..]), tail);
      EntryFront(rs[0], FlatReserves(rs[1..]) + tail);
      ReservesRoundTrip(rs[1..], rest);
    }
  }

  /** The list survives if and only if none of its entries is empty. */
  lemma {:induction false} UntilEmptyExact(rs: seq<Reserve>)
    ensures UntilEmpty(rs) == rs <==> forall r :: r in rs ==> r.size != 0
  {
    if rs != [] && rs[0].size != 0 {
      UntilEmptyExact(rs[1..]);
      assert rs == [rs[0]] + rs[1..];
      if UntilEmpty(rs) == rs {
        assert UntilEmpty(rs)[1..] == rs[1..];
      }
    } else if rs != [] {
      assert rs[0] in rs;
    }
  }

  // ------------------------------------------------------------------ header

  const FDT_MAGIC := 0xd00dfeed
  const HEADER_END := 40   // the end of the header, aligned to 8 bytes

  function Words(ws: seq<nat>): (s: Bytes)
    ensures |s| == 4 * |ws|
  {
    if ws == [] then [] else Word(ws[0]) + Words(ws[1..])
  }

  /** A word of the header. */
  function Field(b: Bytes, i: nat): nat
    requires 4 * i + 4 <= |b|
  {
    WordValue(b[4 * i..])
  }

  lemma {:induction false} FieldRead(ws: seq<nat>, i: nat, rest: Bytes)
    requires i < |ws| && ws[i] < CELL
    ensures Field(Words(ws) + rest, i) == ws[i]
  {
    var b := Words(ws) + rest;
    var tail := Words(ws[1..]) + rest;
    Assoc(Word(ws[0]), Words(ws[1..]), rest);
    if i == 0 {
      WordFront(ws[0], tail);
      assert b[0..] == b;
    } else {
      FieldRead(ws[1..], i - 1, rest);
      assert b[4..] == tail;
      assert b[4 * i..] == tail[4 * (i - 1)..];
    }
  }

  /** The header words in the order of section 5.2; version 16 has no last word,
      and zeroes fill the gap. */
  function HeaderWords(version: nat, reservesize: nat, dtsize: nat, strsize: nat, cpu: nat, padlen: nat): (ws: seq<nat>)
    ensures |ws| == 10
  {
    var offStruct := HEADER_END + reservesize;
    [FDT_MAGIC, offStruct + dtsize + strsize + padlen, offStruct, offStruct + dtsize, HEADER_END,
     version, 16, cpu, strsize, if version == 17 then dtsize else 0]
  }

  lemma {:induction false} HeaderFields(ws: seq<nat>, rest: Bytes)
    requires |ws| == 10 && forall i :: 0 <= i < 10 ==> ws[i] < CELL
    ensures forall i :: 0 <= i < 10 ==> Field(Words(ws) + rest, i) == ws[i]
  {
    forall i | 0 <= i < 10 ensures Field(Words(ws) + rest, i) == ws[i] {
      FieldRead(ws, i, rest);
    }
  }

  // -------------------------------------------------------------------- blob

  function StructBlock(bi: BootInfo): Bytes {
    FlatNode(bi.dt, []).bytes + Word(FDT_END)
  }

  /** The reserve map: the list, slots asked for by the user, the end. */
  function ReserveBlock(bi: BootInfo, slots: nat): (s: Bytes) {
    FlatReserves(bi.reserves) + Zeroes(16 * slots) + Zeroes(16)
  }

  function Blob(bi: BootInfo, version: nat, slots: nat, padlen: nat): Bytes {
    var rs, dt, st := ReserveBlock(bi, slots), StructBlock(bi), FlatNode(bi.dt, []).tab;
    Words(HeaderWords(version, |rs|, |dt|, |st|, bi.cpu, padlen)) + (rs + (dt + (st + Zeroes(padlen))))
  }

  function ReadTree(s: Bytes, tab: Bytes): Option<Node> {
    if |s| < 4 || WordValue(s) != FDT_BEGIN_NODE then None
    else
      match ReadNode(s[4..], tab)
      case Bad => None
      case Got(dt, rest) => if |rest| < 4 || WordValue(rest) != FDT_END then None else Some(dt)
  }

  /** The checks on the header of a blob of `n` bytes. */
  predicate FieldsFit(n: nat, version: nat, offStruct: nat, offStrings: nat, sizeStrings: nat, offReserve: nat,
                      sizeStruct: nat)
  {
    && version >= 16 && offReserve < n && offStruct < n && offStrings + sizeStrings <= n
    && (version >= 17 ==> offStruct + sizeStruct <= n)
  }

  predicate HeaderFits(b: Bytes)
    requires |b| >= HEADER_END
  {
    FieldsFit(|b|, Field(b, 5), Field(b, 2), Field(b, 3), Field(b, 8), Field(b, 4), Field(b, 9))
  }

  function ReadAt(b: Bytes, offStruct: nat, offStrings: nat, sizeStrings: nat, offReserve: nat, cpu: nat)
    : Option<BootInfo>
    requires offStruct < |b| && offReserve < |b| && offStrings + sizeStrings <= |b|
  {
    Assemble(ReadTree(b[offStruct..], b[offStrings..offStrings + sizeStrings]), ReadReserves(b[offReserve..]), cpu)
  }

  /** What the header points to. */
  function ReadSections(b: Bytes): Option<BootInfo>
    requires |b| >= HEADER_END
  {
    if HeaderFits(b) then
      ReadAt(b, Field(b, 2), Field(b, 3), Field(b, 8), Field(b, 4), Field(b, 7))
    else None
  }

  lemma {:induction false} SectionsOf(b: Bytes, version: nat, offStruct: nat, offStrings: nat, sizeStrings: nat,
                                      offReserve: nat, sizeStruct: nat, cpu: nat)
    requires |b| >= HEADER_END
    requires offStruct == Field(b, 2) && offStrings == Field(b, 3) && sizeStrings == Field(b, 8)
    requires offReserve == Field(b, 4) && cpu == Field(b, 7) && version == Field(b, 5) && sizeStruct == Field(b, 9)
    ensures ReadSections(b)
         == if FieldsFit(|b|, version, offStruct, offStrings, sizeStrings, offReserve, sizeStruct)
            then ReadAt(b, offStruct, offStrings, sizeStrings, offReserve, cpu) else None
  {}

  function Assemble(dt: Option<Node>, rs: Option<seq<Reserve>>, cpu: nat): Option<BootInfo> {
    if dt.None? || rs.None? then None else Some(BootInfo(rs.value, dt.value, cpu))
  }

  /** `dt_from_blob` on the contents of a file, for versions from 16 on. */
  function ReadBlob(file: Bytes): Option<BootInfo> {
    if |file| < HEADER_END || Field(file, 0) != FDT_MAGIC then None
    else if Field(file, 1) < HEADER_END || Field(file, 1) > |file| then None
    else ReadSections(file[..Field(file, 1)])
  }

  /** Lengths and offsets are C `int`s. */
  const LENGTHS := 0x8000_0000

  /** What can be represented: names without NUL, lengths that fit. */
  predicate Representable(bi: BootInfo, slots: nat, padlen: nat) {
    && Named(bi.dt) && Small(bi.dt) && SmallReserves(bi.reserves) && bi.cpu < CELL
    && HEADER_END + |ReserveBlock(bi, slots)| + |StructBlock(bi)| + |FlatNode(bi.dt, []).tab| + padlen < LENGTHS
  }

  lemma {:induction false} TreeRoundTrip(bi: BootInfo, rest: Bytes)
    requires Named(bi.dt) && Small(bi.dt) && !bi.dt.deleted && |FlatNode(bi.dt, []).tab| < CELL
    ensures ReadTree(StructBlock(bi) + rest, FlatNode(bi.dt, []).tab) == Some(Live(bi.dt))
  {
    var body := FlatBody(bi.dt, []);
    var after := Word(FDT_END) + rest;
    assert StructBlock(bi) + rest == Word(FDT_BEGIN_NODE) + (body.bytes + after);
    WordFront(FDT_BEGIN_NODE, body.bytes + after);
    NodeRoundTrip(bi.dt, [], body.tab, after);
    WordFront(FDT_END, rest);
  }

  lemma ZeroEntry()
    ensures Entry(Reserve(0, 0)) == Zeroes(16)
  {}

  lemma {:induction false} ReserveBlockRoundTrip(bi: BootInfo, slots: nat, rest: Bytes)
    requires SmallReserves(bi.reserves)
    ensures ReadReserves(ReserveBlock(bi, slots) + rest) == Some(UntilEmpty(bi.reserves))
  {
    ZeroEntry();
    var more := Zeroes(16 * slots) + rest;
    assert Zeroes(16 * slots) + Zeroes(16) == Zeroes(16) + Zeroes(16 * slots);
    assert ReserveBlock(bi, slots) + rest == FlatReserves(bi.reserves) + (Zeroes(16) + more);
    ReservesRoundTrip(bi.reserves, more);
  }

  lemma Sections(h: Bytes, rs: Bytes, dt: Bytes, st: Bytes, pad: Bytes)
    requires |h| == HEADER_END
    ensures var b := h + (rs + (dt + (st + pad)));
            && |b| == HEADER_END + |rs| + |dt| + |st| + |pad|
            && b[HEADER_END..] == rs + (dt + (st + pad))
            && b[HEADER_END + |rs|..] == dt + (st + pad)
            && b[HEADER_END + |rs| + |dt|..HEADER_END + |rs| + |dt| + |st|] == st
  {}

  /** From tree to blob and back. */
  lemma {:induction false} BlobRoundTrip(bi: BootInfo, version: nat, slots: nat, padlen: nat)
    requires version == 16 || version == 17
    requires Representable(bi, slots, padlen) && !bi.dt.deleted
    ensures ReadBlob(Blob(bi, version, slots, padlen)) == Some(BootInfo(UntilEmpty(bi.reserves), Live(bi.dt), bi.cpu))
  {
    var rs, dt, st, pad := ReserveBlock(bi, slots), StructBlock(bi), FlatNode(bi.dt, []).tab, Zeroes(padlen);
    TreeRoundTrip(bi, st + pad);
    ReserveBlockRoundTrip(bi, slots, dt + (st + pad));
    HeaderDescribes(version, |rs|, |dt|, |st|, bi.cpu, padlen);
    SectionsRead(HeaderWords(version, |rs|, |dt|, |st|, bi.cpu, padlen), version, rs, dt, st, bi.cpu, pad,
                 Live(bi.dt), UntilEmpty(bi.reserves));
  }

  lemma HeaderDescribes(version: nat, reservesize: nat, dtsize: nat, strsize: nat, cpu: nat, padlen: nat)
    requires version < CELL && cpu < CELL && HEADER_END + reservesize + dtsize + strsize + padlen < CELL
    ensures var ws := HeaderWords(version, reservesize, dtsize, strsize, cpu, padlen);
            && Describes(ws, version, reservesize, dtsize, strsize, cpu, padlen)
            && forall i :: 0 <= i < 10 ==> ws[i] < CELL
  {}

  /** The words of a header describe sections of the given sizes. */
  predicate Describes(ws: seq<nat>, version: nat, reservesize: nat, dtsize: nat, strsize: nat, cpu: nat, padlen: nat) {
    && |ws| == 10
    && ws[0] == FDT_MAGIC && ws[1] == HEADER_END + reservesize + dtsize + strsize + padlen
    && ws[2] == HEADER_END + reservesize && ws[3] == HEADER_END + reservesize + dtsize && ws[4] == HEADER_END
    && ws[5] == version && ws[7] == cpu && ws[8] == strsize && (version == 17 ==> ws[9] == dtsize)
  }

  lemma {:induction false} SectionsRead(ws: seq<nat>, version: nat, rs: Bytes, dt: Bytes, st: Bytes, cpu: nat,
                                        pad: Bytes, tree: Node, list: seq<Reserve>)
    requires version == 16 || version == 17
    requires Describes(ws, version, |rs|, |dt|, |st|, cpu, |pad|) && dt != []
    requires forall i :: 0 <= i < 10 ==> ws[i] < CELL
    requires ReadTree(dt + (st + pad), st) == Some(tree)
    requires ReadReserves(rs + (dt + (st + pad))) == Some(list)
    ensures ReadBlob(Words(ws) + (rs + (dt + (st + pad)))) == Some(BootInfo(list, tree, cpu))
  {
    var body := rs + (dt + (st + pad));
    var b := Words(ws) + body;
    HeaderFields(ws, body);
    Sections(Words(ws), rs, dt, st, pad);
    SectionsKnown(b, ws, version, |rs|, |dt|, |pad|, cpu, dt + (st + pad), st, body, Some(tree), Some(list));
  }

  lemma WholeFile(b: Bytes)
    requires |b| >= HEADER_END && Field(b, 0) == FDT_MAGIC && Field(b, 1) == |b|
    ensures ReadBlob(b) == ReadSections(b)
  {
    assert b[..|b|] == b;
  }

  /** The header leads to the sections. */
  lemma {:induction false} SectionsFound(b: Bytes, ws: seq<nat>, version: nat, reservesize: nat, dtsize: nat,
                                         strsize: nat, cpu: nat, padlen: nat)
    requires version == 16 || version == 17
    requires Describes(ws, version, reservesize, dtsize, strsize, cpu, padlen) && dtsize > 0
    requires |b| == HEADER_END + reservesize + dtsize + strsize + padlen
    requires forall i :: 0 <= i < 10 ==> Field(b, i) == ws[i]
    ensures Field(b, 0) == FDT_MAGIC && Field(b, 1) == |b|
    ensures ReadSections(b)
         == ReadAt(b, HEADER_END + reservesize, HEADER_END + reservesize + dtsize, strsize, HEADER_END, cpu)
  {
    SectionsOf(b, version, HEADER_END + reservesize, HEADER_END + reservesize + dtsize, strsize, HEADER_END,
               Field(b, 9), cpu);
  }

  /** Reading sections that are known. */
  lemma SectionsAt(b: Bytes, offStruct: nat, offStrings: nat, offReserve: nat, cpu: nat, s: Bytes, st: Bytes, r: Bytes,
                   dt: Option<Node>, rs: Option<seq<Reserve>>)
    requires offStruct < |b| && offReserve < |b| && offStrings + |st| <= |b|
    requires b[offStruct..] == s && b[offStrings..offStrings + |st|] == st && b[offReserve..] == r
    requires ReadTree(s, st) == dt && ReadReserves(r) == rs
    ensures ReadAt(b, offStruct, offStrings, |st|, offReserve, cpu) == Assemble(dt, rs, cpu)
  {}

  lemma {:induction false} SectionsKnown(b: Bytes, ws: seq<nat>, version: nat, reservesize: nat, dtsize: nat,
                                         padlen: nat, cpu: nat, s: Bytes, st: Bytes, r: Bytes, dt: Option<Node>,
                                         rs: Option<seq<Reserve>>)
    requires version == 16 || version == 17
    requires Describes(ws, version, reservesize, dtsize, |st|, cpu, padlen) && dtsize > 0
    requires |b| == HEADER_END + reservesize + dtsize + |st| + padlen
    requires forall i :: 0 <= i < 10 ==> Field(b, i) == ws[i]
    requires b[HEADER_END + reservesize..] == s && b[HEADER_END..] == r
    requires b[HEADER_END + reservesize + dtsize..HEADER_END + reservesize + dtsize + |st|] == st
    requires ReadTree(s, st) == dt && ReadReserves(r) == rs
    ensures ReadBlob(b) == Assemble(dt, rs, cpu)
  {
    var offStruct, offStrings := HEADER_END + reservesize, HEADER_END + reservesize + dtsize;
    SectionsFound(b, ws, version, reservesize, dtsize, |st|, cpu, padlen);
    SectionsAt(b, offStruct, offStrings, HEADER_END, cpu, s, st, r, dt, rs);
    WholeFile(b);
  }

  /** A tree whose root is deleted leaves nothing to read. */
  lemma {:induction false} DeletedRootUnreadable(bi: BootInfo, rest: Bytes, tab: Bytes)
    requires bi.dt.deleted
    ensures ReadTree(StructBlock(bi) + rest, tab) == None
  {
    assert StructBlock(bi) + rest == Word(FDT_END) + rest;
    WordFront(FDT_END, rest);
  }

  predicate NothingDeleted(node: Node) {
    && !node.deleted
    && (forall p :: p in node.props ==> !p.deleted)
    && (forall c :: c in node.children ==> NothingDeleted(c))
  }

  lemma {:induction false} LivePropsExact(ps: seq<Property>)
    ensures LiveProps(ps) == ps <==> forall p :: p in ps ==> !p.deleted
    ensures |LiveProps(ps)| <= |ps|
  {
    if ps != [] {
      LivePropsExact(ps[1..]);
      assert ps == [ps[0]] + ps[1..] && ps[0] in ps;
      if !ps[0].deleted && LiveProps(ps) == ps {
        assert LiveProps(ps)[1..] == LiveProps(ps[1..]);
      }
    }
  }

  lemma {:induction false} LiveChildrenExact(cs: seq<Node>)
    ensures LiveChildren(cs) == cs <==> forall c :: c in cs ==> NothingDeleted(c)
    ensures |LiveChildren(cs)| <= |cs|
  {
    if cs != [] {
      LiveExact(cs[0]);
      LiveChildrenExact(cs[1..]);
      assert cs == [cs[0]] + cs[1..] && cs[0] in cs;
      if !cs[0].deleted && LiveChildren(cs) == cs {
        assert LiveChildren(cs)[1..] == LiveChildren(cs[1..]) && LiveChildren(cs)[0] == Live(cs[0]);
      }
    }
  }

  lemma {:induction false} LiveExact(node: Node)
    ensures Live(node) == node <==> NothingDeleted(node)
    decreases node
  {
    LivePropsExact(node.props);
    LiveChildrenExact(node.children);
  }

  /** The round trip is the identity if and only if nothing in the tree is
      deleted and no entry of the reserve map is empty. */
  lemma {:induction false} BlobRoundTripExact(bi: BootInfo, version: nat, slots: nat, padlen: nat)
    requires version == 16 || version == 17
    requires Representable(bi, slots, padlen) && !bi.dt.deleted
    ensures ReadBlob(Blob(bi, version, slots, padlen)) == Some(bi)
       <==> NothingDeleted(bi.dt) && forall r :: r in bi.reserves ==> r.size != 0
  {
    BlobRoundTrip(bi, version, slots, padlen);
    LiveExact(bi.dt);
    UntilEmptyExact(bi.reserves);
  }

  // ----------------------------------------------------------------- methods

  function Prepended(list: seq<Reserve>, r: Option<seq<Reserve>>): (p: Option<seq<Reserve>>)
    ensures list == [] ==> p == r
  {
    if r.None? then None else
    assert list == [] ==> list + r.value == r.value;
    Some(list + r.value)
  }

  /** `flat_read_mem_reserve`. */
  method ReadMemReserve(inb: Bytes) returns (r: Option<seq<Reserve>>)
    ensures r == ReadReserves(inb)
  {
    var ptr := 0;
    var list: seq<Reserve> := [];
    assert inb[0..] == inb && Prepended(list, ReadReserves(inb)) == ReadReserves(inb);
    while true
      invariant 0 <= ptr <= |inb|
      invariant ReadReserves(inb) == Prepended(list, ReadReserves(inb[ptr..]))
      decreases |inb| - ptr
    {
      if ptr + 16 > |inb| {
        return None;
      }
      var chunk := inb[ptr..];
      var re := Reserve(DWordValue(chunk), DWordValue(chunk[8..]));
      ptr := ptr + 16;
      assert chunk[16..] == inb[ptr..];
      if re.size == 0 {
        assert list + [] == list;
        return Some(list);
      }
      ghost var more := ReadReserves(inb[ptr..]);
      if more.Some? {
        assert list + ([re] + more.value) == (list + [re]) + more.value;
      }
      list := list + [re];
    }
  }

  /** `dt_from_blob` on the contents of the file. */
  method DtFromBlob(file: Bytes) returns (r: Option<BootInfo>)
    ensures r == ReadBlob(file)
  {
    if |file| < HEADER_END || Field(file, 0) != FDT_MAGIC {
      return None;
    }
    var totalsize := Field(file, 1);
    if totalsize < HEADER_END || totalsize > |file| {
      return None;
    }
    r := ReadHeader(file[..totalsize]);
  }

  /** The part that looks at the fields behind the total size. */
  method ReadHeader(blob: Bytes) returns (r: Option<BootInfo>)
    requires |blob| >= HEADER_END
    ensures r == ReadSections(blob)
  {
    var off_dt, off_str, off_mem_rsvmap := Field(blob, 2), Field(blob, 3), Field(blob, 4);
    var version, boot_cpuid_phys := Field(blob, 5), Field(blob, 7);
    SectionsOf(blob, version, off_dt, off_str, Field(blob, 8), off_mem_rsvmap, Field(blob, 9), boot_cpuid_phys);
    if off_mem_rsvmap >= |blob| || off_dt >= |blob| || off_str > |blob| || version < 16 {
      return None;
    }
    var size_str := Field(blob, 8);
    if off_str + size_str > |blob| {
      return None;
    }
    if version >= 17 && off_dt + Field(blob, 9) > |blob| {
      return None;
    }
    r := ReadParts(blob, off_dt, off_str, size_str, off_mem_rsvmap, boot_cpuid_phys);
  }

  /** The sections, when the offsets have been checked. */
  method ReadParts(blob: Bytes, off_dt: nat, off_str: nat, size_str: nat, off_mem_rsvmap: nat, boot_cpuid_phys: nat)
    returns (r: Option<BootInfo>)
    requires off_dt < |blob| && off_mem_rsvmap < |blob| && off_str + size_str <= |blob|
    ensures r == ReadAt(blob, off_dt, off_str, size_str, off_mem_rsvmap, boot_cpuid_phys)
  {
    var reservelist := ReadMemReserve(blob[off_mem_rsvmap..]);
    var tree := ReadStructure(blob[off_dt..], blob[off_str..off_str + size_str]);
    if reservelist.None? || tree.None? {
      return None;
    }
    return Some(BootInfo(reservelist.value, tree.value, boot_cpuid_phys));
  }

  /** The structure block between its first tag and FDT_END. */
  method ReadStructure(inb: Bytes, tab: Bytes) returns (r: Option<Node>)
    ensures r == ReadTree(inb, tab)
  {
    var dtbuf := new InBuf(inb);
    assert dtbuf.Rest() == inb;
    var val := dtbuf.ReadWord();
    if val.None? || val.value != FDT_BEGIN_NODE {
      return None;
    }
    var tree := dtbuf.UnflattenTree(tab);
    if tree.None? {
      return None;
    }
    val := dtbuf.ReadWord();
    if val.None? || val.value != FDT_END {
      return None;
    }
    return tree;
  }

  /** The structure block and the string table, as `dt_to_blob` builds them. */
  method WriteStructure(dt: Node) returns (dtbuf: Bytes, strbuf: Bytes)
    requires Named(dt)
    ensures dtbuf == FlatNode(dt, []).bytes + Word(FDT_END) && strbuf == FlatNode(dt, []).tab
  {
    var d := new Data();
    var s := new Data();
    FlattenTree(dt, d, s);
    d.AppendCell(FDT_END);
    dtbuf, strbuf := d.val[..d.len], s.val[..s.len];
  }

  /** `flatten_reserve_list`, and the zero entry that ends the map. */
  method WriteReserves(rs: seq<Reserve>, slots: nat) returns (reservebuf: Bytes)
    ensures reservebuf == FlatReserves(rs) + Zeroes(16 * slots) + Zeroes(16)
  {
    reservebuf := [];
    var i := 0;
    assert rs[0..] == rs;
    while i < |rs|
      invariant 0 <= i <= |rs|
      invariant reservebuf + FlatReserves(rs[i..]) == FlatReserves(rs)
    {
      assert rs[i..][1..] == rs[i + 1..];
      Assoc(reservebuf, Entry(rs[i]), FlatReserves(rs[i + 1..]));
      reservebuf := reservebuf + Entry(rs[i]);
      i := i + 1;
    }
    assert reservebuf + [] == reservebuf;
    reservebuf := reservebuf + Zeroes(16 * slots) + Zeroes(16);
  }

  /** `dt_to_blob` for versions 16 and 17. */
  method DtToBlob(bi: BootInfo, version: nat, slots: nat, padlen: nat) returns (blob: Bytes)
    requires (version == 16 || version == 17) && Named(bi.dt)
    ensures blob == Blob(bi, version, slots, padlen)
  {
    var dtbuf, strbuf := WriteStructure(bi.dt);
    var reservebuf := WriteReserves(bi.reserves, slots);
    blob := Words(HeaderWords(version, |reservebuf|, |dtbuf|, |strbuf|, bi.cpu, padlen));
    blob := blob + (reservebuf + (dtbuf + (strbuf + Zeroes(padlen))));
  }
}
