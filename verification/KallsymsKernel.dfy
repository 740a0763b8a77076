/** The kernel's side: decoding a name into a buffer, finding the offset of a
    name, and looking symbols up by address and by name. */
module KallsymsKernel {
  import opened ByteStrings
  import opened KallsymsTokens
  import opened KallsymsCompress
  import opened KallsymsImage
  import opened KallsymsWriter
  import Order = KallsymsSort

  // ---------------------------------------------------------------- decoding

  /** The token text ends with NUL at or after every index in use. */
  ghost predicate Terminated(img: Image) {
    |img.tokenIndex| == 256 && forall c: Byte :: TerminatedAt(img, img.tokenIndex[c])
  }

  predicate TerminatedAt(img: Image, index: nat) {
    var k := index + |CString(img.tokenTable, index)|;
    k < |img.tokenTable| && img.tokenTable[k] == 0
  }

  lemma {:induction false} LayoutTerminated(img: Image, slots: Slots, syms: seq<Bytes>)
    requires Acyclic(slots) && !IsChar(slots, 0) && Layout(img, slots, syms)
    ensures Terminated(img)
  {
    forall c: Byte ensures TerminatedAt(img, img.tokenIndex[c]) {
      TokenStored(img, slots, syms, c);
    }
  }

  /** The longest part of a name that fits a buffer of `maxlen` bytes with the
      NUL that ends it. */
  function Truncated(name: Bytes, maxlen: nat): Bytes {
    if maxlen == 0 then [] else if |name| < maxlen then name else name[..maxlen - 1]
  }

  /** What is in the buffer after decoding a name into it: the name as far as it
      fits, a NUL, and what was there before. */
  ghost predicate Holds(buf: seq<Byte>, before: seq<Byte>, name: Bytes, maxlen: nat) {
    var t := Truncated(name, maxlen);
    && |buf| == |before| && maxlen <= |buf|
    && if maxlen == 0 then buf == before
       else |t| < |buf| && buf[..|t|] == t && buf[|t|] == 0 && buf[|t| + 1..] == before[|t| + 1..]
  }

  /** Characters handed out so far, apart from the type byte, are in the buffer. */
  ghost predicate Emitted(buf: seq<Byte>, before: seq<Byte>, seen: Bytes, pos: nat, room: nat, maxlen: nat) {
    && |buf| == |before| && maxlen <= |buf|
    && pos + room == maxlen && pos <= |buf|
    && pos == |WithoutType(seen)|
    && buf[..pos] == WithoutType(seen)
    && buf[pos..] == before[pos..]
    && (maxlen > 0 ==> room > 0)
  }

  lemma EmittedAll(buf: seq<Byte>, before: seq<Byte>, seen: Bytes, pos: nat, room: nat, maxlen: nat)
    requires Emitted(buf, before, seen, pos, room, maxlen)
    ensures maxlen == 0 ==> Holds(buf, before, WithoutType(seen), maxlen)
    ensures maxlen > 0 ==> Holds(buf[pos := 0], before, WithoutType(seen), maxlen)
  {}

  /** One more character: the first is the type byte and is skipped. */
  lemma {:induction false} EmittedNext(buf: seq<Byte>, before: seq<Byte>, seen: Bytes, x: Byte, pos: nat, room: nat,
                                       maxlen: nat)
    requires Emitted(buf, before, seen, pos, room, maxlen)
    ensures seen == [] ==> Emitted(buf, before, seen + [x], pos, room, maxlen)
    ensures seen != [] && room > 1 ==> Emitted(buf[pos := x], before, seen + [x], pos + 1, room - 1, maxlen)
  {
    if seen != [] {
      assert WithoutType(seen + [x]) == WithoutType(seen) + [x];
      if room > 1 {
        assert buf[pos := x][..pos + 1] == buf[..pos] + [x];
        assert buf[pos := x][pos + 1..] == buf[pos..][1..] == before[pos..][1..] == before[pos + 1..];
      }
    }
  }

  /** Moving the first character of a token to what has been seen. */
  lemma SeenNext(t: Bytes, tptr: nat, seen: Bytes)
    requires tptr < |t| && t[tptr] != 0
    ensures seen + CString(t, tptr) == (seen + [t[tptr]]) + CString(t, tptr + 1)
    ensures |CString(t, tptr)| == |CString(t, tptr + 1)| + 1
  {}

  /** No more room: what has been seen is what fits of any longer name. */
  lemma {:induction false} EmittedFull(buf: seq<Byte>, before: seq<Byte>, seen: Bytes, all: Bytes, pos: nat,
                                       room: nat, maxlen: nat)
    requires Emitted(buf, before, seen, pos, room, maxlen) && room <= 1
    requires seen < all && seen != []
    ensures maxlen == 0 ==> Holds(buf, before, WithoutType(all), maxlen)
    ensures maxlen > 0 ==> Holds(buf[pos := 0], before, WithoutType(all), maxlen)
  {
    if maxlen > 0 {
      assert WithoutType(all)[..maxlen - 1] == WithoutType(seen);
      assert Truncated(WithoutType(all), maxlen) == WithoutType(seen);
    }
  }

  /** The inner loop: one token's text goes to the buffer.  `full` stands for
      the jump to the tail when no room is left. */
  method CopyToken(img: Image, tok: nat, result: array<Byte>, posIn: nat, roomIn: nat, skippedIn: bool,
                   ghost before: seq<Byte>, ghost seenIn: Bytes, ghost maxlen: nat)
    returns (pos: nat, room: nat, skipped_first: bool, full: bool, ghost seen: Bytes)
    requires var k := tok + |CString(img.tokenTable, tok)|; k < |img.tokenTable| && img.tokenTable[k] == 0
    requires skippedIn == (seenIn != []) && Emitted(result[..], before, seenIn, posIn, roomIn, maxlen)
    modifies result
    ensures skipped_first == (seen != []) && Emitted(result[..], before, seen, pos, room, maxlen)
    ensures !full ==> seen == seenIn + CString(img.tokenTable, tok)
    ensures full ==> seen < seenIn + CString(img.tokenTable, tok) && seen != [] && room <= 1
  {
    var tptr := tok;
    pos, room, skipped_first, full, seen := posIn, roomIn, skippedIn, false, seenIn;
    ghost var goal := seenIn + CString(img.tokenTable, tok);
    while img.tokenTable[tptr] != 0
      invariant tptr + |CString(img.tokenTable, tptr)| < |img.tokenTable|
      invariant img.tokenTable[tptr + |CString(img.tokenTable, tptr)|] == 0
      invariant skipped_first == (seen != []) && Emitted(result[..], before, seen, pos, room, maxlen)
      invariant goal == seen + CString(img.tokenTable, tptr)
      decreases |img.tokenTable| - tptr
    {
      ghost var x, was := img.tokenTable[tptr], result[..];
      SeenNext(img.tokenTable, tptr, seen);
      EmittedNext(was, before, seen, x, pos, room, maxlen);
      if skipped_first {
        if room <= 1 {
          full := true;
          return;
        }
        result[pos] := img.tokenTable[tptr];
        assert result[..] == was[pos := x];
        pos := pos + 1;
        room := room - 1;
      } else {
        skipped_first := true;
      }
      seen := seen + [x];
      tptr := tptr + 1;
    }
  }

  /** What has been seen, and what is still to be decoded, is the whole name. */
  predicate Decoding(img: Image, all: Bytes, seen: Bytes, data: nat, next: nat) {
    |img.tokenIndex| == 256 && data <= next <= |img.names| && all == seen + Decode(img, img.names[data..next])
  }

  lemma DecodingBegins(img: Image, all: Bytes, seen: Bytes, data: nat, next: nat)
    requires |img.tokenIndex| == 256 && data <= next <= |img.names|
    requires seen == [] && all == Decode(img, img.names[data..next])
    ensures Decoding(img, all, seen, data, next)
  {}

  lemma Decoded(img: Image, all: Bytes, seen: Bytes, data: nat, next: nat)
    requires Decoding(img, all, seen, data, next) && data == next
    ensures seen == all
  {}

  /** The text of a token has been seen, or less than that. */
  lemma {:induction false} DecodingNext(img: Image, all: Bytes, seen: Bytes, data: nat, next: nat, seen': Bytes)
    requires Decoding(img, all, seen, data, next) && data < next
    ensures var through := seen + CString(img.tokenTable, img.tokenIndex[img.names[data]]);
            && (seen' == through ==> Decoding(img, all, seen', data + 1, next))
            && (seen' < through ==> seen' < all)
  {
    assert img.names[data..next][1..] == img.names[data + 1..next];
  }

  /** The tail: end the string where the characters stopped. */
  method EndString(result: array<Byte>, pos: nat, room: nat, maxlen: nat, full: bool,
                   ghost before: seq<Byte>, ghost seen: Bytes, ghost all: Bytes)
    requires Emitted(result[..], before, seen, pos, room, maxlen)
    requires if full then seen < all && seen != [] && room <= 1 else seen == all
    modifies result
    ensures Holds(result[..], before, WithoutType(all), maxlen)
  {
    ghost var was := result[..];
    if full {
      EmittedFull(was, before, seen, all, pos, room, maxlen);
    } else {
      EmittedAll(was, before, seen, pos, room, maxlen);
    }
    if maxlen > 0 {
      result[pos] := 0;
      assert result[..] == was[pos := 0];
    }
  }

  method KallsymsExpandSymbol(img: Image, off: nat, result: array<Byte>, maxlen: nat) returns (next: nat)
    requires Terminated(img) && StoredAt(img, off) && maxlen <= result.Length
    modifies result
    ensures next == off + 1 + img.names[off]
    ensures Holds(result[..], old(result[..]), NameAt(img, off), maxlen)
  {
    var len, data := img.names[off], off + 1;
    next := off + len + 1;
    var pos: nat, room: nat, skipped_first, full := 0, maxlen, false, false;
    ghost var before := result[..];
    ghost var all := Decode(img, DataAt(img, off));
    ghost var seen: Bytes := [];
    DecodingBegins(img, all, seen, data, next);
    while len > 0 && !full
      invariant 0 <= len && data + len == next <= |img.names|
      invariant skipped_first == (seen != []) && Emitted(result[..], before, seen, pos, room, maxlen)
      invariant !full ==> Decoding(img, all, seen, data, next)
      invariant full ==> seen < all && seen != [] && room <= 1
      decreases len
    {
      var c := img.names[data];
      ghost var seenBefore := seen;
      data := data + 1;
      len := len - 1;
      pos, room, skipped_first, full, seen :=
        CopyToken(img, img.tokenIndex[c], result, pos, room, skipped_first, before, seen, maxlen);
      DecodingNext(img, all, seenBefore, data - 1, next, seen);
    }
    if !full {
      Decoded(img, all, seen, data, next);
    }
    EndString(result, pos, room, maxlen, full, before, seen, all);
  }

  // --------------------------------------------------- offsets and addresses

  /** The offset of a name, counted on from the nearest marker. */
  method GetSymbolOffset(img: Image, pos: nat, ghost slots: Slots, ghost syms: seq<Bytes>) returns (off: nat)
    requires Acyclic(slots) && Layout(img, slots, syms) && pos < |syms|
    ensures off == Offset(syms, pos)
  {
    off := img.markers[pos / MARKER_STEP];
    var i := 0;
    ghost var first := MARKER_STEP * (pos / MARKER_STEP);
    while i < pos % MARKER_STEP
      invariant 0 <= i <= pos % MARKER_STEP
      invariant off == Offset(syms, first + i)
    {
      NameReadable(img, slots, syms, first + i);
      off := off + img.names[off] + 1;
      i := i + 1;
    }
  }

  ghost predicate Sorted(a: seq<nat>) {
    forall i, j :: 0 <= i < j < |a| ==> a[i] <= a[j]
  }

  /** Subtraction of unsigned 64-bit numbers. */
  function Sub64(a: nat, b: nat): nat {
    (a - b) % 0x1_0000_0000_0000_0000
  }

  /** `end` is the next address in the table above `start`, if there is one. */
  ghost predicate NextAbove(a: seq<nat>, start: nat, end: nat) {
    && end in a && end > start
    && forall x :: x in a && x > start ==> x >= end
  }

  /** The first of the symbols with the greatest address not above `addr`. */
  method SearchPos(a: seq<nat>, addr: nat) returns (low: nat)
    requires a != [] && Sorted(a)
    ensures low < |a|
    ensures a[0] <= addr ==> a[low] <= addr && forall x :: x in a && x <= addr ==> x <= a[low]
    ensures addr < a[0] ==> low == 0
    ensures forall j :: 0 <= j < low ==> a[j] < a[low]
  {
    low := 0;
    var high := |a|;
    while high - low > 1
      invariant low < high <= |a|
      invariant a[low] <= addr || low == 0
      invariant high < |a| ==> addr < a[high]
    {
      var mid := low + (high - low) / 2;
      if a[mid] <= addr {
        low := mid;
      } else {
        high := mid;
      }
    }
    ghost var found := low;
    while low > 0 && a[low - 1] == a[low]
      invariant 0 <= low <= found && a[low] == a[found]
    {
      low := low - 1;
    }
  }

  /** Up to the next greater address, or to the end of the section. */
  method SymbolSize(a: seq<nat>, low: nat, sectionEnd: nat) returns (size: nat)
    requires Sorted(a) && low < |a|
    ensures if exists x :: x in a && x > a[low] then exists end :: NextAbove(a, a[low], end) && size == end - a[low]
            else size == Sub64(sectionEnd, a[low])
  {
    var start := a[low];
    var end: nat := 0;
    var i := low + 1;
    while i < |a|
      invariant low < i <= |a| && end == 0
      invariant forall j :: low <= j < i ==> a[j] == start
    {
      if a[i] > start {
        end := a[i];
        break;
      }
      i := i + 1;
    }
    if end == 0 {
      forall x | x in a ensures x <= start {
        var j :| 0 <= j < |a| && a[j] == x;
      }
      size := Sub64(sectionEnd, start);
    } else {
      forall x | x in a && x > start ensures x >= end {
        var j :| 0 <= j < |a| && a[j] == x;
      }
      assert NextAbove(a, start, end);
      size := end - start;
    }
  }

  /** The symbol an address belongs to, its size and the distance from its start. */
  method GetSymbolPos(a: seq<nat>, addr: nat, sectionEnd: nat) returns (low: nat, size: nat, offset: nat)
    requires a != [] && Sorted(a)
    ensures low < |a|
    ensures a[0] <= addr ==> a[low] <= addr && forall x :: x in a && x <= addr ==> x <= a[low]
    ensures addr < a[0] ==> low == 0
    ensures forall j :: 0 <= j < low ==> a[j] < a[low]
    ensures offset == Sub64(addr, a[low])
    ensures if exists x :: x in a && x > a[low] then exists end :: NextAbove(a, a[low], end) && size == end - a[low]
            else size == Sub64(sectionEnd, a[low])
  {
    low := SearchPos(a, addr);
    size := SymbolSize(a, low, sectionEnd);
    offset := Sub64(addr, a[low]);
  }

  // ----------------------------------------------------------------- lookups

  /** An image made from `orig`: what the kernel relies on. */
  ghost predicate MadeFrom(img: Image, slots: Slots, cur: seq<Bytes>, orig: seq<Bytes>) {
    Readable(orig) && Compressed(slots, cur, orig) && Layout(img, slots, cur)
  }

  /** Name by address: the name of the symbol found, truncated to the buffer. */
  method KallsymsLookup(img: Image, addr: nat, sectionEnd: nat, namebuf: array<Byte>,
                        ghost slots: Slots, ghost cur: seq<Bytes>, ghost orig: seq<Bytes>)
    returns (pos: nat, size: nat, offset: nat)
    requires MadeFrom(img, slots, cur, orig) && img.addresses != [] && Sorted(img.addresses)
    requires namebuf.Length == KSYM_NAME_LEN
    modifies namebuf
    ensures pos < |orig|
    ensures img.addresses[0] <= addr ==>
              img.addresses[pos] <= addr && forall x :: x in img.addresses && x <= addr ==> x <= img.addresses[pos]
    ensures forall j :: 0 <= j < pos ==> img.addresses[j] < img.addresses[pos]
    ensures offset == Sub64(addr, img.addresses[pos])
    ensures if exists x :: x in img.addresses && x > img.addresses[pos]
            then exists end :: NextAbove(img.addresses, img.addresses[pos], end) && size == end - img.addresses[pos]
            else size == Sub64(sectionEnd, img.addresses[pos])
    ensures CString(namebuf[..], 0) == Truncated(WithoutType(orig[pos]), KSYM_NAME_LEN)
  {
    pos, size, offset := GetSymbolPos(img.addresses, addr, sectionEnd);
    LayoutTerminated(img, slots, cur);
    var off := GetSymbolOffset(img, pos, slots, cur);
    var next := ReadName(img, pos, off, namebuf, slots, cur, orig);
  }

  /** A buffer that holds a name is that name as a C string. */
  lemma {:induction false} HeldString(buf: seq<Byte>, before: seq<Byte>, name: Bytes, maxlen: nat)
    requires maxlen > 0 && Holds(buf, before, name, maxlen) && 0 !in name
    ensures CString(buf, 0) == Truncated(name, maxlen)
  {
    var t := Truncated(name, maxlen);
    assert buf == [] + t + [0] + buf[|t| + 1..];
    CStringAt(buf, [], t, buf[|t| + 1..]);
  }

  /** Name `i` into the buffer, and on to the offset of the next. */
  method ReadName(img: Image, i: nat, off: nat, namebuf: array<Byte>,
                  ghost slots: Slots, ghost cur: seq<Bytes>, ghost orig: seq<Bytes>) returns (next: nat)
    requires MadeFrom(img, slots, cur, orig) && i < |orig| && off == Offset(cur, i)
    requires Terminated(img) && namebuf.Length == KSYM_NAME_LEN
    modifies namebuf
    ensures next == Offset(cur, i + 1)
    ensures CString(namebuf[..], 0) == Truncated(WithoutType(orig[i]), KSYM_NAME_LEN)
  {
    RoundTrip(img, slots, cur, orig, i);
    NameReadable(img, slots, cur, i);
    ghost var before := namebuf[..];
    next := KallsymsExpandSymbol(img, off, namebuf, KSYM_NAME_LEN);
    HeldString(namebuf[..], before, WithoutType(orig[i]), KSYM_NAME_LEN);
  }

  predicate Named(orig: seq<Bytes>, i: nat, name: Bytes)
    requires i < |orig|
  {
    Truncated(WithoutType(orig[i]), KSYM_NAME_LEN) == name
  }

  ghost predicate NoneNamed(orig: seq<Bytes>, n: nat, name: Bytes)
    requires n <= |orig|
  {
    forall j :: 0 <= j < n ==> !Named(orig, j, name)
  }

  lemma NoneNamedNext(orig: seq<Bytes>, n: nat, name: Bytes)
    requires n < |orig| && NoneNamed(orig, n, name) && !Named(orig, n, name)
    ensures NoneNamed(orig, n + 1, name)
  {}

  /** The address of the first symbol of that name, or 0 if there is none. */
  ghost predicate LookedUp(addresses: seq<nat>, orig: seq<Bytes>, name: Bytes, address: nat)
    requires |addresses| == |orig|
  {
    if NoneNamed(orig, |orig|, name) then address == 0
    else exists i :: 0 <= i < |orig| && Named(orig, i, name) && NoneNamed(orig, i, name) && address == addresses[i]
  }

  lemma FoundFirst(addresses: seq<nat>, orig: seq<Bytes>, name: Bytes, i: nat)
    requires |addresses| == |orig| && i < |orig| && Named(orig, i, name) && NoneNamed(orig, i, name)
    ensures LookedUp(addresses, orig, name, addresses[i])
  {}

  lemma NoneFound(addresses: seq<nat>, orig: seq<Bytes>, name: Bytes)
    requires |addresses| == |orig| && NoneNamed(orig, |orig|, name)
    ensures LookedUp(addresses, orig, name, 0)
  {}

  /** `strcmp` of the name in the buffer. */
  method SameName(img: Image, i: nat, off: nat, name: Bytes, namebuf: array<Byte>,
                  ghost slots: Slots, ghost cur: seq<Bytes>, ghost orig: seq<Bytes>) returns (same: bool, next: nat)
    requires MadeFrom(img, slots, cur, orig) && i < |orig| && off == Offset(cur, i)
    requires Terminated(img) && namebuf.Length == KSYM_NAME_LEN
    modifies namebuf
    ensures same == Named(orig, i, name) && next == Offset(cur, i + 1)
  {
    next := ReadName(img, i, off, namebuf, slots, cur, orig);
    var s := CString(namebuf[..], 0);
    same := s == name;
  }

  /** Address by name: the first symbol of that name as far as names fit the
      buffer, or 0. */
  method KallsymsLookupName(img: Image, name: Bytes, ghost slots: Slots, ghost cur: seq<Bytes>, ghost orig: seq<Bytes>)
    returns (address: nat)
    requires MadeFrom(img, slots, cur, orig)
    ensures LookedUp(img.addresses, orig, name, address)
  {
    var namebuf := new Byte[KSYM_NAME_LEN];
    LayoutTerminated(img, slots, cur);
    var i, off := 0, 0;
    while i < |img.addresses|
      invariant 0 <= i <= |img.addresses| && off == Offset(cur, i)
      invariant NoneNamed(orig, i, name)
    {
      var same;
      same, off := SameName(img, i, off, name, namebuf, slots, cur, orig);
      if same {
        FoundFirst(img.addresses, orig, name, i);
        return img.addresses[i];
      }
      NoneNamedNext(orig, i, name);
      i := i + 1;
    }
    NoneFound(img.addresses, orig, name);
    return 0;
  }

  /** Generator and kernel together: a table goes through compression and layout,
      and the kernel finds the original names in it, unless the tokens do not fit
      the buffer that they are expanded into. */
  method GenerateThenLookup(c: Compressor, addr: nat, sectionEnd: nat, namebuf: array<Byte>)
    returns (ok: bool, pos: nat)
    requires c.Names() && c.Exact([]) && Readable(c.cur) && c.table != []
    requires forall i, j :: 0 <= i < j < |c.table| ==> c.table[i].addr <= c.table[j].addr
    requires c.table[0].addr <= addr
    requires namebuf.Length == KSYM_NAME_LEN && namebuf !in c.Texts()
    modifies c.token_profit, c.best_table, c.best_table_len, c.Entries(), c.Texts(), c`cur, c`slots, namebuf
    ensures Acyclic(c.slots) && (ok <==> TokensFit(c.slots))
    ensures ShortNames(old(c.cur)) ==> ok
    ensures Lone(old(c.cur), |Characters(old(c.cur))|) ==> (ok <==> ShortNames(old(c.cur)))
    ensures ok ==> pos < |c.table| && c.table[pos].addr <= addr
    ensures ok ==> forall i :: 0 <= i < |c.table| && c.table[i].addr <= addr ==> c.table[i].addr <= c.table[pos].addr
    ensures ok ==> forall i :: 0 <= i < pos ==> c.table[i].addr < c.table[pos].addr
    ensures ok ==>
              CString(namebuf[..], 0) == Truncated(WithoutType(old(c.table[pos].Name())), KSYM_NAME_LEN)
  {
    ghost var orig := c.cur;
    pos := 0;
    ghost var run;
    ok, run := c.OptimizeTokenTable();
    if ShortNames(orig) {
      ShortNamesFit(c.slots, c.cur, orig);
    }
    if Lone(orig, |Characters(orig)|) {
      LoneNameFitsIff(c.slots, c.cur, orig);
    }
    var img;
    ok, img := WriteSrc(c, orig);
    if ok {
      pos := LookupIn(c, img, addr, sectionEnd, namebuf, orig);
    }
  }

  /** The lookup by address in the image that was written. */
  method LookupIn(c: Compressor, img: Image, addr: nat, sectionEnd: nat, namebuf: array<Byte>, ghost orig: seq<Bytes>)
    returns (pos: nat)
    requires MadeFrom(img, c.slots, c.cur, orig) && c.table != [] && |orig| == |c.table|
    requires forall i :: 0 <= i < |c.table| ==> img.addresses[i] == c.table[i].addr
    requires forall i, j :: 0 <= i < j < |c.table| ==> c.table[i].addr <= c.table[j].addr
    requires c.table[0].addr <= addr && namebuf.Length == KSYM_NAME_LEN && namebuf !in c.Texts()
    modifies namebuf
    ensures pos < |c.table| && c.table[pos].addr <= addr
    ensures forall i :: 0 <= i < |c.table| && c.table[i].addr <= addr ==> c.table[i].addr <= c.table[pos].addr
    ensures forall i :: 0 <= i < pos ==> c.table[i].addr < c.table[pos].addr
    ensures CString(namebuf[..], 0) == Truncated(WithoutType(orig[pos]), KSYM_NAME_LEN)
  {
    var size, offset;
    pos, size, offset := KallsymsLookup(img, addr, sectionEnd, namebuf, c.slots, c.cur, orig);
    forall i | 0 <= i < |c.table| && c.table[i].addr <= addr ensures c.table[i].addr <= c.table[pos].addr {
      assert img.addresses[i] in img.addresses;
    }
  }

  // ------------------------------------------------- the choice among aliases

  /** The entries of the compressor are those of the sorted table. */
  ghost predicate Holding(c: Compressor, s: seq<Order.Entry>)
    requires c.Names()
    reads c, c.Entries(), c.Texts()
  {
    && |s| == |c.table|
    && forall i :: 0 <= i < |s| ==> s[i] == Order.Entry(c.table[i].addr, c.cur[i], c.table[i].start_pos)
  }

  /** `e` is at the nearest address that is not above `addr`, and the least of the
      aliases there. */
  predicate Nearest(s: seq<Order.Entry>, addr: nat, e: Order.Entry)
    requires Order.Distinguished(s)
  {
    && e in s && e.addr <= addr
    && forall x :: x in s && x != e && x.addr <= addr ==>
         x.addr < e.addr || (x.addr == e.addr && Order.Compare(e, x) < 0)
  }

  /** There is no more than one such entry, in whatever order the table came. */
  lemma {:induction false} NearestOnce(read: seq<Order.Entry>, s: seq<Order.Entry>, addr: nat, d: Order.Entry,
                                       e: Order.Entry)
    requires Order.Distinguished(read) && Order.Distinguished(s) && multiset(read) == multiset(s)
    requires Nearest(read, addr, d) && Nearest(s, addr, e)
    ensures d == e
  {
    assert e in multiset(read) && d in multiset(s);
    if d != e {
      Order.CompareBackwards(d, e);
    }
  }

  /** Where the search ends is where the order puts the best alias. */
  lemma {:induction false} FirstIsNearest(s: seq<Order.Entry>, addr: nat, pos: nat)
    requires Order.Distinguished(s) && Order.Sorted(s) && pos < |s| && s[pos].addr <= addr
    requires forall i :: 0 <= i < |s| && s[i].addr <= addr ==> s[i].addr <= s[pos].addr
    requires forall i :: 0 <= i < pos ==> s[i].addr < s[pos].addr
    ensures Nearest(s, addr, s[pos])
  {
    forall x | x in s && x != s[pos] && x.addr <= addr
      ensures x.addr < s[pos].addr || (x.addr == s[pos].addr && Order.Compare(s[pos], x) < 0)
    {
      var i :| 0 <= i < |s| && s[i] == x;
      if x.addr == s[pos].addr {
        Order.FirstAliasIsBest(s, pos, i);
        Order.CompareBackwards(s[pos], x);
      }
    }
  }

  /** From the table as it was read: sorted by `compare_symbols`, generated and
      looked up, an address leads to the name of the least alias at the nearest
      symbol. */
  method SortedThenLookup(c: Compressor, ghost read: seq<Order.Entry>, ghost s: seq<Order.Entry>, addr: nat,
                          sectionEnd: nat, namebuf: array<Byte>)
    returns (ok: bool, pos: nat)
    requires c.Names() && c.Exact([]) && Readable(c.cur) && Holding(c, s)
    requires Order.Distinguished(read) && Order.Distinguished(s) && Order.Sorted(s) && multiset(s) == multiset(read)
    requires exists x :: x in read && x.addr <= addr
    requires namebuf.Length == KSYM_NAME_LEN && namebuf !in c.Texts()
    modifies c.token_profit, c.best_table, c.best_table_len, c.Entries(), c.Texts(), c`cur, c`slots, namebuf
    ensures Acyclic(c.slots) && (ok <==> TokensFit(c.slots))
    ensures ok ==> pos < |s| && Nearest(read, addr, s[pos])
    ensures ok ==> CString(namebuf[..], 0) == Truncated(Order.Name(s[pos]), KSYM_NAME_LEN)
  {
    assert exists i :: 0 <= i < |s| && s[i].addr <= addr by {
      var x :| x in read && x.addr <= addr;
      assert x in multiset(s);
    }
    Order.SortedByAddress(s);
    ok, pos := GenerateThenLookup(c, addr, sectionEnd, namebuf);
    if ok {
      FirstIsNearest(s, addr, pos);
      NearestAnyOrder(s, read, addr, s[pos]);
    }
  }

  lemma {:induction false} NearestAnyOrder(s: seq<Order.Entry>, read: seq<Order.Entry>, addr: nat, e: Order.Entry)
    requires Order.Distinguished(read) && Order.Distinguished(s) && multiset(s) == multiset(read)
    requires Nearest(s, addr, e)
    ensures Nearest(read, addr, e)
  {
    assert e in multiset(read);
    forall x | x in read && x != e && x.addr <= addr
      ensures x.addr < e.addr || (x.addr == e.addr && Order.Compare(e, x) < 0)
    {
      assert x in multiset(s);
    }
  }
}
