/** The boot-time memory allocator: a bitmap of pages, first fit from a goal,
    and sub-page allocations that share the last page handed out.

    `Valid` holds after every run of calls; among other things it says that no
    two ranges handed out so far have a byte in common.
  */
module Bootmem {
  import opened Wrappers

  const PAGE_SIZE := 4096

  /** Alignments are powers of two. */
  predicate PowerOfTwo(n: nat) {
    n == 1 || (n > 1 && n % 2 == 0 && PowerOfTwo(n / 2))
  }

  /** `(x + a - 1) & ~(a - 1)` for a power of two. */
  function AlignUp(x: nat, a: nat): (r: nat)
    requires a > 0
  {
    (x + a - 1) / a * a
  }

  lemma {:induction false} AtLeastFactor(d: int, a: nat)
    requires d >= 1
    ensures d * a >= a
  {
    if d > 1 {
      AtLeastFactor(d - 1, a);
      assert d * a == (d - 1) * a + a;
    }
  }

  /** Quotient and remainder are unique. */
  lemma {:induction false} DivisionUnique(x: nat, a: nat, q: nat, r: nat)
    requires a > 0 && x == q * a + r && r < a
    ensures x / a == q && x % a == r
  {
    var d, m := x / a, x % a;
    assert x == d * a + m;
    assert (q - d) * a == q * a - d * a == m - r;
    assert (d - q) * a == d * a - q * a == r - m;
    if q > d {
      AtLeastFactor(q - d, a);
    } else if q < d {
      AtLeastFactor(d - q, a);
    }
  }

  lemma {:induction false} AlignUpLeast(x: nat, a: nat)
    requires a > 0
    ensures AlignUp(x, a) % a == 0 && x <= AlignUp(x, a) < x + a
  {
    var y := x + a - 1;
    assert y == y / a * a + y % a;
    DivisionUnique(AlignUp(x, a), a, y / a, 0);
  }

  /** Of two powers of two the smaller divides the larger. */
  lemma {:induction false} SmallerDivides(a: nat, b: nat) returns (q: nat)
    requires PowerOfTwo(a) && PowerOfTwo(b) && a <= b
    ensures b == q * a
  {
    if a == 1 {
      q := b;
    } else {
      q := SmallerDivides(a / 2, b / 2);
    }
  }

  /** Bytes `start` up to but not including `start + size`. */
  datatype Range = Range(start: nat, size: nat)

  predicate Touches(r: Range, page: nat) {
    r.start < (page + 1) * PAGE_SIZE && page * PAGE_SIZE < r.start + r.size
  }

  predicate Apart(r: Range, s: Range) {
    r.start + r.size <= s.start || s.start + s.size <= r.start
  }

  /** `n` free pages from `i` on, below `end`. */
  ghost predicate Fits(bitmap: seq<bool>, i: nat, n: nat, end: nat) {
    n > 0 && i + n <= end <= |bitmap| && forall j :: i <= j < i + n ==> !bitmap[j]
  }

  /** No aligned run of free pages starts in `from..to`. */
  ghost predicate NoFit(bitmap: seq<bool>, from: nat, to: nat, n: nat, end: nat, incr: nat)
    requires incr > 0
  {
    forall i :: from <= i < to && i % incr == 0 ==> !Fits(bitmap, i, n, end)
  }

  predicate AllApart(allocs: seq<Range>) {
    forall k, l :: 0 <= k < l < |allocs| ==> Apart(allocs[k], allocs[l])
  }

  lemma {:induction false} ApartFromMore(some: seq<Range>, r: Range)
    requires AllApart(some) && forall s :: s in some ==> Apart(s, r)
    ensures AllApart(some + [r])
  {
    var all := some + [r];
    forall k, l | 0 <= k < l < |all| ensures Apart(all[k], all[l]) {
      if l < |some| {
        assert Apart(some[k], some[l]);
      } else {
        assert some[k] in some;
      }
    }
  }

  predicate InBounds(r: Range, pages: nat) {
    r.size > 0 && r.start + r.size <= pages * PAGE_SIZE
  }

  /** The next allocation may go into what is left of page `last_pos`. */
  predicate Open(pages: nat, lastPos: nat, lastOffset: nat) {
    lastOffset > 0 && lastPos + 1 < pages
  }

  /** Page `last_pos` is reserved and in use up to `last_offset`, and not beyond. */
  ghost predicate TailOpen(bits: seq<bool>, pages: nat, lastPos: nat, lastOffset: nat, allocs: seq<Range>)
    requires pages <= |bits|
  {
    && lastPos < pages && bits[lastPos]
    && forall k :: 0 <= k < |allocs| && Touches(allocs[k], lastPos) ==>
         allocs[k].start + allocs[k].size <= lastPos * PAGE_SIZE + lastOffset
  }

  /** Ranges handed out lie on reserved pages and have no byte in common.  An offset
      into the last page of the node does not matter: nothing is ever found behind
      it. */
  ghost predicate ValidState(bits: seq<bool>, pages: nat, lastPos: nat, lastOffset: nat, allocs: seq<Range>) {
    && pages <= |bits| && lastOffset < PAGE_SIZE
    && (forall k :: 0 <= k < |allocs| ==> InBounds(allocs[k], pages))
    && (forall k, page :: 0 <= k < |allocs| && 0 <= page < pages && Touches(allocs[k], page) ==> bits[page])
    && AllApart(allocs)
    && (Open(pages, lastPos, lastOffset) ==> TailOpen(bits, pages, lastPos, lastOffset, allocs))
  }

  /** The page was free, or is the last page with the range behind its used part. */
  ghost predicate Available(bits: seq<bool>, page: nat, pages: nat, lastPos: nat, lastOffset: nat, r: Range)
    requires page < |bits|
  {
    !bits[page] || (Open(pages, lastPos, lastOffset) && page == lastPos && lastPos * PAGE_SIZE + lastOffset <= r.start)
  }

  /** Ranges that are not apart have a page in common. */
  lemma {:induction false} SharedPage(r: Range, s: Range) returns (page: nat)
    requires !Apart(r, s) && r.size > 0 && s.size > 0
    ensures Touches(r, page) && Touches(s, page)
  {
    page := (if r.start < s.start then s.start else r.start) / PAGE_SIZE;
  }

  /** A range on available pages may be added. */
  lemma {:induction false} RangeAdded(bits: seq<bool>, bits': seq<bool>, pages: nat, lastPos: nat, lastOffset: nat,
                   lastPos': nat, lastOffset': nat, allocs: seq<Range>, r: Range)
    requires ValidState(bits, pages, lastPos, lastOffset, allocs)
    requires InBounds(r, pages) && |bits'| == |bits| && lastOffset' < PAGE_SIZE
    requires forall p :: 0 <= p < pages ==> bits'[p] == (bits[p] || Touches(r, p))
    requires forall p :: 0 <= p < pages && Touches(r, p) ==> Available(bits, p, pages, lastPos, lastOffset, r)
    requires lastOffset' > 0 ==>
               lastPos' < pages && Touches(r, lastPos') && r.start + r.size == lastPos' * PAGE_SIZE + lastOffset'
    ensures ValidState(bits', pages, lastPos', lastOffset', allocs + [r])
  {
    var all := allocs + [r];
    forall k | 0 <= k < |allocs| ensures Apart(allocs[k], r) {
      if !Apart(allocs[k], r) {
        var p := SharedPage(allocs[k], r);
        assert false;
      }
    }
    ApartFromMore(allocs, r);
    if lastOffset' > 0 {
      assert Available(bits, lastPos', pages, lastPos, lastOffset, r);
    }
  }

  predicate TouchesAny(r: Range, from: nat, to: nat) {
    exists p :: from <= p < to && Touches(r, p)
  }

  /** The ranges that are still handed out when these pages have been freed. */
  function Untouched(allocs: seq<Range>, from: nat, to: nat): seq<Range> {
    if allocs == [] then []
    else
      var last := allocs[|allocs| - 1];
      var rest := Untouched(allocs[..|allocs| - 1], from, to);
      if TouchesAny(last, from, to) then rest else rest + [last]
  }

  lemma {:induction false} UntouchedRanges(allocs: seq<Range>, from: nat, to: nat)
    ensures forall r :: r in Untouched(allocs, from, to) ==> r in allocs && !TouchesAny(r, from, to)
  {
    if allocs != [] {
      UntouchedRanges(allocs[..|allocs| - 1], from, to);
    }
  }

  lemma {:induction false} UntouchedApart(allocs: seq<Range>, from: nat, to: nat)
    requires AllApart(allocs)
    ensures AllApart(Untouched(allocs, from, to))
  {
    if allocs != [] {
      var init, last := allocs[..|allocs| - 1], allocs[|allocs| - 1];
      var rest := Untouched(init, from, to);
      UntouchedApart(init, from, to);
      UntouchedRanges(init, from, to);
      forall r | r in rest ensures Apart(r, last) {
        var i :| 0 <= i < |init| && init[i] == r;
        assert Apart(allocs[i], allocs[|allocs| - 1]);
      }
      ApartFromMore(rest, last);
    }
  }

  /** Freed pages leave the state as it should be if and only if the partly used
      last page is not one of them, unless it is the last page of the node. */
  lemma {:induction false} PagesFreedIff(bits: seq<bool>, bits': seq<bool>, pages: nat, lastPos: nat, lastOffset: nat,
                                         allocs: seq<Range>, from: nat, to: nat)
    requires ValidState(bits, pages, lastPos, lastOffset, allocs)
    requires |bits'| == |bits| && forall p :: 0 <= p < |bits| ==> bits'[p] == (bits[p] && !(from <= p < to))
    ensures ValidState(bits', pages, lastPos, lastOffset, Untouched(allocs, from, to))
       <==> !(Open(pages, lastPos, lastOffset) && from <= lastPos < to)
  {
    var some := Untouched(allocs, from, to);
    UntouchedRanges(allocs, from, to);
    UntouchedApart(allocs, from, to);
    forall k | 0 <= k < |some| ensures some[k] in allocs && !TouchesAny(some[k], from, to) {
      assert some[k] in some;
    }
  }

  /** The range begins at page `start`, or behind the used part of the page before,
      and ends within the `areasize` pages from `start` on. */
  predicate PlacedAt(lastPos: nat, lastOffset: nat, start: nat, areasize: nat, r: Range) {
    && r.size > 0
    && (start + areasize) * PAGE_SIZE - PAGE_SIZE < r.start + r.size <= (start + areasize) * PAGE_SIZE
    && (r.start == start * PAGE_SIZE
        || (lastOffset > 0 && lastPos + 1 == start && lastPos * PAGE_SIZE + lastOffset <= r.start <= start * PAGE_SIZE))
  }

  ghost predicate Marked(bits: seq<bool>, bits': seq<bool>, pages: nat, start: nat, areasize: nat) {
    && |bits'| == |bits| && start < pages && start + areasize <= pages <= |bits|
    && (forall p :: 0 <= p < |bits| ==> bits'[p] == (bits[p] || start <= p < start + areasize))
    && forall p :: start <= p < start + areasize ==> !bits[p]
  }

  lemma PagesMarked(bits: seq<bool>, bits': seq<bool>, pages: nat, lastPos: nat, lastOffset: nat, start: nat,
                    areasize: nat, r: Range)
    requires Marked(bits, bits', pages, start, areasize) && PlacedAt(lastPos, lastOffset, start, areasize, r)
    ensures forall p :: 0 <= p < pages ==> bits'[p] == (bits[p] || (start <= p && Touches(r, p)))
  {}

  lemma PagesAvailable(bits: seq<bool>, bits': seq<bool>, pages: nat, lastPos: nat, lastOffset: nat,
                       allocs: seq<Range>, start: nat, areasize: nat, r: Range)
    requires ValidState(bits, pages, lastPos, lastOffset, allocs)
    requires Marked(bits, bits', pages, start, areasize) && PlacedAt(lastPos, lastOffset, start, areasize, r)
    ensures forall p :: 0 <= p < pages && Touches(r, p) ==>
              bits'[p] && Available(bits, p, pages, lastPos, lastOffset, r)
    ensures InBounds(r, pages)
    ensures forall p :: 0 <= p < pages ==> bits'[p] == (bits[p] || Touches(r, p))
  {}

  // ------------------------------------------------------ parameters of a scan

  function Area(size: nat): nat { (size + PAGE_SIZE - 1) / PAGE_SIZE }

  lemma AreaCovers(size: nat)
    ensures Area(size) * PAGE_SIZE - PAGE_SIZE < size <= Area(size) * PAGE_SIZE
  {}

  /** Whole pages do not count for the offset in the last one. */
  lemma RestOfPage(pages: nat, size: nat)
    ensures (pages * PAGE_SIZE + size) % PAGE_SIZE == size % PAGE_SIZE
    ensures size % PAGE_SIZE > 0 ==> size == (Area(size) - 1) * PAGE_SIZE + size % PAGE_SIZE
  {}

  function Increment(align: nat): (incr: nat)
    ensures incr > 0
  {
    if align / PAGE_SIZE == 0 then 1 else align / PAGE_SIZE
  }

  /** The page at which the scan starts. */
  function Preferred(goal: nat, align: nat, pages: nat): nat
    requires align > 0
  {
    AlignUp(if goal > 0 && goal / PAGE_SIZE < pages then goal else 0, align) / PAGE_SIZE
  }

  /** First fit: from the preferred page on, or else from the beginning. */
  ghost predicate FirstFit(bits: seq<bool>, start: nat, preferred: nat, n: nat, pages: nat, incr: nat)
    requires incr > 0
  {
    && start % incr == 0 && Fits(bits, start, n, pages)
    && if preferred <= start && NoFit(bits, preferred, start, n, pages, incr) then true
       else NoFit(bits, preferred, pages, n, pages, incr) && NoFit(bits, 0, start, n, pages, incr)
  }

  /** The scan starts at a multiple of its step ... */
  lemma {:induction false} PreferredAligned(align: nat, x: nat)
    requires PowerOfTwo(align)
    ensures AlignUp(x, align) / PAGE_SIZE % Increment(align) == 0
  {
    if align > PAGE_SIZE {
      var q := PagesPerAlign(align);
      var m := (x + align - 1) / align;
      Regroup(m, q, PAGE_SIZE);
      DivisionUnique(m * q * PAGE_SIZE, PAGE_SIZE, m * q, 0);
      DivisionUnique(m * q, q, m, 0);
    }
  }

  lemma Regroup(a: nat, b: nat, c: nat)
    ensures a * (b * c) == a * b * c
  {}

  lemma Quotient(x: nat, a: nat)
    requires a > 0 && x % a == 0
    ensures x == x / a * a
  {}

  /** ... and the pages it tries are aligned in bytes. */
  lemma {:induction false} PageAligned(align: nat, i: nat)
    requires PowerOfTwo(align) && i % Increment(align) == 0
    ensures i * PAGE_SIZE % align == 0
  {
    if align <= PAGE_SIZE {
      PageIsPower();
      var q := SmallerDivides(align, PAGE_SIZE);
      Regroup(i, q, align);
      DivisionUnique(i * PAGE_SIZE, align, i * q, 0);
    } else {
      var q := PagesPerAlign(align);
      var m := i / q;
      Quotient(i, q);
      Regroup(m, q, PAGE_SIZE);
      DivisionUnique(i * PAGE_SIZE, align, m, 0);
    }
  }

  lemma {:induction false} PagesPerAlign(align: nat) returns (q: nat)
    requires PowerOfTwo(align) && align > PAGE_SIZE
    ensures q > 0 && align == q * PAGE_SIZE && Increment(align) == q
  {
    PageIsPower();
    q := SmallerDivides(PAGE_SIZE, align);
  }

  /** An offset within a page aligns to at most the end of the page. */
  lemma {:induction false} OffsetAligned(align: nat, offset: nat, page: nat)
    requires PowerOfTwo(align) && align <= PAGE_SIZE && offset <= PAGE_SIZE
    ensures offset <= AlignUp(offset, align) <= PAGE_SIZE
    ensures (page * PAGE_SIZE + AlignUp(offset, align)) % align == 0
  {
    PageIsPower();
    var q := SmallerDivides(align, PAGE_SIZE);
    var m := AlignUpQuotient(offset, align);
    NoMultipleBetween(q, m, align);
    SumOfMultiples(page, q, align, m);
  }

  lemma {:induction false} AlignUpQuotient(x: nat, a: nat) returns (m: nat)
    requires a > 0
    ensures AlignUp(x, a) == m * a && x <= m * a < x + a
  {
    AlignUpLeast(x, a);
    m := (x + a - 1) / a;
  }

  lemma {:induction false} SumOfMultiples(page: nat, q: nat, a: nat, m: nat)
    requires a > 0 && PAGE_SIZE == q * a
    ensures (page * PAGE_SIZE + m * a) % a == 0
  {
    Regroup(page, q, a);
    var n := page * q;
    assert page * PAGE_SIZE + m * a == (n + m) * a;
    DivisionUnique((n + m) * a, a, n + m, 0);
  }

  /** A multiple less than `a` above another does not exceed it. */
  lemma {:induction false} NoMultipleBetween(q: nat, m: nat, a: nat)
    requires m * a < q * a + a
    ensures m * a <= q * a
  {
    assert (m - q) * a == m * a - q * a;
    if m > q {
      AtLeastFactor(m - q, a);
    }
  }

  lemma {:induction false} PageIsPower()
    ensures PowerOfTwo(PAGE_SIZE)
  {
    assert PowerOfTwo(1) && PowerOfTwo(2) && PowerOfTwo(4) && PowerOfTwo(8) && PowerOfTwo(16) && PowerOfTwo(32);
    assert PowerOfTwo(64) && PowerOfTwo(128) && PowerOfTwo(256) && PowerOfTwo(512) && PowerOfTwo(1024)
           && PowerOfTwo(2048);
  }

  /** The first fit is determined by the state of the bitmap. */
  lemma {:induction false} FirstFitUnique(bits: seq<bool>, s: nat, t: nat, preferred: nat, n: nat, pages: nat,
                                          incr: nat)
    requires incr > 0
    requires FirstFit(bits, s, preferred, n, pages, incr) && FirstFit(bits, t, preferred, n, pages, incr)
    ensures s == t
  {
    assert Fits(bits, s, n, pages) && Fits(bits, t, n, pages);
  }

  class BootmemData {
    const node_low_pfn: nat
    const bitmap: array<bool>
    var last_pos: nat
    var last_offset: nat
    ghost var allocs: seq<Range>

    /** `init_bootmem_core` for a node that starts at address 0. */
    constructor (pages: nat)
      ensures Valid() && allocs == [] && last_offset == 0 && node_low_pfn == pages && fresh(bitmap)
      ensures forall i :: 0 <= i < bitmap.Length ==> bitmap[i]
    {
      var mapsize := (pages + 1 + 7) / 8;
      assert pages <= mapsize * 8;
      mapsize := (mapsize + 7) / 8 * 8;
      node_low_pfn := pages;
      bitmap := new bool[mapsize * 8](_ => true);
      last_pos, last_offset, allocs := 0, 0, [];
      new;
      assert |bitmap[..]| == mapsize * 8 >= pages;
    }

    ghost predicate Bounded()
      reads this
    {
      node_low_pfn <= bitmap.Length && last_offset < PAGE_SIZE
    }

    ghost predicate Valid()
      reads this, bitmap
      ensures Valid() ==> Bounded()
    {
      ValidState(bitmap[..], node_low_pfn, last_pos, last_offset, allocs)
    }

    /** Pages wholly inside the given bytes become available, and the ranges that
        touch them are no longer handed out.  The offset into the last page is not
        reset, so that freeing that page breaks the invariant. */
    method FreeBootmemCore(addr: nat, size: nat)
      requires Bounded() && size > 0 && (addr + size) / PAGE_SIZE <= node_low_pfn
      requires forall i :: (addr + PAGE_SIZE - 1) / PAGE_SIZE <= i < (addr + size) / PAGE_SIZE ==> bitmap[i]
      modifies this`allocs, bitmap
      ensures forall i :: 0 <= i < bitmap.Length ==>
                bitmap[i] == (old(bitmap[i]) && !(addr <= i * PAGE_SIZE && (i + 1) * PAGE_SIZE <= addr + size))
      ensures allocs == Untouched(old(allocs), (addr + PAGE_SIZE - 1) / PAGE_SIZE, (addr + size) / PAGE_SIZE)
      ensures old(Valid()) ==>
                (Valid() <==>
                 !(&& Open(node_low_pfn, last_pos, last_offset)
                   && addr <= last_pos * PAGE_SIZE && (last_pos + 1) * PAGE_SIZE <= addr + size))
    {
      var eidx := (addr + size) / PAGE_SIZE;
      var sidx := (addr + PAGE_SIZE - 1) / PAGE_SIZE;
      var i := sidx;
      while i < eidx
        invariant sidx <= i && (i <= eidx || i == sidx) && allocs == old(allocs)
        invariant forall j :: 0 <= j < bitmap.Length ==> bitmap[j] == (old(bitmap[j]) && !(sidx <= j < i))
      {
        assert bitmap[i];
        bitmap[i] := false;
        i := i + 1;
      }
      if old(Valid()) {
        PagesFreedIff(old(bitmap[..]), bitmap[..], node_low_pfn, last_pos, last_offset, allocs, sidx, eidx);
      }
      allocs := Untouched(allocs, sidx, eidx);
    }

    /** Pages that overlap the given bytes become unavailable. */
    method ReserveBootmemCore(addr: nat, size: nat)
      requires Valid() && size > 0 && (addr + size + PAGE_SIZE - 1) / PAGE_SIZE <= node_low_pfn
      modifies bitmap
      ensures Valid()
      ensures forall i :: 0 <= i < bitmap.Length ==>
                bitmap[i] == (old(bitmap[i]) || Touches(Range(addr, size), i))
    {
      var sidx := addr / PAGE_SIZE;
      var eidx := (addr + size + PAGE_SIZE - 1) / PAGE_SIZE;
      var i := sidx;
      while i < eidx
        invariant sidx <= i <= eidx
        invariant forall j :: 0 <= j < bitmap.Length ==> bitmap[j] == (old(bitmap[j]) || sidx <= j < i)
      {
        bitmap[i] := true;
        i := i + 1;
      }
    }

    /** One pass of the scan from `from` on. */
    method Scan(from: nat, incr: nat, areasize: nat) returns (r: Option<nat>)
      requires Bounded() && incr > 0 && from % incr == 0 && areasize > 0
      ensures r.Some? ==>
                && from <= r.value && r.value % incr == 0 && Fits(bitmap[..], r.value, areasize, node_low_pfn)
                && NoFit(bitmap[..], from, r.value, areasize, node_low_pfn, incr)
      ensures r.None? ==> NoFit(bitmap[..], from, node_low_pfn, areasize, node_low_pfn, incr)
    {
      var i := from;
      while i < node_low_pfn
        invariant from <= i && i % incr == 0
        invariant NoFit(bitmap[..], from, i, areasize, node_low_pfn, incr)
      {
        if !bitmap[i] {
          var j := i + 1;
          while j < i + areasize && j < node_low_pfn && !bitmap[j]
            invariant i < j <= i + areasize && j <= node_low_pfn
            invariant forall k :: i <= k < j ==> !bitmap[k]
          {
            j := j + 1;
          }
          if j == i + areasize {
            return Some(i);
          }
          assert !Fits(bitmap[..], i, areasize, node_low_pfn);
        }
        NextMultiple(i, incr);
        i := i + incr;
      }
      return None;
    }

    /** The scan with its restart from the first page. */
    method FindPages(preferred: nat, incr: nat, areasize: nat) returns (r: Option<nat>)
      requires Bounded() && incr > 0 && preferred % incr == 0 && areasize > 0
      ensures r.Some? ==> FirstFit(bitmap[..], r.value, preferred, areasize, node_low_pfn, incr)
      ensures r.None? <==> NoFit(bitmap[..], 0, node_low_pfn, areasize, node_low_pfn, incr)
    {
      var from := preferred;
      while true
        invariant from == preferred || from == 0
        invariant from != preferred ==> NoFit(bitmap[..], preferred, node_low_pfn, areasize, node_low_pfn, incr)
        decreases from
      {
        r := Scan(from, incr, areasize);
        if r.Some? || from == 0 {
          return;
        }
        from := 0;
      }
    }

    /** Mark pages that are known to be free. */
    method ReserveArea(start: nat, areasize: nat)
      requires start + areasize <= bitmap.Length
      requires forall i :: start <= i < start + areasize ==> !bitmap[i]
      modifies bitmap
      ensures forall i :: 0 <= i < bitmap.Length ==> bitmap[i] == (old(bitmap[i]) || start <= i < start + areasize)
    {
      var i := start;
      while i < start + areasize
        invariant start <= i <= start + areasize
        invariant forall j :: 0 <= j < bitmap.Length ==> bitmap[j] == (old(bitmap[j]) || start <= j < i)
      {
        assert !bitmap[i];
        bitmap[i] := true;
        i := i + 1;
      }
    }

    /** The next page after the partly used last one was found. */
    ghost predicate Merges(align: nat, start: nat)
      reads this
    {
      align <= PAGE_SIZE && last_offset > 0 && last_pos + 1 == start
    }

    /** From an offset in the last page on, and into the pages from `start` on. */
    method Extend(size: nat, offset: nat, start: nat) returns (addr: nat, areasize: nat)
      requires size > 0 && offset <= PAGE_SIZE && last_pos + 1 == start
      modifies this`last_pos, this`last_offset
      ensures addr == old(last_pos) * PAGE_SIZE + offset
      ensures areasize <= Area(size) && last_offset < PAGE_SIZE
      ensures (start + areasize) * PAGE_SIZE - PAGE_SIZE < addr + size <= (start + areasize) * PAGE_SIZE
      ensures last_offset == (addr + size) % PAGE_SIZE
      ensures last_offset > 0 ==>
                && last_pos + 1 == start + areasize && addr < (last_pos + 1) * PAGE_SIZE
                && addr + size == last_pos * PAGE_SIZE + last_offset
    {
      var remaining_size := PAGE_SIZE - offset;
      addr := last_pos * PAGE_SIZE + offset;
      if size < remaining_size {
        areasize := 0;
        RestOfPage(last_pos, offset + size);
        last_offset := offset + size;
      } else {
        remaining_size := size - remaining_size;
        areasize := Area(remaining_size);
        AreaCovers(remaining_size);
        RestOfPage(start, remaining_size);
        assert addr + size == start * PAGE_SIZE + remaining_size;
        last_pos := start + areasize - 1;
        last_offset := remaining_size;
      }
      last_offset := last_offset % PAGE_SIZE;
    }

    /** Where the range goes once a run of free pages has been found, how many of
        those pages it takes, and what becomes of the tail. */
    method Place(size: nat, align: nat, start: nat) returns (addr: nat, areasize: nat)
      requires size > 0 && PowerOfTwo(align) && last_offset < PAGE_SIZE
      modifies this`last_pos, this`last_offset
      ensures addr == if old(Merges(align, start)) then old(last_pos) * PAGE_SIZE + AlignUp(old(last_offset), align)
                      else start * PAGE_SIZE
      ensures areasize <= Area(size) && last_offset < PAGE_SIZE
      ensures old(Merges(align, start)) ==> AlignUp(old(last_offset), align) <= PAGE_SIZE
      ensures (start + areasize) * PAGE_SIZE - PAGE_SIZE < addr + size <= (start + areasize) * PAGE_SIZE
      ensures last_offset == (addr + size) % PAGE_SIZE
      ensures last_offset > 0 ==>
                && last_pos + 1 == start + areasize && addr < (last_pos + 1) * PAGE_SIZE
                && addr + size == last_pos * PAGE_SIZE + last_offset
    {
      if align <= PAGE_SIZE && last_offset > 0 && last_pos + 1 == start {
        OffsetAligned(align, last_offset, last_pos);
        addr, areasize := Extend(size, AlignUp(last_offset, align), start);
      } else {
        AreaCovers(size);
        areasize := Area(size);
        last_pos := start + areasize - 1;
        last_offset := size % PAGE_SIZE;
        addr := start * PAGE_SIZE;
      }
    }

    /** Allocate from a run of free pages that has been found. */
    method Take(size: nat, align: nat, start: nat) returns (addr: nat)
      requires Bounded() && size > 0 && PowerOfTwo(align) && start % Increment(align) == 0
      requires Fits(bitmap[..], start, Area(size), node_low_pfn)
      modifies this, bitmap
      ensures Bounded() && (old(Valid()) ==> Valid())
      ensures addr == (if old(Merges(align, start)) then old(last_pos) * PAGE_SIZE + AlignUp(old(last_offset), align)
                       else start * PAGE_SIZE)
      ensures addr % align == 0 && allocs == old(allocs) + [Range(addr, size)]
      ensures forall p :: 0 <= p < node_low_pfn ==>
                bitmap[p] == (old(bitmap[p]) || (start <= p && Touches(Range(addr, size), p)))
      ensures last_offset == (addr + size) % PAGE_SIZE
      ensures last_offset > 0 ==> addr + size == last_pos * PAGE_SIZE + last_offset
      ensures old(Valid()) ==>
                forall p :: 0 <= p < node_low_pfn && Touches(Range(addr, size), p) ==>
                  && bitmap[p]
                  && Available(old(bitmap[..]), p, node_low_pfn, old(last_pos), old(last_offset), Range(addr, size))
    {
      ghost var bits, lp, lo, valid := bitmap[..], last_pos, last_offset, Valid();
      PageAligned(align, start);
      if Merges(align, start) {
        OffsetAligned(align, last_offset, last_pos);
      }
      var areasize;
      addr, areasize := Place(size, align, start);
      ghost var range := Range(addr, size);
      ReserveArea(start, areasize);
      PagesMarked(bits, bitmap[..], node_low_pfn, lp, lo, start, areasize, range);
      if valid {
        PagesAvailable(bits, bitmap[..], node_low_pfn, lp, lo, allocs, start, areasize, range);
        RangeAdded(bits, bitmap[..], node_low_pfn, lp, lo, last_pos, last_offset, allocs, range);
      }
      allocs := allocs + [range];
    }

    /** Allocate `size` bytes: where the range is, and which pages are marked. */
    method AllocBootmemCore(size: nat, align: nat, goal: nat) returns (r: Option<nat>, ghost start: nat)
      requires Bounded() && size > 0 && PowerOfTwo(align)
      modifies this, bitmap
      ensures Bounded() && (old(Valid()) ==> Valid())
      ensures r.None? <==> NoFit(old(bitmap[..]), 0, node_low_pfn, Area(size), node_low_pfn, Increment(align))
      ensures r.None? ==> bitmap[..] == old(bitmap[..]) && allocs == old(allocs)
                          && last_pos == old(last_pos) && last_offset == old(last_offset)
      ensures r.Some? ==>
                && FirstFit(old(bitmap[..]), start, Preferred(goal, align, node_low_pfn), Area(size), node_low_pfn,
                            Increment(align))
                && r.value == (if old(Merges(align, start))
                               then old(last_pos) * PAGE_SIZE + AlignUp(old(last_offset), align)
                               else start * PAGE_SIZE)
                && r.value % align == 0
                && allocs == old(allocs) + [Range(r.value, size)]
                && forall p :: 0 <= p < node_low_pfn ==>
                     bitmap[p] == (old(bitmap[p]) || (start <= p && Touches(Range(r.value, size), p)))
      ensures r.Some? ==> last_offset == (r.value + size) % PAGE_SIZE
      ensures r.Some? && last_offset > 0 ==> r.value + size == last_pos * PAGE_SIZE + last_offset
      ensures r.Some? && old(Valid()) ==>
                forall p :: 0 <= p < node_low_pfn && Touches(Range(r.value, size), p) ==>
                  && bitmap[p]
                  && Available(old(bitmap[..]), p, node_low_pfn, old(last_pos), old(last_offset),
                               Range(r.value, size))
    {
      var preferred := Preferred(goal, align, node_low_pfn);
      PreferredAligned(align, if goal > 0 && goal / PAGE_SIZE < node_low_pfn then goal else 0);
      start := 0;
      var found := FindPages(preferred, Increment(align), Area(size));
      if found.None? {
        return None, 0;
      }
      start := found.value;
      var addr := Take(size, align, found.value);
      return Some(addr), start;
    }
  }

  /** Why the last page must not be freed while part of it is in use: unless it is
      the last page of the node, the next allocation may still go behind that part,
      on a page that is free, and one after it gets the page as a whole. */
  method FreedTailOverlaps(b: BootmemData) returns (second: Range, third: Range)
    requires b.Bounded() && Open(b.node_low_pfn, b.last_pos, b.last_offset) && !b.bitmap[b.last_pos]
    modifies b, b.bitmap
    ensures second == Range(old(b.last_pos) * PAGE_SIZE + old(b.last_offset), 1)
    ensures third == Range(old(b.last_pos) * PAGE_SIZE, PAGE_SIZE)
    ensures !Apart(second, third) && |b.allocs| >= 2 && b.allocs[|b.allocs| - 2..] == [second, third]
  {
    var page := b.last_pos;
    if b.bitmap[page + 1] {
      b.FreeBootmemCore((page + 1) * PAGE_SIZE, PAGE_SIZE);
    }
    var r := AllocAt(b, 1, page + 1);
    second := Range(r, 1);
    r := AllocAt(b, PAGE_SIZE, page);
    third := Range(r, PAGE_SIZE);
  }

  /** A run of calls that leads there. */
  method FreedTailReached() returns (second: Range, third: Range)
    ensures second == Range(100, 1) && third == Range(0, PAGE_SIZE) && !Apart(second, third)
  {
    var b := new BootmemData(2);
    b.FreeBootmemCore(0, 2 * PAGE_SIZE);
    var r := AllocAt(b, 100, 0);
    assert b.bitmap[0] && b.last_pos == 0 && b.last_offset == 100;
    b.FreeBootmemCore(0, PAGE_SIZE);
    second, third := FreedTailOverlaps(b);
  }

  /** An allocation of at most a page with a free page as its goal. */
  method AllocAt(b: BootmemData, size: nat, page: nat) returns (r: nat)
    requires b.Bounded() && page < b.node_low_pfn && !b.bitmap[page] && 0 < size <= PAGE_SIZE
    modifies b, b.bitmap
    ensures b.Bounded() && b.allocs == old(b.allocs) + [Range(r, size)]
    ensures r == if old(b.last_offset) > 0 && old(b.last_pos) + 1 == page
                 then old(b.last_pos) * PAGE_SIZE + old(b.last_offset) else page * PAGE_SIZE
    ensures forall p :: 0 <= p < b.node_low_pfn ==>
              b.bitmap[p] == (old(b.bitmap[p]) || (page <= p && Touches(Range(r, size), p)))
    ensures b.last_offset == (r + size) % PAGE_SIZE
    ensures b.last_offset > 0 ==> r + size == b.last_pos * PAGE_SIZE + b.last_offset
  {
    ghost var bits := b.bitmap[..];
    assert Fits(bits, page, 1, b.node_low_pfn);
    var found;
    ghost var start;
    found, start := b.AllocBootmemCore(size, 1, page * PAGE_SIZE);
    PreferredFits(bits, start, page, Area(size), b.node_low_pfn, 1);
    r := found.value;
  }

  lemma {:induction false} PreferredFits(bits: seq<bool>, start: nat, preferred: nat, n: nat, pages: nat, incr: nat)
    requires incr > 0 && preferred % incr == 0 && FirstFit(bits, start, preferred, n, pages, incr)
    requires Fits(bits, preferred, n, pages)
    ensures start == preferred
  {}

  lemma {:induction false} SmallRest(i: nat, d: nat, a: nat)
    requires a > 0 && i % a == 0 && d < a
    ensures (i + d) % a == d
  {
    assert i == i / a * a + i % a;
    DivisionUnique(i + d, a, i / a, d);
  }

  /** Between a multiple and the next there is none. */
  lemma {:induction false} NextMultiple(i: nat, a: nat)
    requires a > 0 && i % a == 0
    ensures (i + a) % a == 0
    ensures forall k :: i < k < i + a ==> k % a != 0
  {
    forall k | i < k < i + a ensures k % a != 0 {
      SmallRest(i, k - i, a);
    }
    assert i == i / a * a + i % a;
    assert (i / a + 1) * a == i / a * a + a;
    DivisionUnique(i + a, a, i / a + 1, 0);
  }
}
