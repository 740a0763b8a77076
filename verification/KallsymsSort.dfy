/** The order of the symbol table.

    `compare_symbols` is a total order on the entries, so that the sorted table is
    determined although `qsort` is not stable, and the first of several symbols at
    one address is the best of them: that one is found by the kernel.
  */
module KallsymsSort {
  import opened ByteStrings

  /** An entry: its address, the type byte with the name behind it, and its place in
      the input. */
  datatype Entry = Entry(addr: nat, sym: Bytes, startPos: nat)

  /** `read_map` has given each entry a type and its own position. */
  predicate Proper(e: Entry) {
    e.sym != []
  }

  /** `!memcmp(name + at, text, strlen(text))` */
  predicate Has(name: Bytes, at: int, text: string) {
    && 0 <= at && at + |text| <= |name|
    && forall k :: 0 <= k < |text| ==> name[at + k] == text[k] as int
  }

  const WEAK := 0x77
  const WEAK_OBJECT := 0x57
  const UNDERSCORE := 0x5f

  predicate Weak(e: Entry)
    requires Proper(e)
  {
    e.sym[0] == WEAK || e.sym[0] == WEAK_OBJECT
  }

  function Name(e: Entry): Bytes
    requires Proper(e)
  {
    e.sym[1..]
  }

  /** `may_be_linker_script_provide_symbol` */
  predicate Provided(e: Entry)
    requires Proper(e)
  {
    var name := Name(e);
    && |name| >= 8 && name[0] == UNDERSCORE && name[1] == UNDERSCORE
    && (|| Has(name, 2, "start_")
        || Has(name, 2, "stop_")
        || Has(name, 2, "end_")
        || Has(name, |name| - 6, "_start")
        || Has(name, |name| - 4, "_end"))
  }

  /** `prefix_underscores_count` */
  function Underscores(name: Bytes): nat {
    if name == [] || name[0] != UNDERSCORE then 0 else 1 + Underscores(name[1..])
  }

  function Flag(b: bool): int { if b then 1 else 0 }

  /** `compare_symbols`, by what it returns. */
  function Compare(a: Entry, b: Entry): int
    requires Proper(a) && Proper(b)
  {
    if a.addr > b.addr then 1
    else if a.addr < b.addr then -1
    else if Weak(a) != Weak(b) then Flag(Weak(a)) - Flag(Weak(b))
    else if Provided(a) != Provided(b) then Flag(Provided(a)) - Flag(Provided(b))
    else if Underscores(Name(a)) != Underscores(Name(b)) then Underscores(Name(a)) - Underscores(Name(b))
    else a.startPos - b.startPos
  }

  // ------------------------------------------------------------- a total order

  lemma CompareBackwards(a: Entry, b: Entry)
    requires Proper(a) && Proper(b)
    ensures Compare(a, b) == -Compare(b, a)
    ensures Compare(a, b) == 0 ==> a.startPos == b.startPos && a.addr == b.addr
  {}

  lemma CompareTransitive(a: Entry, b: Entry, c: Entry)
    requires Proper(a) && Proper(b) && Proper(c)
    requires Compare(a, b) <= 0 && Compare(b, c) <= 0
    ensures Compare(a, c) <= 0
    ensures Compare(a, b) < 0 || Compare(b, c) < 0 ==> Compare(a, c) < 0
  {}

  // ---------------------------------------------------------------- the table

  /** Entries as they are read: no two have the same position. */
  predicate Distinguished(s: seq<Entry>) {
    && (forall i :: 0 <= i < |s| ==> Proper(s[i]))
    && forall i, j :: 0 <= i < j < |s| ==> s[i].startPos != s[j].startPos
  }

  /** What `qsort` leaves behind. */
  predicate Sorted(s: seq<Entry>)
    requires Distinguished(s)
  {
    forall i, j :: 0 <= i < j < |s| ==> Compare(s[i], s[j]) <= 0
  }

  /** The binary search of the kernel has what it needs. */
  lemma {:induction false} SortedByAddress(s: seq<Entry>)
    requires Distinguished(s) && Sorted(s)
    ensures forall i, j :: 0 <= i < j < |s| ==> s[i].addr <= s[j].addr
  {
    forall i, j | 0 <= i < j < |s| ensures s[i].addr <= s[j].addr {
      assert Compare(s[i], s[j]) <= 0;
    }
  }

  lemma WithoutFirst(s: seq<Entry>)
    requires s != []
    ensures multiset(s[1..]) == multiset(s) - multiset{s[0]}
  {
    assert s == [s[0]] + s[1..];
  }

  lemma {:induction false} SameLength(s: seq<Entry>, t: seq<Entry>)
    requires multiset(s) == multiset(t)
    ensures |s| == |t|
  {
    assert |s| == |multiset(s)| == |multiset(t)| == |t|;
  }

  /** There is only one way to sort the table. */
  lemma {:induction false} SortedOnce(s: seq<Entry>, t: seq<Entry>)
    requires Distinguished(s) && Distinguished(t) && multiset(s) == multiset(t)
    requires Sorted(s) && Sorted(t)
    ensures s == t
  {
    SameLength(s, t);
    if s != [] {
      SameLeast(s, t);
      WithoutFirst(s);
      WithoutFirst(t);
      SortedTail(s);
      SortedTail(t);
      SortedOnce(s[1..], t[1..]);
      assert s == [s[0]] + s[1..] && t == [t[0]] + t[1..];
    }
  }

  lemma {:induction false} SortedTail(s: seq<Entry>)
    requires Distinguished(s) && Sorted(s) && s != []
    ensures Distinguished(s[1..]) && Sorted(s[1..])
  {
    forall i, j | 0 <= i < j < |s[1..]| ensures Compare(s[1..][i], s[1..][j]) <= 0 {
      assert Compare(s[i + 1], s[j + 1]) <= 0;
    }
  }

  lemma {:induction false} SameLeast(s: seq<Entry>, t: seq<Entry>)
    requires Distinguished(s) && Distinguished(t) && multiset(s) == multiset(t)
    requires Sorted(s) && Sorted(t) && s != [] && t != []
    ensures s[0] == t[0]
  {
    assert s[0] in multiset(t) && t[0] in multiset(s);
    var i :| 0 <= i < |t| && t[i] == s[0];
    var k :| 0 <= k < |s| && s[k] == t[0];
    if i > 0 && k > 0 {
      assert Compare(t[0], t[i]) <= 0 && Compare(s[0], s[k]) <= 0;
      CompareBackwards(s[0], t[0]);
    }
  }

  predicate SameKind(a: Entry, b: Entry)
    requires Proper(a) && Proper(b)
  {
    Weak(a) == Weak(b) && Provided(a) == Provided(b)
  }

  /** The first symbol at an address, which the kernel finds, is not weak if any of
      them is not; among equals it is not one a linker script provides, then it has
      the fewest leading underscores, and then it came first in the input. */
  lemma {:induction false} FirstAliasIsBest(s: seq<Entry>, pos: nat, i: nat)
    requires Distinguished(s) && Sorted(s) && pos < |s| && i < |s| && s[i].addr == s[pos].addr
    requires forall j :: 0 <= j < pos ==> s[j].addr < s[pos].addr
    ensures pos <= i && Compare(s[pos], s[i]) <= 0
    ensures Weak(s[pos]) ==> Weak(s[i])
    ensures Weak(s[pos]) == Weak(s[i]) && Provided(s[pos]) ==> Provided(s[i])
    ensures SameKind(s[pos], s[i]) ==> Underscores(Name(s[pos])) <= Underscores(Name(s[i]))
    ensures SameKind(s[pos], s[i]) && Underscores(Name(s[pos])) == Underscores(Name(s[i])) ==>
              s[pos].startPos <= s[i].startPos
  {
    if pos < i {
      assert Compare(s[pos], s[i]) <= 0;
    }
  }

  /** The underscores counted are those at the beginning of the name, and all of them. */
  lemma {:induction false} LeadingUnderscores(name: Bytes)
    ensures Underscores(name) <= |name|
    ensures forall k :: 0 <= k < Underscores(name) ==> name[k] == '_' as int
    ensures Underscores(name) < |name| ==> name[Underscores(name)] != '_' as int
  {
    if name != [] && name[0] == UNDERSCORE {
      LeadingUnderscores(name[1..]);
      forall k | 0 <= k < Underscores(name) ensures name[k] == '_' as int {
        if k > 0 { assert name[k] == name[1..][k - 1]; }
      }
    }
  }
}
