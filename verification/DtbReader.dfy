/** `unflatten_tree` and the readers under it: a pointer moves through the
    structure block and every read checks the limit.  `None` stands for the fatal
    errors. */
module DtbReader {
  import opened Wrappers
  import opened ByteStrings
  import opened DtbFormat

  /** A string found from `i` on is found in the text from `i` on. */
  lemma {:induction false} CStringShift(s: Bytes, i: nat)
    requires i <= |s|
    ensures CString(s[i..], 0) == CString(s, i)
    ensures Ends(s[i..], 0) == Ends(s, i)
    decreases |s| - i
  {
    CStringSuffix(s, i, 0);
    var n := |CString(s, i)|;
    assert i + n < |s| ==> s[i..][n] == s[i + n];
  }

  lemma {:induction false} CStringSuffix(s: Bytes, i: nat, k: nat)
    requires i + k <= |s|
    ensures CString(s[i..], k) == CString(s, i + k)
    decreases |s| - i - k
  {
    assert i + k < |s| ==> s[i..][k] == s[i + k];
    if i + k < |s| && s[i + k] != 0 {
      CStringSuffix(s, i, k + 1);
    }
  }

  /** `flat_read_stringtable`. */
  method ReadStringtable(tab: Bytes, offset: nat) returns (r: Option<Bytes>)
    ensures r == if Ends(tab, offset) then Some(CString(tab, offset)) else None
  {
    var p := offset;
    while true
      invariant offset <= p
      invariant p <= |tab| || p == offset
      invariant Ends(tab, offset) == Ends(tab, p)
      decreases |tab| - p
    {
      if p >= |tab| {
        return None;
      }
      if tab[p] == 0 {
        break;
      }
      p := p + 1;
    }
    return Some(CString(tab, offset));
  }

  lemma GapShift(at: nat, n: nat)
    requires at % 4 == 0
    ensures Gap(at + n) == Gap(n)
  {}

  lemma SliceOfRest(data: Bytes, at: nat, n: nat)
    requires at + n <= |data|
    ensures data[at..][..n] == data[at..at + n] && data[at..][n..] == data[at + n..]
  {}

  /** `ReadData` at an aligned position of the whole buffer. */
  lemma {:induction false} DataFrom(data: Bytes, at: nat, len: nat)
    requires at <= |data| && at % 4 == 0
    ensures Gap(at + len) == Gap(len)
    ensures ReadData(data[at..], len)
         == if at + len + Gap(len) > |data| then Bad else Got(data[at..at + len], data[at + len + Gap(len)..])
    ensures len == 0 ==> ReadData(data[at..], len) == Got([], data[at..])
  {
    GapShift(at, len);
    if at + len + Gap(len) <= |data| {
      SliceOfRest(data, at, len);
      SliceOfRest(data, at, len + Gap(len));
    }
  }

  /** `ReadString` there. */
  lemma {:induction false} StringFrom(data: Bytes, at: nat)
    requires at <= |data| && at % 4 == 0
    ensures var n := |CString(data, at)| + 1;
            && Gap(at + n) == Gap(n)
            && ReadString(data[at..])
            == if !Ends(data, at) || at + n + Gap(n) > |data| then Bad
               else Got(CString(data, at), data[at + n + Gap(n)..])
  {
    var n := |CString(data, at)| + 1;
    CStringShift(data, at);
    GapShift(at, n);
    if at + n + Gap(n) <= |data| {
      SliceOfRest(data, at, n + Gap(n));
    }
  }

  class InBuf {
    const data: Bytes   // from the base up to the limit
    var ptr: nat

    constructor (data: Bytes)
      ensures this.data == data && ptr == 0 && Aligned()
    {
      this.data, ptr := data, 0;
    }

    ghost predicate Aligned()
      reads this
    {
      ptr <= |data| && ptr % 4 == 0
    }

    ghost function Rest(): Bytes
      requires ptr <= |data|
      reads this
    {
      data[ptr..]
    }

    method ReadWord() returns (r: Option<nat>)
      requires Aligned()
      modifies this
      ensures Aligned()
      ensures if |old(Rest())| < 4 then r.None?
              else r == Some(WordValue(old(Rest()))) && Rest() == old(Rest())[4..] && ptr == old(ptr) + 4
    {
      if ptr + 4 > |data| {
        return None;
      }
      r := Some(WordValue(data[ptr..ptr + 4]));
      assert forall k :: 0 <= k < 4 ==> data[ptr..ptr + 4][k] == data[ptr..][k];
      ptr := ptr + 4;
    }

    /** `flat_realign` to cells. */
    method Realign() returns (ok: bool)
      requires ptr <= |data|
      modifies this
      ensures ok == (old(ptr) + Gap(old(ptr)) <= |data|)
      ensures ok ==> Aligned() && ptr == old(ptr) + Gap(old(ptr))
    {
      var aligned := (ptr + 3) / 4 * 4;
      assert aligned == ptr + Gap(ptr);
      ptr := aligned;
      ok := ptr <= |data|;
    }

    /** The scan for the NUL in `flat_read_string`. */
    method FindNul() returns (r: Option<nat>)
      requires ptr <= |data|
      ensures r == if Ends(data, ptr) then Some(|CString(data, ptr)|) else None
    {
      var p := ptr;
      while true
        invariant ptr <= p <= |data|
        invariant Ends(data, ptr) == Ends(data, p)
        invariant |CString(data, ptr)| == p - ptr + |CString(data, p)|
        decreases |data| - p
      {
        if p >= |data| {
          return None;
        }
        if data[p] == 0 {
          return Some(p - ptr);
        }
        p := p + 1;
      }
    }

    method ReadName() returns (r: Option<Bytes>)
      requires Aligned()
      modifies this
      ensures var s := ReadString(old(Rest()));
              if s.Bad? then r.None? else r == Some(s.v) && Aligned() && Rest() == s.rest && ptr > old(ptr)
    {
      StringFrom(data, ptr);
      var len := FindNul();
      if len.None? {
        return None;
      }
      var str := CString(data, ptr);
      ptr := ptr + len.value + 1;
      var ok := Realign();
      if !ok {
        return None;
      }
      return Some(str);
    }

    method ReadBytes(len: nat) returns (r: Option<Bytes>)
      requires Aligned()
      modifies this
      ensures var s := ReadData(old(Rest()), len);
              if s.Bad? then r.None? else r == Some(s.v) && Aligned() && Rest() == s.rest && ptr >= old(ptr)
    {
      DataFrom(data, ptr, len);
      if len == 0 {
        return Some([]);
      }
      if ptr + len > |data| {
        return None;
      }
      var d := data[ptr..ptr + len];
      ptr := ptr + len;
      var ok := Realign();
      if !ok {
        return None;
      }
      return Some(d);
    }

    method ReadProperty(tab: Bytes) returns (r: Option<Property>)
      requires Aligned()
      modifies this
      ensures var s := ReadProp(old(Rest()), tab);
              if s.Bad? then r.None? else r == Some(s.v) && Aligned() && Rest() == s.rest && ptr > old(ptr)
    {
      ghost var all := Rest();
      var proplen := ReadWord();
      if proplen.None? {
        return None;
      }
      var stroff := ReadWord();
      if stroff.None? {
        return None;
      }
      assert Rest() == all[8..];
      var name := ReadStringtable(tab, stroff.value);
      if name.None? {
        return None;
      }
      var val := ReadBytes(proplen.value);
      if val.None? {
        return None;
      }
      return Some(Property(name.value, val.value, false));
    }

    method UnflattenTree(tab: Bytes) returns (r: Option<Node>)
      requires Aligned()
      modifies this
      ensures var s := ReadNode(old(Rest()), tab);
              if s.Bad? then r.None? else r == Some(s.v) && Aligned() && Rest() == s.rest && ptr > old(ptr)
      decreases |data| - ptr
    {
      var start := ptr;
      var name := ReadName();
      if name.None? {
        return None;
      }
      ghost var items := ReadItems(Rest(), tab, [], []);
      var props: seq<Property>, children: seq<Node> := [], [];
      var done := false;
      while !done
        invariant Aligned() && ptr > start
        invariant !done ==> items == ReadItems(Rest(), tab, props, children)
        invariant done ==> items == Got((props, children), Rest())
        decreases |data| - ptr, !done
      {
        ghost var here := Rest();
        var val := ReadWord();
        if val.None? {
          return None;
        }
        if val.value == FDT_PROP {
          var prop := ReadProperty(tab);
          if prop.None? {
            return None;
          }
          props := props + [prop.value];
        } else if val.value == FDT_BEGIN_NODE {
          var child := UnflattenTree(tab);
          if child.None? {
            return None;
          }
          children := children + [child.value];
        } else if val.value == FDT_END_NODE {
          done := true;
        } else if val.value != FDT_NOP {
          return None;
        }
      }
      return Some(Node(name.value, props, children, false));
    }
  }
}
