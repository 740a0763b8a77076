/** Growing byte buffers, as `struct data` keeps them. */
module DtbData {
  import opened ByteStrings
  import opened DtbFormat

  class Data {
    var val: array<Byte>
    var len: nat

    constructor ()
      ensures Valid() && Contents() == [] && fresh(val)
    {
      val := new Byte[0];
      len := 0;
    }

    ghost predicate Valid()
      reads this
    {
      len <= val.Length
    }

    ghost function Contents(): Bytes
      requires Valid()
      reads this, val
    {
      val[..len]
    }

    /** Make room for `xlen` more bytes; the size doubles until it is enough. */
    method GrowFor(xlen: nat)
      requires Valid()
      modifies this
      ensures Valid() && Contents() == old(Contents()) && len == old(len)
      ensures len + xlen <= val.Length
      ensures val == old(val) || fresh(val)
    {
      if xlen == 0 {
        return;
      }
      var newsize := xlen;
      while len + xlen > newsize
        invariant newsize > 0
        decreases len + xlen - newsize
      {
        newsize := newsize * 2;
      }
      var nd := new Byte[newsize];
      forall i | 0 <= i < len { nd[i] := val[i]; }
      val := nd;
    }

    method AppendData(p: Bytes)
      requires Valid()
      modifies this, val
      ensures Valid() && Contents() == old(Contents()) + p
      ensures val == old(val) || fresh(val)
    {
      GrowFor(|p|);
      forall i | 0 <= i < |p| { val[len + i] := p[i]; }
      len := len + |p|;
    }

    method AppendCell(word: nat)
      requires Valid()
      modifies this, val
      ensures Valid() && Contents() == old(Contents()) + Word(word) && len == old(len) + 4
      ensures val == old(val) || fresh(val)
    {
      AppendData(Word(word));
    }

    method AppendZeroes(n: nat)
      requires Valid()
      modifies this, val
      ensures Valid() && Contents() == old(Contents()) + Zeroes(n)
      ensures val == old(val) || fresh(val)
    {
      GrowFor(n);
      forall i | 0 <= i < n { val[len + i] := 0; }
      len := len + n;
    }

    /** Zeroes up to a multiple of four. */
    method AppendAlign()
      requires Valid()
      modifies this, val
      ensures Valid() && Contents() == old(Contents()) + Zeroes(Gap(old(len)))
      ensures val == old(val) || fresh(val)
    {
      var newlen := (len + 3) / 4 * 4;
      assert newlen - len == Gap(len);
      AppendZeroes(newlen - len);
    }

    /** A string and its NUL. */
    method AppendString(str: Bytes)
      requires Valid()
      modifies this, val
      ensures Valid() && Contents() == old(Contents()) + (str + [0])
      ensures val == old(val) || fresh(val)
    {
      AppendData(str);
      AppendData([0]);
    }

    /** Bytes and the alignment behind them. */
    method AppendPadded(p: Bytes)
      requires Valid() && len % 4 == 0
      modifies this, val
      ensures Valid() && Contents() == old(Contents()) + Padded(p) && len % 4 == 0
      ensures val == old(val) || fresh(val)
    {
      ghost var before := Contents();
      AppendData(p);
      AppendAlign();
      assert Gap(|before + p|) == Gap(|p|);
      assert before + p + Zeroes(Gap(|p|)) == before + Padded(p);
    }

    /** The head of a property: tag, length and offset of the name. */
    method AppendPropertyHead(length: nat, nameoff: nat)
      requires Valid() && len % 4 == 0
      modifies this, val
      ensures Valid() && Contents() == old(Contents()) + (Word(FDT_PROP) + (Word(length) + Word(nameoff)))
              && len % 4 == 0
      ensures val == old(val) || fresh(val)
    {
      ghost var before := Contents();
      AppendCell(FDT_PROP);
      AppendCell(length);
      AppendCell(nameoff);
      assert before + Word(FDT_PROP) + Word(length) + Word(nameoff)
             == before + (Word(FDT_PROP) + (Word(length) + Word(nameoff)));
    }

    /** The head of a node: tag and name. */
    method AppendNodeHead(name: Bytes)
      requires Valid() && len % 4 == 0
      modifies this, val
      ensures Valid() && Contents() == old(Contents()) + (Word(FDT_BEGIN_NODE) + Padded(name + [0])) && len % 4 == 0
      ensures val == old(val) || fresh(val)
    {
      ghost var before := Contents();
      AppendCell(FDT_BEGIN_NODE);
      AppendPadded(name + [0]);
      Assoc(before, Word(FDT_BEGIN_NODE), Padded(name + [0]));
    }

    /** `stringtable_insert`: the offset of the string, which is appended unless
        it already is in the table or is the tail of a string there. */
    method StringtableInsert(str: Bytes) returns (off: nat)
      requires Valid() && TableOk(Contents())
      modifies this, val
      ensures Valid() && off == Search(old(Contents()), str, 0) && Contents() == Inserted(old(Contents()), str)
      ensures val == old(val) || fresh(val)
    {
      ghost var tab := Contents();
      var i := 0;
      while i < len
        invariant 0 <= i <= len && Contents() == tab
        invariant Search(tab, str, 0) == Search(tab, str, i)
      {
        if CString(val[..len], i) == str {
          return i;
        }
        i := i + 1;
      }
      AppendString(str);
      assert tab + (str + [0]) == tab + str + [0];
      return i;
    }
  }
}
