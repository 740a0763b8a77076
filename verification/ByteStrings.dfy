module ByteStrings {
  type Byte = x: int | 0 <= x < 256
  type Bytes = seq<Byte>

  /** The characters of the NUL-terminated string that begins at `i`. */
  function CString(s: Bytes, i: nat): (r: Bytes)
    ensures i + |r| <= |s| || r == []
    ensures 0 !in r
    decreases |s| - i
  {
    if i >= |s| || s[i] == 0 then [] else [s[i]] + CString(s, i + 1)
  }
}
