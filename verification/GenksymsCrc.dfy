/** CRC-32: bit by bit, as section 8 of RFC 1952 defines it, and by table. */
module GenksymsCrc {
  const POLY: bv32 := 0xedb88320

  /** One bit of the division. */
  function Shift(x: bv32): bv32 {
    if x & 1 != 0 then POLY ^ (x >> 1) else x >> 1
  }

  /** Eight bits. */
  function Shift8(x: bv32): bv32 {
    Shift(Shift(Shift(Shift(Shift(Shift(Shift(Shift(x))))))))
  }

  /** Entries 0 to 15 of `crctab32`. */
  function Row0(n: bv8): bv32 {
    if n == 0 then 0x00000000 else if n == 1 then 0x77073096 else if n == 2 then 0xee0e612c else
    if n == 3 then 0x990951ba else if n == 4 then 0x076dc419 else if n == 5 then 0x706af48f else
    if n == 6 then 0xe963a535 else if n == 7 then 0x9e6495a3 else if n == 8 then 0x0edb8832 else
    if n == 9 then 0x79dcb8a4 else if n == 10 then 0xe0d5e91e else if n == 11 then 0x97d2d988 else
    if n == 12 then 0x09b64c2b else if n == 13 then 0x7eb17cbd else if n == 14 then 0xe7b82d07 else
    0x90bf1d91
  }

  /** Entries 16 to 31 of `crctab32`. */
  function Row1(n: bv8): bv32 {
    if n == 0 then 0x1db71064 else if n == 1 then 0x6ab020f2 else if n == 2 then 0xf3b97148 else
    if n == 3 then 0x84be41de else if n == 4 then 0x1adad47d else if n == 5 then 0x6ddde4eb else
    if n == 6 then 0xf4d4b551 else if n == 7 then 0x83d385c7 else if n == 8 then 0x136c9856 else
    if n == 9 then 0x646ba8c0 else if n == 10 then 0xfd62f97a else if n == 11 then 0x8a65c9ec else
    if n == 12 then 0x14015c4f else if n == 13 then 0x63066cd9 else if n == 14 then 0xfa0f3d63 else
    0x8d080df5
  }

  /** Entries 32 to 47 of `crctab32`. */
  function Row2(n: bv8): bv32 {
    if n == 0 then 0x3b6e20c8 else if n == 1 then 0x4c69105e else if n == 2 then 0xd56041e4 else
    if n == 3 then 0xa2677172 else if n == 4 then 0x3c03e4d1 else if n == 5 then 0x4b04d447 else
    if n == 6 then 0xd20d85fd else if n == 7 then 0xa50ab56b else if n == 8 then 0x35b5a8fa else
    if n == 9 then 0x42b2986c else if n == 10 then 0xdbbbc9d6 else if n == 11 then 0xacbcf940 else
    if n == 12 then 0x32d86ce3 else if n == 13 then 0x45df5c75 else if n == 14 then 0xdcd60dcf else
    0xabd13d59
  }

  /** Entries 48 to 63 of `crctab32`. */
  function Row3(n: bv8): bv32 {
    if n == 0 then 0x26d930ac else if n == 1 then 0x51de003a else if n == 2 then 0xc8d75180 else
    if n == 3 then 0xbfd06116 else if n == 4 then 0x21b4f4b5 else if n == 5 then 0x56b3c423 else
    if n == 6 then 0xcfba9599 else if n == 7 then 0xb8bda50f else if n == 8 then 0x2802b89e else
    if n == 9 then 0x5f058808 else if n == 10 then 0xc60cd9b2 else if n == 11 then 0xb10be924 else
    if n == 12 then 0x2f6f7c87 else if n == 13 then 0x58684c11 else if n == 14 then 0xc1611dab else
    0xb6662d3d
  }

  /** Entries 64 to 79 of `crctab32`. */
  function Row4(n: bv8): bv32 {
    if n == 0 then 0x76dc4190 else if n == 1 then 0x01db7106 else if n == 2 then 0x98d220bc else
    if n == 3 then 0xefd5102a else if n == 4 then 0x71b18589 else if n == 5 then 0x06b6b51f else
    if n == 6 then 0x9fbfe4a5 else if n == 7 then 0xe8b8d433 else if n == 8 then 0x7807c9a2 else
    if n == 9 then 0x0f00f934 else if n == 10 then 0x9609a88e else if n == 11 then 0xe10e9818 else
    if n == 12 then 0x7f6a0dbb else if n == 13 then 0x086d3d2d else if n == 14 then 0x91646c97 else
    0xe6635c01
  }

  /** Entries 80 to 95 of `crctab32`. */
  function Row5(n: bv8): bv32 {
    if n == 0 then 0x6b6b51f4 else if n == 1 then 0x1c6c6162 else if n == 2 then 0x856530d8 else
    if n == 3 then 0xf262004e else if n == 4 then 0x6c0695ed else if n == 5 then 0x1b01a57b else
    if n == 6 then 0x8208f4c1 else if n == 7 then 0xf50fc457 else if n == 8 then 0x65b0d9c6 else
    if n == 9 then 0x12b7e950 else if n == 10 then 0x8bbeb8ea else if n == 11 then 0xfcb9887c else
    if n == 12 then 0x62dd1ddf else if n == 13 then 0x15da2d49 else if n == 14 then 0x8cd37cf3 else
    0xfbd44c65
  }

  /** Entries 96 to 111 of `crctab32`. */
  function Row6(n: bv8): bv32 {
    if n == 0 then 0x4db26158 else if n == 1 then 0x3ab551ce else if n == 2 then 0xa3bc0074 else
    if n == 3 then 0xd4bb30e2 else if n == 4 then 0x4adfa541 else if n == 5 then 0x3dd895d7 else
    if n == 6 then 0xa4d1c46d else if n == 7 then 0xd3d6f4fb else if n == 8 then 0x4369e96a else
    if n == 9 then 0x346ed9fc else if n == 10 then 0xad678846 else if n == 11 then 0xda60b8d0 else
    if n == 12 then 0x44042d73 else if n == 13 then 0x33031de5 else if n == 14 then 0xaa0a4c5f else
    0xdd0d7cc9
  }

  /** Entries 112 to 127 of `crctab32`. */
  function Row7(n: bv8): bv32 {
    if n == 0 then 0x5005713c else if n == 1 then 0x270241aa else if n == 2 then 0xbe0b1010 else
    if n == 3 then 0xc90c2086 else if n == 4 then 0x5768b525 else if n == 5 then 0x206f85b3 else
    if n == 6 then 0xb966d409 else if n == 7 then 0xce61e49f else if n == 8 then 0x5edef90e else
    if n == 9 then 0x29d9c998 else if n == 10 then 0xb0d09822 else if n == 11 then 0xc7d7a8b4 else
    if n == 12 then 0x59b33d17 else if n == 13 then 0x2eb40d81 else if n == 14 then 0xb7bd5c3b else
    0xc0ba6cad
  }

  /** Entries 128 to 143 of `crctab32`. */
  function Row8(n: bv8): bv32 {
    if n == 0 then 0xedb88320 else if n == 1 then 0x9abfb3b6 else if n == 2 then 0x03b6e20c else
    if n == 3 then 0x74b1d29a else if n == 4 then 0xead54739 else if n == 5 then 0x9dd277af else
    if n == 6 then 0x04db2615 else if n == 7 then 0x73dc1683 else if n == 8 then 0xe3630b12 else
    if n == 9 then 0x94643b84 else if n == 10 then 0x0d6d6a3e else if n == 11 then 0x7a6a5aa8 else
    if n == 12 then 0xe40ecf0b else if n == 13 then 0x9309ff9d else if n == 14 then 0x0a00ae27 else
    0x7d079eb1
  }

  /** Entries 144 to 159 of `crctab32`. */
  function Row9(n: bv8): bv32 {
    if n == 0 then 0xf00f9344 else if n == 1 then 0x8708a3d2 else if n == 2 then 0x1e01f268 else
    if n == 3 then 0x6906c2fe else if n == 4 then 0xf762575d else if n == 5 then 0x806567cb else
    if n == 6 then 0x196c3671 else if n == 7 then 0x6e6b06e7 else if n == 8 then 0xfed41b76 else
    if n == 9 then 0x89d32be0 else if n == 10 then 0x10da7a5a else if n == 11 then 0x67dd4acc else
    if n == 12 then 0xf9b9df6f else if n == 13 then 0x8ebeeff9 else if n == 14 then 0x17b7be43 else
    0x60b08ed5
  }

  /** Entries 160 to 175 of `crctab32`. */
  function Row10(n: bv8): bv32 {
    if n == 0 then 0xd6d6a3e8 else if n == 1 then 0xa1d1937e else if n == 2 then 0x38d8c2c4 else
    if n == 3 then 0x4fdff252 else if n == 4 then 0xd1bb67f1 else if n == 5 then 0xa6bc5767 else
    if n == 6 then 0x3fb506dd else if n == 7 then 0x48b2364b else if n == 8 then 0xd80d2bda else
    if n == 9 then 0xaf0a1b4c else if n == 10 then 0x36034af6 else if n == 11 then 0x41047a60 else
    if n == 12 then 0xdf60efc3 else if n == 13 then 0xa867df55 else if n == 14 then 0x316e8eef else
    0x4669be79
  }

  /** Entries 176 to 191 of `crctab32`. */
  function Row11(n: bv8): bv32 {
    if n == 0 then 0xcb61b38c else if n == 1 then 0xbc66831a else if n == 2 then 0x256fd2a0 else
    if n == 3 then 0x5268e236 else if n == 4 then 0xcc0c7795 else if n == 5 then 0xbb0b4703 else
    if n == 6 then 0x220216b9 else if n == 7 then 0x5505262f else if n == 8 then 0xc5ba3bbe else
    if n == 9 then 0xb2bd0b28 else if n == 10 then 0x2bb45a92 else if n == 11 then 0x5cb36a04 else
    if n == 12 then 0xc2d7ffa7 else if n == 13 then 0xb5d0cf31 else if n == 14 then 0x2cd99e8b else
    0x5bdeae1d
  }

  /** Entries 192 to 207 of `crctab32`. */
  function Row12(n: bv8): bv32 {
    if n == 0 then 0x9b64c2b0 else if n == 1 then 0xec63f226 else if n == 2 then 0x756aa39c else
    if n == 3 then 0x026d930a else if n == 4 then 0x9c0906a9 else if n == 5 then 0xeb0e363f else
    if n == 6 then 0x72076785 else if n == 7 then 0x05005713 else if n == 8 then 0x95bf4a82 else
    if n == 9 then 0xe2b87a14 else if n == 10 then 0x7bb12bae else if n == 11 then 0x0cb61b38 else
    if n == 12 then 0x92d28e9b else if n == 13 then 0xe5d5be0d else if n == 14 then 0x7cdcefb7 else
    0x0bdbdf21
  }

  /** Entries 208 to 223 of `crctab32`. */
  function Row13(n: bv8): bv32 {
    if n == 0 then 0x86d3d2d4 else if n == 1 then 0xf1d4e242 else if n == 2 then 0x68ddb3f8 else
    if n == 3 then 0x1fda836e else if n == 4 then 0x81be16cd else if n == 5 then 0xf6b9265b else
    if n == 6 then 0x6fb077e1 else if n == 7 then 0x18b74777 else if n == 8 then 0x88085ae6 else
    if n == 9 then 0xff0f6a70 else if n == 10 then 0x66063bca else if n == 11 then 0x11010b5c else
    if n == 12 then 0x8f659eff else if n == 13 then 0xf862ae69 else if n == 14 then 0x616bffd3 else
    0x166ccf45
  }

  /** Entries 224 to 239 of `crctab32`. */
  function Row14(n: bv8): bv32 {
    if n == 0 then 0xa00ae278 else if n == 1 then 0xd70dd2ee else if n == 2 then 0x4e048354 else
    if n == 3 then 0x3903b3c2 else if n == 4 then 0xa7672661 else if n == 5 then 0xd06016f7 else
    if n == 6 then 0x4969474d else if n == 7 then 0x3e6e77db else if n == 8 then 0xaed16a4a else
    if n == 9 then 0xd9d65adc else if n == 10 then 0x40df0b66 else if n == 11 then 0x37d83bf0 else
    if n == 12 then 0xa9bcae53 else if n == 13 then 0xdebb9ec5 else if n == 14 then 0x47b2cf7f else
    0x30b5ffe9
  }

  /** Entries 240 to 255 of `crctab32`. */
  function Row15(n: bv8): bv32 {
    if n == 0 then 0xbdbdf21c else if n == 1 then 0xcabac28a else if n == 2 then 0x53b39330 else
    if n == 3 then 0x24b4a3a6 else if n == 4 then 0xbad03605 else if n == 5 then 0xcdd70693 else
    if n == 6 then 0x54de5729 else if n == 7 then 0x23d967bf else if n == 8 then 0xb3667a2e else
    if n == 9 then 0xc4614ab8 else if n == 10 then 0x5d681b02 else if n == 11 then 0x2a6f2b94 else
    if n == 12 then 0xb40bbe37 else if n == 13 then 0xc30c8ea1 else if n == 14 then 0x5a05df1b else
    0x2d02ef8d
  }

  /** `crctab32[b]`, by the high and the low half of the index. */
  function CrcTab(b: bv8): bv32 {
    var h, n := b >> 4, b & 15;
    if h == 0 then Row0(n) else if h == 1 then Row1(n) else if h == 2 then Row2(n) else
    if h == 3 then Row3(n) else if h == 4 then Row4(n) else if h == 5 then Row5(n) else
    if h == 6 then Row6(n) else if h == 7 then Row7(n) else if h == 8 then Row8(n) else
    if h == 9 then Row9(n) else if h == 10 then Row10(n) else if h == 11 then Row11(n) else
    if h == 12 then Row12(n) else if h == 13 then Row13(n) else if h == 14 then Row14(n) else
    Row15(n)
  }

  function Iterate<T>(f: T -> T, x: T, k: nat): T
    decreases k
  {
    if k == 0 then x else Iterate(f, f(x), k - 1)
  }

  /** What has only zeroes to be shifted out moves down beside the rest. */
  ghost predicate Beside<T(!new)>(f: T -> T, down: T -> T, xor: (T, T) -> T, zero: T -> bool) {
    forall a, h :: zero(h) ==> f(xor(a, h)) == xor(f(a), down(h))
  }

  lemma {:induction false} IterateBeside<T(!new)>(f: T -> T, down: T -> T, xor: (T, T) -> T, zero: T -> bool,
                                                  a: T, hs: seq<T>)
    requires Beside(f, down, xor, zero) && |hs| > 0
    requires forall i :: 0 <= i < |hs| - 1 ==> zero(hs[i])
    requires forall i :: 0 < i < |hs| ==> hs[i] == down(hs[i - 1])
    ensures Iterate(f, xor(a, hs[0]), |hs| - 1) == xor(Iterate(f, a, |hs| - 1), hs[|hs| - 1])
    decreases |hs|
  {
    if |hs| > 1 {
      assert f(xor(a, hs[0])) == xor(f(a), hs[1]);
      IterateBeside(f, down, xor, zero, f(a), hs[1..]);
    }
  }

  function Half(x: bv32): bv32 { x >> 1 }
  function Add(a: bv32, b: bv32): bv32 { a ^ b }
  predicate Even(x: bv32) { x & 1 == 0 }

  lemma {:induction false} ShiftBeside()
    ensures Beside(Shift, Half, Add, Even)
  {
    forall a: bv32, h: bv32 | Even(h) ensures Shift(Add(a, h)) == Add(Shift(a), Half(h)) {
      ShiftOver(a, h);
    }
  }

  lemma {:induction false} ShiftOver(a: bv32, h: bv32)
    requires h & 1 == 0
    ensures Shift(a ^ h) == Shift(a) ^ (h >> 1)
  {}

  lemma {:induction false} HighBits(x: bv32)
    ensures var h := x & 0xffffff00; Add(x & 0xff, h) == x && h >> 8 == x >> 8
    ensures var h := x & 0xffffff00; Even(h) && Even(h >> 1) && Even(h >> 2) && Even(h >> 3)
    ensures var h := x & 0xffffff00; Even(h >> 4) && Even(h >> 5) && Even(h >> 6) && Even(h >> 7)
  {}

  lemma {:induction false} Halves(h: bv32)
    ensures Half(h) == h >> 1 && Half(h >> 1) == h >> 2 && Half(h >> 2) == h >> 3 && Half(h >> 3) == h >> 4
    ensures Half(h >> 4) == h >> 5 && Half(h >> 5) == h >> 6 && Half(h >> 6) == h >> 7 && Half(h >> 7) == h >> 8
  {}

  lemma {:induction false} Eight(x: bv32)
    ensures Iterate(Shift, x, 8) == Shift8(x)
  {
    var a := Shift(Shift(Shift(Shift(x))));
    assert Iterate(Shift, a, 4) == Shift(Shift(Shift(Shift(a))));
    assert Iterate(Shift, x, 8) == Iterate(Shift, a, 4);
  }

  lemma {:induction false} IterateLow(a: bv32, h0: bv32, h1: bv32, h2: bv32, h3: bv32, h4: bv32,
                                      h5: bv32, h6: bv32, h7: bv32, h8: bv32)
    requires Even(h0) && Even(h1) && Even(h2) && Even(h3) && Even(h4) && Even(h5) && Even(h6) && Even(h7)
    requires Half(h0) == h1 && Half(h1) == h2 && Half(h2) == h3 && Half(h3) == h4
    requires Half(h4) == h5 && Half(h5) == h6 && Half(h6) == h7 && Half(h7) == h8
    ensures Iterate(Shift, Add(a, h0), 8) == Add(Iterate(Shift, a, 8), h8)
  {
    ShiftBeside();
    IterateBeside(Shift, Half, Add, Even, a, [h0, h1, h2, h3, h4, h5, h6, h7, h8]);
  }

  /** The low byte decides what is added, and the others only move down. */
  lemma {:induction false} IterateLowByte(x: bv32)
    ensures Iterate(Shift, x, 8) == Add(Iterate(Shift, x & 0xff, 8), x >> 8)
  {
    var h := x & 0xffffff00;
    HighBits(x);
    Halves(h);
    IterateLow(x & 0xff, h, h >> 1, h >> 2, h >> 3, h >> 4, h >> 5, h >> 6, h >> 7, h >> 8);
  }

  lemma {:induction false} Row0Right(n: bv8)
    requires n < 16
    ensures Row0(n) == Shift8((n | 0) as bv32)
  {}

  lemma {:induction false} Row1Right(n: bv8)
    requires n < 16
    ensures Row1(n) == Shift8((n | 16) as bv32)
  {}

  lemma {:induction false} Row2Right(n: bv8)
    requires n < 16
    ensures Row2(n) == Shift8((n | 32) as bv32)
  {}

  lemma {:induction false} Row3Right(n: bv8)
    requires n < 16
    ensures Row3(n) == Shift8((n | 48) as bv32)
  {}

  lemma {:induction false} Row4Right(n: bv8)
    requires n < 16
    ensures Row4(n) == Shift8((n | 64) as bv32)
  {}

  lemma {:induction false} Row5Right(n: bv8)
    requires n < 16
    ensures Row5(n) == Shift8((n | 80) as bv32)
  {}

  lemma {:induction false} Row6Right(n: bv8)
    requires n < 16
    ensures Row6(n) == Shift8((n | 96) as bv32)
  {}

  lemma {:induction false} Row7Right(n: bv8)
    requires n < 16
    ensures Row7(n) == Shift8((n | 112) as bv32)
  {}

  lemma {:induction false} Row8Right(n: bv8)
    requires n < 16
    ensures Row8(n) == Shift8((n | 128) as bv32)
  {}

  lemma {:induction false} Row9Right(n: bv8)
    requires n < 16
    ensures Row9(n) == Shift8((n | 144) as bv32)
  {}

  lemma {:induction false} Row10Right(n: bv8)
    requires n < 16
    ensures Row10(n) == Shift8((n | 160) as bv32)
  {}

  lemma {:induction false} Row11Right(n: bv8)
    requires n < 16
    ensures Row11(n) == Shift8((n | 176) as bv32)
  {}

  lemma {:induction false} Row12Right(n: bv8)
    requires n < 16
    ensures Row12(n) == Shift8((n | 192) as bv32)
  {}

  lemma {:induction false} Row13Right(n: bv8)
    requires n < 16
    ensures Row13(n) == Shift8((n | 208) as bv32)
  {}

  lemma {:induction false} Row14Right(n: bv8)
    requires n < 16
    ensures Row14(n) == Shift8((n | 224) as bv32)
  {}

  lemma {:induction false} Row15Right(n: bv8)
    requires n < 16
    ensures Row15(n) == Shift8((n | 240) as bv32)
  {}

  lemma {:induction false} RowsRight(b: bv8)
    ensures CrcTab(b) == Shift8(b as bv32)
  {
    var h, n := b >> 4, b & 15;
    assert n | (h << 4) == b;
    if h == 0 { Row0Right(n); } else if h == 1 { Row1Right(n); }
    else if h == 2 { Row2Right(n); } else if h == 3 { Row3Right(n); }
    else if h == 4 { Row4Right(n); } else if h == 5 { Row5Right(n); }
    else if h == 6 { Row6Right(n); } else if h == 7 { Row7Right(n); }
    else if h == 8 { Row8Right(n); } else if h == 9 { Row9Right(n); }
    else if h == 10 { Row10Right(n); } else if h == 11 { Row11Right(n); }
    else if h == 12 { Row12Right(n); } else if h == 13 { Row13Right(n); }
    else if h == 14 { Row14Right(n); } else if h == 15 { Row15Right(n); }
  }

  /** The table has the remainders of all bytes. */
  lemma {:induction false} TableRight(b: bv8)
    ensures CrcTab(b) == Iterate(Shift, b as bv32, 8)
  {
    RowsRight(b);
    Eight(b as bv32);
  }

  /** `partial_crc32_one` */
  function CrcOne(c: bv8, crc: bv32): bv32 {
    CrcTab(Low(crc ^ (c as bv32))) ^ (crc >> 8)
  }

  function Low(x: bv32): bv8 { (x & 0xff) as bv8 }

  lemma {:induction false} LowByte(c: bv8, crc: bv32)
    ensures var x := crc ^ (c as bv32); Low(x) as bv32 == x & 0xff && x >> 8 == crc >> 8
  {}

  lemma {:induction false} LookUp(x: bv32, b: bv8)
    requires b as bv32 == x & 0xff
    ensures Add(CrcTab(b), x >> 8) == Iterate(Shift, x, 8)
  {
    TableRight(b);
    IterateLowByte(x);
  }

  /** One look into the table does what eight steps of the division do. */
  lemma {:induction false} CrcOneIsDivision(c: bv8, crc: bv32)
    ensures CrcOne(c, crc) == Iterate(Shift, crc ^ (c as bv32), 8)
  {
    LowByte(c, crc);
    LookUp(crc ^ (c as bv32), Low(crc ^ (c as bv32)));
  }

  type Text = seq<bv8>

  /** The remainder after all bits of all bytes. */
  function Division(s: Text, crc: bv32): bv32 {
    if s == [] then crc else Division(s[1..], Iterate(Shift, crc ^ (s[0] as bv32), 8))
  }

  lemma {:induction false} DivisionConcat(s: Text, t: Text, crc: bv32)
    ensures Division(s + t, crc) == Division(t, Division(s, crc))
    decreases |s|
  {
    if s == [] {
      assert s + t == t;
    } else {
      assert (s + t)[1..] == s[1..] + t;
      DivisionConcat(s[1..], t, Iterate(Shift, crc ^ (s[0] as bv32), 8));
    }
  }

  /** `partial_crc32`: the table form divides. */
  method PartialCrc32(s: Text, crc: bv32) returns (r: bv32)
    ensures r == Division(s, crc)
  {
    r := crc;
    var i := 0;
    while i < |s|
      invariant i <= |s| && Division(s[i..], r) == Division(s, crc)
    {
      assert s[i..][1..] == s[i + 1..];
      CrcOneIsDivision(s[i], r);
      r := CrcOne(s[i], r);
      i := i + 1;
    }
  }

  /** `crc32` */
  method Crc32(s: Text) returns (r: bv32)
    ensures r == Division(s, 0xffff_ffff) ^ 0xffff_ffff
  {
    r := PartialCrc32(s, 0xffff_ffff);
    r := r ^ 0xffff_ffff;
  }
}
