/** The flattened form of a device tree, as defined in sections 5.2 to 5.5 of
    the Devicetree Specification, for versions 16 and 17 of the format.

    `FlatNode` and `Insert` say what the writer emits, `ReadNode` what the reader
    accepts.  `NodeRoundTrip` connects them: reading what was written gives back
    the live part of the tree.
  */
module DtbFormat {
  import opened ByteStrings

  // ------------------------------------------------------------------- cells

  const CELL := 0x1_0000_0000

  /** The low 32 bits of a number, most significant byte first. */
  function Word(n: nat): (s: Bytes)
    ensures |s| == 4
  {
    [n / 256 / 256 / 256 % 256, n / 256 / 256 % 256, n / 256 % 256, n % 256]
  }

  function Base256(hi: nat, lo: Byte): (n: nat) {
    hi * 256 + lo
  }

  function WordValue(s: Bytes): (n: nat)
    requires |s| >= 4
    ensures n < CELL
  {
    Base256(Base256(Base256(s[0], s[1]), s[2]), s[3])
  }

  /** One division by 256. */
  lemma Quotient(n: nat, k: nat)
    ensures Base256(n / 256, n % 256) == n
    ensures n < 256 * k ==> n / 256 < k
  {}

  lemma WordOf(n: nat, a: nat, b: nat, c: nat)
    requires a == n / 256 && b == a / 256 && c == b / 256
    ensures Word(n) == [c % 256, b % 256, a % 256, n % 256]
  {}

  lemma {:induction false} WordRoundTrip(n: nat)
    requires n < CELL
    ensures WordValue(Word(n)) == n
  {
    var a := n / 256;
    var b := a / 256;
    var c := b / 256;
    WordOf(n, a, b, c);
    Quotient(n, 0x100_0000);
    Quotient(a, 0x1_0000);
    Quotient(b, 0x100);
  }

  lemma {:induction false} WordFront(n: nat, rest: Bytes)
    requires n < CELL
    ensures WordValue(Word(n) + rest) == n && (Word(n) + rest)[4..] == rest
  {
    WordRoundTrip(n);
  }

  // --------------------------------------------------------------- alignment

  /** What is missing to the next multiple of four. */
  function Gap(n: nat): (g: nat)
    ensures g < 4 && (n + g) % 4 == 0
  {
    (4 - n % 4) % 4
  }

  function Zeroes(n: nat): (s: Bytes)
    ensures |s| == n
  {
    seq(n, _ => 0)
  }

  function Padded(s: Bytes): (r: Bytes)
    ensures |r| % 4 == 0 && s <= r
  {
    s + Zeroes(Gap(|s|))
  }

  // ----------------------------------------------------------------- strings

  /** There is a NUL at or after `i`. */
  predicate Ends(s: Bytes, i: nat) {
    var k := i + |CString(s, i)|;
    k < |s| && s[k] == 0
  }

  /** More text behind the NUL makes no difference. */
  lemma {:induction false} CStringExtends(s: Bytes, more: Bytes, i: nat)
    requires Ends(s, i)
    ensures CString(s + more, i) == CString(s, i) && Ends(s + more, i)
    decreases |s| - i
  {
    if s[i] != 0 {
      CStringExtends(s, more, i + 1);
    }
  }

  lemma {:induction false} CStringHere(before: Bytes, str: Bytes, after: Bytes)
    requires 0 !in str
    ensures CString(before + str + [0] + after, |before|) == str
    ensures Ends(before + str + [0] + after, |before|)
    decreases |str|
  {
    var s := before + str + [0] + after;
    if str != [] {
      assert s == (before + [str[0]]) + str[1..] + [0] + after;
      CStringHere(before + [str[0]], str[1..], after);
      assert s[|before|] == str[0];
    }
  }

  // ------------------------------------------------------------ string table

  /** Every string in the table is ended, the last one too. */
  predicate TableOk(tab: Bytes) {
    tab == [] || tab[|tab| - 1] == 0
  }

  lemma {:induction false} TableEnds(tab: Bytes, i: nat)
    requires TableOk(tab) && i < |tab|
    ensures Ends(tab, i)
    decreases |tab| - i
  {
    if tab[i] != 0 {
      TableEnds(tab, i + 1);
    }
  }

  /** The first offset, from `i` on, at which the string is found; the length of
      the table if there is none. */
  function Search(tab: Bytes, str: Bytes, i: nat): (r: nat)
    requires i <= |tab|
    ensures i <= r <= |tab|
    decreases |tab| - i
  {
    if i == |tab| || CString(tab, i) == str then i else Search(tab, str, i + 1)
  }

  lemma {:induction false} SearchFound(tab: Bytes, str: Bytes, i: nat)
    requires i <= |tab|
    ensures Search(tab, str, i) < |tab| ==> CString(tab, Search(tab, str, i)) == str
    decreases |tab| - i
  {
    if i < |tab| && CString(tab, i) != str {
      SearchFound(tab, str, i + 1);
    }
  }

  /** The table with a string in it, which may be the tail of another. */
  function Inserted(tab: Bytes, str: Bytes): Bytes {
    if Search(tab, str, 0) < |tab| then tab else tab + str + [0]
  }

  /** An offset that was handed out stays good whatever is appended later. */
  lemma {:induction false} InsertedStays(tab: Bytes, str: Bytes, more: Bytes)
    requires TableOk(tab) && 0 !in str
    ensures TableOk(Inserted(tab, str)) && tab <= Inserted(tab, str)
    ensures var off := Search(tab, str, 0); var all := Inserted(tab, str) + more;
            off < |all| && CString(all, off) == str && Ends(all, off)
  {
    var off := Search(tab, str, 0);
    if off < |tab| {
      SearchFound(tab, str, 0);
      TableEnds(tab, off);
      CStringExtends(tab, more, off);
    } else {
      CStringHere(tab, str, more);
      assert tab + str + [0] + more == Inserted(tab, str) + more;
    }
  }

  // --------------------------------------------------------------- the tree

  datatype Property = Property(name: Bytes, val: Bytes, deleted: bool)
  datatype Node = Node(name: Bytes, props: seq<Property>, children: seq<Node>, deleted: bool)

  /** Names hold no NUL. */
  predicate Named(node: Node) {
    && 0 !in node.name
    && (forall p :: p in node.props ==> 0 !in p.name)
    && (forall c :: c in node.children ==> Named(c))
  }

  function LiveProps(ps: seq<Property>): seq<Property> {
    if ps == [] then []
    else (if ps[0].deleted then [] else [ps[0]]) + LiveProps(ps[1..])
  }

  function LiveChildren(cs: seq<Node>): seq<Node> {
    if cs == [] then []
    else (if cs[0].deleted then [] else [Live(cs[0])]) + LiveChildren(cs[1..])
  }

  /** The tree without what has been deleted. */
  function Live(node: Node): Node {
    Node(node.name, LiveProps(node.props), LiveChildren(node.children), false)
  }

  // ------------------------------------------------------------------ writing

  const FDT_BEGIN_NODE := 1
  const FDT_END_NODE := 2
  const FDT_PROP := 3
  const FDT_NOP := 4
  const FDT_END := 9

  /** Structure bytes, and the string table they go with. */
  datatype Flat = Flat(bytes: Bytes, tab: Bytes)

  /** A property behind its tag: length, offset of the name, value. */
  function PropBody(p: Property, tab: Bytes): Bytes
  {
    Word(|p.val|) + (Word(Search(tab, p.name, 0)) + Padded(p.val))
  }

  function FlatProp(p: Property, tab: Bytes): Flat
  {
    Flat(Word(FDT_PROP) + PropBody(p, tab), Inserted(tab, p.name))
  }

  function FlatProps(ps: seq<Property>, tab: Bytes): Flat
  {
    if ps == [] then Flat([], tab)
    else if ps[0].deleted then FlatProps(ps[1..], tab)
    else
      var first := FlatProp(ps[0], tab);
      var rest := FlatProps(ps[1..], first.tab);
      Flat(first.bytes + rest.bytes, rest.tab)
  }

  function FlatChildren(cs: seq<Node>, tab: Bytes): Flat
  {
    if cs == [] then Flat([], tab)
    else
      var first := FlatNode(cs[0], tab);
      var rest := FlatChildren(cs[1..], first.tab);
      Flat(first.bytes + rest.bytes, rest.tab)
  }

  /** A node behind its first tag: name, properties, children, end. */
  function FlatBody(node: Node, tab: Bytes): Flat
    decreases node, 0
  {
    var ps := FlatProps(node.props, tab);
    var cs := FlatChildren(node.children, ps.tab);
    Flat(Padded(node.name + [0]) + (ps.bytes + (cs.bytes + Word(FDT_END_NODE))), cs.tab)
  }

  function FlatNode(node: Node, tab: Bytes): Flat
    decreases node, 1
  {
    if node.deleted then Flat([], tab)
    else
      var body := FlatBody(node, tab);
      Flat(Word(FDT_BEGIN_NODE) + body.bytes, body.tab)
  }

  lemma SumAligned(a: Bytes, b: Bytes)
    requires |a| % 4 == 0 && |b| % 4 == 0
    ensures |a + b| % 4 == 0
  {}

  /** Everything in the structure block is a whole number of cells. */
  lemma {:induction false} PropsAligned(ps: seq<Property>, tab: Bytes)
    ensures |FlatProps(ps, tab).bytes| % 4 == 0
  {
    if ps != [] {
      var tab' := if ps[0].deleted then tab else Inserted(tab, ps[0].name);
      PropsAligned(ps[1..], tab');
      var p := ps[0];
      SumAligned(Word(Search(tab, p.name, 0)), Padded(p.val));
      SumAligned(Word(|p.val|), Word(Search(tab, p.name, 0)) + Padded(p.val));
      SumAligned(Word(FDT_PROP), PropBody(p, tab));
      SumAligned(FlatProp(p, tab).bytes, FlatProps(ps[1..], tab').bytes);
    }
  }

  lemma {:induction false} ChildrenAligned(cs: seq<Node>, tab: Bytes)
    ensures |FlatChildren(cs, tab).bytes| % 4 == 0
  {
    if cs != [] {
      NodeAligned(cs[0], tab);
      ChildrenAligned(cs[1..], FlatNode(cs[0], tab).tab);
      SumAligned(FlatNode(cs[0], tab).bytes, FlatChildren(cs[1..], FlatNode(cs[0], tab).tab).bytes);
    }
  }

  lemma {:induction false} NodeAligned(node: Node, tab: Bytes)
    ensures |FlatNode(node, tab).bytes| % 4 == 0
    decreases node
  {
    if !node.deleted {
      var ps := FlatProps(node.props, tab);
      var cs := FlatChildren(node.children, ps.tab);
      PropsAligned(node.props, tab);
      ChildrenAligned(node.children, ps.tab);
      SumAligned(cs.bytes, Word(FDT_END_NODE));
      SumAligned(ps.bytes, cs.bytes + Word(FDT_END_NODE));
      SumAligned(Padded(node.name + [0]), ps.bytes + (cs.bytes + Word(FDT_END_NODE)));
      SumAligned(Word(FDT_BEGIN_NODE), FlatBody(node, tab).bytes);
    }
  }

  // ------------------------------------------------------------------ reading

  datatype Read<+T> = Bad | Got(v: T, rest: Bytes)

  /** A string, its NUL and the padding. */
  function ReadString(s: Bytes): (r: Read<Bytes>)
    ensures r.Got? ==> |r.rest| < |s|
  {
    if !Ends(s, 0) then Bad
    else
      var n := |CString(s, 0)| + 1;
      if n + Gap(n) > |s| then Bad else Got(CString(s, 0), s[n + Gap(n)..])
  }

  /** `len` bytes and the padding. */
  function ReadData(s: Bytes, len: nat): (r: Read<Bytes>)
    ensures r.Got? ==> |r.rest| <= |s|
  {
    if len + Gap(len) > |s| then Bad else Got(s[..len], s[len + Gap(len)..])
  }

  /** The part of a property behind its tag. */
  function ReadProp(s: Bytes, tab: Bytes): (r: Read<Property>)
    ensures r.Got? ==> |r.rest| < |s|
  {
    if |s| < 8 then Bad
    else
      var len, off := WordValue(s), WordValue(s[4..]);
      if !Ends(tab, off) then Bad
      else
        match ReadData(s[8..], len)
        case Bad => Bad
        case Got(val, rest) => Got(Property(CString(tab, off), val, false), rest)
  }

  /** Properties and children up to the end of the node. */
  function ReadItems(s: Bytes, tab: Bytes, ps: seq<Property>, cs: seq<Node>): (r: Read<(seq<Property>, seq<Node>)>)
    ensures r.Got? ==> |r.rest| < |s|
    decreases |s|, 0
  {
    if |s| < 4 then Bad
    else
      var tag := WordValue(s);
      if tag == FDT_PROP then
        match ReadProp(s[4..], tab)
        case Bad => Bad
        case Got(p, rest) => ReadItems(rest, tab, ps + [p], cs)
      else if tag == FDT_BEGIN_NODE then
        match ReadNode(s[4..], tab)
        case Bad => Bad
        case Got(c, rest) => ReadItems(rest, tab, ps, cs + [c])
      else if tag == FDT_END_NODE then Got((ps, cs), s[4..])
      else if tag == FDT_NOP then ReadItems(s[4..], tab, ps, cs)
      else Bad
  }

  /** A node behind its first tag. */
  function ReadNode(s: Bytes, tab: Bytes): (r: Read<Node>)
    ensures r.Got? ==> |r.rest| < |s|
    decreases |s|, 1
  {
    match ReadString(s)
    case Bad => Bad
    case Got(name, rest) =>
      match ReadItems(rest, tab, [], [])
      case Bad => Bad
      case Got(items, rest') => Got(Node(name, items.0, items.1, false), rest')
  }

  // --------------------------------------------------------------- round trip

  /** Lengths and offsets of what is written fit into a cell. */
  predicate Small(node: Node) {
    && (forall p :: p in node.props ==> |p.val| < CELL)
    && (forall c :: c in node.children ==> Small(c))
  }

  /** A later state of the string table. */
  predicate Grown(tab: Bytes, tab': Bytes) {
    TableOk(tab) && TableOk(tab') && tab <= tab'
  }

  lemma PaddedFront(s: Bytes, rest: Bytes)
    ensures (Padded(s) + rest)[..|s|] == s
    ensures (Padded(s) + rest)[|s| + Gap(|s|)..] == rest
    ensures |s| + Gap(|s|) <= |Padded(s) + rest|
  {}

  lemma {:induction false} StringRoundTrip(name: Bytes, rest: Bytes)
    requires 0 !in name
    ensures ReadString(Padded(name + [0]) + rest) == Got(name, rest)
  {
    var s := Padded(name + [0]) + rest;
    var after := s[|name| + 1..];
    assert s == [] + name + [0] + after;
    CStringHere([], name, after);
    PaddedFront(name + [0], rest);
  }

  lemma Assoc(a: Bytes, b: Bytes, c: Bytes)
    ensures (a + b) + c == a + (b + c)
  {}

  /** What a property adds to the table is found in all later tables. */
  lemma {:induction false} PropRoundTrip(p: Property, tab: Bytes, final: Bytes, rest: Bytes)
    requires 0 !in p.name && |p.val| < CELL && TableOk(tab)
    requires Inserted(tab, p.name) <= final && |final| < CELL
    ensures ReadProp(PropBody(p, tab) + rest, final) == Got(Property(p.name, p.val, false), rest)
  {
    var off := Search(tab, p.name, 0);
    OffsetStays(tab, p.name, final);
    Assoc(Word(|p.val|), Word(off) + Padded(p.val), rest);
    Assoc(Word(off), Padded(p.val), rest);
    TwoWords(|p.val|, off, Padded(p.val) + rest);
    DataRoundTrip(p.val, rest);
  }

  lemma {:induction false} TwoWords(n: nat, m: nat, rest: Bytes)
    requires n < CELL && m < CELL
    ensures var s := Word(n) + (Word(m) + rest);
            |s| >= 8 && WordValue(s) == n && WordValue(s[4..]) == m && s[8..] == rest
  {
    WordFront(n, Word(m) + rest);
    WordFront(m, rest);
    var s := Word(n) + (Word(m) + rest);
    assert s[8..] == s[4..][4..];
  }

  lemma {:induction false} DataRoundTrip(val: Bytes, rest: Bytes)
    ensures ReadData(Padded(val) + rest, |val|) == Got(val, rest)
  {
    PaddedFront(val, rest);
  }

  lemma {:induction false} OffsetStays(tab: Bytes, str: Bytes, final: Bytes)
    requires TableOk(tab) && 0 !in str && Inserted(tab, str) <= final
    ensures var off := Search(tab, str, 0);
            off < |final| && CString(final, off) == str && Ends(final, off)
  {
    var ins := Inserted(tab, str);
    InsertedStays(tab, str, final[|ins|..]);
    assert final == ins + final[|ins|..];
  }

  /** One tag of the structure block, and how reading goes on behind it. */
  lemma {:induction false} ReadPropItem(body: Bytes, tab: Bytes, p: Property, rest: Bytes, ps: seq<Property>,
                                        cs: seq<Node>)
    requires ReadProp(body, tab) == Got(p, rest)
    ensures ReadItems(Word(FDT_PROP) + body, tab, ps, cs) == ReadItems(rest, tab, ps + [p], cs)
  {
    WordFront(FDT_PROP, body);
  }

  lemma {:induction false} ReadChildItem(body: Bytes, tab: Bytes, c: Node, rest: Bytes, ps: seq<Property>,
                                         cs: seq<Node>)
    requires ReadNode(body, tab) == Got(c, rest)
    ensures ReadItems(Word(FDT_BEGIN_NODE) + body, tab, ps, cs) == ReadItems(rest, tab, ps, cs + [c])
  {
    WordFront(FDT_BEGIN_NODE, body);
  }

  lemma {:induction false} ReadEndItem(rest: Bytes, tab: Bytes, ps: seq<Property>, cs: seq<Node>)
    ensures ReadItems(Word(FDT_END_NODE) + rest, tab, ps, cs) == Got((ps, cs), rest)
  {
    WordFront(FDT_END_NODE, rest);
  }

  lemma {:induction false} TablesGrowProps(ps: seq<Property>, tab: Bytes)
    requires TableOk(tab) && forall p :: p in ps ==> 0 !in p.name
    ensures Grown(tab, FlatProps(ps, tab).tab)
  {
    if ps != [] {
      if !ps[0].deleted {
        InsertedStays(tab, ps[0].name, []);
      }
      TablesGrowProps(ps[1..], if ps[0].deleted then tab else Inserted(tab, ps[0].name));
    }
  }

  lemma {:induction false} TablesGrowChildren(cs: seq<Node>, tab: Bytes)
    requires TableOk(tab) && forall c :: c in cs ==> Named(c)
    ensures Grown(tab, FlatChildren(cs, tab).tab)
  {
    if cs != [] {
      TablesGrow(cs[0], tab);
      TablesGrowChildren(cs[1..], FlatNode(cs[0], tab).tab);
    }
  }

  lemma {:induction false} TablesGrow(node: Node, tab: Bytes)
    requires TableOk(tab) && Named(node)
    ensures Grown(tab, FlatNode(node, tab).tab)
  {
    if !node.deleted {
      TablesGrowProps(node.props, tab);
      TablesGrowChildren(node.children, FlatProps(node.props, tab).tab);
    }
  }

  /** Reading at `s`, with some items found already, goes on at `rest` with more. */
  predicate GoesOn(tab: Bytes, s: Bytes, ps: seq<Property>, cs: seq<Node>,
                   rest: Bytes, morePs: seq<Property>, moreCs: seq<Node>)
  {
    ReadItems(s, tab, ps, cs) == ReadItems(rest, tab, morePs, moreCs)
  }

  /** One property that is not deleted. */
  lemma {:induction false} LivePropRead(ps: seq<Property>, tab: Bytes, final: Bytes, rest: Bytes,
                                        done: seq<Property>, cs: seq<Node>)
    requires TableOk(tab) && ps != [] && !ps[0].deleted && 0 !in ps[0].name && |ps[0].val| < CELL
    requires Inserted(tab, ps[0].name) <= final && |final| < CELL
    ensures GoesOn(final, FlatProps(ps, tab).bytes + rest, done, cs,
                   FlatProps(ps[1..], Inserted(tab, ps[0].name)).bytes + rest, done + [ps[0]], cs)
  {
    var more := FlatProps(ps[1..], Inserted(tab, ps[0].name)).bytes;
    PropRoundTrip(ps[0], tab, final, more + rest);
    ReadPropItem(PropBody(ps[0], tab) + (more + rest), final, ps[0], more + rest, done, cs);
    Regrouped(Word(FDT_PROP), PropBody(ps[0], tab), more, rest);
  }

  lemma AppendAssoc<T>(a: seq<T>, x: T, b: seq<T>)
    ensures a + [x] + b == a + ([x] + b)
  {}

  lemma {:induction false} AppendLive(done: seq<Property>, ps: seq<Property>)
    requires ps != [] && !ps[0].deleted
    ensures done + [ps[0]] + LiveProps(ps[1..]) == done + LiveProps(ps)
  {
    AppendAssoc(done, ps[0], LiveProps(ps[1..]));
  }

  /** Properties in order, in front of whatever comes next. */
  lemma {:induction false} PropsRoundTrip(ps: seq<Property>, tab: Bytes, final: Bytes, rest: Bytes,
                                          done: seq<Property>, cs: seq<Node>)
    requires TableOk(tab) && forall p :: p in ps ==> 0 !in p.name && |p.val| < CELL
    requires FlatProps(ps, tab).tab <= final && |final| < CELL
    ensures GoesOn(final, FlatProps(ps, tab).bytes + rest, done, cs, rest, done + LiveProps(ps), cs)
    decreases |ps|
  {
    if ps == [] {
      assert [] + rest == rest && done + [] == done;
    } else if ps[0].deleted {
      assert LiveProps(ps) == LiveProps(ps[1..]);
      PropsRoundTrip(ps[1..], tab, final, rest, done, cs);
    } else {
      var tab' := Inserted(tab, ps[0].name);
      InsertedStays(tab, ps[0].name, []);
      TablesGrowProps(ps[1..], tab');
      LivePropRead(ps, tab, final, rest, done, cs);
      PropsRoundTrip(ps[1..], tab', final, rest, done + [ps[0]], cs);
      AppendLive(done, ps);
    }
  }

  lemma Regrouped(tag: Bytes, body: Bytes, more: Bytes, rest: Bytes)
    ensures (tag + body + more) + rest == tag + (body + (more + rest))
  {}

  /** A live child in front of the others. */
  lemma {:induction false} LiveChildRead(child: Node, body: Bytes, more: Bytes, final: Bytes, rest: Bytes,
                                         ps: seq<Property>, done: seq<Node>)
    requires ReadNode(body + (more + rest), final) == Got(Live(child), more + rest)
    ensures GoesOn(final, (Word(FDT_BEGIN_NODE) + body + more) + rest, ps, done, more + rest, ps, done + [Live(child)])
  {
    ReadChildItem(body + (more + rest), final, Live(child), more + rest, ps, done);
    Regrouped(Word(FDT_BEGIN_NODE), body, more, rest);
  }

  lemma {:induction false} AppendLiveChild(done: seq<Node>, kids: seq<Node>)
    requires kids != [] && !kids[0].deleted
    ensures done + [Live(kids[0])] + LiveChildren(kids[1..]) == done + LiveChildren(kids)
  {
    AppendAssoc(done, Live(kids[0]), LiveChildren(kids[1..]));
  }

  lemma {:induction false} ChildrenRoundTrip(kids: seq<Node>, tab: Bytes, final: Bytes, rest: Bytes,
                                             ps: seq<Property>, done: seq<Node>)
    requires TableOk(tab) && forall c :: c in kids ==> Named(c) && Small(c)
    requires FlatChildren(kids, tab).tab <= final && |final| < CELL
    ensures GoesOn(final, FlatChildren(kids, tab).bytes + rest, ps, done, rest, ps, done + LiveChildren(kids))
    decreases kids
  {
    if kids == [] {
      assert [] + rest == rest && done + [] == done;
    } else if kids[0].deleted {
      var more := FlatChildren(kids[1..], tab).bytes;
      assert [] + more == more && LiveChildren(kids) == LiveChildren(kids[1..]);
      ChildrenRoundTrip(kids[1..], tab, final, rest, ps, done);
    } else {
      var body := FlatBody(kids[0], tab);
      TablesGrow(kids[0], tab);
      TablesGrowChildren(kids[1..], body.tab);
      var more := FlatChildren(kids[1..], body.tab).bytes;
      NodeRoundTrip(kids[0], tab, final, more + rest);
      LiveChildRead(kids[0], body.bytes, more, final, rest, ps, done);
      ChildrenRoundTrip(kids[1..], body.tab, final, rest, ps, done + [Live(kids[0])]);
      AppendLiveChild(done, kids);
    }
  }

  /** Reading what was written, with any later string table, gives back the live
      part of the tree: names, values, and the order of properties and children. */
  lemma {:induction false} NodeRoundTrip(node: Node, tab: Bytes, final: Bytes, rest: Bytes)
    requires Named(node) && Small(node) && TableOk(tab)
    requires FlatBody(node, tab).tab <= final && |final| < CELL
    ensures ReadNode(FlatBody(node, tab).bytes + rest, final) == Got(Live(node), rest)
    decreases node
  {
    var ps := FlatProps(node.props, tab);
    var cs := FlatChildren(node.children, ps.tab);
    TablesGrowProps(node.props, tab);
    TablesGrowChildren(node.children, ps.tab);
    var end := Word(FDT_END_NODE) + rest;
    var items := ps.bytes + (cs.bytes + end);
    BodySplit(Padded(node.name + [0]), ps.bytes, cs.bytes, Word(FDT_END_NODE), rest);
    StringRoundTrip(node.name, items);
    PropsRoundTrip(node.props, tab, final, cs.bytes + end, [], []);
    ChildrenRoundTrip(node.children, ps.tab, final, end, [] + LiveProps(node.props), []);
    ReadEndItem(rest, final, [] + LiveProps(node.props), [] + LiveChildren(node.children));
    assert [] + LiveProps(node.props) == LiveProps(node.props)
           && [] + LiveChildren(node.children) == LiveChildren(node.children);
  }

  lemma BodySplit(a: Bytes, b: Bytes, c: Bytes, d: Bytes, rest: Bytes)
    ensures (a + (b + (c + d))) + rest == a + (b + (c + (d + rest)))
  {}
}
