/** `flatten_tree`: the structure block and the string table of a tree. */
module DtbWriter {
  import opened ByteStrings
  import opened DtbFormat
  import opened DtbData

  /** Two buffers that do not share storage. */
  ghost predicate Buffers(dt: Data, st: Data)
    reads dt, st
  {
    dt != st && dt.Valid() && st.Valid() && dt.val != st.val
  }

  lemma Regroup4(a: Bytes, b: Bytes, c: Bytes, d: Bytes, e: Bytes)
    ensures a + (b + (c + d)) + e == a + (b + (c + (d + e)))
  {}

  /** Buffers after writing: still apart, aligned and well ended, in storage that
      was theirs or is new. */
  twostate predicate Written(dt: Data, st: Data)
    reads dt, st, dt.val, st.val
  {
    && Buffers(dt, st) && dt.len % 4 == 0 && TableOk(st.Contents())
    && (dt.val == old(dt.val) || fresh(dt.val)) && (st.val == old(st.val) || fresh(st.val))
  }

  method WriteProperty(p: Property, dt: Data, st: Data)
    requires Buffers(dt, st) && dt.len % 4 == 0 && TableOk(st.Contents()) && 0 !in p.name
    modifies dt, dt.val, st, st.val
    ensures Written(dt, st)
    ensures dt.Contents() == old(dt.Contents()) + FlatProp(p, old(st.Contents())).bytes
    ensures st.Contents() == FlatProp(p, old(st.Contents())).tab
  {
    ghost var before, tab := dt.Contents(), st.Contents();
    var nameoff := st.StringtableInsert(p.name);
    InsertedStays(tab, p.name, []);
    dt.AppendPropertyHead(|p.val|, nameoff);
    dt.AppendPadded(p.val);
    Regroup4(before, Word(FDT_PROP), Word(|p.val|), Word(nameoff), Padded(p.val));
  }

  /** The loop over the properties. */
  method WriteProperties(node: Node, dt: Data, st: Data)
    requires Buffers(dt, st) && dt.len % 4 == 0 && TableOk(st.Contents()) && Named(node)
    modifies dt, dt.val, st, st.val
    ensures Written(dt, st)
    ensures dt.Contents() == old(dt.Contents()) + FlatProps(node.props, old(st.Contents())).bytes
    ensures st.Contents() == FlatProps(node.props, old(st.Contents())).tab
  {
    ghost var goal := FlatProps(node.props, st.Contents());
    ghost var before := dt.Contents();
    var i := 0;
    assert node.props[0..] == node.props;
    while i < |node.props|
      invariant 0 <= i <= |node.props| && Written(dt, st)
      invariant dt.Contents() + FlatProps(node.props[i..], st.Contents()).bytes == before + goal.bytes
      invariant FlatProps(node.props[i..], st.Contents()).tab == goal.tab
    {
      var p := node.props[i];
      ghost var was, tab := dt.Contents(), st.Contents();
      PropsStep(node.props, i, tab);
      if !p.deleted {
        WriteProperty(p, dt, st);
        Assoc(was, FlatProp(p, tab).bytes, FlatProps(node.props[i + 1..], st.Contents()).bytes);
      }
      i := i + 1;
    }
    assert before + goal.bytes == dt.Contents() + [];
  }

  lemma {:induction false} PropsStep(ps: seq<Property>, i: nat, tab: Bytes)
    requires i < |ps|
    ensures FlatProps(ps[i..], tab) ==
            if ps[i].deleted then FlatProps(ps[i + 1..], tab)
            else Flat(FlatProp(ps[i], tab).bytes + FlatProps(ps[i + 1..], FlatProp(ps[i], tab).tab).bytes,
                      FlatProps(ps[i + 1..], FlatProp(ps[i], tab).tab).tab)
  {
    assert ps[i..][0] == ps[i] && ps[i..][1..] == ps[i + 1..];
  }

  lemma {:induction false} ChildrenStep(cs: seq<Node>, i: nat, tab: Bytes)
    requires i < |cs|
    ensures FlatChildren(cs[i..], tab) ==
            Flat(FlatNode(cs[i], tab).bytes + FlatChildren(cs[i + 1..], FlatNode(cs[i], tab).tab).bytes,
                 FlatChildren(cs[i + 1..], FlatNode(cs[i], tab).tab).tab)
  {
    assert cs[i..][0] == cs[i] && cs[i..][1..] == cs[i + 1..];
  }

  /** The loop over the children. */
  method WriteChildren(node: Node, dt: Data, st: Data)
    requires Buffers(dt, st) && dt.len % 4 == 0 && TableOk(st.Contents()) && Named(node)
    modifies dt, dt.val, st, st.val
    ensures Written(dt, st)
    ensures dt.Contents() == old(dt.Contents()) + FlatChildren(node.children, old(st.Contents())).bytes
    ensures st.Contents() == FlatChildren(node.children, old(st.Contents())).tab
    decreases node, 0, 0
  {
    ghost var goal := FlatChildren(node.children, st.Contents());
    ghost var before := dt.Contents();
    var i := 0;
    assert node.children[0..] == node.children;
    while i < |node.children|
      invariant 0 <= i <= |node.children| && Written(dt, st)
      invariant dt.Contents() + FlatChildren(node.children[i..], st.Contents()).bytes == before + goal.bytes
      invariant FlatChildren(node.children[i..], st.Contents()).tab == goal.tab
    {
      ghost var was, tab, c := dt.Contents(), st.Contents(), node.children[i];
      ChildrenStep(node.children, i, tab);
      FlattenTree(node.children[i], dt, st);
      Assoc(was, FlatNode(c, tab).bytes, FlatChildren(node.children[i + 1..], st.Contents()).bytes);
      i := i + 1;
    }
    assert before + goal.bytes == dt.Contents() + [];
  }

  /** `flatten_tree`: what is deleted is left out. */
  method FlattenTree(tree: Node, dt: Data, st: Data)
    requires Buffers(dt, st) && dt.len % 4 == 0 && TableOk(st.Contents()) && Named(tree)
    modifies dt, dt.val, st, st.val
    ensures Written(dt, st)
    ensures dt.Contents() == old(dt.Contents()) + FlatNode(tree, old(st.Contents())).bytes
    ensures st.Contents() == FlatNode(tree, old(st.Contents())).tab
    decreases tree, 1
  {
    if tree.deleted {
      assert dt.Contents() + [] == dt.Contents();
      return;
    }
    ghost var before, tab := dt.Contents(), st.Contents();
    WriteNode(tree, dt, st);
    ghost var f := FlatNode(tree, tab);
    assert f == Flat(Word(FDT_BEGIN_NODE) + FlatBody(tree, tab).bytes, FlatBody(tree, tab).tab);
  }

  method WriteNode(tree: Node, dt: Data, st: Data)
    requires Buffers(dt, st) && dt.len % 4 == 0 && TableOk(st.Contents()) && Named(tree)
    modifies dt, dt.val, st, st.val
    ensures Written(dt, st)
    ensures dt.Contents() == old(dt.Contents()) + (Word(FDT_BEGIN_NODE) + FlatBody(tree, old(st.Contents())).bytes)
    ensures st.Contents() == FlatBody(tree, old(st.Contents())).tab
    decreases tree, 0, 3
  {
    ghost var before, tab := dt.Contents(), st.Contents();
    dt.AppendNodeHead(tree.name);
    WriteRest(tree, dt, st);
    Assoc(before, Word(FDT_BEGIN_NODE) + Padded(tree.name + [0]), AfterName(tree, tab));
    Assoc(Word(FDT_BEGIN_NODE), Padded(tree.name + [0]), AfterName(tree, tab));
  }

  /** What follows the name of a node. */
  function AfterName(tree: Node, tab: Bytes): Bytes {
    var ps := FlatProps(tree.props, tab);
    ps.bytes + (FlatChildren(tree.children, ps.tab).bytes + Word(FDT_END_NODE))
  }

  method WriteRest(tree: Node, dt: Data, st: Data)
    requires Buffers(dt, st) && dt.len % 4 == 0 && TableOk(st.Contents()) && Named(tree)
    modifies dt, dt.val, st, st.val
    ensures Written(dt, st)
    ensures dt.Contents() == old(dt.Contents()) + AfterName(tree, old(st.Contents()))
    ensures st.Contents() == FlatBody(tree, old(st.Contents())).tab
    decreases tree, 0, 2
  {
    ghost var before, tab := dt.Contents(), st.Contents();
    WriteItems(tree, dt, st);
    dt.AppendCell(FDT_END_NODE);
    AfterItems(tree, before, tab);
  }

  lemma {:induction false} AfterItems(tree: Node, before: Bytes, tab: Bytes)
    ensures var ps := FlatProps(tree.props, tab);
            var cs := FlatChildren(tree.children, ps.tab);
            && (before + (ps.bytes + cs.bytes)) + Word(FDT_END_NODE) == before + AfterName(tree, tab)
            && FlatBody(tree, tab).tab == cs.tab
  {
    var ps := FlatProps(tree.props, tab);
    var cs := FlatChildren(tree.children, ps.tab);
    Assoc(before, ps.bytes + cs.bytes, Word(FDT_END_NODE));
    Assoc(ps.bytes, cs.bytes, Word(FDT_END_NODE));
  }

  method WriteItems(tree: Node, dt: Data, st: Data)
    requires Buffers(dt, st) && dt.len % 4 == 0 && TableOk(st.Contents()) && Named(tree)
    modifies dt, dt.val, st, st.val
    ensures Written(dt, st)
    ensures var ps := FlatProps(tree.props, old(st.Contents()));
            var cs := FlatChildren(tree.children, ps.tab);
            dt.Contents() == old(dt.Contents()) + (ps.bytes + cs.bytes) && st.Contents() == cs.tab
    decreases tree, 0, 1
  {
    ghost var before, tab := dt.Contents(), st.Contents();
    WriteProperties(tree, dt, st);
    WriteChildren(tree, dt, st);
    ghost var ps := FlatProps(tree.props, tab);
    Assoc(before, ps.bytes, FlatChildren(tree.children, ps.tab).bytes);
  }
}
