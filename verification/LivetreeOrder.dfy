/** The order of a merged tree.

    What the overlay only changes stays in its place, also if it had been deleted; what
    is new comes behind it, in the order of the overlay.
  */
module LivetreeOrder {
  import opened ByteStrings
  import opened DtbFormat
  import opened LivetreeMerge

  function PropNames(ps: seq<Property>): seq<Bytes> {
    if ps == [] then [] else [ps[0].name] + PropNames(ps[1..])
  }

  function ChildNames(cs: seq<Node>): seq<Bytes> {
    if cs == [] then [] else [cs[0].name] + ChildNames(cs[1..])
  }

  /** The names of the live ones that are not in the list, each of them once. */
  function NewProps(names: seq<Bytes>, news: seq<Property>): seq<Bytes>
    decreases |news|
  {
    if news == [] then []
    else if news[0].deleted || news[0].name in names then NewProps(names, news[1..])
    else [news[0].name] + NewProps(names + [news[0].name], news[1..])
  }

  function NewChildren(names: seq<Bytes>, news: seq<Node>): seq<Bytes>
    decreases |news|
  {
    if news == [] then []
    else if news[0].deleted || news[0].name in names then NewChildren(names, news[1..])
    else [news[0].name] + NewChildren(names + [news[0].name], news[1..])
  }

  lemma {:induction false} PropNameAt(ps: seq<Property>)
    ensures |PropNames(ps)| == |ps| && forall i :: 0 <= i < |ps| ==> PropNames(ps)[i] == ps[i].name
  {
    if ps != [] {
      PropNameAt(ps[1..]);
      forall i | 0 <= i < |ps| ensures PropNames(ps)[i] == ps[i].name {
        if i > 0 { assert PropNames(ps)[i] == PropNames(ps[1..])[i - 1]; }
      }
    }
  }

  lemma {:induction false} ChildNameAt(cs: seq<Node>)
    ensures |ChildNames(cs)| == |cs| && forall i :: 0 <= i < |cs| ==> ChildNames(cs)[i] == cs[i].name
  {
    if cs != [] {
      ChildNameAt(cs[1..]);
      forall i | 0 <= i < |cs| ensures ChildNames(cs)[i] == cs[i].name {
        if i > 0 { assert ChildNames(cs)[i] == ChildNames(cs[1..])[i - 1]; }
      }
    }
  }

  lemma {:induction false} PropFound(ps: seq<Property>, name: Bytes)
    ensures FindProp(ps, name) < |ps| <==> name in PropNames(ps)
  {
    PropNameAt(ps);
    if FindProp(ps, name) < |ps| { assert PropNames(ps)[FindProp(ps, name)] == name; }
  }

  lemma {:induction false} ChildFound(cs: seq<Node>, name: Bytes)
    ensures FindChild(cs, name) < |cs| <==> name in ChildNames(cs)
  {
    ChildNameAt(cs);
    if FindChild(cs, name) < |cs| { assert ChildNames(cs)[FindChild(cs, name)] == name; }
  }

  lemma {:induction false} OnePropOrder(ps: seq<Property>, p: Property)
    ensures PropNames(MergeProp(ps, p))
         == if p.deleted || p.name in PropNames(ps) then PropNames(ps) else PropNames(ps) + [p.name]
  {
    PropFound(ps, p.name);
    PropNameAt(ps);
    PropNameAt(MergeProp(ps, p));
  }

  lemma {:induction false} OneChildOrder(cs: seq<Node>, c: Node)
    ensures ChildNames(MergeChild(cs, c))
         == if c.deleted || c.name in ChildNames(cs) then ChildNames(cs) else ChildNames(cs) + [c.name]
  {
    var i, merged := FindChild(cs, c.name), MergeChild(cs, c);
    ChildFound(cs, c.name);
    ChildNameAt(cs);
    ChildNameAt(merged);
    if i < |cs| {
      assert Merge(cs[i], c).name == cs[i].name && Bury(cs[i]).name == cs[i].name;
      assert |merged| == |cs| && forall k :: 0 <= k < |cs| ==> merged[k].name == cs[k].name;
    }
  }

  lemma Behind(a: seq<Bytes>, x: Bytes, b: seq<Bytes>)
    ensures a + [] == a && (a + [x]) + b == a + ([x] + b)
  {}

  /** The properties keep their places, and new ones follow. */
  lemma {:induction false} PropOrder(ps: seq<Property>, news: seq<Property>)
    ensures PropNames(MergeProps(ps, news)) == PropNames(ps) + NewProps(PropNames(ps), news)
    decreases |news|
  {
    if news == [] {
      Behind(PropNames(ps), [], []);
    } else {
      OnePropOrder(ps, news[0]);
      Behind(PropNames(ps), news[0].name, NewProps(PropNames(ps) + [news[0].name], news[1..]));
      PropOrder(MergeProp(ps, news[0]), news[1..]);
    }
  }

  /** And so do the children. */
  lemma {:induction false} ChildOrder(cs: seq<Node>, news: seq<Node>)
    ensures ChildNames(MergeChildren(cs, news)) == ChildNames(cs) + NewChildren(ChildNames(cs), news)
    decreases |news|
  {
    if news == [] {
      Behind(ChildNames(cs), [], []);
    } else {
      OneChildOrder(cs, news[0]);
      Behind(ChildNames(cs), news[0].name, NewChildren(ChildNames(cs) + [news[0].name], news[1..]));
      ChildOrder(MergeChild(cs, news[0]), news[1..]);
    }
  }

  /** So at every node that is merged. */
  lemma {:induction false} MergedOrder(base: Node, over: Node)
    ensures var m, names, ids := Merge(base, over), PropNames(base.props), ChildNames(base.children);
            && m.name == base.name && !m.deleted
            && PropNames(m.props) == names + NewProps(names, over.props)
            && ChildNames(m.children) == ids + NewChildren(ids, over.children)
  {
    PropOrder(base.props, over.props);
    ChildOrder(base.children, over.children);
  }

  /** A child that the overlay does not name is taken over as it is. */
  lemma {:induction false} OtherChildSame(cs: seq<Node>, news: seq<Node>, i: nat)
    requires i < |cs| && forall k :: 0 <= k < |news| ==> news[k].name != cs[i].name
    ensures i < |MergeChildren(cs, news)| && MergeChildren(cs, news)[i] == cs[i]
    decreases |news|
  {
    if news != [] {
      assert MergeChild(cs, news[0])[i] == cs[i];
      OtherChildSame(MergeChild(cs, news[0]), news[1..], i);
    }
  }
}
