/** Overlaying one device tree on another.

    What is deleted stays in its list as a tombstone, so that it can come back.
    `MergeOverrides` says what a merged tree contains, path by path: the overlay
    where it says something, and the old tree where it does not.
  */
module LivetreeMerge {
  import opened Wrappers
  import opened ByteStrings
  import opened DtbFormat

  /** The first property of that name, deleted or not, or the end of the list. */
  function FindProp(ps: seq<Property>, name: Bytes): (i: nat)
    ensures i <= |ps| && (i < |ps| ==> ps[i].name == name)
    ensures forall k :: 0 <= k < i ==> ps[k].name != name
  {
    if ps == [] || ps[0].name == name then 0 else 1 + FindProp(ps[1..], name)
  }

  function FindChild(cs: seq<Node>, name: Bytes): (i: nat)
    ensures i <= |cs| && (i < |cs| ==> cs[i].name == name)
    ensures forall k :: 0 <= k < i ==> cs[k].name != name
  {
    if cs == [] || cs[0].name == name then 0 else 1 + FindChild(cs[1..], name)
  }

  // ------------------------------------------------------------------ deleting

  function BuryProps(ps: seq<Property>): (r: seq<Property>)
    ensures |r| == |ps| && forall i :: 0 <= i < |r| ==> r[i] == ps[i].(deleted := true)
  {
    if ps == [] then [] else [ps[0].(deleted := true)] + BuryProps(ps[1..])
  }

  /** `delete_node`: the node, its properties and its live children. */
  function Bury(n: Node): Node {
    Node(n.name, BuryProps(n.props), BuryAll(n.children), true)
  }

  function BuryAll(cs: seq<Node>): (r: seq<Node>)
    ensures |r| == |cs| && forall i :: 0 <= i < |r| ==> r[i] == if cs[i].deleted then cs[i] else Bury(cs[i])
  {
    if cs == [] then [] else [if cs[0].deleted then cs[0] else Bury(cs[0])] + BuryAll(cs[1..])
  }

  /** Within a tombstone everything is deleted. */
  predicate Buried(n: Node) {
    && (n.deleted ==> (forall i :: 0 <= i < |n.props| ==> n.props[i].deleted)
                      && forall i :: 0 <= i < |n.children| ==> n.children[i].deleted)
    && forall i :: 0 <= i < |n.children| ==> Buried(n.children[i])
  }

  lemma {:induction false} BuryBuries(n: Node)
    requires Buried(n)
    ensures Buried(Bury(n))
  {
    forall i | 0 <= i < |n.children| ensures Buried(BuryAll(n.children)[i]) {
      if !n.children[i].deleted { BuryBuries(n.children[i]); }
    }
  }

  // ------------------------------------------------------------------- merging

  function MergeProp(ps: seq<Property>, p: Property): seq<Property> {
    var i := FindProp(ps, p.name);
    if p.deleted then if i < |ps| then ps[i := ps[i].(deleted := true)] else ps
    else if i < |ps| then ps[i := ps[i].(val := p.val, deleted := false)]
    else ps + [p]
  }

  function MergeProps(ps: seq<Property>, news: seq<Property>): seq<Property>
    decreases |news|
  {
    if news == [] then ps else MergeProps(MergeProp(ps, news[0]), news[1..])
  }

  function MergeChild(cs: seq<Node>, c: Node): seq<Node>
    decreases c, 1
  {
    var i := FindChild(cs, c.name);
    if c.deleted then if i < |cs| then cs[i := Bury(cs[i])] else cs
    else if i < |cs| then cs[i := Merge(cs[i], c)]
    else cs + [c]
  }

  function MergeChildren(cs: seq<Node>, news: seq<Node>): seq<Node>
    decreases news, 0
  {
    if news == [] then cs else MergeChildren(MergeChild(cs, news[0]), news[1..])
  }

  /** `merge_nodes` */
  function Merge(base: Node, over: Node): Node
    decreases over, 0
  {
    Node(base.name, MergeProps(base.props, over.props), MergeChildren(base.children, over.children), false)
  }

  // -------------------------------------------------------------------- looking

  function PropOf(ps: seq<Property>, name: Bytes): Option<Bytes> {
    var i := FindProp(ps, name);
    if i < |ps| && !ps[i].deleted then Some(ps[i].val) else None
  }

  function ChildOf(cs: seq<Node>, name: Bytes): (c: Option<Node>)
    ensures c.Some? ==> c.value in cs
  {
    var i := FindChild(cs, name);
    if i < |cs| && !cs[i].deleted then Some(cs[i]) else None
  }

  /** The value of a property, if the path leads over live nodes to it. */
  function Lookup(n: Node, path: seq<Bytes>, prop: Bytes): Option<Bytes>
    decreases |path|
  {
    if path == [] then PropOf(n.props, prop)
    else
      var c := ChildOf(n.children, path[0]);
      if c.None? then None else Lookup(c.value, path[1..], prop)
  }

  /** Whether a path leads over live nodes. */
  predicate Leads(n: Node, path: seq<Bytes>)
    decreases |path|
  {
    path == [] || var c := ChildOf(n.children, path[0]); c.Some? && Leads(c.value, path[1..])
  }

  /** What an overlay says about a property: nothing, that it is gone, or a value. */
  datatype Says = Silent | Removed | Set(val: Bytes)

  function SaysHere(ps: seq<Property>, name: Bytes): Says {
    var i := FindProp(ps, name);
    if i == |ps| then Silent else if ps[i].deleted then Removed else Set(ps[i].val)
  }

  function SaysAbout(n: Node, path: seq<Bytes>, prop: Bytes): Says
    decreases |path|
  {
    if path == [] then SaysHere(n.props, prop)
    else
      var i := FindChild(n.children, path[0]);
      if i == |n.children| then Silent
      else if n.children[i].deleted then Removed
      else SaysAbout(n.children[i], path[1..], prop)
  }

  function Override(before: Option<Bytes>, says: Says): Option<Bytes> {
    match says
    case Silent => before
    case Removed => None
    case Set(val) => Some(val)
  }

  // ------------------------------------------------------------------- uniqueness

  predicate UniqueProps(ps: seq<Property>) {
    forall i, j :: 0 <= i < j < |ps| ==> ps[i].name != ps[j].name
  }

  predicate UniqueNames(cs: seq<Node>) {
    forall i, j :: 0 <= i < j < |cs| ==> cs[i].name != cs[j].name
  }

  /** No two properties and no two children of a node have the same name. */
  predicate Unique(n: Node) {
    UniqueProps(n.props) && UniqueNames(n.children) && forall i :: 0 <= i < |n.children| ==> Unique(n.children[i])
  }

  // ---------------------------------------------------------------------- proofs

  lemma {:induction false} FindPropIs(ps: seq<Property>, name: Bytes, i: nat)
    requires i <= |ps| && (i < |ps| ==> ps[i].name == name)
    requires forall k :: 0 <= k < i ==> ps[k].name != name
    ensures FindProp(ps, name) == i
  {}

  lemma {:induction false} FindChildIs(cs: seq<Node>, name: Bytes, i: nat)
    requires i <= |cs| && (i < |cs| ==> cs[i].name == name)
    requires forall k :: 0 <= k < i ==> cs[k].name != name
    ensures FindChild(cs, name) == i
  {}

  lemma {:induction false} MergePropSays(ps: seq<Property>, p: Property, name: Bytes)
    ensures PropOf(MergeProp(ps, p), name)
            == if p.name == name then if p.deleted then None else Some(p.val) else PropOf(ps, name)
  {
    var i, k := FindProp(ps, p.name), FindProp(ps, name);
    if i == |ps| && !p.deleted && k == |ps| && p.name != name {
      FindPropIs(ps + [p], name, |ps| + 1);
    } else {
      FindPropIs(MergeProp(ps, p), name, k);
    }
  }

  lemma {:induction false} MergePropsSay(ps: seq<Property>, news: seq<Property>, name: Bytes)
    requires UniqueProps(news)
    ensures PropOf(MergeProps(ps, news), name) == Override(PropOf(ps, name), SaysHere(news, name))
    decreases |news|
  {
    if news != [] {
      MergePropSays(ps, news[0], name);
      MergePropsSay(MergeProp(ps, news[0]), news[1..], name);
      if news[0].name == name {
        forall k | 0 <= k < |news| - 1 ensures news[1..][k].name != name {
          assert news[0].name != news[k + 1].name;
        }
        FindPropIs(news[1..], name, |news| - 1);
      }
    }
  }

  /** The child of that name after a merge. */
  function MergedChild(cs: seq<Node>, c: Node): Option<Node> {
    var i := FindChild(cs, c.name);
    if c.deleted then None else if i < |cs| then Some(Merge(cs[i], c)) else Some(c)
  }

  lemma {:induction false} MergeChildHas(cs: seq<Node>, c: Node, name: Bytes)
    ensures ChildOf(MergeChild(cs, c), name) == if c.name == name then MergedChild(cs, c) else ChildOf(cs, name)
    ensures c.name != name ==> var i, k := FindChild(cs, name), FindChild(MergeChild(cs, c), name);
              i < |cs| <==> k < |MergeChild(cs, c)| && (i < |cs| ==> k == i && MergeChild(cs, c)[k] == cs[i])
  {
    var i, k := FindChild(cs, c.name), FindChild(cs, name);
    if i == |cs| && !c.deleted && k == |cs| && c.name != name {
      FindChildIs(cs + [c], name, |cs| + 1);
    } else {
      assert i < |cs| ==> Merge(cs[i], c).name == cs[i].name && Bury(cs[i]).name == cs[i].name;
      FindChildIs(MergeChild(cs, c), name, k);
    }
  }

  lemma {:induction false} MergeChildrenHave(cs: seq<Node>, news: seq<Node>, name: Bytes)
    requires UniqueNames(news)
    ensures var k := FindChild(news, name);
            ChildOf(MergeChildren(cs, news), name) == if k < |news| then MergedChild(cs, news[k]) else ChildOf(cs, name)
    decreases |news|
  {
    if news != [] {
      var c := news[0];
      MergeChildHas(cs, c, name);
      MergeChildrenHave(MergeChild(cs, c), news[1..], name);
      if c.name == name { FindChildIs(news[1..], name, |news| - 1); }
    }
  }

  /** What stands in a tombstone cannot be found. */
  lemma {:induction false} NothingInTombstone(n: Node, path: seq<Bytes>, prop: Bytes)
    requires n.deleted && Buried(n)
    ensures Lookup(n, path, prop) == None && (path != [] ==> !Leads(n, path))
  {}

  /** A subtree that is taken over as it is. */
  lemma {:induction false} FreshSays(n: Node, path: seq<Bytes>, prop: Bytes)
    ensures Lookup(n, path, prop) == Override(None, SaysAbout(n, path, prop))
    decreases |path|
  {
    if path != [] {
      var i := FindChild(n.children, path[0]);
      if i < |n.children| && !n.children[i].deleted { FreshSays(n.children[i], path[1..], prop); }
    }
  }

  /** The merged tree has what the overlay says, at every path, and where it is
      silent what was there before. Nothing comes back with a node that comes back. */
  lemma {:induction false} MergeOverrides(base: Node, over: Node, path: seq<Bytes>, prop: Bytes)
    requires Buried(base) && Unique(over)
    ensures Lookup(Merge(base, over), path, prop) == Override(Lookup(base, path, prop), SaysAbout(over, path, prop))
    decreases |path|
  {
    if path == [] {
      MergePropsSay(base.props, over.props, prop);
    } else {
      var k := FindChild(over.children, path[0]);
      MergeChildrenHave(base.children, over.children, path[0]);
      if k < |over.children| && !over.children[k].deleted {
        var c, i := over.children[k], FindChild(base.children, path[0]);
        if i < |base.children| {
          MergeOverrides(base.children[i], c, path[1..], prop);
          if base.children[i].deleted { NothingInTombstone(base.children[i], path[1..], prop); }
        } else {
          FreshSays(c, path[1..], prop);
        }
      }
    }
  }

  /** Whether an overlay says that a node is there, or that it is not. */
  function SaysNode(n: Node, path: seq<Bytes>): Option<bool>
    decreases |path|
  {
    if path == [] then Some(true)
    else
      var i := FindChild(n.children, path[0]);
      if i == |n.children| then None
      else if n.children[i].deleted then Some(false)
      else SaysNode(n.children[i], path[1..])
  }

  lemma {:induction false} FreshLeads(n: Node, path: seq<Bytes>)
    ensures Leads(n, path) <==> SaysNode(n, path) == Some(true)
    decreases |path|
  {
    if path != [] {
      var i := FindChild(n.children, path[0]);
      if i < |n.children| && !n.children[i].deleted { FreshLeads(n.children[i], path[1..]); }
    }
  }

  /** The nodes of the merged tree are those of the overlay, and those of the old tree
      about which the overlay says nothing. */
  lemma {:induction false} MergeLeads(base: Node, over: Node, path: seq<Bytes>)
    requires Buried(base) && Unique(over)
    ensures Leads(Merge(base, over), path)
       <==> if SaysNode(over, path).Some? then SaysNode(over, path).value else Leads(base, path)
    decreases |path|
  {
    if path != [] {
      var k := FindChild(over.children, path[0]);
      MergeChildrenHave(base.children, over.children, path[0]);
      if k < |over.children| && !over.children[k].deleted {
        var c, i := over.children[k], FindChild(base.children, path[0]);
        if i < |base.children| {
          MergeLeads(base.children[i], c, path[1..]);
          if base.children[i].deleted && path[1..] != [] { NothingInTombstone(base.children[i], path[1..], []); }
        } else {
          FreshLeads(c, path[1..]);
        }
      }
    }
  }

  // ------------------------------------------------------- what every merge keeps

  predicate AllBuried(cs: seq<Node>) {
    forall i :: 0 <= i < |cs| ==> Buried(cs[i])
  }

  lemma {:induction false} MergeKeepsBuried(base: Node, over: Node)
    requires Buried(base) && Buried(over)
    ensures Buried(Merge(base, over))
    decreases over, 0
  {
    MergeChildrenKeepBuried(base.children, over.children);
  }

  lemma {:induction false} MergeChildrenKeepBuried(cs: seq<Node>, news: seq<Node>)
    requires AllBuried(cs) && AllBuried(news)
    ensures AllBuried(MergeChildren(cs, news))
    decreases news, 0
  {
    if news != [] {
      var c, i := news[0], FindChild(cs, news[0].name);
      if i < |cs| {
        if c.deleted { BuryBuries(cs[i]); } else { MergeKeepsBuried(cs[i], c); }
      }
      assert AllBuried(MergeChild(cs, c));
      MergeChildrenKeepBuried(MergeChild(cs, c), news[1..]);
    }
  }

  lemma {:induction false} BuryUnique(n: Node)
    requires Unique(n)
    ensures Unique(Bury(n))
  {
    forall i | 0 <= i < |n.children|
      ensures Unique(BuryAll(n.children)[i]) && BuryAll(n.children)[i].name == n.children[i].name
    {
      if !n.children[i].deleted { BuryUnique(n.children[i]); }
    }
  }

  lemma {:induction false} MergePropsUnique(ps: seq<Property>, news: seq<Property>)
    requires UniqueProps(ps)
    ensures UniqueProps(MergeProps(ps, news))
    decreases |news|
  {
    if news != [] {
      assert UniqueProps(MergeProp(ps, news[0]));
      MergePropsUnique(MergeProp(ps, news[0]), news[1..]);
    }
  }

  predicate AllUnique(cs: seq<Node>) {
    UniqueNames(cs) && forall i :: 0 <= i < |cs| ==> Unique(cs[i])
  }

  lemma {:induction false} MergeKeepsUnique(base: Node, over: Node)
    requires Unique(base) && Unique(over)
    ensures Unique(Merge(base, over))
    decreases over, 0
  {
    MergePropsUnique(base.props, over.props);
    MergeChildrenUnique(base.children, over.children);
  }

  lemma {:induction false} MergeChildrenUnique(cs: seq<Node>, news: seq<Node>)
    requires AllUnique(cs) && forall i :: 0 <= i < |news| ==> Unique(news[i])
    ensures AllUnique(MergeChildren(cs, news))
    decreases news, 0
  {
    if news != [] {
      var c, i := news[0], FindChild(cs, news[0].name);
      if i < |cs| {
        if c.deleted { BuryUnique(cs[i]); } else { MergeKeepsUnique(cs[i], c); }
      }
      assert AllUnique(MergeChild(cs, c));
      MergeChildrenUnique(MergeChild(cs, c), news[1..]);
    }
  }

  // --------------------------------------------------------------------- the loops

  method DeletePropertyByName(ps: seq<Property>, name: Bytes) returns (r: seq<Property>)
    ensures var i := FindProp(ps, name); r == if i < |ps| then ps[i := ps[i].(deleted := true)] else ps
  {
    r := ps;
    var i := 0;
    while i < |ps|
      invariant i <= |ps| && r == ps
      invariant forall k :: 0 <= k < i ==> ps[k].name != name
    {
      if ps[i].name == name {
        FindPropIs(ps, name, i);
        return ps[i := ps[i].(deleted := true)];
      }
      i := i + 1;
    }
    FindPropIs(ps, name, i);
  }

  method DeleteNode(n: Node) returns (r: Node)
    ensures r == Bury(n)
    decreases n
  {
    var children, props := n.children, n.props;
    var i := 0;
    while i < |children|
      invariant i <= |children| == |n.children|
      invariant forall k :: 0 <= k < i ==> children[k] == BuryAll(n.children)[k]
      invariant forall k :: i <= k < |children| ==> children[k] == n.children[k]
    {
      if !children[i].deleted {
        var c := DeleteNode(n.children[i]);
        children := children[i := c];
      }
      i := i + 1;
    }
    i := 0;
    while i < |props|
      invariant i <= |props| == |n.props|
      invariant forall k :: 0 <= k < i ==> props[k] == n.props[k].(deleted := true)
      invariant forall k :: i <= k < |props| ==> props[k] == n.props[k]
    {
      if !props[i].deleted {
        props := props[i := props[i].(deleted := true)];
      }
      i := i + 1;
    }
    assert children == BuryAll(n.children) && props == BuryProps(n.props);
    r := Node(n.name, props, children, true);
  }

  method DeleteNodeByName(cs: seq<Node>, name: Bytes) returns (r: seq<Node>)
    ensures var i := FindChild(cs, name); r == if i < |cs| then cs[i := Bury(cs[i])] else cs
  {
    r := cs;
    var i := 0;
    while i < |cs|
      invariant i <= |cs| && r == cs
      invariant forall k :: 0 <= k < i ==> cs[k].name != name
    {
      if cs[i].name == name {
        FindChildIs(cs, name, i);
        var c := DeleteNode(cs[i]);
        return cs[i := c];
      }
      i := i + 1;
    }
    FindChildIs(cs, name, i);
  }

  /** One property of the overlay. */
  method MoveProperty(ps: seq<Property>, p: Property) returns (r: seq<Property>)
    ensures r == MergeProp(ps, p)
  {
    if p.deleted {
      r := DeletePropertyByName(ps, p.name);
      return;
    }
    var i := 0;
    while i < |ps| && ps[i].name != p.name
      invariant i <= |ps| && forall k :: 0 <= k < i ==> ps[k].name != p.name
    {
      i := i + 1;
    }
    FindPropIs(ps, p.name, i);
    r := if i < |ps| then ps[i := ps[i].(val := p.val, deleted := false)] else ps + [p];
  }

  /** One child of the overlay. */
  method MoveChild(cs: seq<Node>, c: Node) returns (r: seq<Node>)
    ensures r == MergeChild(cs, c)
    decreases c, 1
  {
    if c.deleted {
      r := DeleteNodeByName(cs, c.name);
      return;
    }
    var i := 0;
    while i < |cs| && cs[i].name != c.name
      invariant i <= |cs| && forall k :: 0 <= k < i ==> cs[k].name != c.name
    {
      i := i + 1;
    }
    FindChildIs(cs, c.name, i);
    if i < |cs| {
      var merged := MergeNodes(cs[i], c);
      r := cs[i := merged];
    } else {
      r := cs + [c];
    }
  }

  /** Takes the overlay apart, one property and one child after the other. */
  method MergeNodes(base: Node, over: Node) returns (merged: Node)
    ensures merged == Merge(base, over)
    decreases over, 0
  {
    var props, proplist := base.props, over.props;
    while proplist != []
      invariant MergeProps(props, proplist) == MergeProps(base.props, over.props)
      decreases |proplist|
    {
      var p := proplist[0];
      proplist := proplist[1..];
      props := MoveProperty(props, p);
    }
    var children, i := base.children, 0;
    while i < |over.children|
      invariant i <= |over.children|
      invariant MergeChildren(children, over.children[i..]) == MergeChildren(base.children, over.children)
    {
      assert over.children[i..][1..] == over.children[i + 1..];
      children := MoveChild(children, over.children[i]);
      i := i + 1;
    }
    merged := Node(base.name, props, children, false);
  }
}
