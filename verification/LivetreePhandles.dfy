/** Phandles: numbers by which nodes of a device tree refer to each other.

    Explicit phandles are checked against the tree, and the missing ones are counted
    up until one is free. `Apart` holds after every run of calls: no two live nodes
    have the same phandle.
  */
module LivetreePhandles {
  import opened Wrappers
  import opened Identities

  /** The shape of a tree, with the identity of each node. */
  datatype Tree = Tree(id: Id, deleted: bool, children: seq<Tree>)

  /** `(cell_t)-1` */
  const NONE := 0xffff_ffff

  /** A phandle that has been given to a node. */
  predicate Assigned(p: nat) { p != 0 && p != NONE }

  // ----------------------------------------------------------------- searching

  /** The live nodes in the order of the search. */
  function Live(t: Tree): seq<Id> {
    (if t.deleted then [] else [t.id]) + LiveAll(t.children)
  }

  function LiveAll(ts: seq<Tree>): seq<Id> {
    if ts == [] then [] else (if ts[0].deleted then [] else Live(ts[0])) + LiveAll(ts[1..])
  }

  predicate Known(ids: seq<Id>, n: nat) {
    forall i :: 0 <= i < |ids| ==> ids[i] < n
  }

  /** The first of these nodes with that phandle. */
  function First(ids: seq<Id>, ph: seq<nat>, p: nat): (r: Option<Id>)
    requires Known(ids, |ph|)
    ensures r.Some? ==> r.value in ids && r.value < |ph| && ph[r.value] == p
    ensures r.None? ==> forall x :: x in ids ==> x < |ph| && ph[x] != p
  {
    if ids == [] then None else if ph[ids[0]] == p then Some(ids[0]) else First(ids[1..], ph, p)
  }

  lemma {:induction false} FirstConcat(a: seq<Id>, b: seq<Id>, ph: seq<nat>, p: nat)
    requires Known(a, |ph|) && Known(b, |ph|)
    ensures Known(a + b, |ph|)
    ensures First(a + b, ph, p) == if First(a, ph, p).Some? then First(a, ph, p) else First(b, ph, p)
  {
    if a == [] {
      assert a + b == b;
    } else {
      assert (a + b)[1..] == a[1..] + b;
      FirstConcat(a[1..], b, ph, p);
    }
  }

  predicate AllKnown(t: Tree, n: nat) {
    t.id < n && forall i :: 0 <= i < |t.children| ==> AllKnown(t.children[i], n)
  }

  lemma {:induction false} LiveKnown(t: Tree, n: nat)
    requires AllKnown(t, n)
    ensures Known(Live(t), n)
  {
    LiveAllKnown(t.children, n);
  }

  lemma {:induction false} LiveAllKnown(ts: seq<Tree>, n: nat)
    requires forall i :: 0 <= i < |ts| ==> AllKnown(ts[i], n)
    ensures Known(LiveAll(ts), n)
  {
    if ts != [] {
      LiveKnown(ts[0], n);
      LiveAllKnown(ts[1..], n);
    }
  }

  /** One turn of the loop over the children. */
  lemma {:induction false} FirstStep(ts: seq<Tree>, ph: seq<nat>, p: nat)
    requires ts != [] && forall i :: 0 <= i < |ts| ==> AllKnown(ts[i], |ph|)
    ensures Known(Live(ts[0]), |ph|) && Known(LiveAll(ts), |ph|) && Known(LiveAll(ts[1..]), |ph|)
    ensures First(LiveAll(ts), ph, p)
         == if ts[0].deleted || First(Live(ts[0]), ph, p).None? then First(LiveAll(ts[1..]), ph, p)
            else First(Live(ts[0]), ph, p)
  {
    LiveKnown(ts[0], |ph|);
    LiveAllKnown(ts, |ph|);
    LiveAllKnown(ts[1..], |ph|);
    if ts[0].deleted {
      assert LiveAll(ts) == LiveAll(ts[1..]);
    } else {
      FirstConcat(Live(ts[0]), LiveAll(ts[1..]), ph, p);
    }
  }

  /** `get_node_by_phandle`: the recursive search finds the first live node with that
      phandle. */
  method GetNodeByPhandle(t: Tree, ph: seq<nat>, p: nat) returns (r: Option<Id>)
    requires AllKnown(t, |ph|) && !t.deleted && Known(Live(t), |ph|)
    ensures r == First(Live(t), ph, p)
    decreases t
  {
    if ph[t.id] == p {
      return Some(t.id);
    }
    LiveAllKnown(t.children, |ph|);
    FirstConcat([t.id], LiveAll(t.children), ph, p);
    var i := 0;
    ghost var goal := First(LiveAll(t.children), ph, p);
    while i < |t.children|
      invariant i <= |t.children| && Known(LiveAll(t.children[i..]), |ph|)
      invariant goal == First(LiveAll(t.children[i..]), ph, p)
    {
      var c := t.children[i];
      assert t.children[i..][0] == c && t.children[i..][1..] == t.children[i + 1..];
      FirstStep(t.children[i..], ph, p);
      if !c.deleted {
        r := GetNodeByPhandle(c, ph, p);
        if r.Some? {
          return;
        }
      }
      i := i + 1;
    }
    r := None;
  }

  // ---------------------------------------------------------------- uniqueness

  predicate ApartAt(ph: seq<nat>, x: Id, y: Id) {
    x < |ph| && y < |ph| && x != y && Assigned(ph[x]) ==> ph[x] != ph[y]
  }

  /** No two live nodes have the same phandle. */
  predicate Apart(ph: seq<nat>, ids: seq<Id>) {
    forall x, y :: x in ids && y in ids ==> ApartAt(ph, x, y)
  }

  lemma {:induction false} AssignKeepsApart(ph: seq<nat>, ids: seq<Id>, x: Id, p: nat)
    requires Known(ids, |ph|) && Apart(ph, ids) && x < |ph|
    requires First(ids, ph, p).None? || First(ids, ph, p).value == x
    ensures Apart(ph[x := p], ids)
  {
    forall y, z | y in ids && z in ids ensures ApartAt(ph[x := p], y, z) {
      assert ApartAt(ph, y, z) && ApartAt(ph, z, y);
      if First(ids, ph, p).Some? { assert ApartAt(ph, x, y) && ApartAt(ph, x, z); }
    }
  }

  /** A number that is taken stays so when a node without a number gets one. */
  lemma {:induction false} TakenStays(ids: seq<Id>, ph: seq<nat>, x: Id, p: nat, q: nat)
    requires Known(ids, |ph|) && x < |ph| && First(ids, ph, q).Some? && ph[x] != q
    ensures First(ids, ph[x := p], q).Some?
  {
    var y := First(ids, ph, q).value;
    assert ph[x := p][y] == q;
  }

  /** A reference from a cell of some property to a node, if its target exists. */
  datatype Ref = Ref(cell: nat, target: Option<Id>)

  class Phandles {
    const tree: Tree
    var ph: seq<nat>
    /** The static counter of `get_node_phandle`. */
    var counter: nat

    constructor (tree: Tree, n: nat)
      requires AllKnown(tree, n) && !tree.deleted
      ensures Valid() && this.tree == tree && |ph| == n && forall x :: 0 <= x < n ==> ph[x] == 0
    {
      this.tree := tree;
      ph := seq(n, _ => 0);
      counter := 1;
      LiveKnown(tree, n);
    }

    ghost predicate Valid()
      reads this
    {
      && AllKnown(tree, |ph|) && !tree.deleted && Known(Live(tree), |ph|)
      && Apart(ph, Live(tree)) && 1 <= counter <= NONE
    }

    /** `check_explicit_phandles`, for a property whose value is a cell. */
    method CheckExplicit(node: Id, phandle: nat) returns (ok: bool)
      requires Valid() && node in Live(tree) && node < |ph|
      modifies this`ph
      ensures Valid() && |ph| == |old(ph)|
      ensures ok <==> Assigned(phandle) && (old(ph)[node] == 0 || old(ph)[node] == phandle)
                      && forall x :: x in Live(tree) && x != node ==> x < |ph| && old(ph)[x] != phandle
      ensures ok ==> ph[node] == phandle
      ensures forall x :: 0 <= x < |ph| && x != node ==> ph[x] == old(ph)[x]
      ensures ph[node] == old(ph)[node] || ph[node] == phandle
    {
      ok := true;
      if phandle == 0 || phandle == NONE {
        return false;
      }
      if ph[node] != 0 && ph[node] != phandle {
        ok := false;
      }
      var other := GetNodeByPhandle(tree, ph, phandle);
      if other.Some? && other.value != node {
        return false;
      }
      if other.Some? {
        forall x | x in Live(tree) && x != node ensures ph[x] != phandle {
          assert ApartAt(ph, node, x);
        }
      }
      AssignKeepsApart(ph, Live(tree), node, phandle);
      ph := ph[node := phandle];
    }

    /** `get_node_phandle`: the phandle the node has, or the next free one. There is
        none only if every number from the counter on is taken. */
    method GetNodePhandle(node: Id) returns (r: Option<nat>)
      requires Valid() && node in Live(tree) && node < |ph|
      modifies this
      ensures Valid() && |ph| == |old(ph)| && counter >= old(counter)
      ensures r.Some? ==> Assigned(r.value) && ph == old(ph)[node := r.value]
      ensures r.Some? && Assigned(old(ph)[node]) ==> r.value == old(ph)[node]
      ensures r.Some? && !Assigned(old(ph)[node]) ==>
                && r.value >= old(counter) && (forall x :: x in Live(tree) ==> x < |ph| && old(ph)[x] != r.value)
                && counter == r.value && forall p :: old(counter) <= p < r.value ==> First(Live(tree), old(ph), p).Some?
      ensures r.Some? && Assigned(old(ph)[node]) ==> counter == old(counter)
      ensures r.None? ==>
                && ph == old(ph) && counter == NONE && !Assigned(ph[node])
                && forall p :: old(counter) <= p < NONE ==> First(Live(tree), ph, p).Some?
    {
      if ph[node] != 0 && ph[node] != NONE {
        assert ph == ph[node := ph[node]];
        return Some(ph[node]);
      }
      while counter < NONE
        invariant Valid() && ph == old(ph) && counter >= old(counter)
        invariant forall p :: old(counter) <= p < counter ==> First(Live(tree), ph, p).Some?
        decreases NONE - counter
      {
        var taken := GetNodeByPhandle(tree, ph, counter);
        if taken.None? {
          AssignKeepsApart(ph, Live(tree), node, counter);
          ph := ph[node := counter];
          return Some(counter);
        }
        counter := counter + 1;
      }
      r := None;
    }

    /** All numbers that have been passed are taken, also the one that was given. */
    lemma {:induction false} TakenOnce(before: seq<nat>, x: Id, p: nat, first: nat, from: nat, to: nat)
      requires Valid() && |before| == |ph| && x < |ph| && ph == before[x := p] && x in Live(tree)
      requires 1 <= first <= from <= to <= NONE && Assigned(p)
      requires forall q :: first <= q < from ==> First(Live(tree), before, q).Some?
      requires Assigned(before[x]) ==> p == before[x] && to == from
      requires !Assigned(before[x]) ==> to == p && forall q :: from <= q < to ==> First(Live(tree), before, q).Some?
      ensures forall q :: first <= q < to ==> First(Live(tree), ph, q).Some?
    {
      forall q | first <= q < to ensures First(Live(tree), ph, q).Some? {
        if Assigned(before[x]) {
          assert ph == before;
        } else {
          TakenStays(Live(tree), before, x, p, q);
        }
      }
    }

    /** `fixup_phandle_references` for all references of a tree: afterwards, every cell
        whose target exists has the phandle of its target. */
    method FixupReferences(refs: seq<Ref>, cells: seq<nat>) returns (r: seq<nat>, ok: bool)
      requires Valid()
      requires forall k :: 0 <= k < |refs| ==> refs[k].cell < |cells|
      requires forall k :: 0 <= k < |refs| && refs[k].target.Some? ==>
                 refs[k].target.value in Live(tree) && refs[k].target.value < |ph|
      requires forall k, l :: 0 <= k < l < |refs| ==> refs[k].cell != refs[l].cell
      modifies this
      ensures Valid() && |r| == |cells| && |ph| == |old(ph)|
      ensures ok ==> forall k :: 0 <= k < |refs| && refs[k].target.Some? ==>
                refs[k].target.value < |ph| && r[refs[k].cell] == ph[refs[k].target.value]
                && Assigned(r[refs[k].cell])
      ensures !ok ==>
                && (exists k :: 0 <= k < |refs| && refs[k].target.Some? && refs[k].target.value < |ph|
                                && !Assigned(ph[refs[k].target.value]))
                && forall p :: old(counter) <= p < NONE ==> First(Live(tree), ph, p).Some?
      ensures forall x :: 0 <= x < |ph| && Assigned(old(ph)[x]) ==> ph[x] == old(ph)[x]
      ensures forall c :: 0 <= c < |cells| && (forall k :: 0 <= k < |refs| ==> refs[k].cell != c) ==> r[c] == cells[c]
    {
      r, ok := cells, true;
      var i := 0;
      while i < |refs|
        invariant i <= |refs| && ok && Valid() && |r| == |cells| && |ph| == |old(ph)|
        invariant forall k :: 0 <= k < i && refs[k].target.Some? ==>
                    refs[k].target.value < |ph| && r[refs[k].cell] == ph[refs[k].target.value]
                    && Assigned(r[refs[k].cell])
        invariant forall x :: 0 <= x < |ph| && Assigned(old(ph)[x]) ==> ph[x] == old(ph)[x]
        invariant counter >= old(counter)
        invariant forall p :: old(counter) <= p < counter ==> First(Live(tree), ph, p).Some?
        invariant forall c :: 0 <= c < |cells| && (forall k :: 0 <= k < |refs| ==> refs[k].cell != c) ==>
                    r[c] == cells[c]
      {
        if refs[i].target.Some? {
          ghost var before, from := ph, counter;
          var phandle := GetNodePhandle(refs[i].target.value);
          if phandle.None? {
            ok := false;
            return;
          }
          TakenOnce(before, refs[i].target.value, phandle.value, old(counter), from, counter);
          r := r[refs[i].cell := phandle.value];
        }
        i := i + 1;
      }
    }
  }
}
