/** The queue of bodies to be rendered, linked through the elements themselves.

    Links are not cleared when an element is enqueued, so that the second pass
    finds those of the first one. They do no harm, because both passes enqueue and
    dequeue the same elements at the same times: a link is either empty or says
    what follows in any pass.
  */
module Asn1Queue {
  import opened Wrappers
  import opened Identities
  import opened Asn1Program

  /** `render_list_p`: the address of the list head or of an element's link. */
  datatype Pointer = ListHead | NextOf(e: Id)

  /** All jumps, in order, once `0`, `1`, ... bodies have been rendered. */
  type Plan = seq<seq<Id>>

  predicate Earlier(plan: Plan, i: nat, j: nat)
    requires i <= j < |plan|
  {
    plan[i] <= plan[j]
  }

  predicate Growing(plan: Plan) {
    forall i: nat, j: nat :: i <= j < |plan| ==> Earlier(plan, i, j)
  }

  /** What has been enqueued by then. */
  function Enqueued(plan: Plan, i: nat): (r: seq<Id>)
    requires i < |plan|
    ensures Distinct(r)
  {
    Merge([], plan[i])
  }

  lemma {:induction false} PrefixMerge(a: seq<Id>, b: seq<Id>)
    requires a <= b
    ensures Merge([], a) <= Merge([], b)
  {
    assert b == a + b[|a|..];
    MergeConcat([], a, b[|a|..]);
  }

  lemma {:induction false} EarlierEnqueued(plan: Plan, i: nat, j: nat)
    requires Growing(plan) && i <= j < |plan|
    ensures Enqueued(plan, i) <= Enqueued(plan, j)
  {
    assert Earlier(plan, i, j);
    PrefixMerge(plan[i], plan[j]);
  }

  /** While the bodies before that of `x` are all that has been rendered, `y` is
      enqueued behind `x`. */
  predicate FollowsAt(plan: Plan, i: nat, x: Id, y: Id) {
    i < |plan| && i + 1 < |Enqueued(plan, i)| && Enqueued(plan, i)[i] == x && Enqueued(plan, i)[i + 1] == y
  }

  ghost predicate Follows(plan: Plan, x: Id, y: Id) {
    exists i: nat :: FollowsAt(plan, i, x, y)
  }

  /** Links that may be left behind by an earlier pass. */
  ghost predicate Stale(plan: Plan, next: seq<Option<Id>>) {
    forall x :: 0 <= x < |next| && next[x].Some? ==> Follows(plan, x, next[x].value)
  }

  /** `render_list`, `render_list_p`, and the flags and links of the elements. */
  datatype List = List(head: Option<Id>, tail: Pointer, rendered: seq<bool>, next: seq<Option<Id>>)

  predicate Linked(seen: seq<Id>, next: seq<Option<Id>>, i: nat)
    requires i + 1 < |seen| && seen[i] < |next|
  {
    next[seen[i]] == Some(seen[i + 1])
  }

  /** The list holds what has been seen and not popped, in order; the flags say what
      has been seen. */
  ghost predicate Queue(seen: seq<Id>, popped: nat, l: List) {
    && |l.rendered| == |l.next| && Distinct(seen) && popped <= |seen| && Known(seen, |l.next|)
    && (forall x :: 0 <= x < |l.rendered| ==> (l.rendered[x] <==> x in seen))
    && l.head == (if popped < |seen| then Some(seen[popped]) else None)
    && l.tail == (if popped < |seen| then NextOf(seen[|seen| - 1]) else ListHead)
    && forall i: nat :: popped <= i < |seen| - 1 ==> Linked(seen, l.next, i)
  }

  /** The jumps so far are those that should be there by now, or the first of them,
      and the list is right for them. */
  ghost predicate Timely(plan: Plan, calls: seq<Id>, popped: nat, l: List) {
    match l
    case List(_, _, _, next) =>
      Queue(Merge([], calls), popped, l) && Stale(plan, next) && popped < |plan| && calls <= plan[popped]
  }

  lemma {:induction false} FollowsTail(plan: Plan, seen: seq<Id>, popped: nat, e: Id)
    requires Growing(plan) && popped < |seen| < |plan| && seen + [e] <= Enqueued(plan, popped)
    ensures Follows(plan, seen[|seen| - 1], e)
  {
    var i := |seen| - 1;
    EarlierEnqueued(plan, popped, i);
    assert (seen + [e])[i] == seen[i] && (seen + [e])[i + 1] == e;
    assert FollowsAt(plan, i, seen[i], e);
  }

  /** The list after `*render_list_p = e; render_list_p = &e->render_next;` */
  function Append(l: List, e: Id): List
    requires e < |l.rendered| && (l.tail.NextOf? ==> l.tail.e < |l.next|)
  {
    List(if l.tail.ListHead? then Some(e) else l.head, NextOf(e), l.rendered[e := true],
         if l.tail.NextOf? then l.next[l.tail.e := Some(e)] else l.next)
  }

  lemma {:induction false} AppendKeepsQueue(seen: seq<Id>, popped: nat, l: List, e: Id)
    requires Queue(seen, popped, l) && e < |l.rendered| && e !in seen
    ensures l.tail.NextOf? ==> l.tail.e < |l.next|
    ensures Queue(seen + [e], popped, Append(l, e))
  {
    var s, next := seen + [e], Append(l, e).next;
    DistinctSnoc(seen, e);
    forall i: nat | popped <= i < |s| - 1 ensures Linked(s, next, i) {
      if i < |seen| - 1 {
        assert Linked(seen, l.next, i);
        assert Differ(seen, i, |seen| - 1);
      }
    }
  }

  /** What is enqueued follows the last element in any pass. */
  lemma {:induction false} AppendTimely(plan: Plan, seen: seq<Id>, popped: nat, l: List, e: Id)
    requires Growing(plan) && Queue(seen, popped, l) && Stale(plan, l.next) && popped < |plan| && |plan| > |l.next|
    requires e < |l.rendered| && e !in seen && seen + [e] <= Enqueued(plan, popped)
    ensures l.tail.NextOf? ==> l.tail.e < |l.next|
    ensures Queue(seen + [e], popped, Append(l, e)) && Stale(plan, Append(l, e).next)
  {
    AppendKeepsQueue(seen, popped, l, e);
    if l.tail.NextOf? {
      assert forall i :: 0 <= i < |seen| ==> seen[i] in AllIds(|l.next|);
      DistinctBound(seen, AllIds(|l.next|));
      FollowsTail(plan, seen, popped, e);
    }
  }

  /** A jump to an element whose flag is set changes nothing. */
  lemma {:induction false} JumpTimely(plan: Plan, calls: seq<Id>, popped: nat, l: List, e: Id)
    requires Growing(plan) && Timely(plan, calls, popped, l) && |plan| > |l.next|
    requires e < |l.rendered| && calls + [e] <= plan[popped]
    ensures l.tail.NextOf? ==> l.tail.e < |l.next|
    ensures Timely(plan, calls + [e], popped, if l.rendered[e] then l else Append(l, e))
  {
    var seen := Merge([], calls);
    MergeConcat([], calls, [e]);
    MergeOne(seen, e);
    if !l.rendered[e] {
      PrefixMerge(calls + [e], plan[popped]);
      AppendTimely(plan, seen, popped, l, e);
    }
  }

  lemma {:induction false} OneIndex(s: seq<Id>, t: seq<Id>, i: nat, j: nat)
    requires Distinct(s) && Distinct(t) && (s <= t || t <= s) && i < |s| && j < |t| && s[i] == t[j]
    ensures i == j
  {
    if s <= t {
      assert t[i] == s[i];
      assert i < j ==> Differ(t, i, j);
      assert j < i ==> Differ(t, j, i);
    } else {
      assert s[j] == t[j];
      assert i < j ==> Differ(s, i, j);
      assert j < i ==> Differ(s, j, i);
    }
  }

  /** The last element of the queue has no link, not even an old one. */
  lemma {:induction false} LastHasNoLink(plan: Plan, popped: nat, next: seq<Option<Id>>)
    requires Growing(plan) && Stale(plan, next) && popped < |plan| && popped + 1 == |Enqueued(plan, popped)|
    ensures var x := Enqueued(plan, popped)[popped]; x < |next| ==> next[x] == None
  {
    var x := Enqueued(plan, popped)[popped];
    if x < |next| && next[x].Some? {
      var i: nat :| FollowsAt(plan, i, x, next[x].value);
      if i <= popped { EarlierEnqueued(plan, i, popped); } else { EarlierEnqueued(plan, popped, i); }
      OneIndex(Enqueued(plan, i), Enqueued(plan, popped), i, popped);
      assert false;
    }
  }

  /** The list after `render_list = e->render_next; if (!render_list) render_list_p = &render_list;` */
  function Pop(l: List): List
    requires l.head.Some? && l.head.value < |l.next|
  {
    var link := l.next[l.head.value];
    l.(head := link, tail := if link.None? then ListHead else l.tail)
  }

  lemma {:induction false} Dequeued(seen: seq<Id>, popped: nat, l: List)
    requires Queue(seen, popped, l) && l.head.Some?
    requires popped + 1 == |seen| ==> l.next[seen[popped]] == None
    ensures l.head.value < |l.next| && Queue(seen, popped + 1, Pop(l))
  {
    if popped < |seen| - 1 { assert Linked(seen, l.next, popped); }
  }

  /** When all jumps are there that should be, the right element is popped, and the
      rest stays a list. */
  lemma {:induction false} PopTimely(plan: Plan, popped: nat, l: List)
    requires popped < |plan| && Growing(plan) && Timely(plan, plan[popped], popped, l)
    ensures l.head.Some? <==> popped < |Enqueued(plan, popped)|
    ensures l.head.Some? ==> l.head.value < |l.next| && l.head.value == Enqueued(plan, popped)[popped]
    ensures l.head.Some? && popped + 1 < |plan| ==> Timely(plan, plan[popped], popped + 1, Pop(l))
  {
    if l.head.Some? {
      if popped + 1 == |Enqueued(plan, popped)| { LastHasNoLink(plan, popped, l.next); }
      Dequeued(Enqueued(plan, popped), popped, l);
      if popped + 1 < |plan| { assert Earlier(plan, popped, popped + 1); }
    }
  }
}
