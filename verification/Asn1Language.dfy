/** What a choice reads, and what an optional reference does.

    A choice reads the first of its alternatives that comes next, and only that, as
    long as every alternative has a tag, for the flags that the parser sets are those
    of the element with the tag.  A reference has none, so its flags do nothing, and
    a choice inside a choice is tried again behind another alternative.
  */
module Asn1Language {
  import opened Wrappers
  import opened Identities
  import opened Asn1Grammar
  import opened Asn1Machine

  /** Take what comes; leave out what is conditional if something was there, and what
      may be left out if it does not come. */
  const FIRST_FIT: Rule := (x: Situation) =>
    if x.cond && x.matched then Leave(true)
    else if !x.atEnd && x.fits then Take
    else if x.orSkip then Leave(false)
    else Refuse

  predicate HasTag(c: Compound) { c.NotCompound? || HasBody(c) }

  /** The element whose tag is looked for, and the one that overrides it. */
  function Carrier(g: Grammar, e: Id): Step
    requires e < |g| && LinksInside(g[e], |g|)
  {
    if g[e].compound.TagOverride? then (g[e].children[0], Some(e)) else (e, None)
  }

  /** An alternative with a tag, and with the flags of an alternative: all but the
      first are conditional. */
  predicate Alternative(g: Grammar, e: Id, first: bool) {
    && e < |g| && LinksInside(g[e], |g|)
    && var (c, t) := Carrier(g, e);
       HasTag(g[c].compound) && Skippable(g, c, t) && (Conditional(g, c, t) <==> !first)
  }

  predicate Alternatives(g: Grammar, ids: seq<Id>) {
    |ids| > 0 && forall i :: 0 <= i < |ids| ==> Alternative(g, ids[i], i == 0)
  }

  predicate ComesNext(g: Grammar, e: Id, s: Input)
    requires e < |g| && LinksInside(g[e], |g|)
  {
    Comes(g, Carrier(g, e).0, Carrier(g, e).1, s)
  }

  predicate NoneComes(g: Grammar, ids: seq<Id>, s: Input)
    requires Alternatives(g, ids)
  {
    forall i :: 0 <= i < |ids| ==> Alternative(g, ids[i], i == 0) && !ComesNext(g, ids[i], s)
  }

  predicate FirstToCome(g: Grammar, ids: seq<Id>, s: Input, j: nat)
    requires Alternatives(g, ids) && j < |ids|
  {
    && Alternative(g, ids[j], j == 0) && ComesNext(g, ids[j], s)
    && forall i :: 0 <= i < j ==> Alternative(g, ids[i], i == 0) && !ComesNext(g, ids[i], s)
  }

  // ------------------------------------------------------------- one alternative

  lemma {:induction false} CarrierRead(g: Grammar, rule: Rule, n: nat, e: Id, s: Input)
    requires WellFormed(g) && e < |g| && LinksInside(g[e], |g|) && HasTag(g[Carrier(g, e).0].compound) && n > 1
    ensures var (c, t) := Carrier(g, e);
            Read(g, rule, n, e, None, s)
            == ReadTagged(g, rule, if g[e].compound.TagOverride? then n - 1 else n, c, t, s)
  {}

  lemma {:induction false} ListMatched(g: Grammar, rule: Rule, n: nat, e: Id, s: Input)
    requires WellFormed(g) && e < |g|
    ensures var r := ReadList(g, rule, n, e, s); r.Done? ==> r.input.matched
    decreases n
  {
    assert LinksInside(g[e], |g|);
    if n > 0 {
      var r := ReadAll(g, rule, n - 1, g[e].children, s);
      if r.Done? { ListMatched(g, rule, n - 1, e, r.input); }
    }
  }

  lemma {:induction false} TaggedMatched(g: Grammar, rule: Rule, n: nat, e: Id, t: Override, s: Input)
    requires WellFormed(g) && e < |g| && Allowed(g, t) && HasTag(g[e].compound) && n > 0
    requires Decide(g, rule, e, t, s).Take?
    ensures var r := ReadTagged(g, rule, n, e, t, s); r.Done? ==> r.input.matched
  {
    assert LinksInside(g[e], |g|);
    ListMatched(g, rule, n - 1, e, Taken(s, Constructed(g, e, t)));
  }

  /** What is not there, or no longer wanted, is left out. */
  lemma {:induction false} LeftOut(g: Grammar, n: nat, e: Id, first: bool, s: Input)
    requires WellFormed(g) && Alternative(g, e, first) && n > 1
    requires !ComesNext(g, e, s) || (!first && s.matched)
    ensures Read(g, FIRST_FIT, n, e, None, s) == Done(s.(matched := !first && s.matched))
  {
    CarrierRead(g, FIRST_FIT, n, e, s);
  }

  /** What comes is read, whatever was there before the choice. */
  lemma {:induction false} ReadsIt(g: Grammar, n: nat, e: Id, first: bool, s: Input)
    requires WellFormed(g) && Alternative(g, e, first) && n > 1 && ComesNext(g, e, s) && (first || !s.matched)
    ensures var r := Read(g, FIRST_FIT, n, e, None, s);
            r == Read(g, FIRST_FIT, n, e, None, s.(matched := false)) && (r.Done? ==> r.input.matched)
  {
    var (c, t) := Carrier(g, e);
    var s0, k := s.(matched := false), if g[e].compound.TagOverride? then n - 1 else n;
    CarrierRead(g, FIRST_FIT, n, e, s);
    CarrierRead(g, FIRST_FIT, n, e, s0);
    TaggedMatched(g, FIRST_FIT, k, c, t, s);
    assert Taken(s, Constructed(g, c, t)) == Taken(s0, Constructed(g, c, t));
  }

  // -------------------------------------------------------------- all alternatives

  lemma {:induction false} Fewer(g: Grammar, ids: seq<Id>)
    requires Alternatives(g, ids) && |ids| > 1
    ensures Alternatives(g, ids[..|ids| - 1])
  {
    var init := ids[..|ids| - 1];
    forall i | 0 <= i < |init| ensures Alternative(g, init[i], i == 0) {
      assert Alternative(g, ids[i], i == 0);
    }
  }

  lemma AlternativesInside(g: Grammar, ids: seq<Id>)
    requires Alternatives(g, ids)
    ensures Inside(g, ids)
  {}

  lemma {:induction false} NoneRead(g: Grammar, n: nat, ids: seq<Id>, s: Input)
    requires WellFormed(g) && Alternatives(g, ids) && n > 1 && NoneComes(g, ids, s) && Inside(g, ids)
    ensures ReadAll(g, FIRST_FIT, n, ids, s) == Done(s.(matched := false))
  {
    var init, last := ids[..|ids| - 1], ids[|ids| - 1];
    if |init| == 0 {
      assert ReadAll(g, FIRST_FIT, n, init, s) == Done(s);
      LeftOut(g, n, last, true, s);
    } else {
      Fewer(g, ids);
      NoneRead(g, n, init, s);
      LeftOut(g, n, last, false, s.(matched := false));
    }
  }

  lemma {:induction false} FirstRead(g: Grammar, n: nat, ids: seq<Id>, s: Input, j: nat)
    requires WellFormed(g) && Alternatives(g, ids) && n > 1 && Inside(g, ids)
    requires j < |ids| && FirstToCome(g, ids, s, j)
    ensures var r := ReadAll(g, FIRST_FIT, n, ids, s);
            r == Read(g, FIRST_FIT, n, ids[j], None, s.(matched := false)) && (r.Done? ==> r.input.matched)
  {
    var init, last := ids[..|ids| - 1], ids[|ids| - 1];
    if j < |init| {
      Fewer(g, ids);
      FirstRead(g, n, init, s, j);
      var r := ReadAll(g, FIRST_FIT, n, init, s);
      if r.Done? {
        LeftOut(g, n, last, false, r.input);
        assert r.input.(matched := true) == r.input;
      }
    } else if |init| == 0 {
      assert ReadAll(g, FIRST_FIT, n, init, s) == Done(s);
      ReadsIt(g, n, last, true, s);
    } else {
      Fewer(g, ids);
      NoneRead(g, n, init, s);
      ReadsIt(g, n, last, false, s.(matched := false));
    }
  }

  /** A choice reads the first alternative that comes next, and nothing else. */
  lemma {:induction false} ChoiceReadsOne(g: Grammar, n: nat, e: Id, t: Override, s: Input, j: nat)
    requires WellFormed(g) && e < |g| && Allowed(g, t) && g[e].compound.Choice? && n > 2
    requires Alternatives(g, g[e].children) && j < |g[e].children| && FirstToCome(g, g[e].children, s, j)
    ensures g[e].children[j] < |g|
    ensures Read(g, FIRST_FIT, n, e, t, s)
            == ThenAct(Read(g, FIRST_FIT, n - 1, g[e].children[j], None, s.(matched := false)), g[e])
  {
    AlternativesInside(g, g[e].children);
    FirstRead(g, n - 1, g[e].children, s, j);
  }

  /** If none comes, a choice is refused, unless it may be left out. */
  lemma {:induction false} ChoiceReadsNone(g: Grammar, n: nat, e: Id, t: Override, s: Input)
    requires WellFormed(g) && e < |g| && Allowed(g, t) && g[e].compound.Choice? && n > 2
    requires Alternatives(g, g[e].children) && NoneComes(g, g[e].children, s)
    ensures Read(g, FIRST_FIT, n, e, t, s)
            == if Skippable(g, e, t) then Done(Acted(s.(matched := false), g[e])) else Refused
  {
    AlternativesInside(g, g[e].children);
    NoneRead(g, n - 1, g[e].children, s);
  }

  // ------------------------------------------------------------ flags that get lost

  /** A reference that is not there is left out exactly if the type it names may be;
      whether the reference is optional makes no difference. */
  lemma {:induction false} OptionalReference(g: Grammar, n: nat, e: Id, s: Input)
    requires WellFormed(g) && e < |g| && g[e].compound.TypeRef? && n > 1 && g[e].typeElement < |g|
    requires HasTag(g[g[e].typeElement].compound) && !g[g[e].typeElement].conditional
    requires !Comes(g, g[e].typeElement, None, s)
    ensures Read(g, FIRST_FIT, n, e, None, s)
            == if g[g[e].typeElement].skippable then Done(Acted(s.(matched := false), g[e])) else Refused
  {
    assert LinksInside(g[e], |g|);
    CarrierReadAt(g, n - 1, g[e].typeElement, s);
  }

  lemma {:induction false} CarrierReadAt(g: Grammar, n: nat, e: Id, s: Input)
    requires WellFormed(g) && e < |g| && HasTag(g[e].compound) && !g[e].conditional && n > 0 && !Comes(g, e, None, s)
    ensures Read(g, FIRST_FIT, n, e, None, s) == if g[e].skippable then Done(s.(matched := false)) else Refused
  {
    assert Decide(g, FIRST_FIT, e, None, s) == if g[e].skippable then Leave(false) else Refuse;
  }

  /** `a A OPTIONAL` with `A ::= INTEGER`, where there is no integer. */
  const OPTIONAL_REFERENCE: Grammar := [
    Element(TypeRef, 0, [], 1, None, UNIV, false, 0, true, false),
    Element(NotCompound, 1, [], 0, None, UNIV, false, 2, false, false)
  ]

  lemma {:induction false} OptionalReferenceRefused(n: nat)
    requires n > 1
    ensures Parsed(OPTIONAL_REFERENCE) && OPTIONAL_REFERENCE[0].skippable
    ensures Read(OPTIONAL_REFERENCE, FIRST_FIT, n, 0, None, Input([], [], false, [])) == Refused
  {
    var g := OPTIONAL_REFERENCE;
    assert LinksInside(g[0], 2) && LinksInside(g[1], 2) && AsParsed(g[0]) && AsParsed(g[1]);
    OptionalReference(g, n, 0, Input([], [], false, []));
  }

  /** A choice that is an alternative behind others is tried again after one of them:
      it reads a second value, or takes back that there was one. */
  lemma {:induction false} ChoiceInsideChoice(g: Grammar, n: nat, ids: seq<Id>, e: Id, s: Input, j: nat)
    requires WellFormed(g) && Alternatives(g, ids) && n > 2 && j < |ids| && FirstToCome(g, ids, s, j)
    requires e < |g| && g[e].compound.Choice? && g[e].skippable && Alternatives(g, g[e].children)
    ensures Inside(g, ids) && Inside(g, ids + [e])
    ensures var r, all := ReadAll(g, FIRST_FIT, n, ids, s), ReadAll(g, FIRST_FIT, n, ids + [e], s);
            r.Done? ==>
              && (NoneComes(g, g[e].children, r.input) ==> all == Done(Acted(r.input.(matched := false), g[e])))
              && forall i :: 0 <= i < |g[e].children| && FirstToCome(g, g[e].children, r.input, i) ==>
                   && g[e].children[i] < |g|
                   && var again := r.input.(matched := false);
                      all == ThenAct(Read(g, FIRST_FIT, n - 1, g[e].children[i], None, again), g[e])
  {
    AlternativesInside(g, ids);
    AlternativesInside(g, g[e].children);
    FirstRead(g, n, ids, s, j);
    assert (ids + [e])[..|ids|] == ids;
    var r := ReadAll(g, FIRST_FIT, n, ids, s);
    if r.Done? {
      if NoneComes(g, g[e].children, r.input) {
        ChoiceReadsNone(g, n, e, None, r.input);
      }
      forall i | 0 <= i < |g[e].children| && FirstToCome(g, g[e].children, r.input, i)
        ensures ReadAll(g, FIRST_FIT, n, ids + [e], s)
                == ThenAct(Read(g, FIRST_FIT, n - 1, g[e].children[i], None, r.input.(matched := false)), g[e])
      {
        ChoiceReadsOne(g, n, e, None, r.input, i);
      }
    }
  }
}
