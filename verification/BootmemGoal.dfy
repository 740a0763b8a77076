/** The goal of an allocation.

    The pages are found by a scan from a preferred page on, in steps.  What the scan
    finds is said here without either: in bytes, and against every run of free pages
    that is aligned as asked for.
  */
module BootmemGoal {
  import opened Bootmem

  /** `n` free pages from page `x` on, which begins at a multiple of `align`. */
  ghost predicate Candidate(bits: seq<bool>, x: nat, n: nat, align: nat, pages: nat)
    requires align > 0
  {
    Fits(bits, x, n, pages) && x * PAGE_SIZE % align == 0
  }

  lemma {:induction false} MultipleAbove(x: nat, y: nat, a: nat)
    requires a > 0 && y % a == 0 && x <= y
    ensures AlignUp(x, a) <= y
  {
    var m := AlignUpQuotient(x, a);
    var k := y / a;
    Quotient(y, a);
    assert m * a < k * a + a;
    NoMultipleBetween(k, m, a);
  }

  /** Candidates begin at multiples of the step. */
  lemma {:induction false} CandidateStep(x: nat, align: nat)
    requires PowerOfTwo(align) && x * PAGE_SIZE % align == 0
    ensures x % Increment(align) == 0
  {
    if align > PAGE_SIZE {
      var q := PagesPerAlign(align);
      var m := x * PAGE_SIZE / align;
      Quotient(x * PAGE_SIZE, align);
      Regroup(m, q, PAGE_SIZE);
      DivisionUnique(x * PAGE_SIZE, PAGE_SIZE, x, 0);
      DivisionUnique(m * q * PAGE_SIZE, PAGE_SIZE, m * q, 0);
      DivisionUnique(m * q, q, m, 0);
    } else if align == PAGE_SIZE {
      assert Increment(align) == 1;
    } else {
      assert align / PAGE_SIZE == 0;
    }
  }

  lemma PageOf(byte: nat, x: nat)
    ensures byte <= x * PAGE_SIZE ==> byte / PAGE_SIZE <= x
    ensures byte % PAGE_SIZE == 0 ==> byte == byte / PAGE_SIZE * PAGE_SIZE
  {}

  /** The scan starts at the goal if the goal is aligned, and otherwise not before the
      page that the goal is in; every candidate from the goal on is ahead of it. */
  lemma {:induction false} StartOfScan(goal: nat, align: nat, pages: nat, x: nat)
    requires PowerOfTwo(align) && goal / PAGE_SIZE < pages
    ensures goal / PAGE_SIZE <= Preferred(goal, align, pages)
    ensures goal % PAGE_SIZE == 0 && goal % align == 0 ==> Preferred(goal, align, pages) == goal / PAGE_SIZE
    ensures goal <= x * PAGE_SIZE && x * PAGE_SIZE % align == 0 ==> Preferred(goal, align, pages) <= x
  {
    AlignUpLeast(goal, align);
    PageOf(AlignUp(goal, align), x);
    if goal % align == 0 { MultipleAbove(goal, goal, align); }
    if goal <= x * PAGE_SIZE && x * PAGE_SIZE % align == 0 { MultipleAbove(goal, x * PAGE_SIZE, align); }
  }

  lemma {:induction false} FoundIsCandidate(bits: seq<bool>, start: nat, preferred: nat, n: nat, align: nat, pages: nat)
    requires PowerOfTwo(align) && FirstFit(bits, start, preferred, n, pages, Increment(align))
    ensures Candidate(bits, start, n, align, pages)
  {
    PageAligned(align, start);
  }

  /** If there is a candidate at or above the goal, the first of them is taken, or for
      a goal within a page one that begins with that page. */
  lemma {:induction false} GoalTaken(bits: seq<bool>, start: nat, goal: nat, n: nat, align: nat, pages: nat, x: nat)
    requires PowerOfTwo(align) && goal / PAGE_SIZE < pages
    requires FirstFit(bits, start, Preferred(goal, align, pages), n, pages, Increment(align))
    requires Candidate(bits, x, n, align, pages) && goal <= x * PAGE_SIZE
    ensures Candidate(bits, start, n, align, pages) && start <= x && goal / PAGE_SIZE <= start
    ensures goal % PAGE_SIZE == 0 ==> goal <= start * PAGE_SIZE
  {
    FoundIsCandidate(bits, start, Preferred(goal, align, pages), n, align, pages);
    StartOfScan(goal, align, pages, x);
    CandidateStep(x, align);
    assert Fits(bits, x, n, pages);
    PageOf(goal, start);
  }

  /** Otherwise, or without a goal in the node, the first candidate of all is taken. */
  lemma {:induction false} GoalMissed(bits: seq<bool>, start: nat, goal: nat, n: nat, align: nat, pages: nat, x: nat)
    requires PowerOfTwo(align) && FirstFit(bits, start, Preferred(goal, align, pages), n, pages, Increment(align))
    requires Candidate(bits, x, n, align, pages)
    requires goal == 0 || goal / PAGE_SIZE >= pages
             || (goal % PAGE_SIZE == 0
                 && forall y :: 0 <= y < pages && Candidate(bits, y, n, align, pages) ==> y * PAGE_SIZE < goal)
    ensures Candidate(bits, start, n, align, pages) && start <= x
  {
    FoundIsCandidate(bits, start, Preferred(goal, align, pages), n, align, pages);
    CandidateStep(x, align);
    assert Fits(bits, x, n, pages);
    if goal == 0 || goal / PAGE_SIZE >= pages {
      DivisionUnique(align - 1, align, 0, align - 1);
    } else {
      StartOfScan(goal, align, pages, x);
      PageOf(goal, start);
      assert start * PAGE_SIZE < goal;
    }
  }
}
