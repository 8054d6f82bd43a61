/** A run of the audio merge in which a pass shows a trusted sample its member has already
    overwritten: the member wrote as far as the pass before allowed, and its last commit was
    a shorter one, so that the bound of this pass is below what is written
    (gateway/internal/merge/policy.go). */
module AudioShrinking {
  import opened Common
  import opened AudioPolicy
  import opened AudioSafety
  import opened AudioOvertaken

  function Page(n: nat): Coverage { Coverage(n, (n + 1) * PAGE, false, true) }

  /** What member 1 holds once it has committed pages 0 to 3, and then the first 96 samples
      of page 4, in page 0's slot. */
  const FULL := [Page(0), Page(1), Page(2), Page(3)]
  const NEXT := [Coverage(4, 4192, false, true), Page(1), Page(2), Page(3)]

  /** The policy at the start; after member 0 commits page 0, and member 1 pages 0 and 1 and
      pages 2 and 3; after a pass that waits for member 0's page 1; after member 1's 96
      samples; and after the pass that replaces member 0. */
  function Stages(): (r: seq<Policy>)
    ensures |r| == 7
  {
    var a0 := Policy(0, 0, [2, 2, 2, 2], [BLANK, BLANK], [0, 0], [0, 0], false, -1, 0);
    var a1 := a0.(cov := [ONE, BLANK], evHead := [1024, 0], batch := [1024, 0], started := true);
    var a2 := a1.(cov := [ONE, TWO], evHead := [1024, 2048], batch := [1024, 2048]);
    var a3 := a2.(cov := [ONE, FULL], evHead := [1024, 4096]);
    var a4 := a3.(head := 1024, waitingPage := 1);
    var a5 := a4.(cov := [ONE, NEXT], evHead := [1024, 4192], batch := [1024, 96]);
    [a0, a1, a2, a3, a4, a5, a5.(head := 4192, current := [1, 1, 1, 1], primary := 1)]
  }

  lemma StagesOk()
    ensures forall k :: 0 <= k < 7 ==> ValidPolicy(FOUR_PAGES, Stages()[k])
  {
  }

  // -------------------------------------------------------------- commits

  lemma CommitsOne()
    ensures CommitPages(FOUR_PAGES, BLANK, 0, 1024, 0) == ONE
  {
    CommitEnds(ONE, 0, 1024, 1);
    assert BLANK[0 := Page(0)] == ONE;
  }

  lemma CommitsFull()
    ensures CommitPages(FOUR_PAGES, TWO, 2048, 4096, 2) == FULL
  {
    var three := [Page(0), Page(1), Page(2), NOTHING];
    CommitEnds(FULL, 2048, 4096, 4);
    assert three[3 := Page(3)] == FULL;
    assert CommitPages(FOUR_PAGES, three, 2048, 4096, 3) == FULL;
    assert TWO[2 := Page(2)] == three;
  }

  lemma CommitsNext()
    ensures CommitPages(FOUR_PAGES, FULL, 4096, 4192, 4) == NEXT
  {
    CommitEnds(NEXT, 4096, 4192, 5);
    assert FULL[0 := Coverage(4, 4192, false, true)] == NEXT;
  }

  // --------------------------------------------------------------- passes

  /** Page 1: member 0 has not reached it, and member 1 holds it. */
  lemma FirstWait(b: Policy)
    requires ValidPolicy(FOUR_PAGES, Stages()[3]) && ValidPolicy(FOUR_PAGES, b)
    requires b == Stages()[3].(head := 1024, current := [0, 2, 2, 2])
    ensures TakeTurn(FOUR_PAGES, b, 0, 4096) == (Wait(2_000_000), b.(waitingPage := 1))
  {
    assert BestOther(b, 1, 1, 1) == -1;
    assert Upto(b.cov[1][1], 1) == 2048;
  }

  /** The first pass shows page 0 and waits. */
  lemma FirstStep()
    requires forall k :: 0 <= k < 7 ==> ValidPolicy(FOUR_PAGES, Stages()[k])
    ensures Step(FOUR_PAGES, Stages()[3], 0).policy == Stages()[4].(current := [0, 2, 2, 2])
  {
    var (c, a) := (FOUR_PAGES, Stages()[3]);
    assert Lead(a.evHead, 1) == 1024;
    var b := a.(head := 1024, current := [0, 2, 2, 2]);
    assert a.current[0 := 0] == b.current;
    assert TakeTurn(c, a, 0, 4096) == (Advance(0, 1024), a);
    assert Show(c, a, 0, 1024) == b;
    FirstWait(b);
    StepUnfolds(c, b, 0, 4096);
    StepUnfolds(c, a, 0, 4096);
  }

  /** Its Retire moves page 0 to silence: both members may write over it. */
  lemma FirstRetire(b: Policy)
    requires ValidPolicy(FOUR_PAGES, b) && ValidPolicy(FOUR_PAGES, Stages()[4]) && b == Stages()[4].(current := [0, 2, 2, 2])
    ensures WriteBounds(FOUR_PAGES, b, 4096) == [6081, 7105]
    ensures Retire(FOUR_PAGES, b, 4096).policy == Stages()[4]
  {
    var c := FOUR_PAGES;
    var bounds, current := [6081, 7105], [2, 2, 2, 2];
    assert WriteBounds(c, b, 4096) == bounds;
    assert Heir(c, b.cov, b.head, bounds, 0, 0, 0, 0) == Heir(c, b.cov, b.head, bounds, 0, 0, 0, 1) == 2;
    assert RetireLoop(c, b.cov, b.head, current, bounds, 1) == Moves(current, []);
    assert b.current[0 := 2] == current;
    assert Most(c, bounds, 2) >= Intact(c, bounds[0]) == 1985;
    assert RetireLoop(c, b.cov, b.head, b.current, bounds, 0).current == current;
  }

  /** The policy once the second pass has shown page n. */
  function Shown(n: nat): Policy {
    var a := Stages()[5];
    if n == 1 then a.(primary := 1, head := 2048, current := [2, 1, 2, 2])
    else if n == 2 then a.(primary := 1, head := 3072, current := [2, 1, 1, 2])
    else if n == 3 then a.(primary := 1, head := 4096, current := [2, 1, 1, 1])
    else Stages()[6]
  }

  lemma ShownOk(n: nat)
    requires forall k :: 0 <= k < 7 ==> ValidPolicy(FOUR_PAGES, Stages()[k])
    ensures ValidPolicy(FOUR_PAGES, Shown(n))
  {
  }

  /** Page 1: member 0 is late beyond the tolerance, and replaced. */
  lemma Replaced()
    requires forall k :: 0 <= k < 7 ==> ValidPolicy(FOUR_PAGES, Stages()[k])
    ensures TakeTurn(FOUR_PAGES, Stages()[5], 2_000_000, 4192) == (Advance(1, 2048), Stages()[5].(primary := 1))
    ensures Show(FOUR_PAGES, Stages()[5].(primary := 1), 1, 2048) == Shown(1)
  {
    var a := Stages()[5];
    assert BestOther(a, 1, 1, 1) == -1;
    assert Upto(a.cov[1][1], 1) == 2048;
    assert BestOther(a, 1, 1, 2) == 1;
    assert a.current[1 := 1] == Shown(1).current;
  }

  /** Pages 2, 3 and 4: member 1 has them. */
  lemma Follows(n: nat)
    requires 1 <= n <= 3 && forall k :: 0 <= k < 7 ==> ValidPolicy(FOUR_PAGES, Stages()[k])
    ensures ValidPolicy(FOUR_PAGES, Shown(n)) && Shown(n).head == (n + 1) * PAGE
    ensures TakeTurn(FOUR_PAGES, Shown(n), 2_000_000, 4192) == (Advance(1, Shown(n + 1).head), Shown(n))
    ensures Show(FOUR_PAGES, Shown(n), 1, Shown(n + 1).head) == Shown(n + 1)
  {
    ShownOk(n);
    var a, p := Shown(n), (n + 1) % 4;
    assert Upto(a.cov[1][p], n + 1) == Shown(n + 1).head;
    assert a.current[p := 1] == Shown(n + 1).current;
  }

  lemma SecondStep()
    requires forall k :: 0 <= k < 7 ==> ValidPolicy(FOUR_PAGES, Stages()[k])
    ensures Step(FOUR_PAGES, Stages()[5], 2_000_000).policy == Stages()[6]
  {
    var c, a := FOUR_PAGES, Stages()[5];
    assert Lead(a.evHead, 1) == 1024;
    Replaced();
    Follows(1);
    Follows(2);
    Follows(3);
    StepUnfolds(c, Shown(3), 2_000_000, 4192);
    StepUnfolds(c, Shown(2), 2_000_000, 4192);
    StepUnfolds(c, Shown(1), 2_000_000, 4192);
    StepUnfolds(c, a, 2_000_000, 4192);
  }

  /** Its Retire, with member 1's bound at 5249, moves nothing. */
  lemma SecondRetire()
    requires ValidPolicy(FOUR_PAGES, Stages()[6])
    ensures WriteBounds(FOUR_PAGES, Stages()[6], 4192) == [6177, 5249]
    ensures Retire(FOUR_PAGES, Stages()[6], 4192).policy == Stages()[6]
  {
    var c, a := FOUR_PAGES, Stages()[6];
    assert WriteBounds(c, a, 4192) == [6177, 5249];
    assert Most(c, [6177, 5249], 1) == 2081;
  }

  // -------------------------------------------------------------- the run

  function Shrinking(): (r: seq<Sys>)
    ensures |r| == 8
  {
    var a := Stages();
    var none, one, two, four, more := {}, Range(0, 1024), Range(0, 2048), Range(0, 4096), Range(0, 4192);
    [Taken(a[0], [none, none], [1024, 4096], [1024, 4096], true),
     Taken(a[1], [one, none], [1024, 4096], [1024, 4096], true),
     Taken(a[2], [one, two], [1024, 4096], [1024, 4096], true),
     Taken(a[3], [one, four], [1024, 4096], [1024, 4096], true),
     Taken(a[4], [one, four], [1024, 4096], [6081, 7105], true),
     Taken(a[4], [one, four], [1024, 7105], [6081, 7105], true),
     Taken(a[5], [one, more], [1024, 7105], [6081, 7105], true),
     Taken(a[6], [one, more], [1024, 7105], [6177, 7105], false)]
  }

  lemma ShrinkingStarts(r: seq<Sys>)
    requires r == Shrinking() && ValidPolicy(FOUR_PAGES, Stages()[0])
    ensures Init(FOUR_PAGES, r[0])
  {
    var c := FOUR_PAGES;
    assert seq(c.pages, _ => NOTHING) == BLANK && seq(c.pages, _ => c.members) == [2, 2, 2, 2];
    assert seq(c.members, _ => seq(c.pages, _ => NOTHING)) == [BLANK, BLANK];
    assert seq(c.members, _ => 0) == [0, 0];
    assert r[0].done == seq(c.members, _ => {});
  }

  lemma ShrinkingReports(r: seq<Sys>)
    requires r == Shrinking() && forall k :: 0 <= k < 7 ==> ValidPolicy(FOUR_PAGES, Stages()[k])
    ensures Report(FOUR_PAGES, r[0], r[1], 0, 0, 1024) && Report(FOUR_PAGES, r[1], r[2], 1, 0, 2048)
    ensures Report(FOUR_PAGES, r[2], r[3], 1, 2048, 4096) && Report(FOUR_PAGES, r[5], r[6], 1, 4096, 4192)
  {
    CommitsOne();
    CommitsTwo();
    CommitsFull();
    CommitsNext();
    EarlyCommit(r[0].a, r[1].a, 0, 0, 1024, ONE);
    EarlyCommit(r[1].a, r[2].a, 1, 0, 2048, TWO);
    EarlyCommit(r[2].a, r[3].a, 1, 2048, 4096, FULL);
    EarlyCommit(r[5].a, r[6].a, 1, 4096, 4192, NEXT);
    assert {} + Range(0, 1024) == Range(0, 1024) && {} + Range(0, 2048) == Range(0, 2048);
    assert Range(0, 2048) + Range(2048, 4096) == Range(0, 4096);
    assert Range(0, 4096) + Range(4096, 4192) == Range(0, 4192);
  }

  lemma ShrinkingFirst(r: seq<Sys>)
    requires r == Shrinking() && forall k :: 0 <= k < 7 ==> ValidPolicy(FOUR_PAGES, Stages()[k])
    ensures Pass(FOUR_PAGES, r[3], r[4], 0, 4096) && Write(r[4], r[5], 1, 7105)
  {
    FirstStep();
    FirstRetire(Stages()[4].(current := [0, 2, 2, 2]));
    assert Farther([1024, 4096], [6081, 7105]) == [6081, 7105];
  }

  lemma NotSpared()
    requires ValidPolicy(FOUR_PAGES, Stages()[6])
    ensures !WrittenSpares(FOUR_PAGES, Stages()[6], [1024, 7105])
  {
    assert ShownPage(FOUR_PAGES, 4192, 2) == 2;
    assert !Spared(FOUR_PAGES, 4192, 2, 7105);
  }

  lemma ShrinkingSecond(r: seq<Sys>)
    requires r == Shrinking() && forall k :: 0 <= k < 7 ==> ValidPolicy(FOUR_PAGES, Stages()[k])
    ensures Pass(FOUR_PAGES, r[6], r[7], 2_000_000, 4192)
  {
    SecondStep();
    SecondRetire();
    assert Farther([1024, 7105], [6177, 5249]) == [6177, 7105];
    NotSpared();
  }

  lemma ShrinkingNext(r: seq<Sys>, k: nat)
    requires r == Shrinking() && k < 7
    ensures Next(FOUR_PAGES, r[k], r[k + 1])
  {
    StagesOk();
    assert Typed(FOUR_PAGES, r[k]);
    if k == 6 {
      ShrinkingSecond(r);
    } else if k == 3 || k == 4 {
      ShrinkingFirst(r);
    } else {
      ShrinkingReports(r);
    }
  }

  lemma ShrinkingRuns()
    ensures Run(FOUR_PAGES, Shrinking())
  {
    var r := Shrinking();
    StagesOk();
    ShrinkingStarts(r);
    forall k | 0 <= k < |r| - 1 ensures Next(FOUR_PAGES, r[k], r[k + 1]) { ShrinkingNext(r, k); }
  }

  /** At its end sample 2144, the oldest readers trust, is shown from member 1, which has
      written the sample a ring on; the bound of the last pass did not reach that far. */
  lemma PassShowsOverwritten()
    ensures var (c, s) := (FOUR_PAGES, Shrinking()[7]);
            && Run(c, Shrinking()) && Low(c, s.a.head) == 2144 < s.a.head
            && s.a.current[2144 / PAGE % c.pages] == 1 && s.written[1] > 2144 + c.Length()
            && WriteBounds(c, s.a, 4192)[1] <= 2144 + c.Length()
  {
    ShrinkingRuns();
    StagesOk();
    SecondRetire();
  }
}
