/** A run of the audio merge after which Drop shows a trusted sample from a member that has
    overwritten it (gateway/internal/merge/policy.go). */
module AudioOvertaken {
  import opened Common
  import opened AudioPolicy
  import opened AudioSafety

  /** Two members of four pages each, at 48 kHz: the least tolerance, and the samples of
      the engine's 20ms longest sleep and one more. */
  const FOUR_PAGES := Config(4, 2, 0, 2_000_000, 961)

  const BLANK := [NOTHING, NOTHING, NOTHING, NOTHING]
  const PART := [Coverage(0, 512, false, true), NOTHING, NOTHING, NOTHING]
  const ONE := [Coverage(0, 1024, false, true), NOTHING, NOTHING, NOTHING]
  const TWO := [Coverage(0, 1024, false, true), Coverage(1, 2048, false, true), NOTHING, NOTHING]

  /** The policy before any commit, after member 0 commits page 0 in two halves and member
      1 pages 0 and 1 at once, and after a pass, which shows page 0 from member 0 and
      waits for its page 1. */
  function Early(): (r: seq<Policy>)
    ensures |r| == 5
  {
    var a0 := Policy(0, 0, [2, 2, 2, 2], [BLANK, BLANK], [0, 0], [0, 0], false, -1, 0);
    var a1 := a0.(cov := [PART, BLANK], evHead := [512, 0], batch := [512, 0], started := true);
    var a2 := a1.(cov := [ONE, BLANK], evHead := [1024, 0]);
    var a3 := a2.(cov := [ONE, TWO], evHead := [1024, 2048], batch := [512, 2048]);
    [a0, a1, a2, a3, a3.(head := 1024, current := [0, 2, 2, 2], waitingPage := 1)]
  }

  lemma EarlyOk()
    ensures forall k :: 0 <= k < 5 ==> ValidPolicy(FOUR_PAGES, Early()[k])
  {
  }

  lemma CommitEnds(ring: seq<Coverage>, start: nat, end: nat, n: nat)
    requires |ring| == 4 && end <= n * PAGE
    ensures CommitPages(FOUR_PAGES, ring, start, end, n) == ring
  {
  }

  lemma CommitsPart()
    ensures CommitPages(FOUR_PAGES, BLANK, 0, 512, 0) == PART
    ensures CommitPages(FOUR_PAGES, PART, 512, 1024, 0) == ONE
  {
    CommitEnds(PART, 0, 512, 1);
    CommitEnds(ONE, 512, 1024, 1);
    assert BLANK[0 := Coverage(0, 512, false, true)] == PART && PART[0 := Coverage(0, 1024, false, true)] == ONE;
  }

  lemma CommitsTwo()
    ensures CommitPages(FOUR_PAGES, BLANK, 0, 2048, 0) == TWO
  {
    CommitEnds(TWO, 0, 2048, 2);
    assert ONE[1 := Coverage(1, 2048, false, true)] == TWO;
    assert CommitPages(FOUR_PAGES, ONE, 0, 2048, 1) == TWO;
    assert BLANK[0 := Coverage(0, 1024, false, true)] == ONE;
  }

  /** A commit whose pages make `ring` of the member's. */
  lemma EarlyCommit(a: Policy, b: Policy, m: nat, start: nat, end: nat, ring: seq<Coverage>)
    requires ValidPolicy(FOUR_PAGES, a) && m < 2 && start < end <= start + 2048 && (a.started || start == 0 == a.head)
    requires CommitPages(FOUR_PAGES, a.cov[m], start, end, start / PAGE) == ring
    requires b == a.(started := true, cov := a.cov[m := ring], evHead := a.evHead[m := Max(a.evHead[m], end)],
                     batch := a.batch[m := end - start])
    ensures Commit(FOUR_PAGES, a, m, start, end) == b
  {
  }

  /** Page 1: member 0 has not reached it, and member 1 holds it. */
  lemma LateTurn(b: Policy)
    requires ValidPolicy(FOUR_PAGES, Early()[3]) && ValidPolicy(FOUR_PAGES, b)
    requires b == Early()[3].(head := 1024, current := [0, 2, 2, 2])
    ensures TakeTurn(FOUR_PAGES, b, 0, 2048) == (Wait(2_000_000), b.(waitingPage := 1))
  {
    assert BestOther(b, 1, 1, 1) == -1;
    assert Upto(b.cov[1][1], 1) == 2048;
  }

  lemma EarlyStep()
    requires forall k :: 0 <= k < 5 ==> ValidPolicy(FOUR_PAGES, Early()[k])
    ensures Step(FOUR_PAGES, Early()[3], 0).policy == Early()[4]
  {
    var (c, a) := (FOUR_PAGES, Early()[3]);
    assert Lead(a.evHead, 1) == 1024;
    var b := a.(head := 1024, current := [0, 2, 2, 2]);
    assert a.current[0 := 0] == b.current;
    assert TakeTurn(c, a, 0, 2048) == (Advance(0, 1024), a);
    assert Show(c, a, 0, 1024) == b;
    LateTurn(b);
    StepUnfolds(c, b, 0, 2048);
    StepUnfolds(c, a, 0, 2048);
  }

  lemma EarlyRetire()
    requires ValidPolicy(FOUR_PAGES, Early()[4])
    ensures WriteBounds(FOUR_PAGES, Early()[4], 2048) == [3521, 5057]
    ensures Retire(FOUR_PAGES, Early()[4], 2048).policy == Early()[4]
  {
    var (c, a) := (FOUR_PAGES, Early()[4]);
    var bounds := [3521, 5057];
    assert WriteBounds(c, a, 2048) == bounds;
    assert RetireLoop(c, a.cov, a.head, a.current, bounds, 1) == Moves(a.current, []);
    assert !AtRisk(c, bounds, 0, 0);
    assert RetireLoop(c, a.cov, a.head, a.current, bounds, 0) == Moves(a.current, []);
  }

  /** A state whose reports are the policy's. */
  function Taken(a: Policy, done: seq<set<nat>>, written: seq<nat>, limit: seq<nat>, settled: bool): Sys {
    Sys(a, done, written, limit, a.evHead, a.batch, settled)
  }

  /** The run: both members write, commit as above, a pass at sample 2048 of the clock
      publishes page 0, and member 1 writes as much at once again, over sample 0. */
  function Overtaking(): (r: seq<Sys>)
    ensures |r| == 8
  {
    var a := Early();
    var none, some, one, two := {}, Range(0, 512), Range(0, 1024), Range(0, 2048);
    [Taken(a[0], [none, none], [0, 0], [1024, 2048], true),
     Taken(a[0], [none, none], [1024, 0], [1024, 2048], true),
     Taken(a[0], [none, none], [1024, 2048], [1024, 2048], true),
     Taken(a[1], [some, none], [1024, 2048], [1024, 2048], true),
     Taken(a[2], [one, none], [1024, 2048], [1024, 2048], true),
     Taken(a[3], [one, two], [1024, 2048], [1024, 2048], true),
     Taken(a[4], [one, two], [1024, 2048], [3521, 5057], true),
     Taken(a[4], [one, two], [1024, 5057], [3521, 5057], true)]
  }

  lemma OvertakingReports(r: seq<Sys>)
    requires r == Overtaking() && forall k :: 0 <= k < 5 ==> ValidPolicy(FOUR_PAGES, Early()[k])
    ensures Report(FOUR_PAGES, r[2], r[3], 0, 0, 512) && Report(FOUR_PAGES, r[3], r[4], 0, 512, 1024)
    ensures Report(FOUR_PAGES, r[4], r[5], 1, 0, 2048)
  {
    CommitsPart();
    CommitsTwo();
    EarlyCommit(r[2].a, r[3].a, 0, 0, 512, PART);
    EarlyCommit(r[3].a, r[4].a, 0, 512, 1024, ONE);
    EarlyCommit(r[4].a, r[5].a, 1, 0, 2048, TWO);
    assert {} + Range(0, 512) == Range(0, 512);
    assert Range(0, 512) + Range(512, 1024) == Range(0, 1024);
    assert {} + Range(0, 2048) == Range(0, 2048);
  }

  lemma OvertakingStarts(r: seq<Sys>)
    requires r == Overtaking() && ValidPolicy(FOUR_PAGES, Early()[0])
    ensures Init(FOUR_PAGES, r[0])
  {
    var c := FOUR_PAGES;
    assert seq(c.pages, _ => NOTHING) == BLANK && seq(c.pages, _ => c.members) == [2, 2, 2, 2];
    assert seq(c.members, _ => seq(c.pages, _ => NOTHING)) == [BLANK, BLANK];
    assert seq(c.members, _ => 0) == [0, 0];
    assert r[0].done == seq(c.members, _ => {});
  }

  lemma OvertakingWrites(r: seq<Sys>)
    requires r == Overtaking()
    ensures Write(r[0], r[1], 0, 1024) && Write(r[1], r[2], 1, 2048) && Write(r[6], r[7], 1, 5057)
  {
  }

  lemma OvertakingPasses(r: seq<Sys>)
    requires r == Overtaking() && forall k :: 0 <= k < 5 ==> ValidPolicy(FOUR_PAGES, Early()[k])
    ensures Pass(FOUR_PAGES, r[5], r[6], 0, 2048)
  {
    EarlyStep();
    EarlyRetire();
    assert Farther([1024, 2048], [3521, 5057]) == [3521, 5057];
    assert WrittenSpares(FOUR_PAGES, Early()[4], [1024, 2048]);
  }

  lemma OvertakingNext(r: seq<Sys>, k: nat)
    requires r == Overtaking() && k < 7
    ensures Next(FOUR_PAGES, r[k], r[k + 1])
  {
    EarlyOk();
    assert Typed(FOUR_PAGES, r[k]);
    if k == 5 {
      OvertakingPasses(r);
    } else if 2 <= k < 5 {
      OvertakingReports(r);
    } else {
      OvertakingWrites(r);
    }
  }

  lemma OvertakingRuns()
    ensures Run(FOUR_PAGES, Overtaking())
  {
    var r := Overtaking();
    EarlyOk();
    OvertakingStarts(r);
    forall k | 0 <= k < |r| - 1 ensures Next(FOUR_PAGES, r[k], r[k + 1]) { OvertakingNext(r, k); }
  }

  /** Dropping member 0 there moves page 0 to member 1, whose sample 0 is gone. */
  lemma DropShowsOverwritten()
    ensures var (c, s) := (FOUR_PAGES, Overtaking()[7]);
            && Run(c, Overtaking()) && Inv(c, s) && s.settled && Low(c, s.a.head) <= 0 < s.a.head
            && Drop(c, s.a, 0).policy.current[0] == 1 && s.written[1] > 0 + c.Length()
  {
    var (c, s) := (FOUR_PAGES, Overtaking()[7]);
    OvertakingRuns();
    RunInv(c, Overtaking(), 7);
    assert FirstWhole(c, s.a.cov, 1024, 0, 0, 0, 0) == FirstWhole(c, s.a.cov, 1024, 0, 0, 0, 1);
    DropExact(c, s.a, s.a.current, 0, 0);
  }
}
