/** A run of the discrete merge after which Drop leaves a trusted grain to a member that
    may overwrite it before the next pass (gateway/internal/merge/policy.go). */
module DiscreteOvertaken {
  import opened Common
  import opened DiscretePolicy
  import opened DiscreteSafety

  /** Two members of a data flow, rings of three grains, first arrival served. */
  const SET := Config(3, 2, true, 1, 2_000_000, false)

  function G(index: nat): Grain { Grain(index, false, 0, 0) }

  const AT4 := Member(4, [G(3), G(4), G(2)])
  const AT5 := Member(5, [G(3), G(4), G(5)])
  const AT7 := Member(7, [G(3), G(7), G(5)])

  /** The policy as the run leaves it: at the start; grain 4 shown from member 0; its
      head and member 1's seen on time; grain 5 shown from member 1; member 1 seen on
      time again; and member 0 seen at 5 a grain late. */
  function Policies(): (r: seq<Policy>)
    ensures |r| == 6
  {
    var p1 := Policy(4, 0, [2, 0, 2], 0, 0, [], []);
    var p2 := p1.(seen := [4, 4], late := [0, 0]);
    var p3 := p2.(head := 5, current := [2, 0, 1]);
    [Policy(0, -1, [2, 2, 2], 0, 0, [], []), p1, p2, p3, p3.(seen := [4, 5]), p3.(seen := [5, 5], late := [1, 0])]
  }

  function Grain4(): Select { Select(1, 0, 4) }
  function Grain5(): Select { Select(2, 1, 5) }

  /** Four passes, at 4, 5, 6 and 7 of the clock. Member 1 commits 5 in time for the
      second, member 0 for the third, and neither commits 6. */
  function At(k: nat): Sys {
    var (p, a, b, d) := (Policies(), [AT4, AT4], [AT4, AT5], [AT5, AT5]);
    if k == 0 then Sys(Idle, p[0], World(a, [5, 5]), [2, 2, 2], 0, [], [])
    else if k == 1 then Sys(Stepped, p[1], World(a, [5, 5]), [2, 2, 2], 0, [Grain4()], [])
    else if k == 2 then Sys(Applying, p[2], World(a, [5, 5]), [2, 2, 2], 0, [Grain4()], [5, 5])
    else if k == 3 then Sys(Applying, p[2], World(a, [5, 5]), [2, 0, 2], 3, [], [5, 5])
    else if k == 4 then Sys(Idle, p[2], World(a, [5, 5]), [2, 0, 2], 4, [], [5, 5])
    else if k == 5 then Sys(Idle, p[2], World(b, [5, 5]), [2, 0, 2], 4, [], [5, 5])
    else if k == 6 then Sys(Stepped, p[3], World(b, [5, 5]), [2, 0, 2], 4, [Grain5()], [5, 5])
    else if k == 7 then Sys(Applying, p[4], World(b, [5, 5]), [2, 0, 2], 4, [Grain5()], [5, 6])
    else if k == 8 then Sys(Applying, p[4], World(b, [5, 5]), [2, 0, 1], 4, [], [5, 6])
    else if k == 9 then Sys(Idle, p[4], World(b, [5, 6]), [2, 0, 1], 5, [], [5, 6])
    else if k == 10 then Sys(Idle, p[4], World(d, [5, 6]), [2, 0, 1], 5, [], [5, 6])
    else if k == 11 then Sys(Stepped, p[4], World(d, [5, 6]), [2, 0, 1], 5, [], [5, 6])
    else if k == 12 then Sys(Applying, p[5], World(d, [5, 6]), [2, 0, 1], 5, [], [6, 6])
    else if k == 13 then Sys(Idle, p[5], World(d, [6, 6]), [2, 0, 1], 5, [], [6, 6])
    else if k == 14 then Sys(Stepped, p[5], World(d, [6, 6]), [2, 0, 1], 5, [], [6, 6])
    else if k == 15 then Sys(Applying, p[5], World(d, [6, 6]), [2, 0, 1], 5, [], [6, 7])
    else Sys(Idle, p[5], World(d, [6, 7]), [2, 0, 1], 5, [], [6, 7])
  }

  function Overtaking(): (r: seq<Sys>)
    ensures |r| == 17 && forall k :: 0 <= k < 17 ==> r[k] == At(k)
  {
    seq(17, k requires 0 <= k => At(k))
  }

  lemma PoliciesOk()
    ensures forall k :: 0 <= k < 6 ==> ValidPolicy(SET, Policies()[k])
  {
  }

  lemma AtTyped(k: nat)
    ensures Typed(SET, At(k))
  {
    PoliciesOk();
  }

  // ------------------------------------------------------------ the passes

  /** A Step with nothing above the head changes nothing. */
  lemma StepsNone(d: Policy, ms: seq<Member>)
    requires ValidPolicy(SET, d) && ValidMembers(SET, ms) && Lead(ms, 2) == d.head > 0
    ensures Step(SET, d, ms, 0) == StepResult(d, [], 0)
  {
  }

  /** A Step to the next index shows it from the first member that serves it. */
  lemma StepsOne(d: Policy, ms: seq<Member>, m: int)
    requires ValidPolicy(SET, d) && ValidMembers(SET, ms)
    requires d.head + 1 == Lead(ms, 2) || d.head == 0 < Lead(ms, 2)
    requires m == FirstServing(SET, ms, Lead(ms, 2), -1, 0) >= 0
    requires d.current[Lead(ms, 2) % 3] != m
    ensures var n := Lead(ms, 2);
            Step(SET, d, ms, 0) == StepResult(
              d.(head := n, current := d.current[n % 3 := m], primary := if d.primary < 0 then m else d.primary), [Select(n % 3, m, n)], 0)
  {
    var n := Lead(ms, 2);
    var e := d.(head := n - 1);
    assert TakeTurn(SET, e, ms, 0, n).0 == Advance(m);
    StepUnfolds(SET, e, ms, 0, n);
  }

  lemma Leads4()
    ensures Lead([AT4, AT4], 2) == 4 && FirstServing(SET, [AT4, AT4], 4, -1, 0) == 0
    ensures Lead([AT4, AT5], 2) == 5 && FirstServing(SET, [AT4, AT5], 5, -1, 0) == 1
    ensures Lead([AT5, AT5], 2) == 5
  {
    assert Lead([AT4, AT4], 1) == 4 && Lead([AT4, AT5], 1) == 4 && Lead([AT5, AT5], 1) == 5;
    assert !Serves(SET, AT4, 5) && Serves(SET, AT5, 5) && Serves(SET, AT4, 4);
  }

  lemma RetiresNoneFrom(d: Policy, ms: seq<Member>, next: seq<nat>, from: nat)
    requires ValidPolicy(SET, d) && ValidMembers(SET, ms) && |next| == 2 && Low(SET, d.head) <= from
    requires forall i :: Low(SET, d.head) <= i <= d.head ==> !AtRisk(SET, next, d.current[i % 3], i)
    ensures RetireLoop(SET, d.current, d.head, ms, next, from) == Moves(d.current, [])
    decreases d.head + 1 - from
  {
    if from <= d.head { RetiresNoneFrom(d, ms, next, from + 1); }
  }

  /** Retire where no trusted slot is at risk only observes. */
  lemma RetiresNone(d: Policy, ms: seq<Member>, due: nat, o: Policy, next: seq<nat>)
    requires ValidPolicy(SET, d) && ValidMembers(SET, ms) && o == Observe(d, ms, due) && next == NextWrites(o.late, ms, due)
    requires forall i :: Low(SET, d.head) <= i <= d.head ==> !AtRisk(SET, next, d.current[i % 3], i)
    ensures Retire(SET, d, ms, due) == PolicyMoves(o, [])
  {
    RetiresNoneFrom(d, ms, next, Low(SET, d.head));
  }

  lemma StepsTo(s: Sys, s': Sys)
    requires Typed(SET, s) && s.phase == Idle && Tighten(s.w) == s.w
    requires var r := Step(SET, s.policy, s.w.members, 0); s' == s.(phase := Stepped, policy := r.policy, pending := r.selects)
    ensures Next(SET, s, s')
  {
    assert DoStep(SET, s, s', 0);
  }

  lemma OvertakingSteps(k: nat)
    requires (k == 0 || k == 5) && Typed(SET, At(k))
    ensures Next(SET, At(k), At(k + 1))
  {
    Leads4();
    StepsOne(At(k).policy, At(k).w.members, if k == 0 then 0 else 1);
    StepsTo(At(k), At(k + 1));
  }

  lemma OvertakingStays(k: nat)
    requires (k == 10 || k == 13) && Typed(SET, At(k))
    ensures Next(SET, At(k), At(k + 1))
  {
    Leads4();
    StepsNone(At(k).policy, At(k).w.members);
    StepsTo(At(k), At(k + 1));
  }

  lemma RetiresTo(s: Sys, s': Sys, due: nat)
    requires Typed(SET, s) && s.phase == Stepped && Tighten(s.w) == s.w && |s.w.members| == 2
    requires s' == s.(phase := Applying, policy := s'.policy, nextLimit := s'.nextLimit)
    requires s'.policy == Observe(s.policy, s.w.members, due) && s'.nextLimit == NextWrites(s'.policy.late, s.w.members, due)
    requires forall i :: Low(SET, s.policy.head) <= i <= s.policy.head ==> !AtRisk(SET, s'.nextLimit, s.policy.current[i % 3], i)
    ensures Next(SET, s, s')
  {
    RetiresNone(s.policy, s.w.members, due, s'.policy, s'.nextLimit);
    assert s.pending + [] == s.pending;
    assert DoRetire(SET, s, s', due);
  }

  /** What Retire observes of two members, and the writes it looks ahead to. */
  lemma Observing(d: Policy, ms: seq<Member>, due: nat, late: seq<nat>, next: seq<nat>)
    requires |ms| == |late| == |next| == 2 && |d.seen| == |d.late| && (|d.seen| == 2 || d.seen == [])
    requires forall m :: 0 <= m < 2 ==>
               late[m] == if ms[m].head != (if d.seen == [] then 0 else d.seen[m]) then due - Min(due, ms[m].head)
                          else if d.seen == [] then 0 else d.late[m]
    requires forall m :: 0 <= m < 2 ==> next[m] == Max(ms[m].head + 1, due - Min(due, late[m]))
    ensures Observe(d, ms, due) == d.(seen := [ms[0].head, ms[1].head], late := late) && NextWrites(late, ms, due) == next
  {
    assert Observe(d, ms, due).late == late;
  }

  lemma OvertakingRetire4()
    requires Typed(SET, At(1))
    ensures Next(SET, At(1), At(2))
  {
    Observing(At(1).policy, At(1).w.members, 4, [0, 0], [5, 5]);
    assert Low(SET, 4) == 3;
    RetiresTo(At(1), At(2), 4);
  }

  lemma OvertakingRetire5()
    requires Typed(SET, At(6))
    ensures Next(SET, At(6), At(7))
  {
    Observing(At(6).policy, At(6).w.members, 5, [0, 0], [5, 6]);
    assert Low(SET, 5) == 4;
    RetiresTo(At(6), At(7), 5);
  }

  lemma OvertakingRetire6()
    requires Typed(SET, At(11))
    ensures Next(SET, At(11), At(12))
  {
    Observing(At(11).policy, At(11).w.members, 6, [1, 0], [6, 6]);
    assert Low(SET, 5) == 4;
    RetiresTo(At(11), At(12), 6);
  }

  lemma OvertakingRetire7()
    requires Typed(SET, At(14))
    ensures Next(SET, At(14), At(15))
  {
    Observing(At(14).policy, At(14).w.members, 7, [1, 0], [6, 7]);
    assert Low(SET, 5) == 4;
    RetiresTo(At(14), At(15), 7);
  }

  lemma OvertakingWrites(k: nat)
    requires (k == 4 || k == 9) && Typed(SET, At(k)) && Typed(SET, At(k + 1))
    ensures Next(SET, At(k), At(k + 1))
  {
    assert Write(SET, At(k), At(k + 1));
  }

  lemma OvertakingApplies(k: nat)
    requires (k == 2 || k == 7) && Typed(SET, At(k))
    ensures Next(SET, At(k), At(k + 1))
  {
    assert Apply(SET, At(k), At(k + 1));
  }

  lemma OvertakingFinishes(k: nat)
    requires (k == 3 || k == 8 || k == 12 || k == 15) && Typed(SET, At(k))
    ensures Next(SET, At(k), At(k + 1))
  {
    assert Finish(SET, At(k), At(k + 1));
  }

  lemma OvertakingNext(k: nat)
    requires k < 16
    ensures Next(SET, At(k), At(k + 1))
  {
    AtTyped(k);
    AtTyped(k + 1);
    if k == 0 || k == 5 {
      OvertakingSteps(k);
    } else if k == 10 || k == 13 {
      OvertakingStays(k);
    } else if k == 1 {
      OvertakingRetire4();
    } else if k == 6 {
      OvertakingRetire5();
    } else if k == 11 {
      OvertakingRetire6();
    } else if k == 14 {
      OvertakingRetire7();
    } else if k == 4 || k == 9 {
      OvertakingWrites(k);
    } else if k == 2 || k == 7 {
      OvertakingApplies(k);
    } else {
      OvertakingFinishes(k);
    }
  }

  lemma OvertakingStarts()
    ensures Init(SET, At(0))
  {
    AtTyped(0);
    assert seq(SET.grains, _ => SET.members) == [2, 2, 2];
  }

  lemma OvertakingRuns()
    ensures Run(SET, Overtaking())
  {
    OvertakingStarts();
    forall k | 0 <= k < 16 ensures Next(SET, At(k), At(k + 1)) { OvertakingNext(k); }
  }

  lemma Heir4()
    ensures FirstServing(SET, [AT5, AT5], 4, 0, 0) == 1
    ensures DropTarget(SET, 5, [AT5, AT5], 0, 1) == 1
  {
    assert Serves(SET, AT5, 4);
    assert FirstServing(SET, [AT5, AT5], 4, 0, 1) == 1;
  }

  lemma Writes7(w: World, w': World)
    requires w == World([AT5, AT5], [6, 7]) && w' == World([AT5, AT7], [6, 7])
    ensures Writes(SET, w, w')
  {
  }

  lemma OvertakingInv()
    ensures Run(SET, Overtaking()) && Inv(SET, At(16))
  {
    OvertakingRuns();
    RunInv(SET, Overtaking(), 16);
  }

  lemma Heir4Overwrites(w: World)
    requires w == World([AT5, AT5], [6, 7])
    ensures ValidWorld(SET, w) && !HeirsHold(SET, w, [2, 0, 1], 5, 0)
  {
    Heir4();
    assert ShownIndex(SET, 5, 1) == 4;
  }

  lemma Drops(d: Policy)
    requires ValidPolicy(SET, d) && d.current == [2, 0, 1] && d.head == 5
    ensures Drop(SET, d, [AT5, AT5], 0).policy.current[1] == 1
  {
    Heir4();
    DropExact(SET, d.current, 5, [AT5, AT5], 0, 0);
  }

  /** Dropping member 0 there leaves grain 4 to member 1, which within its limit may
      then write grain 7 over it. */
  lemma DropLeavesOverwritten()
    ensures var s := At(16); var w := World([AT5, AT7], s.w.limit);
            && Run(SET, Overtaking()) && Inv(SET, s) && Low(SET, s.policy.head) <= 4 <= s.policy.head
            && !HeirsHold(SET, s.w, s.policy.current, s.policy.head, 0)
            && Drop(SET, s.policy, s.w.members, 0).policy.current[4 % 3] == 1
            && Writes(SET, s.w, w) && !Complete(SET, w.members[1].ring[4 % 3], 4)
  {
    var s := At(16);
    AtTyped(16);
    Heir4Overwrites(s.w);
    Drops(s.policy);
    Writes7(s.w, World([AT5, AT7], s.w.limit));
    OvertakingInv();
  }
}
