/** What the discrete policy's Step and Retire decide: whom each index is shown from,
    when Step stops, when the primary is replaced, and which slots Retire moves
    (gateway/internal/merge/policy.go). */
module DiscreteDecisions {
  import opened Common
  import opened DiscretePolicy
  import opened Ring

  ghost predicate Nobody(c: Config, ms: seq<Member>, index: nat)
    requires c.Valid() && ValidMembers(c, ms)
  {
    forall m :: 0 <= m < |ms| ==> !Serves(c, ms[m], index)
  }

  /** An alternative holds `index` while the primary's head has not reached it. */
  ghost predicate Late(c: Config, ms: seq<Member>, primary: int, index: nat)
    requires c.Valid() && ValidMembers(c, ms)
  {
    && 0 <= primary < c.members && ms[primary].head < index
    && exists m :: 0 <= m < |ms| && m != primary && Serves(c, ms[m], index)
  }

  /** A turn that does not advance: nobody holds the next index and the lag is within the
      skew, or the next index waits. */
  lemma TurnEnds(c: Config, d: Policy, ms: seq<Member>, now: int, lead: nat)
    requires ValidPolicy(c, d) && ValidMembers(c, ms)
    ensures var (turn, w) := TakeTurn(c, d, ms, now, lead);
            && (turn.Stop? ==> w == d && lead < d.head + 1 + c.skew && Nobody(c, ms, d.head + 1))
            && (turn.Wait? ==>
                  && c.ordered && 0 < turn.remaining == c.tolerance - (now - w.waitingSince)
                  && Late(c, ms, w.primary, d.head + 1) && w.waitingIndex == d.head + 1)
  {
  }

  /** How Step ends: at the lead, or on such a turn. */
  ghost predicate Ended(c: Config, ms: seq<Member>, r: StepResult, now: int, lead: nat)
    requires c.Valid() && ValidMembers(c, ms)
  {
    var next := r.policy.head + 1;
    || (r.wait == 0 && lead <= r.policy.head)
    || (r.wait == 0 && next <= lead < next + c.skew && Nobody(c, ms, next))
    || (&& 0 < r.wait && next <= lead && c.ordered && Late(c, ms, r.policy.primary, next)
        && r.policy.waitingIndex == next && r.wait == c.tolerance - (now - r.policy.waitingSince))
  }

  /** Where Step stops: at the lead; or nobody holds the next index and the lag is
      within the skew; or the next index waits, for as long as Step says. */
  lemma {:induction false} StepEnds(c: Config, d: Policy, ms: seq<Member>, now: int, lead: nat)
    requires ValidPolicy(c, d) && ValidMembers(c, ms)
    ensures var r := StepLoop(c, d, ms, now, lead); r.policy.head <= Max(d.head, lead) && Ended(c, ms, r, now, lead)
    decreases lead - d.head
  {
    if d.head < lead {
      TurnEnds(c, d, ms, now, lead);
      var (turn, t) := TakeTurn(c, d, ms, now, lead);
      if turn.Advance? {
        StepEnds(c, Show(t, c, turn.source), ms, now, lead);
      }
      StepUnfolds(c, d, ms, now, lead);
    }
  }

  /** The wait Step asks for is no longer than the tolerance under a monotone clock. */
  lemma {:induction false} StepWaitBounded(c: Config, d: Policy, ms: seq<Member>, now: int, lead: nat)
    requires ValidPolicy(c, d) && ValidMembers(c, ms) && d.waitingSince <= now && 0 <= c.tolerance
    ensures var r := StepLoop(c, d, ms, now, lead); 0 <= r.wait <= c.tolerance && r.policy.waitingSince <= now
    decreases lead - d.head
  {
    if d.head < lead {
      var (turn, t) := TakeTurn(c, d, ms, now, lead);
      if turn.Advance? {
        StepWaitBounded(c, Show(t, c, turn.source), ms, now, lead);
      }
    }
  }

  /** Step leaves the slots of the indices it does not reach over alone. */
  lemma {:induction false} StepUntouched(c: Config, d: Policy, ms: seq<Member>, now: int, lead: nat, i: nat)
    requires ValidPolicy(c, d) && ValidMembers(c, ms)
    requires i <= d.head && StepLoop(c, d, ms, now, lead).policy.head < i + c.grains
    ensures StepLoop(c, d, ms, now, lead).policy.current[i % c.grains] == d.current[i % c.grains]
    decreases lead - d.head
  {
    if d.head < lead {
      var (turn, t) := TakeTurn(c, d, ms, now, lead);
      if turn.Advance? {
        StepStill(c, Show(t, c, turn.source), ms, now, lead);
        OtherSlot(i, d.head + 1, c.grains);
        StepUntouched(c, Show(t, c, turn.source), ms, now, lead, i);
      }
    }
  }

  /** Every index Step publishes is shown from a member that serves it; from the
      placeholder exactly when nobody does, and then only once the lead is the skew
      past it. */
  lemma {:induction false} StepChoices(c: Config, d: Policy, ms: seq<Member>, now: int, lead: nat, i: nat)
    requires ValidPolicy(c, d) && ValidMembers(c, ms)
    requires d.head < i <= StepLoop(c, d, ms, now, lead).policy.head < i + c.grains
    ensures var s := StepLoop(c, d, ms, now, lead).policy.current[i % c.grains];
            && (s < c.members ==> Serves(c, ms[s], i))
            && (s == c.members <==> Nobody(c, ms, i))
            && (s == c.members ==> i + c.skew <= lead)
    decreases lead - d.head
  {
    var (turn, t) := TakeTurn(c, d, ms, now, lead);
    var next := Show(t, c, turn.source);
    if i == d.head + 1 {
      StepUntouched(c, next, ms, now, lead, i);
    } else {
      StepChoices(c, next, ms, now, lead, i);
    }
  }

  // ------------------------------------------------------------ the primary

  /** No index above the head has waited out the tolerance. */
  ghost predicate Fresh(c: Config, d: Policy, now: int) {
    d.waitingIndex <= d.head || (d.waitingIndex == d.head + 1 && now - d.waitingSince < c.tolerance)
  }

  lemma FreshTurn(c: Config, d: Policy, ms: seq<Member>, now: int, lead: nat)
    requires ValidPolicy(c, d) && ValidMembers(c, ms) && c.ordered && 0 <= d.primary && 0 < c.tolerance && Fresh(c, d, now)
    ensures var (turn, w) := TakeTurn(c, d, ms, now, lead);
            && w.primary == d.primary && w.head == d.head && w.waitingIndex <= d.head + 1
            && (!turn.Advance? && w.waitingIndex == d.head + 1 && d.waitingIndex != w.waitingIndex ==>
                  w.waitingSince == now && Late(c, ms, w.primary, d.head + 1))
  {
  }

  /** From `d` to `r` the primary stays, and an index that began to wait did so now. */
  ghost predicate Stays(c: Config, ms: seq<Member>, now: int, d: Policy, r: Policy)
    requires c.Valid() && ValidMembers(c, ms)
  {
    && r.primary == d.primary && d.head <= r.head && r.waitingIndex <= r.head + 1
    && (r.waitingIndex == r.head + 1 && (r.head > d.head || d.waitingIndex != r.waitingIndex) ==>
          r.waitingSince == now && Late(c, ms, r.primary, r.head + 1))
  }

  lemma StaysOn(c: Config, ms: seq<Member>, now: int, d: Policy, next: Policy, r: Policy)
    requires c.Valid() && ValidMembers(c, ms) && Stays(c, ms, now, next, r)
    requires next.head == d.head + 1 && next.primary == d.primary && next.waitingIndex <= next.head
    ensures Stays(c, ms, now, d, r)
  {
  }

  /** With no wait over, Step does not replace the primary. */
  lemma {:induction false} PrimaryStays(c: Config, d: Policy, ms: seq<Member>, now: int, lead: nat)
    requires ValidPolicy(c, d) && ValidMembers(c, ms) && c.ordered && 0 <= d.primary && 0 < c.tolerance && Fresh(c, d, now)
    ensures Stays(c, ms, now, d, StepLoop(c, d, ms, now, lead).policy)
    decreases lead - d.head
  {
    if d.head < lead {
      FreshTurn(c, d, ms, now, lead);
      var (turn, t) := TakeTurn(c, d, ms, now, lead);
      if turn.Advance? {
        var next := Show(t, c, turn.source);
        PrimaryStays(c, next, ms, now, lead);
        StaysOn(c, ms, now, d, next, StepLoop(c, next, ms, now, lead).policy);
      }
      StepUnfolds(c, d, ms, now, lead);
    }
  }

  /** One turn replaces the primary only for an index that waited out the tolerance. */
  lemma PrimaryTurn(c: Config, d: Policy, ms: seq<Member>, now: int, lead: nat)
    requires ValidPolicy(c, d) && ValidMembers(c, ms) && c.ordered && 0 <= d.primary && 0 < c.tolerance
    requires d.waitingIndex <= d.head + 1
    ensures var (turn, w) := TakeTurn(c, d, ms, now, lead);
            && 0 <= w.primary && w.waitingIndex <= d.head + 1 && w.head == d.head
            && (w.primary != d.primary ==>
                  && turn.Advance? && d.waitingIndex == d.head + 1 && now - d.waitingSince >= c.tolerance
                  && ms[d.primary].head < d.head + 1 && Serves(c, ms[w.primary], d.head + 1))
            && (!turn.Advance? ==> w == d || (w.waitingSince == now && Late(c, ms, w.primary, d.head + 1)))
  {
  }

  /** One Step replaces the primary only at the index that waited, by a member that
      serves it, while the primary's head has not reached it, after the tolerance. */
  lemma {:induction false} PrimaryStep(c: Config, d: Policy, ms: seq<Member>, now: int, lead: nat)
    requires ValidPolicy(c, d) && ValidMembers(c, ms) && c.ordered && 0 <= d.primary && 0 < c.tolerance
    requires d.waitingIndex <= d.head + 1
    ensures var r := StepLoop(c, d, ms, now, lead).policy;
            && 0 <= r.primary && d.head <= r.head && r.waitingIndex <= r.head + 1
            && (r.primary != d.primary ==>
                  && d.waitingIndex == d.head + 1 && now - d.waitingSince >= c.tolerance
                  && ms[d.primary].head < d.head + 1 && Serves(c, ms[r.primary], d.head + 1))
            && (r.waitingIndex == r.head + 1 ==>
                  || (r.waitingSince == now && Late(c, ms, r.primary, r.head + 1))
                  || (d.waitingIndex == r.waitingIndex && d.waitingSince == r.waitingSince && r.head == d.head && r.primary == d.primary))
  {
    if d.head < lead {
      var (turn, t) := TakeTurn(c, d, ms, now, lead);
      if turn.Advance? {
        PrimaryStays(c, Show(t, c, turn.source), ms, now, lead);
      }
      PrimaryTurn(c, d, ms, now, lead);
      StepUnfolds(c, d, ms, now, lead);
    }
  }

  ghost predicate SameDecision(d: Policy, e: Policy) {
    && d.head == e.head && d.primary == e.primary
    && d.waitingIndex == e.waitingIndex && d.waitingSince == e.waitingSince
  }

  /** What the engine calls on the policy, with the members as they then are. */
  datatype Call =
    | CallStep(ms: seq<Member>, now: int)
    | CallRetire(ms: seq<Member>, due: nat)
    | CallDrop(ms: seq<Member>, m: nat)

  function After(c: Config, d: Policy, op: Call): (r: Policy)
    requires ValidPolicy(c, d) && ValidMembers(c, op.ms)
    ensures ValidPolicy(c, r)
  {
    match op
    case CallStep(ms, now) => Step(c, d, ms, now).policy
    case CallRetire(ms, due) => Retire(c, d, ms, due).policy
    case CallDrop(ms, m) => Drop(c, d, ms, m).policy
  }

  /** The head, the primary and the wait are Step's to decide. */
  lemma OnlyStepDecides(c: Config, d: Policy, op: Call)
    requires ValidPolicy(c, d) && ValidMembers(c, op.ms) && !op.CallStep?
    ensures SameDecision(After(c, d, op), d)
  {
  }

  ghost predicate CalledAt(c: Config, ds: seq<Policy>, ops: seq<Call>, k: nat)
    requires k < |ops| < |ds| && ValidPolicy(c, ds[k]) && ValidMembers(c, ops[k].ms)
  {
    ds[k + 1] == After(c, ds[k], ops[k])
  }

  /** A run of calls, in any order, from a policy that has published nothing. */
  ghost predicate CallRun(c: Config, ds: seq<Policy>, ops: seq<Call>) {
    && c.Valid() && |ds| == |ops| + 1
    && ds[0].head == 0 && ds[0].waitingIndex == 0
    && (forall k :: 0 <= k < |ds| ==> ValidPolicy(c, ds[k]))
    && (forall k :: 0 <= k < |ops| ==> ValidMembers(c, ops[k].ms))
    && forall k :: 0 <= k < |ops| ==> CalledAt(c, ds, ops, k)
  }

  /** The index after `ds[k]`'s head was first found waiting by the Step of call j, behind
      the primary `ds[k]` still has. */
  ghost predicate WaitedSince(c: Config, ds: seq<Policy>, ops: seq<Call>, j: nat, k: nat)
    requires CallRun(c, ds, ops) && j < k < |ds|
  {
    && ops[j].CallStep? && ds[k].waitingSince == ops[j].now
    && Late(c, ops[j].ms, ds[k].primary, ds[k].head + 1)
    && forall l :: j < l <= k ==> ds[l].head == ds[k].head && ds[l].primary == ds[k].primary
  }

  /** One Step: an index waiting after it was found waiting now, or was waiting before. */
  lemma WaitStep(c: Config, d: Policy, ms: seq<Member>, now: int)
    requires ValidPolicy(c, d) && ValidMembers(c, ms) && c.ordered && 0 < c.tolerance
    requires d.waitingIndex <= d.head + 1 && (d.primary < 0 ==> d.head == 0 == d.waitingIndex)
    ensures var r := Step(c, d, ms, now).policy;
            && 0 <= r.primary && r.waitingIndex <= r.head + 1
            && (r.waitingIndex == r.head + 1 ==>
                  || (r.waitingSince == now && Late(c, ms, r.primary, r.head + 1))
                  || (d.waitingIndex == d.head + 1 && SameDecision(r, d)))
  {
    var lead := Lead(ms, |ms|);
    PrimaryStep(c, StepStart(c, d, lead), ms, now, lead);
  }

  /** One call of any kind. */
  lemma WaitCall(c: Config, d: Policy, op: Call)
    requires ValidPolicy(c, d) && ValidMembers(c, op.ms) && c.ordered && 0 < c.tolerance
    requires d.waitingIndex <= d.head + 1 && (d.primary < 0 ==> d.head == 0 == d.waitingIndex)
    ensures var r := After(c, d, op);
            && r.waitingIndex <= r.head + 1 && (r.primary < 0 ==> r.head == 0 == r.waitingIndex)
            && (r.waitingIndex == r.head + 1 ==>
                  || (op.CallStep? && r.waitingSince == op.now && Late(c, op.ms, r.primary, r.head + 1))
                  || (d.waitingIndex == d.head + 1 && SameDecision(r, d)))
  {
    if op.CallStep? { WaitStep(c, d, op.ms, op.now); } else { OnlyStepDecides(c, d, op); }
  }

  lemma WaitsOn(c: Config, ds: seq<Policy>, ops: seq<Call>, i: nat, j: nat)
    requires CallRun(c, ds, ops) && i < j < |ops| && WaitedSince(c, ds, ops, i, j) && SameDecision(ds[j + 1], ds[j])
    ensures WaitedSince(c, ds, ops, i, j + 1)
  {
  }

  lemma {:induction false} WaitHistory(c: Config, ds: seq<Policy>, ops: seq<Call>, k: nat)
    requires CallRun(c, ds, ops) && c.ordered && 0 < c.tolerance && k < |ds|
    ensures ds[k].waitingIndex <= ds[k].head + 1
    ensures ds[k].primary < 0 ==> ds[k].head == 0 == ds[k].waitingIndex
    ensures ds[k].waitingIndex == ds[k].head + 1 ==> exists j: nat :: j < k && WaitedSince(c, ds, ops, j, k)
  {
    if k > 0 {
      var j := k - 1;
      WaitHistory(c, ds, ops, j);
      WaitCall(c, ds[j], ops[j]);
      assert CalledAt(c, ds, ops, j);
      if ds[k].waitingIndex == ds[k].head + 1 {
        if ops[j].CallStep? && ds[k].waitingSince == ops[j].now && Late(c, ops[j].ms, ds[k].primary, ds[k].head + 1) {
          assert WaitedSince(c, ds, ops, j, k);
        } else {
          var i: nat :| i < j && WaitedSince(c, ds, ops, i, j);
          WaitsOn(c, ds, ops, i, j);
        }
      }
    }
  }

  /** In every run an ordered set's primary is replaced only by a Step, at an index that
      another member serves, that the primary's head has not reached, and that was first
      found waiting behind this primary at least the tolerance earlier. */
  lemma {:induction false} PrimaryStable(c: Config, ds: seq<Policy>, ops: seq<Call>, k: nat)
    requires CallRun(c, ds, ops) && c.ordered && 0 < c.tolerance && k < |ops|
    requires 0 <= ds[k].primary != ds[k + 1].primary
    ensures ops[k].CallStep?
    ensures var i := ds[k].head + 1;
            && 0 <= ds[k + 1].primary && Serves(c, ops[k].ms[ds[k + 1].primary], i)
            && ops[k].ms[ds[k].primary].head < i
            && exists j: nat :: j < k && WaitedSince(c, ds, ops, j, k) && ops[k].now - ops[j].now >= c.tolerance
  {
    WaitHistory(c, ds, ops, k);
    assert CalledAt(c, ds, ops, k);
    if ops[k].CallStep? {
      var ms := ops[k].ms;
      var lead := Lead(ms, |ms|);
      PrimaryStep(c, StepStart(c, ds[k], lead), ms, ops[k].now, lead);
    } else {
      OnlyStepDecides(c, ds[k], ops[k]);
    }
  }

  // ---------------------------------------------------------------- Retire

  /** Retire moves exactly the trusted slots whose source may write the next ring
      period into them, each to the first other member that holds the index and will
      not, or to the placeholder when there is none. */
  lemma {:induction false} RetireExact(c: Config, current: seq<int>, head: nat, ms: seq<Member>, next: seq<nat>, from: nat, i: nat)
    requires c.Valid() && Sources(c, current) && ValidMembers(c, ms) && |next| == |ms|
    requires Low(c, head) <= from && Low(c, head) <= i <= head
    ensures var cur := current[i % c.grains];
            RetireLoop(c, current, head, ms, next, from).current[i % c.grains] ==
            if i >= from && AtRisk(c, next, cur, i) then Heir(c, ms, next, cur, i, 0) else cur
    decreases head + 1 - from
  {
    var slot := from % c.grains;
    if from > head || from + c.grains > Reach(next, |next|) {
      if i >= from && current[i % c.grains] < c.members { ReachBound(next, |next|, current[i % c.grains]); }
    } else {
      if i < from { OtherSlot(i, from, c.grains); } else if i > from { OtherSlot(from, i, c.grains); }
      var to := Heir(c, ms, next, current[slot], from, 0);
      RetireExact(c, if AtRisk(c, next, current[slot], from) then current[slot := to] else current, head, ms, next, from + 1, i);
    }
  }

  lemma ReachBelow(next: seq<nat>, n: nat, bound: nat)
    requires n <= |next| && bound > 0 && forall m :: 0 <= m < n ==> next[m] < bound
    ensures Reach(next, n) < bound
  {
    if n > 0 { ReachBelow(next, n - 1, bound); }
  }

  /** Nothing moves while the output keeps up with what the members may write. */
  lemma RetireIdle(c: Config, d: Policy, ms: seq<Member>, due: nat)
    requires ValidPolicy(c, d) && ValidMembers(c, ms)
    requires forall m :: 0 <= m < |ms| ==>
               NextWrites(Observe(d, ms, due).late, ms, due)[m] < Low(c, d.head) + c.grains
    ensures Retire(c, d, ms, due).selects == [] && Retire(c, d, ms, due).policy.current == d.current
  {
    var next := NextWrites(Observe(d, ms, due).late, ms, due);
    ReachBelow(next, |next|, Low(c, d.head) + c.grains);
  }
}
