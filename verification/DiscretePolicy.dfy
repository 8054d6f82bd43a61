/** The discrete merge policy of gateway/internal/merge/policy.go: which member's
    ring each slot of a merged video or data flow shows, and how far the output
    may be published.

    `Step`, `Retire` and `Drop` give the three operations as functions of the
    policy's state; the class `Discrete` of module DiscreteMerge runs them in place
    on an array and is proved against them. */
module DiscretePolicy {
  import opened Common
  import opened Ring

  /** A grain header: the index in a ring slot, and how much of the grain is there. */
  datatype Grain = Grain(index: nat, invalid: bool, validSlices: nat, totalSlices: nat)

  /** One member as the policy sees it: its head, and the headers of its ring. */
  datatype Member = Member(head: nat, ring: seq<Grain>)

  /** An order to the views: `slot` shows `source` from now on, as grain `index`. */
  datatype Select = Select(slot: nat, source: int, index: nat)

  /** The set's parameters. Sources 0..members-1 are the members and source
      `members` is the INVALID placeholder. */
  datatype Config = Config(grains: nat, members: nat, data: bool, skew: nat, tolerance: int, ordered: bool) {
    ghost predicate Valid() {
      2 <= grains && 1 <= members
    }
  }

  /** The state `Step`, `Retire` and `Drop` update. */
  datatype Policy = Policy(
    head: nat, primary: int, current: seq<int>,
    waitingIndex: nat, waitingSince: int,
    seen: seq<nat>, late: seq<nat>)

  ghost predicate Sources(c: Config, current: seq<int>) {
    |current| == c.grains && forall s :: 0 <= s < |current| ==> 0 <= current[s] <= c.members
  }

  ghost predicate ValidPolicy(c: Config, d: Policy) {
    && c.Valid()
    && Sources(c, d.current)
    && -1 <= d.primary < c.members
    && |d.seen| == |d.late|
  }

  ghost predicate ValidMembers(c: Config, ms: seq<Member>) {
    |ms| == c.members && forall m :: 0 <= m < |ms| ==> |ms[m].ring| == c.grains
  }

  /** A committed grain is complete: for video all slices valid, for data always. */
  predicate Complete(c: Config, g: Grain, index: nat) {
    g.index == index && !g.invalid && (c.data || g.validSlices >= g.totalSlices)
  }

  predicate Serves(c: Config, m: Member, index: nat)
    requires c.Valid() && |m.ring| == c.grains
  {
    && index <= m.head
    && m.head - index <= c.grains - 2
    && Complete(c, m.ring[index % c.grains], index)
  }

  /** The leading member's head among the first `n`. */
  function Lead(ms: seq<Member>, n: nat): nat
    requires n <= |ms|
  {
    if n == 0 then 0 else if ms[n - 1].head > Lead(ms, n - 1) then ms[n - 1].head else Lead(ms, n - 1)
  }

  /** The first member from `from` on, other than `skip`, that serves `index`; -1 when none does. */
  function FirstServing(c: Config, ms: seq<Member>, index: nat, skip: int, from: nat): (r: int)
    requires c.Valid() && ValidMembers(c, ms) && from <= |ms|
    ensures r == -1 <==> forall m :: from <= m < |ms| && m != skip ==> !Serves(c, ms[m], index)
    ensures r != -1 ==> from <= r < |ms| && r != skip && Serves(c, ms[r], index)
    ensures r != -1 ==> forall m :: from <= m < r && m != skip ==> !Serves(c, ms[m], index)
    decreases |ms| - from
  {
    if from == |ms| then -1
    else if from != skip && Serves(c, ms[from], index) then from
    else FirstServing(c, ms, index, skip, from + 1)
  }

  // ------------------------------------------------------------------ Step

  /** What one turn of Step's loop does with the next index. */
  datatype Turn = Advance(source: int) | Wait(remaining: int) | Stop

  /** The turn at index head + 1, and the state it leaves apart from head and current. */
  function TakeTurn(c: Config, d: Policy, ms: seq<Member>, now: int, lead: nat): (r: (Turn, Policy))
    requires ValidPolicy(c, d) && ValidMembers(c, ms)
    ensures ValidPolicy(c, r.1) && r.1.head == d.head && r.1.current == d.current
    ensures r.0.Advance? ==> 0 <= r.0.source <= c.members
  {
    var index := d.head + 1;
    var serving := c.ordered && 0 <= d.primary && Serves(c, ms[d.primary], index);
    var alt := FirstServing(c, ms, index, if c.ordered then d.primary else -1, 0);
    if serving then (Advance(d.primary), d)
    else if alt >= 0 && !c.ordered then
      (Advance(alt), if d.primary < 0 then d.(primary := alt) else d)
    else if alt >= 0 then
      var w := if d.waitingIndex != index then d.(waitingIndex := index, waitingSince := now) else d;
      if d.primary < 0 then (Advance(alt), w.(primary := alt))
      else if ms[d.primary].head >= index then (Advance(alt), w)
      else if now - w.waitingSince >= c.tolerance then (Advance(alt), w.(primary := alt))
      else (Wait(c.tolerance - (now - w.waitingSince)), w)
    else if lead < index + c.skew then (Stop, d)
    else (Advance(c.members), d)
  }

  /** The selects a slot's new source takes: none when the slot shows it already. */
  function SelectOf(current: seq<int>, slot: nat, source: int, index: nat): seq<Select>
    requires slot < |current|
  {
    if current[slot] == source then [] else [Select(slot, source, index)]
  }

  /** The state after index head + 1 is shown from `source`. */
  function Show(d: Policy, c: Config, source: int): (r: Policy)
    requires ValidPolicy(c, d) && 0 <= source <= c.members
    ensures ValidPolicy(c, r) && r.head == d.head + 1
  {
    d.(head := d.head + 1, current := d.current[(d.head + 1) % c.grains := source])
  }

  datatype StepResult = StepResult(policy: Policy, selects: seq<Select>, wait: int)

  function StepLoop(c: Config, d: Policy, ms: seq<Member>, now: int, lead: nat): (r: StepResult)
    requires ValidPolicy(c, d) && ValidMembers(c, ms)
    ensures ValidPolicy(c, r.policy)
    decreases lead - d.head
  {
    if d.head >= lead then StepResult(d, [], 0)
    else
      var (turn, w) := TakeTurn(c, d, ms, now, lead);
      match turn
      case Stop => StepResult(w, [], 0)
      case Wait(remaining) => StepResult(w, [], remaining)
      case Advance(source) =>
        var index := d.head + 1;
        var rest := StepLoop(c, Show(w, c, source), ms, now, lead);
        StepResult(rest.policy, SelectOf(d.current, index % c.grains, source, index) + rest.selects, rest.wait)
  }

  /** One turn of the loop, taken off the front. */
  lemma StepUnfolds(c: Config, d: Policy, ms: seq<Member>, now: int, lead: nat)
    requires ValidPolicy(c, d) && ValidMembers(c, ms) && d.head < lead
    ensures var (turn, w) := TakeTurn(c, d, ms, now, lead);
            if turn.Advance? then
              var rest := StepLoop(c, Show(w, c, turn.source), ms, now, lead);
              StepLoop(c, d, ms, now, lead) ==
              StepResult(rest.policy,
                         SelectOf(d.current, (d.head + 1) % c.grains, turn.source, d.head + 1) + rest.selects,
                         rest.wait)
            else
              StepLoop(c, d, ms, now, lead) == StepResult(w, [], if turn.Wait? then turn.remaining else 0)
  {
  }

  /** One whole turn: what it decides, the policy it leaves, and its selects. */
  ghost predicate Turned(c: Config, d: Policy, ms: seq<Member>, now: int, lead: nat, turn: Turn, e: Policy, selects: seq<Select>)
    requires ValidPolicy(c, d) && ValidMembers(c, ms)
  {
    var (t, w) := TakeTurn(c, d, ms, now, lead);
    && turn == t
    && e == (if t.Advance? then Show(w, c, t.source) else w)
    && selects == if t.Advance? then SelectOf(d.current, (d.head + 1) % c.grains, t.source, d.head + 1) else []
  }

  /** The loop is at `d`, with `selects` so far, on its way to `whole`. */
  ghost predicate Stepping(c: Config, ms: seq<Member>, now: int, lead: nat, whole: StepResult, d: Policy, selects: seq<Select>)
    requires ValidPolicy(c, d) && ValidMembers(c, ms)
  {
    var rest := StepLoop(c, d, ms, now, lead);
    whole == StepResult(rest.policy, selects + rest.selects, rest.wait)
  }

  lemma SteppingStarts(c: Config, ms: seq<Member>, now: int, lead: nat, d: Policy)
    requires ValidPolicy(c, d) && ValidMembers(c, ms)
    ensures Stepping(c, ms, now, lead, StepLoop(c, d, ms, now, lead), d, [])
  {
    var rest := StepLoop(c, d, ms, now, lead);
    assert [] + rest.selects == rest.selects;
  }

  lemma SteppingTurns(c: Config, ms: seq<Member>, now: int, lead: nat, whole: StepResult, d: Policy, selects: seq<Select>,
                      turn: Turn, e: Policy, sel: seq<Select>)
    requires ValidPolicy(c, d) && ValidMembers(c, ms) && d.head < lead && Stepping(c, ms, now, lead, whole, d, selects)
    requires Turned(c, d, ms, now, lead, turn, e, sel)
    ensures turn.Advance? ==> ValidPolicy(c, e) && e.head == d.head + 1 && Stepping(c, ms, now, lead, whole, e, selects + sel)
    ensures !turn.Advance? ==> whole == StepResult(e, selects, if turn.Wait? then turn.remaining else 0)
  {
    StepUnfolds(c, d, ms, now, lead);
    if turn.Advance? {
      var rest := StepLoop(c, e, ms, now, lead);
      assert selects + (sel + rest.selects) == (selects + sel) + rest.selects;
    } else {
      assert selects + [] == selects;
    }
  }

  lemma SteppingEnds(c: Config, ms: seq<Member>, now: int, lead: nat, whole: StepResult, d: Policy, selects: seq<Select>)
    requires ValidPolicy(c, d) && ValidMembers(c, ms) && lead <= d.head && Stepping(c, ms, now, lead, whole, d, selects)
    ensures whole == StepResult(d, selects, 0)
  {
    assert selects + [] == selects;
  }

  /** The state Step's loop starts from: an ordered set has a primary, and a set
      that published nothing starts at the leading member's newest grain. */
  function StepStart(c: Config, d: Policy, lead: nat): Policy {
    var p := if c.ordered && d.primary < 0 then d.(primary := 0) else d;
    if d.head == 0 && lead > 0 then p.(head := lead - 1) else p
  }

  function Step(c: Config, d: Policy, ms: seq<Member>, now: int): (r: StepResult)
    requires ValidPolicy(c, d) && ValidMembers(c, ms)
    ensures ValidPolicy(c, r.policy)
  {
    var lead := Lead(ms, |ms|);
    StepLoop(c, StepStart(c, d, lead), ms, now, lead)
  }

  // ---------------------------------------------------------------- Retire

  /** The oldest index readers trust under a published head. */
  function Low(c: Config, head: nat): nat {
    if head + 2 > c.grains then head + 2 - c.grains else 1
  }

  /** Retire's record of the heads it last saw and how late each was then. */
  function Observe(d: Policy, ms: seq<Member>, due: nat): (r: Policy)
    requires |d.seen| == |d.late|
    ensures |r.seen| == |r.late| == |ms|
  {
    var seen := if |d.seen| != |ms| then seq(|ms|, _ => 0) else d.seen;
    var late := if |d.seen| != |ms| then seq(|ms|, _ => 0) else d.late;
    d.(seen := seq(|ms|, m requires 0 <= m < |ms| => ms[m].head),
       late := seq(|ms|, m requires 0 <= m < |ms| =>
         if ms[m].head != seen[m] then due - Min(due, ms[m].head) else late[m]))
  }

  /** The highest index each member may write before the next pass. */
  function NextWrites(late: seq<nat>, ms: seq<Member>, due: nat): (r: seq<nat>)
    requires |late| == |ms|
    ensures |r| == |ms|
  {
    seq(|ms|, m requires 0 <= m < |ms| => Max(ms[m].head + 1, due - Min(due, late[m])))
  }

  function Reach(next: seq<nat>, n: nat): nat
    requires n <= |next|
  {
    if n == 0 then 0 else Max(Reach(next, n - 1), next[n - 1])
  }

  lemma ReachBound(next: seq<nat>, n: nat, m: nat)
    requires m < n <= |next|
    ensures next[m] <= Reach(next, n)
  {
    if m < n - 1 { ReachBound(next, n - 1, m); }
  }

  /** The first member from `from` on, other than `cur`, that holds `i` and will not
      write over it before the next pass; the placeholder when there is none. */
  function Heir(c: Config, ms: seq<Member>, next: seq<nat>, cur: int, i: nat, from: nat): (r: int)
    requires c.Valid() && ValidMembers(c, ms) && |next| == |ms| && from <= |ms|
    ensures from <= r <= c.members
    ensures r < c.members ==> r != cur && Serves(c, ms[r], i) && next[r] < i + c.grains
    ensures forall m :: from <= m < r && m != cur ==> !(Serves(c, ms[m], i) && next[m] < i + c.grains)
    decreases |ms| - from
  {
    if from == |ms| then c.members
    else if from != cur && Serves(c, ms[from], i) && next[from] < i + c.grains then from
    else Heir(c, ms, next, cur, i, from + 1)
  }

  datatype Moves = Moves(current: seq<int>, selects: seq<Select>)

  /** A slot is at risk when its source may write the next ring period's grain into it. */
  predicate AtRisk(c: Config, next: seq<nat>, cur: int, i: nat)
    requires 0 <= cur <= c.members == |next|
  {
    cur != c.members && next[cur] >= i + c.grains
  }

  function RetireLoop(c: Config, current: seq<int>, head: nat, ms: seq<Member>, next: seq<nat>, i: nat): (r: Moves)
    requires c.Valid() && Sources(c, current) && ValidMembers(c, ms) && |next| == |ms|
    ensures Sources(c, r.current)
    decreases head + 1 - i
  {
    if i > head || i + c.grains > Reach(next, |next|) then Moves(current, [])
    else
      var slot := i % c.grains;
      var cur := current[slot];
      if !AtRisk(c, next, cur, i) then RetireLoop(c, current, head, ms, next, i + 1)
      else
        var to := Heir(c, ms, next, cur, i, 0);
        var rest := RetireLoop(c, current[slot := to], head, ms, next, i + 1);
        Moves(rest.current, [Select(slot, to, i)] + rest.selects)
  }

  /** The slots after the turn of index `i`, and the selects of the turn. */
  function MoveOf(c: Config, current: seq<int>, ms: seq<Member>, next: seq<nat>, i: nat): (r: Moves)
    requires c.Valid() && Sources(c, current) && ValidMembers(c, ms) && |next| == |ms|
    ensures Sources(c, r.current)
  {
    var slot := i % c.grains;
    if AtRisk(c, next, current[slot], i) then
      var to := Heir(c, ms, next, current[slot], i, 0);
      Moves(current[slot := to], [Select(slot, to, i)])
    else Moves(current, [])
  }

  /** One turn of the loop, taken off the front, and its end. */
  lemma RetireUnfolds(c: Config, current: seq<int>, head: nat, ms: seq<Member>, next: seq<nat>, i: nat)
    requires c.Valid() && Sources(c, current) && ValidMembers(c, ms) && |next| == |ms|
    ensures if i <= head && i + c.grains <= Reach(next, |next|) then
              var move := MoveOf(c, current, ms, next, i);
              var rest := RetireLoop(c, move.current, head, ms, next, i + 1);
              RetireLoop(c, current, head, ms, next, i) == Moves(rest.current, move.selects + rest.selects)
            else RetireLoop(c, current, head, ms, next, i) == Moves(current, [])
  {
    var rest := RetireLoop(c, current, head, ms, next, i + 1);
    assert [] + rest.selects == rest.selects;
  }

  /** The loop is at index `i`, with `selects` so far, on its way to `whole`. */
  ghost predicate Retiring(c: Config, head: nat, ms: seq<Member>, next: seq<nat>, whole: Moves, current: seq<int>, i: nat, selects: seq<Select>)
    requires c.Valid() && Sources(c, current) && ValidMembers(c, ms) && |next| == |ms|
  {
    var rest := RetireLoop(c, current, head, ms, next, i);
    whole == Moves(rest.current, selects + rest.selects)
  }

  lemma RetiringStarts(c: Config, head: nat, ms: seq<Member>, next: seq<nat>, current: seq<int>, i: nat)
    requires c.Valid() && Sources(c, current) && ValidMembers(c, ms) && |next| == |ms|
    ensures Retiring(c, head, ms, next, RetireLoop(c, current, head, ms, next, i), current, i, [])
  {
    var rest := RetireLoop(c, current, head, ms, next, i);
    assert [] + rest.selects == rest.selects;
  }

  lemma RetiringTurns(c: Config, head: nat, ms: seq<Member>, next: seq<nat>, whole: Moves, current: seq<int>, i: nat, selects: seq<Select>)
    requires c.Valid() && Sources(c, current) && ValidMembers(c, ms) && |next| == |ms|
    requires i <= head && i + c.grains <= Reach(next, |next|) && Retiring(c, head, ms, next, whole, current, i, selects)
    ensures var move := MoveOf(c, current, ms, next, i);
            Retiring(c, head, ms, next, whole, move.current, i + 1, selects + move.selects)
  {
    var move := MoveOf(c, current, ms, next, i);
    var rest := RetireLoop(c, move.current, head, ms, next, i + 1);
    assert selects + (move.selects + rest.selects) == (selects + move.selects) + rest.selects;
    RetireUnfolds(c, current, head, ms, next, i);
  }

  lemma RetiringEnds(c: Config, head: nat, ms: seq<Member>, next: seq<nat>, whole: Moves, current: seq<int>, i: nat, selects: seq<Select>)
    requires c.Valid() && Sources(c, current) && ValidMembers(c, ms) && |next| == |ms|
    requires i > head || i + c.grains > Reach(next, |next|)
    requires Retiring(c, head, ms, next, whole, current, i, selects)
    ensures whole == Moves(current, selects)
  {
    assert selects + [] == selects;
  }

  datatype PolicyMoves = PolicyMoves(policy: Policy, selects: seq<Select>)

  function Retire(c: Config, d: Policy, ms: seq<Member>, due: nat): (r: PolicyMoves)
    requires ValidPolicy(c, d) && ValidMembers(c, ms)
    ensures ValidPolicy(c, r.policy)
  {
    var o := Observe(d, ms, due);
    var r := RetireLoop(c, d.current, d.head, ms, NextWrites(o.late, ms, due), Low(c, d.head));
    PolicyMoves(o.(current := r.current), r.selects)
  }

  // ------------------------------------------------------------------ Drop

  /** The first other member holding the index the slot shows below the head. */
  function DropTarget(c: Config, head: nat, ms: seq<Member>, m: nat, slot: nat): (r: int)
    requires c.Valid() && ValidMembers(c, ms) && slot < c.grains
    ensures 0 <= r <= c.members
  {
    var back := Behind(head, slot, c.grains);
    if head < back then c.members
    else
      var first := FirstServing(c, ms, head - back, m, 0);
      if first >= 0 then first else c.members
  }

  function DropLoop(c: Config, current: seq<int>, head: nat, ms: seq<Member>, m: nat, slot: nat): (r: Moves)
    requires c.Valid() && Sources(c, current) && ValidMembers(c, ms) && slot <= c.grains
    ensures Sources(c, r.current)
    decreases c.grains - slot
  {
    if slot == c.grains then Moves(current, [])
    else if current[slot] != m then DropLoop(c, current, head, ms, m, slot + 1)
    else
      var back := Behind(head, slot, c.grains);
      var index := if head >= back then head - back else 0;
      var to := DropTarget(c, head, ms, m, slot);
      var rest := DropLoop(c, current[slot := to], head, ms, m, slot + 1);
      Moves(rest.current, [Select(slot, to, index)] + rest.selects)
  }

  function Drop(c: Config, d: Policy, ms: seq<Member>, m: nat): (r: PolicyMoves)
    requires ValidPolicy(c, d) && ValidMembers(c, ms)
    ensures ValidPolicy(c, r.policy)
  {
    var r := DropLoop(c, d.current, d.head, ms, m, 0);
    PolicyMoves(d.(current := r.current), r.selects)
  }

  /** Half the skew budget, and no less than 2ms (in nanoseconds). */
  function ToleranceFor(skew: int): (r: int)
    ensures r >= 2_000_000 && (r == 2_000_000 || skew - 1 <= 2 * r <= skew) && skew <= 2 * r + 1
  {
    Max(if skew < 0 then -(-skew / 2) else skew / 2, 2_000_000)
  }

  // ----------------------------------------------------------- exactness

  /** A Step that does not move the head changes no slot. */
  lemma StepStill(c: Config, d: Policy, ms: seq<Member>, now: int, lead: nat)
    requires ValidPolicy(c, d) && ValidMembers(c, ms)
    ensures var r := StepLoop(c, d, ms, now, lead);
            d.head <= r.policy.head && (r.policy.head == d.head ==> r.policy.current == d.current)
    decreases lead - d.head
  {
    if d.head < lead {
      var (turn, t) := TakeTurn(c, d, ms, now, lead);
      if turn.Advance? { StepStill(c, Show(t, c, turn.source), ms, now, lead); }
    }
  }

  /** Drop leaves no slot on the member, and touches no other slot. */
  lemma {:induction false} DropExact(c: Config, current: seq<int>, head: nat, ms: seq<Member>, m: nat, from: nat)
    requires c.Valid() && Sources(c, current) && ValidMembers(c, ms) && m < c.members && from <= c.grains
    ensures var r := DropLoop(c, current, head, ms, m, from);
            forall k :: 0 <= k < c.grains ==>
              r.current[k] == if k >= from && current[k] == m then DropTarget(c, head, ms, m, k) else current[k]
    ensures forall k :: 0 <= k < c.grains ==> DropTarget(c, head, ms, m, k) != m
    decreases c.grains - from
  {
    if from < c.grains {
      var to := DropTarget(c, head, ms, m, from);
      DropExact(c, if current[from] == m then current[from := to] else current, head, ms, m, from + 1);
    }
  }
}
