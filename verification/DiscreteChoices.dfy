/** What the discrete policy's calls come to, said without their own steps: whom Step shows
    each index from and when it waits, how far Retire takes members to write, and where Drop
    moves a slot (gateway/internal/merge/policy.go). */
module DiscreteChoices {
  import opened Common
  import opened Ring
  import opened DiscretePolicy
  import opened DiscreteDecisions

  /** `lead` is the greatest of the members' heads. */
  ghost predicate Greatest(ms: seq<Member>, lead: nat) {
    && (forall m :: 0 <= m < |ms| ==> ms[m].head <= lead)
    && (lead == 0 || exists m :: 0 <= m < |ms| && ms[m].head == lead)
  }

  lemma LeadGreatest(ms: seq<Member>, n: nat)
    requires n <= |ms|
    ensures forall m :: 0 <= m < n ==> ms[m].head <= Lead(ms, n)
    ensures Lead(ms, n) == 0 || exists m :: 0 <= m < n && ms[m].head == Lead(ms, n)
  {
  }

  lemma LeadIs(ms: seq<Member>, lead: nat)
    requires Greatest(ms, lead)
    ensures Lead(ms, |ms|) == lead
  {
    LeadGreatest(ms, |ms|);
  }

  // ------------------------------------------------------ whom Step shows

  /** Index `i` is shown from the primary `p` if that has it; otherwise from the least
      member that has it, and from the placeholder when none has. */
  ghost predicate Chosen(c: Config, ms: seq<Member>, p: int, i: nat, s: int)
    requires c.Valid() && ValidMembers(c, ms) && -1 <= p < c.members
  {
    if 0 <= p && Serves(c, ms[p], i) then s == p
    else if 0 <= s < c.members then Serves(c, ms[s], i) && forall m :: 0 <= m < s ==> !Serves(c, ms[m], i)
    else s == c.members && Nobody(c, ms, i)
  }

  /** The primary a turn goes by: none in a set that serves first arrivals. */
  function Prefers(c: Config, primary: int): int { if c.ordered then primary else -1 }

  lemma TurnChosen(c: Config, d: Policy, ms: seq<Member>, now: int, lead: nat)
    requires ValidPolicy(c, d) && ValidMembers(c, ms)
    ensures var turn := TakeTurn(c, d, ms, now, lead).0;
            turn.Advance? ==> Chosen(c, ms, Prefers(c, d.primary), d.head + 1, turn.source)
  {
  }

  lemma {:induction false} FirstArrivals(c: Config, d: Policy, ms: seq<Member>, now: int, lead: nat, i: nat)
    requires ValidPolicy(c, d) && ValidMembers(c, ms) && !c.ordered
    requires d.head < i <= StepLoop(c, d, ms, now, lead).policy.head < i + c.grains
    ensures Chosen(c, ms, -1, i, StepLoop(c, d, ms, now, lead).policy.current[i % c.grains])
    decreases lead - d.head
  {
    StepUnfolds(c, d, ms, now, lead);
    var (turn, t) := TakeTurn(c, d, ms, now, lead);
    var next := Show(t, c, turn.source);
    if i == d.head + 1 {
      TurnChosen(c, d, ms, now, lead);
      StepUntouched(c, next, ms, now, lead, i);
    } else {
      FirstArrivals(c, next, ms, now, lead, i);
    }
  }

  /** A turn passes an index its primary is late with only once that has waited out the
      tolerance, and then makes its source the primary. */
  lemma LateTurn(c: Config, d: Policy, ms: seq<Member>, now: int, lead: nat)
    requires ValidPolicy(c, d) && ValidMembers(c, ms) && c.ordered && 0 <= d.primary && 0 < c.tolerance
    ensures var (turn, w) := TakeTurn(c, d, ms, now, lead);
            turn.Advance? && Late(c, ms, d.primary, d.head + 1) ==>
              d.waitingIndex == d.head + 1 && now - d.waitingSince >= c.tolerance && w.primary == turn.source
    ensures var (turn, w) := TakeTurn(c, d, ms, now, lead);
            turn.Wait? ==> w.waitingSince == if d.waitingIndex == d.head + 1 then d.waitingSince else now
  {
  }

  /** Behind a primary no wait of which is over, Step shows every index from it that it has,
      and passes none it is late with. */
  lemma {:induction false} BehindPrimary(c: Config, d: Policy, ms: seq<Member>, now: int, lead: nat, i: nat)
    requires ValidPolicy(c, d) && ValidMembers(c, ms) && c.ordered && 0 <= d.primary && 0 < c.tolerance && Fresh(c, d, now)
    requires d.head < i <= StepLoop(c, d, ms, now, lead).policy.head < i + c.grains
    ensures Chosen(c, ms, d.primary, i, StepLoop(c, d, ms, now, lead).policy.current[i % c.grains])
    ensures !Late(c, ms, d.primary, i)
    decreases lead - d.head
  {
    StepUnfolds(c, d, ms, now, lead);
    FreshTurn(c, d, ms, now, lead);
    var (turn, t) := TakeTurn(c, d, ms, now, lead);
    var next := Show(t, c, turn.source);
    if i == d.head + 1 {
      TurnChosen(c, d, ms, now, lead);
      LateTurn(c, d, ms, now, lead);
      StepUntouched(c, next, ms, now, lead, i);
    } else {
      BehindPrimary(c, next, ms, now, lead, i);
    }
  }

  /** What a Step from `head`, with `index` waiting since `since`, shows index `i` from behind
      primary `p`, and when it may if `p` is late. */
  ghost predicate Served(c: Config, ms: seq<Member>, now: int, head: nat, index: nat, since: int, r: Policy, p: int, i: nat)
    requires c.Valid() && ValidMembers(c, ms) && Sources(c, r.current)
  {
    && 0 <= p < c.members && Chosen(c, ms, p, i, r.current[i % c.grains])
    && (Late(c, ms, p, i) ==> i == head + 1 == index && now - since >= c.tolerance && r.primary == r.current[i % c.grains])
  }

  /** What a first turn leaves: its slot and its primary stay for the rest of Step. */
  lemma FirstStays(c: Config, d: Policy, ms: seq<Member>, now: int, lead: nat)
    requires ValidPolicy(c, d) && ValidMembers(c, ms) && c.ordered && 0 <= d.primary && 0 < c.tolerance && d.waitingIndex <= d.head + 1
    requires d.head + 1 <= StepLoop(c, d, ms, now, lead).policy.head < d.head + 1 + c.grains
    ensures var (turn, t) := TakeTurn(c, d, ms, now, lead); var r := StepLoop(c, d, ms, now, lead).policy;
            turn.Advance? && r.primary == t.primary && r.current[(d.head + 1) % c.grains] == turn.source
  {
    var (turn, t) := TakeTurn(c, d, ms, now, lead);
    PrimaryTurn(c, d, ms, now, lead);
    StepUnfolds(c, d, ms, now, lead);
    var next := Show(t, c, turn.source);
    PrimaryStays(c, next, ms, now, lead);
    StepUntouched(c, next, ms, now, lead, d.head + 1);
  }

  /** The first index Step's loop passes may replace the primary. */
  lemma FirstServed(c: Config, d: Policy, ms: seq<Member>, now: int, lead: nat)
    requires ValidPolicy(c, d) && ValidMembers(c, ms) && c.ordered && 0 <= d.primary && 0 < c.tolerance && d.waitingIndex <= d.head + 1
    requires d.head + 1 <= StepLoop(c, d, ms, now, lead).policy.head < d.head + 1 + c.grains
    ensures Served(c, ms, now, d.head, d.waitingIndex, d.waitingSince, StepLoop(c, d, ms, now, lead).policy, d.primary, d.head + 1)
  {
    TurnChosen(c, d, ms, now, lead);
    LateTurn(c, d, ms, now, lead);
    FirstStays(c, d, ms, now, lead);
  }

  /** Every other is behind the primary Step leaves. */
  lemma LaterServed(c: Config, d: Policy, ms: seq<Member>, now: int, lead: nat, i: nat)
    requires ValidPolicy(c, d) && ValidMembers(c, ms) && c.ordered && 0 <= d.primary && 0 < c.tolerance && d.waitingIndex <= d.head + 1
    requires d.head + 1 < i <= StepLoop(c, d, ms, now, lead).policy.head < i + c.grains
    ensures var r := StepLoop(c, d, ms, now, lead).policy; Served(c, ms, now, d.head, d.waitingIndex, d.waitingSince, r, r.primary, i)
  {
    var (turn, t) := TakeTurn(c, d, ms, now, lead);
    PrimaryTurn(c, d, ms, now, lead);
    StepUnfolds(c, d, ms, now, lead);
    var next := Show(t, c, turn.source);
    PrimaryStays(c, next, ms, now, lead);
    BehindPrimary(c, next, ms, now, lead, i);
  }

  /** The head Step starts from: a set that has published nothing starts just below the
      greatest head. */
  function StartsFrom(head: nat, lead: nat): nat { if head == 0 && lead > 0 then lead - 1 else head }

  /** The primary before index `i`: at the first index Step publishes the one there was, at
      first the first member, and from then on the one it leaves. */
  function PrimaryAt(d: Policy, r: Policy, lead: nat, i: nat): int {
    if i == StartsFrom(d.head, lead) + 1 then Max(d.primary, 0) else r.primary
  }

  lemma StepIsLoop(c: Config, d: Policy, ms: seq<Member>, now: int, lead: nat)
    requires ValidPolicy(c, d) && ValidMembers(c, ms) && lead == Lead(ms, |ms|)
    ensures var e := StepStart(c, d, lead);
            && ValidPolicy(c, e) && Step(c, d, ms, now) == StepLoop(c, e, ms, now, lead)
            && e.head == StartsFrom(d.head, lead) && e.waitingIndex == d.waitingIndex && e.waitingSince == d.waitingSince
            && (c.ordered ==> e.primary == Max(d.primary, 0))
  {
  }

  /** Every index Step publishes, if its slot has not come round again, is shown from the
      primary when that has it, otherwise from the least member that has it, otherwise from
      the placeholder. One the primary is late with, while another member has it, is
      published only as the first, once it has waited out the tolerance, and replaces the
      primary. */
  lemma {:induction false} StepServes(c: Config, d: Policy, ms: seq<Member>, now: int, lead: nat, i: nat)
    requires ValidPolicy(c, d) && ValidMembers(c, ms) && Greatest(ms, lead) && 0 < c.tolerance && d.waitingIndex <= d.head + 1
    requires StartsFrom(d.head, lead) < i <= Step(c, d, ms, now).policy.head < i + c.grains
    ensures var r := Step(c, d, ms, now).policy;
            if c.ordered then
              Served(c, ms, now, StartsFrom(d.head, lead), d.waitingIndex, d.waitingSince, r, PrimaryAt(d, r, lead, i), i)
            else Chosen(c, ms, -1, i, r.current[i % c.grains])
  {
    LeadIs(ms, lead);
    StepIsLoop(c, d, ms, now, lead);
    var e := StepStart(c, d, lead);
    if !c.ordered {
      FirstArrivals(c, e, ms, now, lead, i);
    } else if i == e.head + 1 {
      FirstServed(c, e, ms, now, lead);
    } else {
      LaterServed(c, e, ms, now, lead, i);
    }
  }

  lemma {:induction false} LoopWaits(c: Config, d: Policy, ms: seq<Member>, now: int, lead: nat)
    requires ValidPolicy(c, d) && ValidMembers(c, ms) && c.ordered && 0 <= d.primary && 0 < c.tolerance && d.waitingIndex <= d.head + 1
    ensures var r := StepLoop(c, d, ms, now, lead);
            d.head <= r.policy.head &&
            (r.wait > 0 ==> r.policy.waitingSince == if d.waitingIndex == r.policy.head + 1 then d.waitingSince else now)
    decreases lead - d.head
  {
    if d.head < lead {
      PrimaryTurn(c, d, ms, now, lead);
      LateTurn(c, d, ms, now, lead);
      StepUnfolds(c, d, ms, now, lead);
      var (turn, t) := TakeTurn(c, d, ms, now, lead);
      if turn.Advance? { LoopWaits(c, Show(t, c, turn.source), ms, now, lead); }
    }
  }

  /** How Step ends, with the greatest head as its lead; and a wait runs from when the index
      was first found waiting. */
  lemma {:induction false} StepStops(c: Config, d: Policy, ms: seq<Member>, now: int, lead: nat)
    requires ValidPolicy(c, d) && ValidMembers(c, ms) && Greatest(ms, lead) && 0 < c.tolerance && d.waitingIndex <= d.head + 1
    ensures var r := Step(c, d, ms, now);
            && StartsFrom(d.head, lead) <= r.policy.head <= Max(StartsFrom(d.head, lead), lead) && Ended(c, ms, r, now, lead)
            && (r.wait > 0 ==> r.policy.waitingSince == if d.waitingIndex == r.policy.head + 1 then d.waitingSince else now)
  {
    LeadIs(ms, lead);
    var e := StepStart(c, d, lead);
    StepEnds(c, e, ms, now, lead);
    StepStill(c, e, ms, now, lead);
    if c.ordered { LoopWaits(c, e, ms, now, lead); }
  }

  /** A member that has every grain of its ring serves exactly what readers trust under its
      own head: that leaves its next grain's slot out. */
  lemma ServesTrusted(c: Config, m: Member, i: nat)
    requires c.Valid() && |m.ring| == c.grains && i <= m.head
    requires forall k: nat :: k <= m.head < k + c.grains ==>
               var g := m.ring[k % c.grains]; g.index == k && !g.invalid && (c.data || g.totalSlices <= g.validSlices)
    ensures Serves(c, m, i) <==> m.head + 1 < i + c.grains
  {
  }

  // ------------------------------------------------------------- selects

  /** Selects of ascending indices of (lo, hi], each to its index's slot, and each changing
      what that shows. */
  ghost predicate Ascends(c: Config, sels: seq<Select>, lo: nat, hi: nat, view: seq<int>)
    requires c.Valid() && |view| == c.grains
    decreases |sels|
  {
    sels == [] ||
    (&& lo < sels[0].index <= hi && sels[0].slot == sels[0].index % c.grains && sels[0].source != view[sels[0].slot]
     && Ascends(c, sels[1..], sels[0].index, hi, view[sels[0].slot := sels[0].source]))
  }

  lemma AscendsFrom(c: Config, sels: seq<Select>, lo: nat, hi: nat, view: seq<int>)
    requires c.Valid() && |view| == c.grains && Ascends(c, sels, lo + 1, hi, view)
    ensures Ascends(c, sels, lo, hi, view)
  {
  }

  /** A turn's own selects in front. */
  lemma AscendsShown(c: Config, view: seq<int>, source: int, sels: seq<Select>, lo: nat, hi: nat)
    requires c.Valid() && |view| == c.grains && lo + 1 <= hi && Ascends(c, sels, lo + 1, hi, view[(lo + 1) % c.grains := source])
    ensures Ascends(c, SelectOf(view, (lo + 1) % c.grains, source, lo + 1) + sels, lo, hi, view)
  {
    var slot := (lo + 1) % c.grains;
    if view[slot] == source {
      assert view[slot := source] == view;
      assert [] + sels == sels;
      AscendsFrom(c, sels, lo, hi, view);
    } else {
      assert ([Select(slot, source, lo + 1)] + sels)[1..] == sels;
    }
  }

  ghost predicate LoopAscends(c: Config, d: Policy, ms: seq<Member>, now: int, lead: nat)
    requires ValidPolicy(c, d) && ValidMembers(c, ms)
  {
    var r := StepLoop(c, d, ms, now, lead);
    d.head <= r.policy.head && Ascends(c, r.selects, d.head, r.policy.head, d.current)
  }

  lemma TurnAscends(c: Config, d: Policy, ms: seq<Member>, now: int, lead: nat, source: int, next: Policy)
    requires ValidPolicy(c, d) && ValidMembers(c, ms) && d.head < lead && 0 <= source <= c.members
    requires var (turn, t) := TakeTurn(c, d, ms, now, lead); turn == Advance(source) && next == Show(t, c, source)
    requires ValidPolicy(c, next) && LoopAscends(c, next, ms, now, lead)
    ensures LoopAscends(c, d, ms, now, lead)
  {
    var rest := StepLoop(c, next, ms, now, lead);
    AscendsShown(c, d.current, source, rest.selects, d.head, rest.policy.head);
    StepUnfolds(c, d, ms, now, lead);
  }

  /** Step's selects. */
  lemma {:induction false} StepSelects(c: Config, d: Policy, ms: seq<Member>, now: int, lead: nat)
    requires ValidPolicy(c, d) && ValidMembers(c, ms)
    ensures LoopAscends(c, d, ms, now, lead)
    decreases lead - d.head
  {
    if d.head < lead {
      var (turn, t) := TakeTurn(c, d, ms, now, lead);
      if turn.Advance? {
        StepSelects(c, Show(t, c, turn.source), ms, now, lead);
        TurnAscends(c, d, ms, now, lead, turn.source, Show(t, c, turn.source));
      } else {
        StepUnfolds(c, d, ms, now, lead);
      }
    }
  }

  /** Selects that each change what their slot shows. */
  ghost predicate Changes(view: seq<int>, sels: seq<Select>)
    decreases |sels|
  {
    sels == [] ||
    (sels[0].slot < |view| && sels[0].source != view[sels[0].slot] && Changes(view[sels[0].slot := sels[0].source], sels[1..]))
  }

  lemma ChangesOne(view: seq<int>, sel: Select, rest: seq<Select>)
    requires sel.slot < |view| && sel.source != view[sel.slot] && Changes(view[sel.slot := sel.source], rest)
    ensures Changes(view, [sel] + rest)
  {
    assert ([sel] + rest)[1..] == rest;
  }

  /** Retire selects nothing that a slot shows already. */
  lemma {:induction false} RetireSelects(c: Config, current: seq<int>, head: nat, ms: seq<Member>, next: seq<nat>, i: nat)
    requires c.Valid() && Sources(c, current) && ValidMembers(c, ms) && |next| == |ms|
    ensures Changes(current, RetireLoop(c, current, head, ms, next, i).selects)
    decreases head + 1 - i
  {
    if i <= head && i + c.grains <= Reach(next, |next|) {
      var move := MoveOf(c, current, ms, next, i);
      var rest := RetireLoop(c, move.current, head, ms, next, i + 1);
      RetireSelects(c, move.current, head, ms, next, i + 1);
      if move.selects == [] { assert [] + rest.selects == rest.selects; } else { ChangesOne(current, move.selects[0], rest.selects); }
    }
    RetireUnfolds(c, current, head, ms, next, i);
  }

  /** Drop selects the member's slots only, each as the index it shows below the head. */
  lemma {:induction false} DropSelects(c: Config, current: seq<int>, head: nat, ms: seq<Member>, m: nat, from: nat, k: nat)
    requires c.Valid() && Sources(c, current) && ValidMembers(c, ms) && m < c.members && from <= c.grains
    requires k < |DropLoop(c, current, head, ms, m, from).selects|
    ensures var r := DropLoop(c, current, head, ms, m, from); var sel := r.selects[k];
            && from <= sel.slot < c.grains && current[sel.slot] == m && sel.source == r.current[sel.slot]
            && (k > 0 ==> r.selects[k - 1].slot < sel.slot)
            && (if Behind(head, sel.slot, c.grains) <= head then sel.index % c.grains == sel.slot && sel.index <= head < sel.index + c.grains
                else sel.index == 0)
    decreases c.grains - from
  {
    DropExact(c, current, head, ms, m, from);
    if current[from] == m {
      var to := DropTarget(c, head, ms, m, from);
      DropExact(c, current[from := to], head, ms, m, from + 1);
      var rest := DropLoop(c, current[from := to], head, ms, m, from + 1);
      if k == 0 {
        if Behind(head, from, c.grains) <= head { BehindSlot(head, from, c.grains); }
      } else {
        DropSelects(c, current[from := to], head, ms, m, from + 1, k - 1);
      }
    } else {
      DropSelects(c, current, head, ms, m, from + 1, k);
    }
  }

  // -------------------------------------------------------------- Retire

  /** Before the next pass member `m` writes no index as far on as `i + grains`: neither the
      grain after its head, nor what would be due of it, as late as it was seen to be. */
  ghost predicate Clears(c: Config, m: Member, late: nat, due: nat, i: nat) {
    m.head + 1 < i + c.grains && due < i + c.grains + late
  }

  lemma ClearsIs(c: Config, late: seq<nat>, ms: seq<Member>, due: nat, m: nat, i: nat)
    requires |late| == |ms| && m < |ms| && c.Valid()
    ensures NextWrites(late, ms, due)[m] < i + c.grains <==> Clears(c, ms[m], late[m], due, i)
  {
  }

  /** After Retire every index readers trust is shown from the placeholder or from a member
      that clears it. A slot that was so before is not moved; any other goes to the least
      other member that has the index and clears it, or to the placeholder. */
  lemma {:induction false} RetireClears(c: Config, d: Policy, ms: seq<Member>, due: nat, i: nat)
    requires ValidPolicy(c, d) && ValidMembers(c, ms) && 1 <= i <= d.head && d.head + 1 < i + c.grains
    ensures var r := Retire(c, d, ms, due).policy; var (s, cur) := (r.current[i % c.grains], d.current[i % c.grains]);
            && |r.late| == c.members && 0 <= s <= c.members
            && (s < c.members ==> Clears(c, ms[s], r.late[s], due, i))
            && (cur == c.members || Clears(c, ms[cur], r.late[cur], due, i) ==> s == cur)
            && (s != cur && s < c.members ==> Serves(c, ms[s], i))
            && (s != cur ==> forall m :: 0 <= m < s && m != cur ==> !(Serves(c, ms[m], i) && Clears(c, ms[m], r.late[m], due, i)))
  {
    var o := Observe(d, ms, due);
    var next := NextWrites(o.late, ms, due);
    RetireExact(c, d.current, d.head, ms, next, Low(c, d.head), i);
    forall m | 0 <= m < c.members ensures next[m] < i + c.grains <==> Clears(c, ms[m], o.late[m], due, i) {
      ClearsIs(c, o.late, ms, due, m, i);
    }
  }

  lemma {:induction false} LoopTouches(c: Config, current: seq<int>, head: nat, ms: seq<Member>, next: seq<nat>, from: nat, slot: nat)
    requires c.Valid() && Sources(c, current) && ValidMembers(c, ms) && |next| == |ms| && slot < c.grains
    requires RetireLoop(c, current, head, ms, next, from).current[slot] != current[slot]
    ensures exists i: nat :: from <= i <= head && i % c.grains == slot
    decreases head + 1 - from
  {
    RetireUnfolds(c, current, head, ms, next, from);
    if from % c.grains != slot { LoopTouches(c, MoveOf(c, current, ms, next, from).current, head, ms, next, from + 1, slot); }
  }

  /** Retire moves no slot without an index readers trust. */
  lemma {:induction false} RetireTouches(c: Config, d: Policy, ms: seq<Member>, due: nat, slot: nat)
    requires ValidPolicy(c, d) && ValidMembers(c, ms) && slot < c.grains
    requires Retire(c, d, ms, due).policy.current[slot] != d.current[slot]
    ensures exists i: nat :: i % c.grains == slot && 1 <= i <= d.head && d.head + 1 < i + c.grains
  {
    LoopTouches(c, d.current, d.head, ms, NextWrites(Observe(d, ms, due).late, ms, due), Low(c, d.head), slot);
  }

  // --------------------------------------------- how late a member was seen

  /** The head of member `m` the last Retire before call k saw; 0 before any. */
  ghost function SeenHead(ops: seq<Call>, k: nat, m: nat): nat
    requires k <= |ops| && forall j :: 0 <= j < |ops| ==> m < |ops[j].ms|
  {
    if k == 0 then 0
    else if ops[k - 1].CallRetire? then ops[k - 1].ms[m].head
    else SeenHead(ops, k - 1, m)
  }

  /** How far behind due member `m`'s head was when a Retire last saw it moved. */
  ghost function SeenLate(ops: seq<Call>, k: nat, m: nat): nat
    requires k <= |ops| && forall j :: 0 <= j < |ops| ==> m < |ops[j].ms|
  {
    if k == 0 then 0
    else
      var op := ops[k - 1];
      if op.CallRetire? && op.ms[m].head != SeenHead(ops, k - 1, m) then Max(op.due - op.ms[m].head, 0)
      else SeenLate(ops, k - 1, m)
  }

  lemma LoopKeepsSeen(c: Config, d: Policy, ms: seq<Member>, now: int, lead: nat)
    requires ValidPolicy(c, d) && ValidMembers(c, ms)
    ensures StepLoop(c, d, ms, now, lead).policy.seen == d.seen && StepLoop(c, d, ms, now, lead).policy.late == d.late
    decreases lead - d.head
  {
    if d.head < lead {
      StepUnfolds(c, d, ms, now, lead);
      var (turn, t) := TakeTurn(c, d, ms, now, lead);
      if turn.Advance? { LoopKeepsSeen(c, Show(t, c, turn.source), ms, now, lead); }
    }
  }

  lemma StepKeepsSeen(c: Config, d: Policy, ms: seq<Member>, now: int)
    requires ValidPolicy(c, d) && ValidMembers(c, ms)
    ensures Step(c, d, ms, now).policy.seen == d.seen && Step(c, d, ms, now).policy.late == d.late
  {
    var lead := Lead(ms, |ms|);
    LoopKeepsSeen(c, StepStart(c, d, lead), ms, now, lead);
  }

  /** What the policy has of member `m`: nothing seen is 0. */
  function SeenOf(d: Policy, m: nat): nat { if m < |d.seen| then d.seen[m] else 0 }
  function LateOf(d: Policy, m: nat): nat { if m < |d.late| then d.late[m] else 0 }

  ghost predicate Sized(c: Config, d: Policy) {
    |d.seen| == |d.late| && (d.seen == [] || |d.seen| == c.members)
  }

  lemma RetireSees(c: Config, d: Policy, ms: seq<Member>, due: nat, m: nat)
    requires ValidPolicy(c, d) && ValidMembers(c, ms) && m < c.members && Sized(c, d)
    ensures var r := Retire(c, d, ms, due).policy;
            && Sized(c, r) && SeenOf(r, m) == ms[m].head
            && LateOf(r, m) == if ms[m].head != SeenOf(d, m) then Max(due - ms[m].head, 0) else LateOf(d, m)
  {
  }

  /** One call. */
  lemma CallSees(c: Config, ds: seq<Policy>, ops: seq<Call>, k: nat, m: nat)
    requires CallRun(c, ds, ops) && k < |ops| && m < c.members && Sized(c, ds[k])
    ensures Sized(c, ds[k + 1])
    ensures var op := ops[k]; var moved := op.CallRetire? && op.ms[m].head != SeenOf(ds[k], m);
            && SeenOf(ds[k + 1], m) == (if op.CallRetire? then op.ms[m].head else SeenOf(ds[k], m))
            && LateOf(ds[k + 1], m) == if moved then Max(op.due - op.ms[m].head, 0) else LateOf(ds[k], m)
  {
    assert CalledAt(c, ds, ops, k);
    if ops[k].CallStep? {
      StepKeepsSeen(c, ds[k], ops[k].ms, ops[k].now);
    } else if ops[k].CallRetire? {
      RetireSees(c, ds[k], ops[k].ms, ops[k].due, m);
    }
  }

  /** In every run of the policy's calls, a member's lateness is that of when a Retire last
      saw its head moved. */
  lemma {:induction false} LateIsSeen(c: Config, ds: seq<Policy>, ops: seq<Call>, k: nat, m: nat)
    requires CallRun(c, ds, ops) && k < |ds| && m < c.members && ds[0].seen == ds[0].late == []
    ensures Sized(c, ds[k]) && SeenOf(ds[k], m) == SeenHead(ops, k, m) && LateOf(ds[k], m) == SeenLate(ops, k, m)
  {
    if k > 0 {
      LateIsSeen(c, ds, ops, k - 1, m);
      CallSees(c, ds, ops, k - 1, m);
    }
  }

  // ---------------------------------------------------------------- Drop

  /** Drop moves a slot off the member to the least other member that has the index the slot
      shows below the head, and to the placeholder when none has or the slot shows none. */
  lemma {:induction false} DropFinds(c: Config, d: Policy, ms: seq<Member>, m: nat, slot: nat, i: nat)
    requires ValidPolicy(c, d) && ValidMembers(c, ms) && m < c.members && slot < c.grains && d.current[slot] == m
    ensures var s := Drop(c, d, ms, m).policy.current[slot];
            && (i % c.grains == slot && i <= d.head < i + c.grains ==>
                  && 0 <= s <= c.members && s != m && (s < c.members ==> Serves(c, ms[s], i))
                  && forall o :: 0 <= o < s && o != m ==> !Serves(c, ms[o], i))
            && (d.head < slot ==> s == c.members)
  {
    DropExact(c, d.current, d.head, ms, m, 0);
    if i % c.grains == slot && i <= d.head < i + c.grains { BehindIs(d.head, slot, c.grains, i); }
    if d.head < slot {
      Split(d.head, c.grains, 0, d.head);
      Split(d.head + c.grains - slot, c.grains, 0, d.head + c.grains - slot);
    }
  }
}
