/** Publication safety of the discrete merge over every run.

    A reader trusts each index from head - grains + 2 up to the published head. The
    members keep writing one ring period ahead into the slots those indices live
    in. The machine below interleaves the members' writes with the engine's passes,
    select by select and publish by publish, and every state it reaches shows each
    trusted index from the placeholder or from a member whose slot still holds that
    very grain (gateway/internal/merge/engine.go and policy.go). */
module DiscreteSafety {
  import opened Common
  import opened DiscretePolicy
  import opened Ring

  // ------------------------------------------------------- engine.apply

  /** The head published before a select for `index` is applied. */
  function PublishBefore(out: nat, index: nat): nat {
    if index > out + 1 then index - 1 else out
  }

  ghost predicate Slots(c: Config, selects: seq<Select>) {
    forall k :: 0 <= k < |selects| ==> selects[k].slot < c.grains && 0 <= selects[k].source <= c.members
  }

  /** The view after a list of selects. */
  function Replay(view: seq<int>, selects: seq<Select>): (r: seq<int>)
    requires forall k :: 0 <= k < |selects| ==> selects[k].slot < |view|
    ensures |r| == |view|
    decreases |selects|
  {
    if selects == [] then view
    else Replay(view[selects[0].slot := selects[0].source], selects[1..])
  }

  /** The published head after a list of selects. */
  function PublishedBy(out: nat, selects: seq<Select>): nat
    decreases |selects|
  {
    if selects == [] then out else PublishedBy(PublishBefore(out, selects[0].index), selects[1..])
  }

  lemma {:induction false} ReplayConcat(view: seq<int>, out: nat, a: seq<Select>, b: seq<Select>)
    requires forall k :: 0 <= k < |a| ==> a[k].slot < |view|
    requires forall k :: 0 <= k < |b| ==> b[k].slot < |view|
    ensures Replay(view, a + b) == Replay(Replay(view, a), b)
    ensures PublishedBy(out, a + b) == PublishedBy(PublishedBy(out, a), b)
    decreases |a|
  {
    if a == [] {
      assert a + b == b;
    } else {
      assert (a + b)[1..] == a[1..] + b;
      ReplayConcat(view[a[0].slot := a[0].source], PublishBefore(out, a[0].index), a[1..], b);
    }
  }

  // ----------------------------------------------------- what is shown

  /** What the members and their promise are at one moment: no member writes above
      its limit until the limits are next set. */
  datatype World = World(members: seq<Member>, limit: seq<nat>)

  ghost predicate ValidWorld(c: Config, w: World) {
    c.Valid() && ValidMembers(c, w.members) && |w.limit| == |w.members|
  }

  /** Source `s` holds the complete grain `i` and will not overwrite it. */
  ghost predicate Holds(c: Config, w: World, s: int, i: nat)
    requires ValidWorld(c, w)
  {
    s == c.members ||
    (0 <= s < c.members && Complete(c, w.members[s].ring[i % c.grains], i) && w.limit[s] < i + c.grains)
  }

  /** The view shows every index of [lo, hi] from a source that holds it. */
  ghost predicate Shows(c: Config, w: World, view: seq<int>, lo: nat, hi: nat)
    requires ValidWorld(c, w) && |view| == c.grains
  {
    forall i {:trigger Holds(c, w, view[i % c.grains], i)} :: lo <= i <= hi ==> Holds(c, w, view[i % c.grains], i)
  }

  /** Every index trusted under `head` is shown from a source that holds it. */
  ghost predicate Safe(c: Config, w: World, view: seq<int>, head: nat)
    requires ValidWorld(c, w) && |view| == c.grains
  {
    Shows(c, w, view, Low(c, head), head)
  }

  /** Applying the selects one by one, each publish and each select leaves a safe view. */
  ghost predicate SafeReplay(c: Config, w: World, view: seq<int>, out: nat, selects: seq<Select>)
    requires ValidWorld(c, w) && |view| == c.grains && Slots(c, selects)
    decreases |selects|
  {
    && Safe(c, w, view, out)
    && (selects != [] ==>
          var o := PublishBefore(out, selects[0].index);
          && Safe(c, w, view, o)
          && SafeReplay(c, w, view[selects[0].slot := selects[0].source], o, selects[1..]))
  }

  lemma {:induction false} SafeReplayConcat(c: Config, w: World, view: seq<int>, out: nat, a: seq<Select>, b: seq<Select>)
    requires ValidWorld(c, w) && |view| == c.grains && Slots(c, a) && Slots(c, b)
    requires SafeReplay(c, w, view, out, a)
    requires SafeReplay(c, w, Replay(view, a), PublishedBy(out, a), b)
    ensures SafeReplay(c, w, view, out, a + b)
    decreases |a|
  {
    if a == [] {
      assert a + b == b;
    } else {
      assert (a + b)[1..] == a[1..] + b;
      assert (a + b)[0] == a[0];
      SafeReplayConcat(c, w, view[a[0].slot := a[0].source], PublishBefore(out, a[0].index), a[1..], b);
    }
  }

  /** One more select in front of a safe replay. */
  lemma ReplayCons(c: Config, w: World, view: seq<int>, out: nat, sel: Select, rest: seq<Select>)
    requires ValidWorld(c, w) && |view| == c.grains && sel.slot < c.grains && 0 <= sel.source <= c.members && Slots(c, rest)
    requires Safe(c, w, view, out) && Safe(c, w, view, PublishBefore(out, sel.index))
    requires SafeReplay(c, w, view[sel.slot := sel.source], PublishBefore(out, sel.index), rest)
    ensures Slots(c, [sel] + rest) && SafeReplay(c, w, view, out, [sel] + rest)
    ensures Replay(view, [sel] + rest) == Replay(view[sel.slot := sel.source], rest)
    ensures PublishedBy(out, [sel] + rest) == PublishedBy(PublishBefore(out, sel.index), rest)
  {
    assert ([sel] + rest)[1..] == rest;
  }

  /** Nothing held stops being held. */
  ghost predicate Keeps(c: Config, w: World, w': World)
    requires ValidWorld(c, w) && ValidWorld(c, w')
  {
    forall s, i: nat :: Holds(c, w, s, i) ==> Holds(c, w', s, i)
  }

  lemma {:induction false} KeepsReplay(c: Config, w: World, w': World, view: seq<int>, out: nat, selects: seq<Select>)
    requires ValidWorld(c, w) && ValidWorld(c, w') && Keeps(c, w, w')
    requires |view| == c.grains && Slots(c, selects) && SafeReplay(c, w, view, out, selects)
    ensures SafeReplay(c, w', view, out, selects)
    decreases |selects|
  {
    if selects != [] {
      KeepsReplay(c, w, w', view[selects[0].slot := selects[0].source], PublishBefore(out, selects[0].index), selects[1..]);
    }
  }

  // ------------------------------------------- each operation's selects

  /** A select for a trusted index onto a source that holds it keeps every index
      above the trust window's start shown. */
  lemma PointKeepsShown(c: Config, w: World, view: seq<int>, out: nat, head: nat, i: nat, s: int)
    requires ValidWorld(c, w) && |view| == c.grains && out <= head
    requires Shows(c, w, view, Low(c, out), head)
    requires Low(c, head) <= i <= head + 1 && Holds(c, w, s, i)
    ensures var o := PublishBefore(out, i);
            && Safe(c, w, view, out)
            && o <= head
            && Safe(c, w, view, o)
            && Shows(c, w, view[i % c.grains := s], Low(c, o), Max(head, i))
  {
    var o := PublishBefore(out, i);
    var view' := view[i % c.grains := s];
    forall k | Low(c, o) <= k <= Max(head, i)
      ensures Holds(c, w, view'[k % c.grains], k)
    {
      if k != i {
        if k < i { OtherSlot(k, i, c.grains); } else { OtherSlot(i, k, c.grains); }
      }
    }
  }

  lemma ServesHolds(c: Config, w: World, s: int, i: nat)
    requires ValidWorld(c, w) && 0 <= s < c.members
    requires w.limit[s] <= w.members[s].head + 1 && Serves(c, w.members[s], i)
    ensures Holds(c, w, s, i)
  {
  }

  /** The limits during a pass: at most the grain after the head the pass read. */
  ghost predicate Tight(w: World) {
    |w.limit| == |w.members| && forall m :: 0 <= m < |w.limit| ==> w.limit[m] <= w.members[m].head + 1
  }

  /** What a turn shows is held. */
  lemma TurnHolds(c: Config, w: World, d: Policy, now: int, lead: nat)
    requires ValidPolicy(c, d) && ValidWorld(c, w) && Tight(w)
    ensures var turn := TakeTurn(c, d, w.members, now, lead).0;
            turn.Advance? ==> Holds(c, w, turn.source, d.head + 1)
  {
    var turn := TakeTurn(c, d, w.members, now, lead).0;
    if turn.Advance? && turn.source < c.members {
      ServesHolds(c, w, turn.source, d.head + 1);
    }
  }

  /** Replaying `selects` from a view and a published head is safe throughout, and
      leaves `current` with every index up to `head` shown. */
  ghost predicate Leads(c: Config, w: World, view: seq<int>, out: nat, selects: seq<Select>, current: seq<int>, head: nat)
    requires ValidWorld(c, w) && |view| == |current| == c.grains
  {
    && Slots(c, selects)
    && Replay(view, selects) == current
    && PublishedBy(out, selects) <= head
    && SafeReplay(c, w, view, out, selects)
    && Shows(c, w, current, Low(c, PublishedBy(out, selects)), head)
  }

  /** The head published once index head + 1 is shown from `s`. */
  function PublishedAt(c: Config, current: seq<int>, out: nat, head: nat, s: int): nat
    requires c.Valid() && |current| == c.grains
  {
    if current[(head + 1) % c.grains] == s then out else PublishBefore(out, head + 1)
  }

  /** Showing one more index from a source that holds it. */
  lemma AdvanceShows(c: Config, w: World, current: seq<int>, out: nat, head: nat, s: int)
    requires ValidWorld(c, w) && |current| == c.grains && out <= head
    requires Shows(c, w, current, Low(c, out), head) && Holds(c, w, s, head + 1)
    ensures var o := PublishedAt(c, current, out, head, s);
            o <= head + 1 && Shows(c, w, current[(head + 1) % c.grains := s], Low(c, o), head + 1)
  {
    PointKeepsShown(c, w, current, out, head, head + 1, s);
    assert current[(head + 1) % c.grains] == s ==> current[(head + 1) % c.grains := s] == current;
  }

  /** Its select in front of what follows. */
  lemma AdvanceLeads(c: Config, w: World, current: seq<int>, out: nat, head: nat, s: int,
                     rest: seq<Select>, last: seq<int>, end: nat)
    requires ValidWorld(c, w) && |current| == |last| == c.grains && out <= head && 0 <= s <= c.members
    requires Shows(c, w, current, Low(c, out), head) && Holds(c, w, s, head + 1)
    requires Leads(c, w, current[(head + 1) % c.grains := s], PublishedAt(c, current, out, head, s), rest, last, end)
    ensures Leads(c, w, current, out, SelectOf(current, (head + 1) % c.grains, s, head + 1) + rest, last, end)
  {
    var slot := (head + 1) % c.grains;
    if current[slot] == s {
      assert current[slot := s] == current;
      assert [] + rest == rest;
    } else {
      PointKeepsShown(c, w, current, out, head, head + 1, s);
      ReplayCons(c, w, current, out, Select(slot, s, head + 1), rest);
    }
  }

  /** Step's selects are safe throughout, and lead to what it shows. */
  ghost predicate StepLeads(c: Config, w: World, d: Policy, now: int, lead: nat, out: nat)
    requires ValidPolicy(c, d) && ValidWorld(c, w)
  {
    var r := StepLoop(c, d, w.members, now, lead);
    d.head <= r.policy.head && Leads(c, w, d.current, out, r.selects, r.policy.current, r.policy.head)
  }

  lemma StopSafe(c: Config, w: World, d: Policy, now: int, lead: nat, out: nat)
    requires ValidPolicy(c, d) && ValidWorld(c, w)
    requires d.head < lead ==> !TakeTurn(c, d, w.members, now, lead).0.Advance?
    requires out <= d.head && Shows(c, w, d.current, Low(c, out), d.head)
    ensures StepLeads(c, w, d, now, lead, out)
  {
    if d.head < lead { StepUnfolds(c, d, w.members, now, lead); }
  }

  lemma AdvanceSafe(c: Config, w: World, d: Policy, now: int, lead: nat, out: nat, source: int, next: Policy)
    requires ValidPolicy(c, d) && ValidWorld(c, w) && d.head < lead && 0 <= source <= c.members
    requires var (turn, t) := TakeTurn(c, d, w.members, now, lead); turn == Advance(source) && next == Show(t, c, source)
    requires out <= d.head && Shows(c, w, d.current, Low(c, out), d.head) && Holds(c, w, source, d.head + 1)
    requires ValidPolicy(c, next) && StepLeads(c, w, next, now, lead, PublishedAt(c, d.current, out, d.head, source))
    ensures StepLeads(c, w, d, now, lead, out)
  {
    var rest := StepLoop(c, next, w.members, now, lead);
    AdvanceLeads(c, w, d.current, out, d.head, source, rest.selects, rest.policy.current, rest.policy.head);
    StepUnfolds(c, d, w.members, now, lead);
  }

  lemma {:induction false} StepSafe(c: Config, w: World, d: Policy, now: int, lead: nat, out: nat)
    requires ValidPolicy(c, d) && ValidWorld(c, w) && Tight(w)
    requires out <= d.head && Shows(c, w, d.current, Low(c, out), d.head)
    ensures StepLeads(c, w, d, now, lead, out)
    decreases lead - d.head
  {
    var (turn, t) := TakeTurn(c, d, w.members, now, lead);
    if d.head < lead && turn.Advance? {
      var next := Show(t, c, turn.source);
      TurnHolds(c, w, d, now, lead);
      AdvanceShows(c, w, d.current, out, d.head, turn.source);
      StepSafe(c, w, next, now, lead, PublishedAt(c, d.current, out, d.head, turn.source));
      AdvanceSafe(c, w, d, now, lead, out, turn.source, next);
    } else {
      StopSafe(c, w, d, now, lead, out);
    }
  }

  /** The selects of Retire's loop are safe throughout, and lead to what it shows. */
  ghost predicate RetireLeads(c: Config, w: World, current: seq<int>, head: nat, next: seq<nat>, i: nat, out: nat)
    requires ValidWorld(c, w) && Sources(c, current) && |next| == |w.members|
  {
    var r := RetireLoop(c, current, head, w.members, next, i);
    Leads(c, w, current, out, r.selects, r.current, head)
  }

  /** The loop goes on at index `i`. */
  ghost predicate Reached(c: Config, head: nat, next: seq<nat>, i: nat) {
    Low(c, head) <= i <= head && i + c.grains <= Reach(next, |next|)
  }

  lemma RiskSafe(c: Config, w: World, current: seq<int>, head: nat, next: seq<nat>, i: nat, out: nat, to: int)
    requires ValidWorld(c, w) && Sources(c, current) && |next| == |w.members| && Reached(c, head, next, i)
    requires AtRisk(c, next, current[i % c.grains], i) && to == Heir(c, w.members, next, current[i % c.grains], i, 0)
    requires out <= head && Shows(c, w, current, Low(c, out), head) && Holds(c, w, to, i)
    requires RetireLeads(c, w, current[i % c.grains := to], head, next, i + 1, PublishBefore(out, i))
    ensures RetireLeads(c, w, current, head, next, i, out)
  {
    var slot := i % c.grains;
    var rest := RetireLoop(c, current[slot := to], head, w.members, next, i + 1);
    PointKeepsShown(c, w, current, out, head, i, to);
    ReplayCons(c, w, current, out, Select(slot, to, i), rest.selects);
    RetireUnfolds(c, current, head, w.members, next, i);
  }

  lemma CalmSafe(c: Config, w: World, current: seq<int>, head: nat, next: seq<nat>, i: nat, out: nat)
    requires ValidWorld(c, w) && Sources(c, current) && |next| == |w.members| && Reached(c, head, next, i)
    requires !AtRisk(c, next, current[i % c.grains], i) && RetireLeads(c, w, current, head, next, i + 1, out)
    ensures RetireLeads(c, w, current, head, next, i, out)
  {
    var rest := RetireLoop(c, current, head, w.members, next, i + 1);
    assert [] + rest.selects == rest.selects;
    RetireUnfolds(c, current, head, w.members, next, i);
  }

  lemma EndSafe(c: Config, w: World, current: seq<int>, head: nat, next: seq<nat>, i: nat, out: nat)
    requires ValidWorld(c, w) && Sources(c, current) && |next| == |w.members| && Low(c, head) <= i && !Reached(c, head, next, i)
    requires out <= head && Shows(c, w, current, Low(c, out), head)
    ensures RetireLeads(c, w, current, head, next, i, out)
  {
    RetireUnfolds(c, current, head, w.members, next, i);
  }

  lemma {:induction false} RetireSafe(c: Config, w: World, current: seq<int>, head: nat, next: seq<nat>, i: nat, out: nat)
    requires ValidWorld(c, w) && Tight(w) && Sources(c, current) && |next| == |w.members|
    requires out <= head && Low(c, head) <= i && Shows(c, w, current, Low(c, out), head)
    ensures RetireLeads(c, w, current, head, next, i, out)
    decreases head + 1 - i
  {
    var slot := i % c.grains;
    if !Reached(c, head, next, i) {
      EndSafe(c, w, current, head, next, i, out);
    } else if AtRisk(c, next, current[slot], i) {
      var to := Heir(c, w.members, next, current[slot], i, 0);
      if to < c.members { ServesHolds(c, w, to, i); }
      PointKeepsShown(c, w, current, out, head, i, to);
      RetireSafe(c, w, current[slot := to], head, next, i + 1, PublishBefore(out, i));
      RiskSafe(c, w, current, head, next, i, out, to);
    } else {
      RetireSafe(c, w, current, head, next, i + 1, out);
      CalmSafe(c, w, current, head, next, i, out);
    }
  }

  lemma SettleOne(c: Config, w: World, view: seq<int>, head: nat, i: nat, s: int)
    requires ValidWorld(c, w) && |view| == c.grains && Low(c, head) <= i <= head
    requires Shows(c, w, view, Low(c, head), i - 1) && Holds(c, w, s, i)
    ensures Shows(c, w, view[i % c.grains := s], Low(c, head), i)
  {
    forall k | Low(c, head) <= k <= i
      ensures Holds(c, w, view[i % c.grains := s][k % c.grains], k)
    {
      if k < i { OtherSlot(k, i, c.grains); }
    }
  }

  /** One turn of Retire's loop. */
  lemma MoveSettles(c: Config, w: World, current: seq<int>, head: nat, next: seq<nat>, i: nat)
    requires ValidWorld(c, w) && Tight(w) && Sources(c, current) && |next| == |w.members|
    requires Low(c, head) <= i <= head && Safe(c, w, current, head) && Shows(c, World(w.members, next), current, Low(c, head), i - 1)
    ensures var after := MoveOf(c, current, w.members, next, i).current;
            Safe(c, w, after, head) && Shows(c, World(w.members, next), after, Low(c, head), i)
  {
    var w', slot := World(w.members, next), i % c.grains;
    assert Holds(c, w, current[slot], i);
    if AtRisk(c, next, current[slot], i) {
      var to := Heir(c, w.members, next, current[slot], i, 0);
      if to < c.members { ServesHolds(c, w, to, i); }
      PointKeepsShown(c, w, current, head, head, i, to);
      SettleOne(c, w', current, head, i, to);
    } else {
      SettleOne(c, w', current, head, i, current[slot]);
      assert current[slot := current[slot]] == current;
    }
  }

  /** Past what any member may write, every index is safe. */
  lemma ReachSettles(c: Config, w: World, current: seq<int>, head: nat, next: seq<nat>, i: nat)
    requires ValidWorld(c, w) && Sources(c, current) && |next| == |w.members| && Safe(c, w, current, head)
    requires 0 < i && i + c.grains > Reach(next, |next|) && Shows(c, World(w.members, next), current, Low(c, head), i - 1)
    ensures Safe(c, World(w.members, next), current, head)
  {
    var w' := World(w.members, next);
    forall k | Low(c, head) <= k <= head ensures Holds(c, w', current[k % c.grains], k) {
      var s := current[k % c.grains];
      assert Holds(c, w, s, k);
      if k >= i && s < c.members { ReachBound(next, |next|, s); }
    }
  }

  /** After Retire no trusted slot is at risk any more: under the new limits, every
      index readers trust is held. */
  lemma {:induction false} RetireSettles(c: Config, w: World, current: seq<int>, head: nat, next: seq<nat>, i: nat)
    requires ValidWorld(c, w) && Tight(w) && Sources(c, current) && |next| == |w.members|
    requires Low(c, head) <= i && Safe(c, w, current, head)
    requires Shows(c, World(w.members, next), current, Low(c, head), Min(i - 1, head))
    ensures Safe(c, World(w.members, next), RetireLoop(c, current, head, w.members, next, i).current, head)
    decreases head + 1 - i
  {
    if i <= head && i + c.grains <= Reach(next, |next|) {
      MoveSettles(c, w, current, head, next, i);
      RetireSettles(c, w, MoveOf(c, current, w.members, next, i).current, head, next, i + 1);
    } else if i <= head {
      ReachSettles(c, w, current, head, next, i);
    }
    RetireUnfolds(c, current, head, w.members, next, i);
  }

  /** The index a slot shows below the head, when it has one. */
  function ShownIndex(c: Config, head: nat, slot: nat): int
    requires slot < c.grains
  {
    head - Behind(head, slot, c.grains)
  }

  /** A slot's trusted index, if any, is the one it shows below the head. */
  lemma TrustedIndex(c: Config, head: nat, k: nat)
    requires c.Valid() && Low(c, head) <= k <= head
    ensures ShownIndex(c, head, k % c.grains) == k
  {
    var slot := k % c.grains;
    var back := Behind(head, slot, c.grains);
    if back > head {
      NoneBehind(head, slot, c.grains, k);
    } else {
      BehindSlot(head, slot, c.grains);
      if k < head - back { OtherSlot(k, head - back, c.grains); } else if head - back < k { OtherSlot(head - back, k, c.grains); }
    }
  }

  /** Every trusted index Drop moves off `m` to another member is safe from what that
      member may write. */
  ghost predicate HeirsHold(c: Config, w: World, current: seq<int>, head: nat, m: nat)
    requires ValidWorld(c, w) && |current| == c.grains
  {
    forall slot :: 0 <= slot < c.grains && current[slot] == m && Low(c, head) <= ShownIndex(c, head, slot) ==>
      var to := DropTarget(c, head, w.members, m, slot);
      to == c.members || w.limit[to] < ShownIndex(c, head, slot) + c.grains
  }

  /** They are from a member that writes no more than the grain after its head. */
  lemma TightHeirs(c: Config, w: World, current: seq<int>, head: nat, m: nat)
    requires ValidWorld(c, w) && Tight(w) && |current| == c.grains
    ensures HeirsHold(c, w, current, head, m)
  {
  }

  /** What Drop points a slot at holds the slot's trusted index. */
  lemma HeirHolds(c: Config, w: World, current: seq<int>, head: nat, m: nat, slot: nat)
    requires ValidWorld(c, w) && |current| == c.grains && slot < c.grains && current[slot] == m && HeirsHold(c, w, current, head, m)
    requires Low(c, head) <= ShownIndex(c, head, slot)
    ensures Holds(c, w, DropTarget(c, head, w.members, m, slot), ShownIndex(c, head, slot))
  {
  }

  /** Repointing one slot at a source that holds its trusted index, if it has one. */
  lemma DropOne(c: Config, w: World, view: seq<int>, head: nat, slot: nat, s: int)
    requires ValidWorld(c, w) && |view| == c.grains && slot < c.grains && Safe(c, w, view, head)
    requires Low(c, head) <= ShownIndex(c, head, slot) ==> Holds(c, w, s, ShownIndex(c, head, slot))
    ensures Safe(c, w, view[slot := s], head)
  {
    forall k | Low(c, head) <= k <= head
      ensures Holds(c, w, view[slot := s][k % c.grains], k)
    {
      assert Holds(c, w, view[k % c.grains], k);
      TrustedIndex(c, head, k);
    }
  }

  lemma DropOff(c: Config, head: nat, ms: seq<Member>, m: nat, slot: nat)
    requires c.Valid() && ValidMembers(c, ms) && m < c.members && slot < c.grains
    ensures DropTarget(c, head, ms, m, slot) != m
  {
  }

  lemma {:induction false} DropSafe(c: Config, w: World, current: seq<int>, head: nat, m: nat, slot: nat)
    requires ValidWorld(c, w) && Sources(c, current) && m < c.members && slot <= c.grains
    requires Safe(c, w, current, head) && HeirsHold(c, w, current, head, m)
    ensures var r := DropLoop(c, current, head, w.members, m, slot);
            && Leads(c, w, current, head, r.selects, r.current, head)
            && PublishedBy(head, r.selects) == head
    decreases c.grains - slot
  {
    if slot < c.grains {
      if current[slot] != m {
        DropSafe(c, w, current, head, m, slot + 1);
      } else {
        var back := Behind(head, slot, c.grains);
        var index := if head >= back then head - back else 0;
        var to := DropTarget(c, head, w.members, m, slot);
        if Low(c, head) <= ShownIndex(c, head, slot) { HeirHolds(c, w, current, head, m, slot); }
        DropOne(c, w, current, head, slot, to);
        DropOff(c, head, w.members, m, slot);
        var rest := DropLoop(c, current[slot := to], head, w.members, m, slot + 1);
        DropSafe(c, w, current[slot := to], head, m, slot + 1);
        ReplayCons(c, w, current, head, Select(slot, to, index), rest.selects);
      }
    }
  }

  /** Drop picks a member that serves the index, and asks no more, as Retire does, what it
      may write. Under the limits the trusted indices stay held exactly when each slot's
      new member may not overwrite its own. */
  lemma {:induction false} DropIntact(c: Config, w: World, current: seq<int>, head: nat, m: nat)
    requires ValidWorld(c, w) && Sources(c, current) && m < c.members && Safe(c, w, current, head)
    ensures Safe(c, w, DropLoop(c, current, head, w.members, m, 0).current, head) <==> HeirsHold(c, w, current, head, m)
  {
    var view := DropLoop(c, current, head, w.members, m, 0).current;
    DropExact(c, current, head, w.members, m, 0);
    if Safe(c, w, view, head) {
      forall slot | 0 <= slot < c.grains && current[slot] == m && Low(c, head) <= ShownIndex(c, head, slot)
        ensures var to := DropTarget(c, head, w.members, m, slot);
                to == c.members || w.limit[to] < ShownIndex(c, head, slot) + c.grains
      {
        BehindSlot(head, slot, c.grains);
        var i: nat := ShownIndex(c, head, slot);
        assert Holds(c, w, view[i % c.grains], i);
      }
    }
    if HeirsHold(c, w, current, head, m) {
      DropSafe(c, w, current, head, m, 0);
    }
  }

  // -------------------------------------------------- the machine's runs

  /** What the engine is doing: waiting, moving slots off a member whose ring is to
      be replaced, done with Step, or applying a pass's selects. */
  datatype Phase = Idle | Dropping(member: nat) | Stepped | Applying

  /** `pending` are the selects still to apply, `out` the published head, `view` what
      readers see, and `nextLimit` the limits Retire computed for after this pass. */
  datatype Sys = Sys(phase: Phase, policy: Policy, w: World, view: seq<int>, out: nat,
                     pending: seq<Select>, nextLimit: seq<nat>)

  /** A member writes a slot: it completes the grain there, or overwrites it with a
      later index of that slot, at most its limit. */
  ghost predicate SlotStep(c: Config, g: Grain, g': Grain, slot: nat, limit: nat)
    requires c.Valid()
  {
    || (g'.index == g.index && (Complete(c, g, g.index) ==> Complete(c, g', g.index)))
    || (g.index < g'.index <= limit && g'.index % c.grains == slot)
  }

  /** The members write their rings and move their heads, forwards or backwards. */
  ghost predicate Writes(c: Config, w: World, w': World) {
    && ValidWorld(c, w) && ValidWorld(c, w')
    && w'.limit == w.limit
    && forall m, slot :: 0 <= m < c.members && 0 <= slot < c.grains ==>
         SlotStep(c, w.members[m].ring[slot], w'.members[m].ring[slot], slot, w.limit[m])
  }

  /** From when a pass reads the heads to its end, a member writes at most the grain
      after the head read. */
  function Tighten(w: World): (r: World)
    requires |w.limit| == |w.members|
    ensures r.members == w.members && Tight(r)
  {
    World(w.members, seq(|w.limit|, m requires 0 <= m < |w.limit| => Min(w.limit[m], w.members[m].head + 1) as nat))
  }

  ghost predicate Init(c: Config, s: Sys) {
    && ValidWorld(c, s.w)
    && s.phase == Idle && s.pending == [] && s.out == 0
    && s.policy == Policy(0, -1, seq(c.grains, _ => c.members), 0, 0, [], [])
    && s.view == s.policy.current
  }

  ghost predicate Typed(c: Config, s: Sys) {
    && ValidPolicy(c, s.policy) && ValidWorld(c, s.w)
    && Slots(c, s.pending) && |s.view| == c.grains
    && (s.phase.Dropping? ==> s.phase.member < c.members)
  }

  ghost predicate Write(c: Config, s: Sys, s': Sys) {
    Writes(c, s.w, s'.w) && s' == s.(w := s'.w)
  }

  /** Replacing a ring begins by moving every slot off its member. Where Drop leaves a slot
      to a member that may overwrite it, the reliance of a pass begins here. */
  ghost predicate Take(c: Config, s: Sys, s': Sys, m: nat)
    requires Typed(c, s)
  {
    s.phase == Idle && m < c.members &&
    var r := Drop(c, s.policy, s.w.members, m);
    s' == s.(phase := Dropping(m), policy := r.policy, pending := r.selects,
             w := if HeirsHold(c, s.w, s.policy.current, s.policy.head, m) then s.w else Tighten(s.w))
  }

  /** The member's ring is replaced by any other, which may be written to any limit until
      the next pass. */
  ghost predicate Swap(c: Config, s: Sys, s': Sys, ring: Member, limit: nat) {
    s.phase.Dropping? && s.pending == [] && s.phase.member < |s.w.members| == |s.w.limit| && |ring.ring| == c.grains &&
    s' == s.(phase := Idle, w := World(s.w.members[s.phase.member := ring], s.w.limit[s.phase.member := limit]))
  }

  ghost predicate DoStep(c: Config, s: Sys, s': Sys, now: int)
    requires Typed(c, s)
  {
    s.phase == Idle &&
    var r := Step(c, s.policy, s.w.members, now);
    s' == s.(phase := Stepped, policy := r.policy, pending := r.selects, w := Tighten(s.w))
  }

  /** Retire reads the heads again, so members may have written since Step. Until the next
      pass a member may write the grain after its head, or what is due of it, as late as
      Retire has it. */
  ghost predicate DoRetire(c: Config, s: Sys, s': Sys, due: nat)
    requires Typed(c, s)
  {
    s.phase == Stepped &&
    var r := Retire(c, s.policy, s.w.members, due);
    && s' == s.(phase := Applying, policy := r.policy, pending := s.pending + r.selects, w := Tighten(s.w),
                nextLimit := s'.nextLimit)
    && |s'.nextLimit| == |r.policy.late| == c.members
    && forall m :: 0 <= m < c.members ==> s'.nextLimit[m] == Max(s.w.members[m].head + 1, due - r.policy.late[m])
  }

  /** One turn of apply: a publish when the select's index needs it, and the select. */
  ghost predicate Apply(c: Config, s: Sys, s': Sys)
    requires Typed(c, s)
  {
    (s.phase == Applying || s.phase.Dropping?) && s.pending != [] &&
    var a := s.pending[0];
    s' == s.(view := s.view[a.slot := a.source], out := PublishBefore(s.out, a.index), pending := s.pending[1..])
  }

  /** The pass publishes its head, and Retire's limits hold from here on. */
  ghost predicate Finish(c: Config, s: Sys, s': Sys) {
    s.phase == Applying && s.pending == [] &&
    s' == s.(phase := Idle, out := Max(s.out, s.policy.head), w := World(s.w.members, s.nextLimit))
  }

  ghost predicate Next(c: Config, s: Sys, s': Sys) {
    && Typed(c, s)
    && (|| Write(c, s, s')
        || (exists m :: Take(c, s, s', m))
        || (exists ring, limit :: Swap(c, s, s', ring, limit))
        || (exists now :: DoStep(c, s, s', now))
        || (exists due :: DoRetire(c, s, s', due))
        || Apply(c, s, s')
        || Finish(c, s, s'))
  }

  // ------------------------------------------------------- the invariant

  ghost predicate AllPlaceholder(c: Config, current: seq<int>) {
    forall k :: 0 <= k < |current| ==> current[k] == c.members
  }

  ghost predicate Inv(c: Config, s: Sys) {
    && Typed(c, s)
    && Leads(c, s.w, s.view, s.out, s.pending, s.policy.current, s.policy.head)
    && (s.policy.head == 0 ==> AllPlaceholder(c, s.policy.current))
    && (s.phase == Idle || s.phase.Dropping? ==> PublishedBy(s.out, s.pending) == s.policy.head)
    && (s.phase == Idle ==> s.pending == [])
    && (s.phase.Dropping? ==> forall k :: 0 <= k < c.grains ==> s.policy.current[k] != s.phase.member)
    && (s.phase == Applying ==>
          |s.nextLimit| == c.members && Safe(c, World(s.w.members, s.nextLimit), s.policy.current, s.policy.head))
  }

  /** A held grain outlives the members' writes within their limits. */
  lemma WritesKeep(c: Config, w: World, w': World)
    requires Writes(c, w, w')
    ensures Keeps(c, w, w')
  {
    forall s, i: nat | Holds(c, w, s, i) ensures Holds(c, w', s, i) {
      if 0 <= s < c.members {
        var slot := i % c.grains;
        var g, g' := w.members[s].ring[slot], w'.members[s].ring[slot];
        assert SlotStep(c, g, g', slot, w.limit[s]);
        if i < g'.index < i + c.grains { OtherSlot(i, g'.index, c.grains); }
      }
    }
  }

  lemma TightenKeeps(c: Config, w: World)
    requires ValidWorld(c, w)
    ensures ValidWorld(c, Tighten(w)) && Keeps(c, w, Tighten(w))
  {
  }

  lemma KeepsLeads(c: Config, w: World, w': World, s: Sys)
    requires Typed(c, s) && ValidWorld(c, w) && ValidWorld(c, w') && Keeps(c, w, w')
    requires Leads(c, w, s.view, s.out, s.pending, s.policy.current, s.policy.head)
    ensures Leads(c, w', s.view, s.out, s.pending, s.policy.current, s.policy.head)
  {
    KeepsReplay(c, w, w', s.view, s.out, s.pending);
  }

  lemma WriteInv(c: Config, s: Sys, s': Sys)
    requires Inv(c, s) && Write(c, s, s')
    ensures Inv(c, s')
  {
    WritesKeep(c, s.w, s'.w);
    KeepsLeads(c, s.w, s'.w, s);
    if s.phase == Applying {
      var head := s.policy.head;
      forall i | Low(c, head) <= i <= head
        ensures Holds(c, World(s'.w.members, s.nextLimit), s.policy.current[i % c.grains], i)
      {
        assert Holds(c, World(s.w.members, s.nextLimit), s.policy.current[i % c.grains], i);
        assert Holds(c, s.w, s.policy.current[i % c.grains], i);
      }
    }
  }

  lemma TakeInv(c: Config, s: Sys, s': Sys, m: nat)
    requires Inv(c, s) && Take(c, s, s', m)
    ensures Inv(c, s')
  {
    var w := s'.w;
    TightenKeeps(c, s.w);
    KeepsLeads(c, s.w, w, s);
    if !HeirsHold(c, s.w, s.policy.current, s.policy.head, m) { TightHeirs(c, w, s.policy.current, s.policy.head, m); }
    DropSafe(c, w, s.policy.current, s.policy.head, m, 0);
    DropExact(c, s.policy.current, s.policy.head, s.w.members, m, 0);
  }

  lemma SwapInv(c: Config, s: Sys, s': Sys, ring: Member, limit: nat)
    requires Inv(c, s) && Swap(c, s, s', ring, limit)
    ensures Inv(c, s')
  {
    var head := s.policy.head;
    forall i | Low(c, head) <= i <= head ensures Holds(c, s'.w, s.view[i % c.grains], i) {
      assert Holds(c, s.w, s.view[i % c.grains], i);
    }
  }

  lemma StepInv(c: Config, s: Sys, s': Sys, now: int)
    requires Inv(c, s) && DoStep(c, s, s', now)
    ensures Inv(c, s')
  {
    var w := Tighten(s.w);
    var lead := Lead(s.w.members, |s.w.members|);
    var d := StepStart(c, s.policy, lead);
    TightenKeeps(c, s.w);
    KeepsLeads(c, s.w, w, s);
    assert Shows(c, w, d.current, Low(c, s.out), d.head);
    StepSafe(c, w, d, now, lead, s.out);
    StepStill(c, d, s.w.members, now, lead);
  }

  lemma LimitsAre(ms: seq<Member>, late: seq<nat>, due: nat, limit: seq<nat>)
    requires |late| == |limit| == |ms| && forall m :: 0 <= m < |ms| ==> limit[m] == Max(ms[m].head + 1, due - late[m])
    ensures limit == NextWrites(late, ms, due)
  {
  }

  lemma RetireInv(c: Config, s: Sys, s': Sys, due: nat)
    requires Inv(c, s) && DoRetire(c, s, s', due)
    ensures Inv(c, s')
  {
    var w := Tighten(s.w);
    var d, out := s.policy, PublishedBy(s.out, s.pending);
    var next := NextWrites(Observe(d, s.w.members, due).late, s.w.members, due);
    var r := RetireLoop(c, d.current, d.head, s.w.members, next, Low(c, d.head));
    LimitsAre(s.w.members, Observe(d, s.w.members, due).late, due, s'.nextLimit);
    TightenKeeps(c, s.w);
    KeepsLeads(c, s.w, w, s);
    RetireSafe(c, w, d.current, d.head, next, Low(c, d.head), out);
    SafeReplayConcat(c, w, s.view, s.out, s.pending, r.selects);
    ReplayConcat(s.view, s.out, s.pending, r.selects);
    RetireSettles(c, w, d.current, d.head, next, Low(c, d.head));
  }

  lemma {:induction false} NextInv(c: Config, s: Sys, s': Sys)
    requires Inv(c, s) && Next(c, s, s')
    ensures Inv(c, s')
  {
    if Write(c, s, s') { WriteInv(c, s, s'); }
    else if m :| Take(c, s, s', m) { TakeInv(c, s, s', m); }
    else if ring, limit :| Swap(c, s, s', ring, limit) { SwapInv(c, s, s', ring, limit); }
    else if now :| DoStep(c, s, s', now) { StepInv(c, s, s', now); }
    else if due :| DoRetire(c, s, s', due) { RetireInv(c, s, s', due); }
    else if Apply(c, s, s') { }
    else { }
  }

  ghost predicate Run(c: Config, run: seq<Sys>) {
    && |run| > 0 && Init(c, run[0])
    && forall k :: 0 <= k < |run| - 1 ==> Next(c, run[k], run[k + 1])
  }

  lemma {:induction false} RunInv(c: Config, run: seq<Sys>, k: nat)
    requires Run(c, run) && k < |run|
    ensures Inv(c, run[k])
  {
    if k > 0 {
      RunInv(c, run, k - 1);
      NextInv(c, run[k - 1], run[k]);
    }
  }

  /** In every state of every run, each index readers trust under the head published
      at that moment is shown from the placeholder or from a member whose slot holds
      that very grain, complete; and between passes the view is the policy's. */
  lemma {:induction false} PublishedTrue(c: Config, run: seq<Sys>, k: nat, i: nat)
    requires Run(c, run) && k < |run|
    requires run[k].out < i + c.grains - 1 && 1 <= i <= run[k].out
    ensures |run[k].view| == c.grains && |run[k].w.members| == c.members
    ensures var s := run[k].view[i % c.grains];
            || s == c.members
            || (&& 0 <= s < c.members && |run[k].w.members[s].ring| == c.grains
                && var g := run[k].w.members[s].ring[i % c.grains];
                   g.index == i && !g.invalid && (c.data || g.totalSlices <= g.validSlices))
    ensures run[k].phase == Idle ==> run[k].view == run[k].policy.current && run[k].out == run[k].policy.head
  {
    RunInv(c, run, k);
    assert Holds(c, run[k].w, run[k].view[i % c.grains], i);
  }
}
