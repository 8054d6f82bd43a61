/** The discrete policy and the engine's output as the gateway keeps them: objects
    whose fields and arrays change in place (gateway/internal/merge/policy.go and
    engine.go). */
module DiscreteMerge {
  import opened Common
  import opened DiscretePolicy
  import opened Ring
  import opened DiscreteSafety

  /** The policy as the engine keeps it: fields and an array updated in place. */
  class Discrete {
    const c: Config
    var head: nat
    var primary: int
    var current: array<int>
    var waitingIndex: nat
    var waitingSince: int
    var seen: seq<nat>
    var late: seq<nat>

    ghost function State(): Policy
      reads this, current
    {
      Policy(head, primary, current[..], waitingIndex, waitingSince, seen, late)
    }

    ghost predicate Valid()
      reads this, current
    {
      ValidPolicy(c, State())
    }

    /** Every slot starts on the placeholder. */
    constructor (c: Config)
      requires c.Valid()
      ensures this.c == c && fresh(current) && Valid()
      ensures State() == Policy(0, -1, seq(c.grains, _ => c.members), 0, 0, [], [])
    {
      this.c := c;
      head, primary, waitingIndex, waitingSince := 0, -1, 0, 0;
      seen, late := [], [];
      current := new int[c.grains](_ => c.members);
      new;
      assert current[..] == seq(c.grains, _ => c.members);
    }

    /** Reads which member serves `index`: the primary, and the first other one. */
    method Candidates(ms: seq<Member>, index: nat) returns (pick: int, alt: int)
      requires Valid() && ValidMembers(c, ms)
      ensures pick == if c.ordered && 0 <= primary && Serves(c, ms[primary], index) then primary else -1
      ensures alt == FirstServing(c, ms, index, if c.ordered then primary else -1, 0)
    {
      pick, alt := -1, -1;
      ghost var skip := if c.ordered then primary else -1;
      for i := 0 to |ms|
        invariant pick == if c.ordered && 0 <= primary < i && Serves(c, ms[primary], index) then primary else -1
        invariant FirstServing(c, ms, index, skip, 0) == if alt >= 0 then alt else FirstServing(c, ms, index, skip, i)
      {
        if Serves(c, ms[i], index) {
          if c.ordered && i == primary {
            pick := i;
          } else if alt < 0 {
            alt := i;
          }
        }
      }
    }

    /** One turn of Step at index head + 1: whom to show, or to wait or stop. */
    method Decide(ms: seq<Member>, now: int, lead: nat) returns (turn: Turn)
      requires Valid() && ValidMembers(c, ms)
      modifies this`waitingIndex, this`waitingSince, this`primary
      ensures (turn, State()) == TakeTurn(c, old(State()), ms, now, lead)
    {
      var index := head + 1;
      var pick, alt := Candidates(ms, index);
      if !c.ordered && alt >= 0 && pick < 0 {
        pick := alt;
      }
      if pick < 0 && alt >= 0 {
        if waitingIndex != index {
          waitingIndex, waitingSince := index, now;
        }
        if primary < 0 || ms[primary].head >= index {
          pick := alt;
        } else if now - waitingSince >= c.tolerance {
          pick, primary := alt, alt;
        } else {
          return Wait(c.tolerance - (now - waitingSince));
        }
      }
      if pick < 0 {
        if lead < index + c.skew {
          return Stop;
        }
        pick := c.members;
      }
      if primary < 0 && pick != c.members {
        primary := pick;
      }
      return Advance(pick);
    }

    method Step(ms: seq<Member>, now: int) returns (selects: seq<Select>, newHead: nat, wait: int)
      requires Valid() && ValidMembers(c, ms)
      modifies this, current
      ensures Valid() && current == old(current)
      ensures var r := DiscretePolicy.Step(c, old(State()), ms, now);
              State() == r.policy && selects == r.selects && wait == r.wait && newHead == r.policy.head
    {
      if c.ordered && primary < 0 {
        primary := 0;
      }
      var lead: nat := 0;
      for i := 0 to |ms|
        invariant lead == Lead(ms, i)
      {
        if ms[i].head > lead { lead := ms[i].head; }
      }
      if head == 0 && lead > 0 {
        head := lead - 1;
      }
      selects, wait := StepTo(ms, now, lead);
      newHead := head;
    }

    /** One turn of Step's loop, and the selects it takes. */
    method TurnOnce(ms: seq<Member>, now: int, lead: nat) returns (turn: Turn, selects: seq<Select>)
      requires Valid() && ValidMembers(c, ms)
      modifies this, current
      ensures current == old(current) && Turned(c, old(State()), ms, now, lead, turn, State(), selects)
    {
      turn := Decide(ms, now, lead);
      selects := [];
      if turn.Advance? {
        selects := Point(turn.source);
      }
    }

    /** Step's loop: turn by turn up to the leading member's head. */
    method StepTo(ms: seq<Member>, now: int, lead: nat) returns (selects: seq<Select>, wait: int)
      requires Valid() && ValidMembers(c, ms)
      modifies this, current
      ensures current == old(current)
      ensures StepResult(State(), selects, wait) == StepLoop(c, old(State()), ms, now, lead)
    {
      selects, wait := [], 0;
      ghost var st := State();
      ghost var whole := StepLoop(c, st, ms, now, lead);
      SteppingStarts(c, ms, now, lead, st);
      while head < lead
        invariant State() == st && ValidPolicy(c, st) && current == old(current) && wait == 0
        invariant Stepping(c, ms, now, lead, whole, st, selects)
        decreases lead - head
      {
        ghost var before := st;
        var turn, sel := TurnOnce(ms, now, lead);
        st := State();
        SteppingTurns(c, ms, now, lead, whole, before, selects, turn, st, sel);
        if !turn.Advance? {
          wait := if turn.Wait? then turn.remaining else 0;
          return;
        }
        selects := selects + sel;
      }
      SteppingEnds(c, ms, now, lead, whole, st, selects);
    }

    /** Points the slot of index head + 1 at `pick` and moves the head there. */
    method Point(pick: int) returns (selects: seq<Select>)
      requires Valid() && 0 <= pick <= c.members
      modifies this`head, current
      ensures State() == Show(old(State()), c, pick)
      ensures selects == SelectOf(old(current[..]), (old(head) + 1) % c.grains, pick, old(head) + 1)
    {
      var slot := (head + 1) % c.grains;
      selects := [];
      if current[slot] != pick {
        current[slot] := pick;
        selects := [Select(slot, pick, head + 1)];
      }
      head := head + 1;
      assert current[..] == old(current[..])[slot := pick];
    }

    /** Records the members' heads and how late each was when it last moved. */
    method ObserveHeads(ms: seq<Member>, due: nat)
      requires Valid() && ValidMembers(c, ms)
      modifies this`seen, this`late
      ensures State() == Observe(old(State()), ms, due)
    {
      if |seen| != |ms| {
        seen, late := seq(|ms|, _ => 0), seq(|ms|, _ => 0);
      }
      ghost var o := Observe(old(State()), ms, due);
      ghost var seen0, late0 := seen, late;
      for m := 0 to |ms|
        invariant |seen| == |late| == |ms|
        invariant forall k :: 0 <= k < m ==> seen[k] == o.seen[k] && late[k] == o.late[k]
        invariant forall k :: m <= k < |ms| ==> seen[k] == seen0[k] && late[k] == late0[k]
      {
        if ms[m].head != seen[m] {
          seen, late := seen[m := ms[m].head], late[m := due - Min(due, ms[m].head)];
        }
      }
      assert seen == o.seen && late == o.late;
    }

    method Retire(ms: seq<Member>, due: nat) returns (selects: seq<Select>)
      requires Valid() && ValidMembers(c, ms)
      modifies this, current
      ensures Valid() && current == old(current)
      ensures PolicyMoves(State(), selects) == DiscretePolicy.Retire(c, old(State()), ms, due)
    {
      ObserveHeads(ms, due);
      var next := NextWrites(late, ms, due);
      selects := RetireFrom(ms, next, Low(c, head));
    }

    /** Retire's loop over the oldest trusted indices. */
    method RetireFrom(ms: seq<Member>, next: seq<nat>, from: nat) returns (selects: seq<Select>)
      requires Valid() && ValidMembers(c, ms) && |next| == |ms|
      modifies current
      ensures Moves(current[..], selects) == RetireLoop(c, old(current[..]), head, ms, next, from)
    {
      var reach: nat := 0;
      for m := 0 to |ms|
        invariant reach == Reach(next, m)
      {
        reach := Max(reach, next[m]);
      }
      var i := from;
      selects := [];
      ghost var whole := RetireLoop(c, current[..], head, ms, next, i);
      RetiringStarts(c, head, ms, next, current[..], i);
      while i <= head && i + c.grains <= reach
        invariant Sources(c, current[..]) && Retiring(c, head, ms, next, whole, current[..], i, selects)
        decreases head + 1 - i
      {
        ghost var before := current[..];
        var sel := MoveSlot(ms, next, i);
        RetiringTurns(c, head, ms, next, whole, before, i, selects);
        selects, i := selects + sel, i + 1;
      }
      RetiringEnds(c, head, ms, next, whole, current[..], i, selects);
    }

    /** Moves the slot of index `i` off a source that may write the next period into it. */
    method MoveSlot(ms: seq<Member>, next: seq<nat>, i: nat) returns (selects: seq<Select>)
      requires Valid() && ValidMembers(c, ms) && |next| == |ms|
      modifies current
      ensures Moves(current[..], selects) == MoveOf(c, old(current[..]), ms, next, i)
    {
      var slot := i % c.grains;
      selects := [];
      if AtRisk(c, next, current[slot], i) {
        var to := HeirOf(ms, next, current[slot], i);
        current[slot] := to;
        selects := [Select(slot, to, i)];
      }
    }

    method HeirOf(ms: seq<Member>, next: seq<nat>, cur: int, i: nat) returns (to: int)
      requires c.Valid() && ValidMembers(c, ms) && |next| == |ms|
      ensures to == Heir(c, ms, next, cur, i, 0)
    {
      to := 0;
      while to < c.members && !(to != cur && Serves(c, ms[to], i) && next[to] < i + c.grains)
        invariant 0 <= to <= c.members
        invariant Heir(c, ms, next, cur, i, 0) == Heir(c, ms, next, cur, i, to)
      {
        to := to + 1;
      }
    }

    method Drop(ms: seq<Member>, m: nat) returns (selects: seq<Select>)
      requires Valid() && ValidMembers(c, ms)
      modifies current
      ensures Valid()
      ensures PolicyMoves(State(), selects) == DiscretePolicy.Drop(c, old(State()), ms, m)
    {
      selects := [];
      ghost var whole := DropLoop(c, current[..], head, ms, m, 0);
      for slot := 0 to c.grains
        invariant Sources(c, current[..])
        invariant var r := DropLoop(c, current[..], head, ms, m, slot);
                  whole == Moves(r.current, selects + r.selects)
      {
        if current[slot] == m {
          var to, index := TargetOf(ms, m, slot);
          ghost var before := current[..];
          current[slot] := to;
          assert current[..] == before[slot := to];
          selects := selects + [Select(slot, to, index)];
        }
      }
    }

    /** The index the slot has below the head, if any, and the first other member that
        holds it. */
    method TargetOf(ms: seq<Member>, m: nat, slot: nat) returns (to: int, index: nat)
      requires c.Valid() && ValidMembers(c, ms) && slot < c.grains
      ensures to == DropTarget(c, head, ms, m, slot)
      ensures var back := Behind(head, slot, c.grains); index == if head >= back then head - back else 0
    {
      var back := Behind(head, slot, c.grains);
      to, index := c.members, 0;
      if head >= back {
        index := head - back;
        var o := 0;
        while o < |ms| && !(o != m && Serves(c, ms[o], index))
          invariant 0 <= o <= |ms|
          invariant FirstServing(c, ms, index, m, 0) == FirstServing(c, ms, index, m, o)
        {
          o := o + 1;
        }
        if o < |ms| {
          to := o;
        }
      }
    }
  }

  /** The merged flow's output: the source each view slot shows, and the published head. */
  class Output {
    const c: Config
    var head: nat
    var views: array<int>

    ghost predicate Valid()
      reads this
    {
      c.Valid() && views.Length == c.grains
    }

    constructor (c: Config)
      requires c.Valid()
      ensures this.c == c && Valid() && fresh(views) && head == 0
      ensures views[..] == seq(c.grains, _ => c.members)
    {
      this.c := c;
      head := 0;
      views := new int[c.grains](_ => c.members);
      new;
      assert views[..] == seq(c.grains, _ => c.members);
    }

    method Publish(h: nat)
      modifies this`head
      ensures head == h
    {
      head := h;
    }

    /** Points view slots at their sources in order. A select for an index more than
        one past the published head publishes the index before it first. */
    method Apply(selects: seq<Select>)
      requires Valid() && Slots(c, selects)
      modifies this`head, views
      ensures Valid()
      ensures views[..] == Replay(old(views[..]), selects)
      ensures head == PublishedBy(old(head), selects)
    {
      for k := 0 to |selects|
        invariant Replay(views[..], selects[k..]) == Replay(old(views[..]), selects)
        invariant PublishedBy(head, selects[k..]) == PublishedBy(old(head), selects)
      {
        var s := selects[k];
        if s.index > head + 1 {
          Publish(s.index - 1);
        }
        ghost var before := views[..];
        views[s.slot] := s.source;
        assert views[..] == before[s.slot := s.source];
        assert selects[k..][1..] == selects[k + 1..];
      }
    }
  }
}
