/** The audio policy as the engine keeps it: an object whose fields and arrays change
    in place (gateway/internal/merge/policy.go). */
module AudioMerge {
  import opened Common
  import opened AudioPolicy
  import opened Ring

  class Audio {
    const c: Config
    var head: nat
    var primary: int
    var current: array<int>
    var cov: seq<seq<Coverage>>
    var evHead: seq<nat>
    var batch: seq<nat>
    var started: bool
    var waitingPage: int
    var waitingSince: int

    ghost function State(): Policy
      reads this, current
    {
      Policy(head, primary, current[..], cov, evHead, batch, started, waitingPage, waitingSince)
    }

    ghost predicate Valid()
      reads this, current
    {
      ValidPolicy(c, State())
    }

    constructor (c: Config)
      requires c.Valid()
      ensures this.c == c && fresh(current) && Valid()
      ensures State() == Policy(0, 0, seq(c.pages, _ => c.members), seq(c.members, _ => seq(c.pages, _ => NOTHING)),
                                seq(c.members, _ => 0), seq(c.members, _ => 0), false, -1, 0)
    {
      this.c := c;
      head, primary, started, waitingPage, waitingSince := 0, 0, false, -1, 0;
      cov := seq(c.members, _ => seq(c.pages, _ => NOTHING));
      evHead, batch := seq(c.members, _ => 0), seq(c.members, _ => 0);
      current := new int[c.pages](_ => c.members);
      new;
      assert current[..] == seq(c.pages, _ => c.members);
    }

    /** Records that member `m` committed samples [start, end). */
    method Committed(m: nat, start: nat, end: nat)
      requires Valid() && m < c.members && start < end
      modifies this
      ensures current == old(current) && State() == Commit(c, old(State()), m, start, end) && Valid()
    {
      if !started {
        head, started := (start + PAGE - 1) / PAGE * PAGE, true;
      }
      var ring := CommitRing(cov[m], start, end);
      cov := cov[m := ring];
      evHead := evHead[m := if end > evHead[m] then end else evHead[m]];
      batch := batch[m := Min(end - start, c.pages * PAGE / 2)];
    }

    /** The commit's pages, entered one by one into the member's slots. */
    method CommitRing(ring0: seq<Coverage>, start: nat, end: nat) returns (ring: seq<Coverage>)
      requires c.Valid() && |ring0| == c.pages && start < end
      ensures ring == CommitPages(c, ring0, start, end, start / PAGE)
    {
      var n := start / PAGE;
      ring := ring0;
      while n * PAGE < end
        invariant |ring| == c.pages
        invariant CommitPages(c, ring, start, end, n) == CommitPages(c, ring0, start, end, start / PAGE)
        decreases end - n * PAGE
      {
        var lo, hi := Max(start, n * PAGE), Min(end, (n + 1) * PAGE);
        var e := ring[n % c.pages];
        if !e.valid || e.n != n {
          e := Coverage(n, n * PAGE, false, true);
        }
        if lo != e.to {
          e := e.(broken := true);
        } else if !e.broken {
          e := e.(to := hi);
        }
        ring := ring[n % c.pages := e];
        n := n + 1;
      }
    }

    /** How far each member holds page `n`: whether the primary does past the head, and
        the best of the others. */
    method Candidates(n: nat) returns (pick: int, alt: int)
      requires Valid()
      ensures pick == if Upto(cov[primary][n % c.pages], n) > head then primary else -1
      ensures alt == BestOther(State(), n % c.pages, n, c.members)
    {
      pick, alt := -1, -1;
      var p := n % c.pages;
      ghost var a := State();
      assert forall m :: 0 <= m < |a.cov| ==> p < |a.cov[m]| by {
        assert forall m :: 0 <= m < |a.cov| ==> RingOk(c, a.cov[m], a.evHead[m]);
      }
      for m := 0 to c.members
        invariant pick == if primary < m && Upto(cov[primary][p], n) > head then primary else -1
        invariant alt == BestOther(a, p, n, m)
      {
        var upto := Upto(cov[m][p], n);
        if upto > head {
          if m == primary {
            pick := m;
          } else if alt < 0 || upto > Upto(cov[alt][p], n) {
            alt := m;
          }
        }
      }
    }

    /** One turn of Step at the head's page, and the primary and the wait it leaves. */
    method Decide(now: int, lead: nat) returns (turn: Turn, leader: int, page: int, since: int)
      requires Valid()
      ensures (turn, State().(primary := leader, waitingPage := page, waitingSince := since)) ==
              TakeTurn(c, State(), now, lead)
    {
      var n := head / PAGE;
      var p := n % c.pages;
      var pick, alt := Candidates(n);
      leader, page, since := primary, waitingPage, waitingSince;
      if pick < 0 && alt >= 0 {
        if page != n {
          page, since := n, now;
        }
        var mine := cov[primary][p];
        if (mine.valid && mine.n == n && mine.broken) || evHead[primary] > head {
          pick := alt;
        } else if now - since >= c.tolerance {
          pick, leader := alt, alt;
        } else {
          turn := Wait(c.tolerance - (now - since));
          return;
        }
      }
      if pick >= 0 {
        turn := Advance(pick, Upto(cov[pick][p], n));
      } else if lead < head + c.skew {
        turn := Stop;
      } else {
        turn := Advance(c.members, Min((n + 1) * PAGE, lead));
      }
    }

    /** Points the head's page at `pick` and moves the head. */
    method Point(pick: int, upto: nat) returns (selects: seq<PageSelect>)
      requires Valid() && 0 <= pick <= c.members
      modifies this`head, current
      ensures State() == Show(c, old(State()), pick, upto)
      ensures selects == SelectOf(old(current[..]), old(head) / PAGE % c.pages, pick)
    {
      var p := head / PAGE % c.pages;
      selects := [];
      if current[p] != pick {
        current[p] := pick;
        selects := [PageSelect(p, pick)];
      }
      head := upto;
      assert current[..] == old(current[..])[p := pick];
    }

    method Step(now: int) returns (selects: seq<PageSelect>, newHead: nat, wait: int)
      requires Valid()
      modifies this, current
      ensures Valid() && current == old(current)
      ensures StepResult(State(), selects, wait) == AudioPolicy.Step(c, old(State()), now) && newHead == head
    {
      var lead: nat := 0;
      for m := 0 to c.members
        invariant lead == Lead(evHead, m)
      {
        lead := Max(lead, evHead[m]);
      }
      selects, wait := [], 0;
      if started {
        selects, wait := StepTo(now, lead);
      }
      newHead := head;
    }

    /** One turn of Step's loop, and the selects it takes. */
    method TurnOnce(now: int, lead: nat) returns (turn: Turn, selects: seq<PageSelect>)
      requires Valid()
      modifies this, current
      ensures current == old(current) && Turned(c, old(State()), now, lead, turn, State(), selects)
    {
      var leader, page, since;
      turn, leader, page, since := Decide(now, lead);
      primary, waitingPage, waitingSince := leader, page, since;
      selects := [];
      if turn.Advance? {
        selects := Point(turn.source, turn.upto);
      }
    }

    /** Step's loop: turn by turn up to the leading member. */
    method StepTo(now: int, lead: nat) returns (selects: seq<PageSelect>, wait: int)
      requires Valid() && LeadOk(c, State(), lead)
      modifies this, current
      ensures current == old(current) && StepResult(State(), selects, wait) == StepLoop(c, old(State()), now, lead)
    {
      selects, wait := [], 0;
      ghost var st := State();
      ghost var whole := StepLoop(c, st, now, lead);
      SteppingStarts(c, now, lead, st);
      while head < lead
        invariant State() == st && ValidPolicy(c, st) && LeadOk(c, st, lead) && current == old(current) && wait == 0
        invariant Stepping(c, now, lead, whole, st, selects)
        decreases lead - head
      {
        ghost var before := st;
        var turn, sel := TurnOnce(now, lead);
        st := State();
        SteppingTurns(c, now, lead, whole, before, selects, turn, st, sel);
        if !turn.Advance? {
          wait := if turn.Wait? then turn.remaining else 0;
          return;
        }
        selects := selects + sel;
      }
      SteppingEnds(c, now, lead, whole, st, selects);
    }

    method Retire(due: nat) returns (selects: seq<PageSelect>)
      requires Valid()
      modifies current
      ensures Valid() && PolicyMoves(State(), selects) == AudioPolicy.Retire(c, old(State()), due)
    {
      selects := [];
      if started {
        var bounds := seq(c.members, m requires 0 <= m < c.members && |evHead| == |batch| == c.members reads this =>
                            Max(evHead[m], due) + c.ahead + batch[m] as nat);
        assert bounds == WriteBounds(c, State(), due);
        var most: nat := 0;
        for m := 0 to c.members
          invariant most == Most(c, bounds, m)
        {
          most := Max(most, Intact(c, bounds[m]));
        }
        selects := RetireFrom(bounds, most);
      }
    }

    method RetireFrom(bounds: seq<nat>, most: nat) returns (selects: seq<PageSelect>)
      requires ValidCov(c, cov) && Sources(c, current[..])
      requires |bounds| == c.members && most == Most(c, bounds, c.members)
      modifies current
      ensures Moves(current[..], selects) == RetireLoop(c, cov, head, old(current[..]), bounds, Low(c, head) / PAGE)
    {
      selects := [];
      var lo := Low(c, head);
      var n := lo / PAGE;
      ghost var whole := RetireLoop(c, cov, head, current[..], bounds, n);
      RetiringStarts(c, cov, head, bounds, current[..], n);
      while Max(lo, n * PAGE) < head && Max(lo, n * PAGE) < most
        invariant Sources(c, current[..]) && Retiring(c, cov, head, bounds, whole, current[..], n, selects)
        decreases head - n * PAGE
      {
        ghost var before := current[..];
        var sel := MovePage(bounds, n, Max(lo, n * PAGE));
        RetiringTurns(c, cov, head, bounds, whole, before, n, selects);
        selects, n := selects + sel, n + 1;
      }
      RetiringEnds(c, cov, head, bounds, whole, current[..], n, selects);
    }

    /** Moves page `n` off a source that may write over `first`. */
    method MovePage(bounds: seq<nat>, n: nat, first: nat) returns (selects: seq<PageSelect>)
      requires ValidCov(c, cov) && Sources(c, current[..]) && |bounds| == c.members && first == Max(Low(c, head), n * PAGE)
      modifies current
      ensures Moves(current[..], selects) == MoveOf(c, cov, head, old(current[..]), bounds, n)
    {
      var p := n % c.pages;
      selects := [];
      if AtRisk(c, bounds, current[p], first) {
        var to := HeirOf(bounds, current[p], n, first);
        current[p] := to;
        selects := [PageSelect(p, to)];
      }
    }

    method HeirOf(bounds: seq<nat>, cur: int, n: nat, first: nat) returns (to: int)
      requires |bounds| == c.members && ValidCov(c, cov)
      ensures to == Heir(c, cov, head, bounds, cur, n, first, 0)
    {
      to := 0;
      while to < c.members && !(to != cur && Whole(cov[to][n % c.pages], n, head) && first >= Intact(c, bounds[to]))
        invariant 0 <= to <= c.members
        invariant Heir(c, cov, head, bounds, cur, n, first, 0) == Heir(c, cov, head, bounds, cur, n, first, to)
      {
        to := to + 1;
      }
    }

    method Drop(m: nat) returns (selects: seq<PageSelect>)
      requires Valid() && m < c.members
      modifies this`cov, this`evHead, current
      ensures Valid() && PolicyMoves(State(), selects) == AudioPolicy.Drop(c, old(State()), m)
    {
      selects := [];
      ghost var a := State();
      ghost var rest := DropLoop(c, a, current[..], m, 0);
      ghost var whole := rest;
      for p := 0 to c.pages
        invariant Sources(c, current[..]) && cov == old(cov) && evHead == old(evHead)
        invariant rest == DropLoop(c, a, current[..], m, p)
        invariant whole == Moves(rest.current, selects + rest.selects)
      {
        if current[p] == m {
          var to := TargetOf(m, p);
          ghost var before := current[..];
          rest := DropLoop(c, a, before[p := to], m, p + 1);
          current[p] := to;
          assert current[..] == before[p := to];
          selects := selects + [PageSelect(p, to)];
        }
      }
      cov := cov[m := seq(c.pages, _ => NOTHING)];
      evHead := evHead[m := 0];
    }

    /** The first other member that holds the page slot `p` shows below the head. */
    method TargetOf(m: nat, p: nat) returns (to: int)
      requires ValidCov(c, cov) && p < c.pages
      ensures to == DropTarget(c, cov, head, m, p)
    {
      to := c.members;
      if head > 0 {
        var last := (head - 1) / PAGE;
        var back := Behind(last, p, c.pages);
        if last >= back {
          to := 0;
          while to < c.members && !(to != m && Whole(cov[to][p], last - back, head))
            invariant 0 <= to <= c.members
            invariant DropTarget(c, cov, head, m, p) == FirstWhole(c, cov, head, m, last - back, p, to)
          {
            to := to + 1;
          }
        }
      }
    }
  }
}
