/** Stall detection of gateway/internal/merge/progress.go: when each member's head last
    moved, and whether the member counts as stalled. Times are nanoseconds. */
module Progress {

  import opened Common

  const STALL_AFTER := 2_000_000_000
  const STALL_GRAINS := 3
  const START_GRACE := 10_000_000_000
  const RECOVER_AFTER := 5_000_000_000

  function StallWindow(period: int): (r: int)
    ensures r >= STALL_AFTER && r >= STALL_GRAINS * period && (r == STALL_AFTER || r == STALL_GRAINS * period)
  {
    if STALL_AFTER < STALL_GRAINS * period then STALL_GRAINS * period else STALL_AFTER
  }

  /** One member: its head, when it last moved, since when it moves steadily while
      stalled, whether its state is decided, and whether it is stalled. */
  datatype Track = Track(head: nat, moved: Option<int>, steady: Option<int>, known: bool, stall: bool)

  /** At least `d` has passed since `t`; always so since a time that never was. */
  predicate Past(t: Option<int>, now: int, d: int) {
    t.None? || now - t.value >= d
  }

  function Moved(t: Track, h: nat, now: int, pause: int): Track {
    if h == t.head then t
    else t.(head := h, moved := Some(now),
            steady := if t.stall && Past(t.moved, now, pause) then Some(now) else t.steady)
  }

  function Judged(t: Track, start: int, now: int, window: int): Track {
    if t.known && t.stall then
      t.(stall := Past(t.moved, now, window / 2) || !Past(t.steady, now, RECOVER_AFTER))
    else if t.moved.Some? then t.(known := true, stall := now - t.moved.value >= window)
    else if now - start >= START_GRACE then t.(known := true, stall := true)
    else t.(known := false)
  }

  /** One member observed at head `h` at `now`. */
  function Observe(t: Track, h: nat, start: int, now: int, window: int): Track {
    Judged(Moved(t, h, now, window / 2), start, now, window)
  }

  // ---------------------------------------------------------------- runs

  datatype Obs = Obs(head: nat, now: int)

  /** A member observed at non-decreasing times, from a fresh or a reported-stalled start. */
  ghost predicate Run(ts: seq<Track>, obs: seq<Obs>, start: int, window: int) {
    && |ts| == |obs| + 1 && 0 <= window
    && ts[0].moved.None? && ts[0].steady.None? && ts[0].known == ts[0].stall
    && (forall k :: 0 <= k < |obs| ==> ts[k + 1] == Observe(ts[k], obs[k].head, start, obs[k].now, window))
    && (forall k :: 0 <= k < |obs| ==> start <= obs[k].now)
    && (forall j, k :: 0 <= j <= k < |obs| ==> obs[j].now <= obs[k].now)
  }

  /** Observation k finds the head elsewhere than the one before. */
  predicate Moves(ts: seq<Track>, obs: seq<Obs>, k: nat)
    requires k < |obs| < |ts|
  {
    ts[k].head != obs[k].head
  }

  /** The time of the last move before observation k, from the observations alone. */
  ghost function LastMove(ts: seq<Track>, obs: seq<Obs>, k: nat): Option<int>
    requires k <= |obs| < |ts|
  {
    if k == 0 then None else if Moves(ts, obs, k - 1) then Some(obs[k - 1].now) else LastMove(ts, obs, k - 1)
  }

  /** Observation k turns the member stalled, or moving. */
  ghost predicate Changes(ts: seq<Track>, obs: seq<Obs>, k: nat)
    requires k < |obs| < |ts|
  {
    ts[k].stall != ts[k + 1].stall
  }

  /** No change strictly between observations i and j. */
  ghost predicate Quiet(ts: seq<Track>, obs: seq<Obs>, i: nat, j: nat)
    requires j <= |obs| < |ts|
  {
    forall k :: i < k < j ==> !Changes(ts, obs, k)
  }

  lemma {:induction false} MovedIsLastMove(ts: seq<Track>, obs: seq<Obs>, start: int, window: int, k: nat)
    requires Run(ts, obs, start, window) && k <= |obs|
    ensures ts[k].moved == LastMove(ts, obs, k)
    ensures !ts[k].known ==> !ts[k].stall
    ensures k > 0 && ts[k].moved.Some? ==> ts[k].moved.value <= obs[k - 1].now
  {
    if k > 0 {
      MovedIsLastMove(ts, obs, start, window, k - 1);
      assert ts[k] == Observe(ts[k - 1], obs[k - 1].head, start, obs[k - 1].now, window);
    }
  }

  /** From observation b, a move, to k every move follows the one before it within half
      the window. */
  ghost predicate SteadyFrom(ts: seq<Track>, obs: seq<Obs>, window: int, b: nat, k: nat)
    requires b < k <= |obs| < |ts|
  {
    && Moves(ts, obs, b)
    && forall u :: b < u < k && Moves(ts, obs, u) ==> !Past(LastMove(ts, obs, u), obs[u].now, window / 2)
  }

  /** While a member is stalled since `since`: it has not moved since, or it moves
      steadily from the time recorded on. */
  ghost predicate StalledSince(ts: seq<Track>, obs: seq<Obs>, window: int, since: int, k: nat)
    requires k <= |obs| < |ts|
  {
    && ts[k].known && ts[k].stall
    && (|| Past(ts[k].moved, since, window)
        || (exists b: nat :: b < k && SteadyFrom(ts, obs, window, b, k)
              && since <= obs[b].now && ts[k].steady == Some(obs[b].now)))
  }

  /** Observation k ends a stall: the head has moved steadily, never standing still for
      half the window, since a move at least RECOVER_AFTER earlier and after `since`. */
  ghost predicate Recovers(ts: seq<Track>, obs: seq<Obs>, window: int, since: int, k: nat)
    requires k < |obs| < |ts|
  {
    && !Past(LastMove(ts, obs, k + 1), obs[k].now, window / 2)
    && exists b: nat :: b <= k && SteadyFrom(ts, obs, window, b, k + 1)
         && since <= obs[b].now && obs[k].now - obs[b].now >= RECOVER_AFTER
  }

  lemma {:induction false} StaysStalled(ts: seq<Track>, obs: seq<Obs>, start: int, window: int, since: int, k: nat)
    requires Run(ts, obs, start, window) && k < |obs| && since <= obs[k].now
    requires StalledSince(ts, obs, window, since, k)
    ensures ts[k + 1].stall ==> StalledSince(ts, obs, window, since, k + 1)
    ensures !ts[k + 1].stall ==> Recovers(ts, obs, window, since, k)
  {
    MovedIsLastMove(ts, obs, start, window, k);
    MovedIsLastMove(ts, obs, start, window, k + 1);
    assert ts[k + 1] == Observe(ts[k], obs[k].head, start, obs[k].now, window);
    if Moves(ts, obs, k) && Past(ts[k].moved, obs[k].now, window / 2) {
      assert SteadyFrom(ts, obs, window, k, k + 1);
    } else if !Past(ts[k].moved, since, window) {
      var b: nat :| b < k && SteadyFrom(ts, obs, window, b, k) && since <= obs[b].now && ts[k].steady == Some(obs[b].now);
      assert SteadyFrom(ts, obs, window, b, k + 1);
    }
  }

  /** A stalled member has been so since some time of the run. */
  lemma {:induction false} StalledSome(ts: seq<Track>, obs: seq<Obs>, start: int, window: int, k: nat)
    requires Run(ts, obs, start, window) && k <= |obs| && ts[k].stall
    ensures exists since :: start <= since && (k > 0 ==> since <= obs[k - 1].now) && StalledSince(ts, obs, window, since, k)
  {
    if k == 0 {
      assert StalledSince(ts, obs, window, start, 0);
    } else {
      var j := k - 1;
      if ts[j].stall {
        StalledSome(ts, obs, start, window, j);
        var since :| start <= since && (j > 0 ==> since <= obs[j - 1].now) && StalledSince(ts, obs, window, since, j);
        if j == 0 && obs[0].now < since {
          assert StalledSince(ts, obs, window, start, 0);
          StaysStalled(ts, obs, start, window, start, 0);
        } else {
          StaysStalled(ts, obs, start, window, since, j);
        }
      } else {
        assert ts[k] == Observe(ts[j], obs[j].head, start, obs[j].now, window);
        assert StalledSince(ts, obs, window, obs[j].now, k);
      }
    }
  }

  /** Every recovery of every run, the first of a member reported stalled at the start
      too, is preceded by RECOVER_AFTER of steady moves. */
  lemma {:induction false} EveryRecoveryIsSteady(ts: seq<Track>, obs: seq<Obs>, start: int, window: int, j: nat)
    requires Run(ts, obs, start, window) && j < |obs| && ts[j].stall && !ts[j + 1].stall
    ensures Recovers(ts, obs, window, start, j) && obs[j].now - start >= RECOVER_AFTER
  {
    if j == 0 {
      assert StalledSince(ts, obs, window, start, 0);
      StaysStalled(ts, obs, start, window, start, 0);
    } else {
      StalledSome(ts, obs, start, window, j);
      var since :| start <= since <= obs[j - 1].now && StalledSince(ts, obs, window, since, j);
      StaysStalled(ts, obs, start, window, since, j);
    }
  }

  /** A member's state between two changes is the one the first left. */
  lemma {:induction false} NoReturn(ts: seq<Track>, obs: seq<Obs>, i: nat, k: nat)
    requires i < k <= |obs| < |ts| && Quiet(ts, obs, i, k)
    ensures ts[k].stall == ts[i + 1].stall
  {
    if k > i + 1 {
      NoReturn(ts, obs, i, k - 1);
      assert !Changes(ts, obs, k - 1);
    }
  }

  lemma {:induction false} StalledUntil(ts: seq<Track>, obs: seq<Obs>, start: int, window: int, i: nat, k: nat)
    requires Run(ts, obs, start, window) && i < k <= |obs| && Quiet(ts, obs, i, k)
    requires Changes(ts, obs, i) && ts[i + 1].stall
    ensures StalledSince(ts, obs, window, obs[i].now, k)
  {
    if k == i + 1 {
      assert ts[k] == Observe(ts[i], obs[i].head, start, obs[i].now, window);
    } else {
      StalledUntil(ts, obs, start, window, i, k - 1);
      assert !Changes(ts, obs, k - 1);
      StaysStalled(ts, obs, start, window, obs[i].now, k - 1);
    }
  }

  /** A recovery's steady moves are all since the member last turned stalled. */
  lemma {:induction false} RecoveryIsSteady(ts: seq<Track>, obs: seq<Obs>, start: int, window: int, i: nat, j: nat)
    requires Run(ts, obs, start, window) && i < j < |obs| && Quiet(ts, obs, i, j)
    requires Changes(ts, obs, i) && Changes(ts, obs, j) && ts[i + 1].stall
    ensures Recovers(ts, obs, window, obs[i].now, j)
    ensures obs[j].now - obs[i].now >= RECOVER_AFTER
  {
    StalledUntil(ts, obs, start, window, i, j);
    StaysStalled(ts, obs, start, window, obs[i].now, j);
    NoReturn(ts, obs, i, j);
  }

  lemma {:induction false} MovesOn(ts: seq<Track>, obs: seq<Obs>, start: int, window: int, i: nat, k: nat)
    requires Run(ts, obs, start, window) && i < k <= |obs|
    requires ts[i + 1].moved.Some?
    ensures ts[k].moved.Some? && (ts[k].moved.value >= ts[i + 1].moved.value || ts[k].moved.value >= obs[i].now)
  {
    if k > i + 1 {
      MovesOn(ts, obs, start, window, i, k - 1);
      assert ts[k] == Observe(ts[k - 1], obs[k - 1].head, start, obs[k - 1].now, window);
    }
  }

  /** A member that just recovered committed less than half its window before, so it
      stalls no sooner than the rest of the window. */
  lemma {:induction false} StallTakesAWindow(ts: seq<Track>, obs: seq<Obs>, start: int, window: int, i: nat, j: nat)
    requires Run(ts, obs, start, window) && i < j < |obs| && Quiet(ts, obs, i, j)
    requires Changes(ts, obs, i) && Changes(ts, obs, j) && !ts[i + 1].stall
    ensures obs[j].now - obs[i].now > window - window / 2
  {
    MovedIsLastMove(ts, obs, start, window, i);
    assert ts[i + 1] == Observe(ts[i], obs[i].head, start, obs[i].now, window);
    MovesOn(ts, obs, start, window, i, j);
    NoReturn(ts, obs, i, j);
    assert ts[j + 1] == Observe(ts[j], obs[j].head, start, obs[j].now, window);
  }

  /** The flap bound: three consecutive changes span more than RECOVER_AFTER plus half
      the stall window, so a member changes state at most twice in that time. */
  lemma {:induction false} FlapBound(ts: seq<Track>, obs: seq<Obs>, start: int, window: int, i: nat, j: nat, k: nat)
    requires Run(ts, obs, start, window) && i < j < k < |obs|
    requires Changes(ts, obs, i) && Changes(ts, obs, j) && Changes(ts, obs, k)
    requires Quiet(ts, obs, i, j) && Quiet(ts, obs, j, k)
    ensures obs[k].now - obs[i].now > RECOVER_AFTER + window / 2
  {
    NoReturn(ts, obs, i, j);
    if ts[i + 1].stall {
      RecoveryIsSteady(ts, obs, start, window, i, j);
      StallTakesAWindow(ts, obs, start, window, j, k);
    } else {
      StallTakesAWindow(ts, obs, start, window, i, j);
      RecoveryIsSteady(ts, obs, start, window, j, k);
    }
  }

  // ----------------------------------------------- exactly when it changes

  /** The head kept is the one last observed. */
  lemma HeadIsLast(ts: seq<Track>, obs: seq<Obs>, start: int, window: int, k: nat)
    requires Run(ts, obs, start, window) && 0 < k <= |obs|
    ensures ts[k].head == obs[k - 1].head
  {
    assert ts[k - 1 + 1] == Observe(ts[k - 1], obs[k - 1].head, start, obs[k - 1].now, window);
  }

  /** A member that is not stalled stalls exactly when its head has stood still for the window
      since its last move, or since the start for the grace if it has not moved. */
  lemma {:induction false} StallsExactly(ts: seq<Track>, obs: seq<Obs>, start: int, window: int, k: nat)
    requires Run(ts, obs, start, window) && k < |obs| && !ts[k].stall
    ensures var last := LastMove(ts, obs, k + 1);
            ts[k + 1].stall <==> if last.Some? then obs[k].now - last.value >= window else obs[k].now - start >= START_GRACE
  {
    MovedIsLastMove(ts, obs, start, window, k + 1);
    assert ts[k + 1] == Observe(ts[k], obs[k].head, start, obs[k].now, window);
  }

  lemma {:induction false} SteadyPast(ts: seq<Track>, obs: seq<Obs>, start: int, window: int, k: nat)
    requires Run(ts, obs, start, window) && k <= |obs|
    ensures ts[k].steady.Some? ==> k > 0 && ts[k].steady.value <= obs[k - 1].now
  {
    if k > 0 {
      SteadyPast(ts, obs, start, window, k - 1);
      assert ts[k - 1 + 1] == Observe(ts[k - 1], obs[k - 1].head, start, obs[k - 1].now, window);
    }
  }

  /** Moves no pause apart since observation b leave the time recorded no later than b. */
  lemma {:induction false} SteadyKept(ts: seq<Track>, obs: seq<Obs>, start: int, window: int, b: nat, k: nat)
    requires Run(ts, obs, start, window) && b < k <= |obs| && SteadyFrom(ts, obs, window, b, k)
    ensures ts[k].steady.None? || ts[k].steady.value <= obs[b].now
  {
    var u := k - 1;
    MovedIsLastMove(ts, obs, start, window, u);
    assert ts[u + 1] == Observe(ts[u], obs[u].head, start, obs[u].now, window);
    if u == b {
      SteadyPast(ts, obs, start, window, b);
    } else {
      assert SteadyFrom(ts, obs, window, b, u);
      SteadyKept(ts, obs, start, window, b, u);
    }
  }

  /** A stalled member turns moving exactly when it has moved steadily, never standing still
      for half the window, since a move at least RECOVER_AFTER earlier. */
  lemma {:induction false} RecoversExactly(ts: seq<Track>, obs: seq<Obs>, start: int, window: int, k: nat)
    requires Run(ts, obs, start, window) && k < |obs| && ts[k].stall
    ensures !ts[k + 1].stall <==> Recovers(ts, obs, window, start, k)
  {
    MovedIsLastMove(ts, obs, start, window, k);
    MovedIsLastMove(ts, obs, start, window, k + 1);
    assert ts[k + 1] == Observe(ts[k], obs[k].head, start, obs[k].now, window);
    if !ts[k + 1].stall { EveryRecoveryIsSteady(ts, obs, start, window, k); }
    if Recovers(ts, obs, window, start, k) {
      var b: nat :| b <= k && SteadyFrom(ts, obs, window, b, k + 1) && start <= obs[b].now && obs[k].now - obs[b].now >= RECOVER_AFTER;
      SteadyKept(ts, obs, start, window, b, k + 1);
    }
  }

  /** A member is decided exactly once it has moved, or the grace has passed, or when it was
      reported stalled at the start. */
  lemma {:induction false} DecidedExactly(ts: seq<Track>, obs: seq<Obs>, start: int, window: int, k: nat)
    requires Run(ts, obs, start, window) && 0 < k <= |obs|
    ensures ts[k].known <==> ts[0].stall || LastMove(ts, obs, k).Some? || obs[k - 1].now - start >= START_GRACE
  {
    var j := k - 1;
    MovedIsLastMove(ts, obs, start, window, j);
    MovedIsLastMove(ts, obs, start, window, k);
    assert ts[j + 1] == Observe(ts[j], obs[j].head, start, obs[j].now, window);
    if j > 0 { DecidedExactly(ts, obs, start, window, j); }
  }

  // ------------------------------------------------- all members, in place

  class Tracker {
    const window: int
    const start: int
    var head: seq<nat>
    var moved: seq<Option<int>>
    var steady: seq<Option<int>>
    var known: seq<bool>
    var stall: seq<bool>

    ghost predicate Valid()
      reads this
    {
      |head| == |moved| == |steady| == |known| == |stall|
    }

    ghost function At(i: nat): Track
      requires Valid() && i < |head|
      reads this
    {
      Track(head[i], moved[i], steady[i], known[i], stall[i])
    }

    constructor (heads: seq<nat>, now: int, window: int)
      ensures Valid() && |head| == |heads| && this.window == window && start == now
      ensures forall i :: 0 <= i < |heads| ==> At(i) == Track(heads[i], None, None, false, false)
    {
      this.window, start, head := window, now, heads;
      moved, steady := seq(|heads|, _ => None), seq(|heads|, _ => None);
      known, stall := seq(|heads|, _ => false), seq(|heads|, _ => false);
    }

    /** Takes the members reported as stalled from the start. */
    method StalledFrom(reported: seq<bool>)
      requires Valid() && |reported| <= |head|
      modifies this`known, this`stall
      ensures Valid()
      ensures forall i :: 0 <= i < |head| ==>
                At(i) == if i < |reported| then old(At(i)).(known := reported[i], stall := reported[i]) else old(At(i))
    {
      for i := 0 to |reported|
        invariant Valid()
        invariant forall k :: 0 <= k < |head| ==>
                    At(k) == if k < i then old(At(k)).(known := reported[k], stall := reported[k]) else old(At(k))
      {
        known, stall := known[i := reported[i]], stall[i := reported[i]];
      }
    }

    /** Records the heads at `now`; reports whether some member's state changed. */
    method ObserveAll(heads: seq<nat>, now: int) returns (changed: bool)
      requires Valid() && |heads| == |head|
      modifies this
      ensures Valid() && |head| == old(|head|)
      ensures forall i :: 0 <= i < |head| ==> At(i) == Observe(old(At(i)), heads[i], start, now, window)
      ensures changed <==> exists i :: 0 <= i < |head| && (At(i).known != old(At(i)).known || At(i).stall != old(At(i)).stall)
    {
      changed := false;
      for i := 0 to |heads|
        invariant Valid() && |head| == |heads|
        invariant forall k :: i <= k < |heads| ==> At(k) == old(At(k))
        invariant forall k :: 0 <= k < i ==> At(k) == Observe(old(At(k)), heads[k], start, now, window)
        invariant changed <==> exists k :: 0 <= k < i && (At(k).known != old(At(k)).known || At(k).stall != old(At(k)).stall)
      {
        var differs := ObserveOne(i, heads[i], now);
        changed := changed || differs;
      }
    }

    method ObserveOne(i: nat, h: nat, now: int) returns (differs: bool)
      requires Valid() && i < |head|
      modifies this
      ensures Valid() && |head| == old(|head|)
      ensures forall k :: 0 <= k < |head| && k != i ==> At(k) == old(At(k))
      ensures At(i) == Observe(old(At(i)), h, start, now, window)
      ensures differs <==> At(i).known != old(At(i)).known || At(i).stall != old(At(i)).stall
    {
      var t := Track(head[i], moved[i], steady[i], known[i], stall[i]);
      if h != t.head {
        if t.stall && Past(t.moved, now, window / 2) {
          t := t.(steady := Some(now));
        }
        t := t.(head := h, moved := Some(now));
      }
      t := Judged(t, start, now, window);
      differs := t.known != known[i] || t.stall != stall[i];
      head, moved, steady := head[i := t.head], moved[i := t.moved], steady[i := t.steady];
      known, stall := known[i := t.known], stall[i := t.stall];
    }

    /** The members stalled, and those not yet decided, in order. */
    method Report() returns (stalled: seq<nat>, undecided: seq<nat>)
      requires Valid()
      ensures forall i: nat :: i in stalled <==> i < |stall| && known[i] && stall[i]
      ensures forall i: nat :: i in undecided <==> i < |stall| && !known[i]
      ensures forall i, j :: 0 <= i < j < |stalled| ==> stalled[i] < stalled[j]
      ensures forall i, j :: 0 <= i < j < |undecided| ==> undecided[i] < undecided[j]
    {
      stalled, undecided := [], [];
      for i := 0 to |stall|
        invariant forall k: nat :: k in stalled <==> k < i && known[k] && stall[k]
        invariant forall k: nat :: k in undecided <==> k < i && !known[k]
        invariant forall k :: 0 <= k < |stalled| ==> stalled[k] < i
        invariant forall k, l :: 0 <= k < l < |stalled| ==> stalled[k] < stalled[l]
        invariant forall k :: 0 <= k < |undecided| ==> undecided[k] < i
        invariant forall k, l :: 0 <= k < l < |undecided| ==> undecided[k] < undecided[l]
      {
        if !known[i] {
          undecided := undecided + [i];
        } else if stall[i] {
          stalled := stalled + [i];
        }
      }
    }
  }
}
