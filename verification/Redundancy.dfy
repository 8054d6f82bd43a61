/** The agent's Want and Release of one redundancy set's output, of
    agent/internal/redundancy/redundancy.go, as steps that interleave against an API
    server whose reads and updates are atomic. Any number of Wants run at once, one
    Release at a time; other writers of the object and the clock move in between. */
module Redundancy {

  import opened Common

  /** A Want that has recorded a use at `use`: before its Get; before an Update of what
      it read, at resource version `version`, without the node; or returned true. */
  datatype Want = Getting(use: int) | Updating(use: int, version: nat) | Wanted(use: int)

  /** Where a Release is. From `Held` on it is in leave holding the lock of lastUsed,
      with what it read at `version` to write back without the node. */
  datatype Release =
    | Resting
    | Listed(here: bool)
    | Asked(here: bool, inUse: bool)
    | Timed(here: bool, inUse: bool, now: int)
    | Idle
    | Got(version: nat)
    | Held(version: nat)

  /** `listed` is whether the set's status names this node; `latest`, which only the
      proof keeps, is the last use any Want recorded. */
  datatype Sys = Sys(clock: int, listed: bool, version: nat, lastUsed: Option<int>,
                     wants: map<nat, Want>, release: Release, latest: Option<int>)

  // --------------------------------------------------------------- steps

  ghost predicate Tick(s: Sys, s': Sys) {
    s.clock <= s'.clock && s' == s.(clock := s'.clock)
  }

  /** Another writer updates the object. */
  ghost predicate Other(s: Sys, s': Sys) {
    s' == s.(listed := s'.listed, version := s.version + 1)
  }

  /** Want records its use under the lock. */
  ghost predicate Use(s: Sys, s': Sys, t: nat) {
    && t !in s.wants && !s.release.Held?
    && s' == s.(lastUsed := Some(s.clock), latest := Some(s.clock), wants := s.wants[t := Getting(s.clock)])
  }

  /** Want reads the object: done when it names the node. */
  ghost predicate WantGet(s: Sys, s': Sys, t: nat) {
    && t in s.wants && s.wants[t].Getting?
    && var u := s.wants[t].use;
       s' == s.(wants := s.wants[t := if s.listed then Wanted(u) else Updating(u, s.version)])
  }

  /** Want writes the node back, or meets a conflict and reads again. */
  ghost predicate WantUpdate(s: Sys, s': Sys, t: nat) {
    && t in s.wants && s.wants[t].Updating?
    && var u := s.wants[t].use;
       if s.wants[t].version == s.version then
         s' == s.(listed := true, version := s.version + 1, wants := s.wants[t := Wanted(u)])
       else s' == s.(wants := s.wants[t := Getting(u)])
  }

  /** Release lists the sets, asks what is in use if the set names the node, and reads
      the clock. */
  ghost predicate List(s: Sys, s': Sys) {
    s.release == Resting && s' == s.(release := Listed(s.listed))
  }

  ghost predicate Ask(s: Sys, s': Sys, inUse: bool) {
    s.release.Listed? && (inUse ==> s.release.here) && s' == s.(release := Asked(s.release.here, inUse))
  }

  ghost predicate ReadClock(s: Sys, s': Sys) {
    s.release.Asked? && s' == s.(release := Timed(s.release.here, s.release.inUse, s.clock))
  }

  /** Release, under the lock: a use or a first sight is recorded at the time read
      before, an idle set is found, and one the list did not show is forgotten. */
  ghost predicate Mark(grace: int, s: Sys, s': Sys) {
    s.release.Timed? &&
    var now := s.release.now;
    if !s.release.here then s' == s.(lastUsed := None, release := Resting)
    else if s.release.inUse || s.lastUsed.None? then s' == s.(lastUsed := Some(now), release := Resting)
    else if now - s.lastUsed.value >= grace then s' == s.(release := Idle)
    else s' == s.(release := Resting)
  }

  /** leave reads the object; it is done when the node is not named. */
  ghost predicate LeaveGet(s: Sys, s': Sys) {
    s.release == Idle && s' == s.(release := if s.listed then Got(s.version) else Resting)
  }

  /** leave takes the lock and checks for a use since. */
  ghost predicate LeaveLock(grace: int, s: Sys, s': Sys) {
    s.release.Got? &&
    s' == s.(release := if s.lastUsed.Some? && s.clock - s.lastUsed.value < grace then Resting else Held(s.release.version))
  }

  /** leave writes the object back without the node. */
  ghost predicate Removes(s: Sys, s': Sys) {
    && s.release.Held? && s.release.version == s.version
    && s' == s.(listed := false, version := s.version + 1, release := Resting)
  }

  /** leave's update meets a conflict: it reads again, or gives up. */
  ghost predicate LeaveConflict(s: Sys, s': Sys) {
    && s.release.Held? && s.release.version != s.version
    && (s' == s.(release := Idle) || s' == s.(release := Resting))
  }

  /** A call fails: the Want or the Release ends in an error. */
  ghost predicate Fail(s: Sys, s': Sys) {
    || (exists t :: t in s.wants && !s.wants[t].Wanted? && s' == s.(wants := s.wants - {t}))
    || s' == s.(release := Resting)
  }

  ghost predicate Next(grace: int, s: Sys, s': Sys) {
    || Tick(s, s') || Other(s, s') || Fail(s, s')
    || (exists t :: Use(s, s', t) || WantGet(s, s', t) || WantUpdate(s, s', t))
    || List(s, s') || (exists inUse :: Ask(s, s', inUse)) || ReadClock(s, s') || Mark(grace, s, s')
    || LeaveGet(s, s') || LeaveLock(grace, s, s') || Removes(s, s') || LeaveConflict(s, s')
  }

  ghost predicate Init(s: Sys) {
    s.lastUsed.None? && s.latest.None? && s.wants == map[] && s.release == Resting
  }

  // ---------------------------------------------------------- the guarantee

  /** The clock was read before the lock, and a Want recorded a later use in between:
      Mark writes the older time over it. */
  ghost predicate Backdates(s: Sys) {
    s.release.Timed? && s.release.here && s.release.inUse && s.lastUsed.Some? && s.release.now < s.lastUsed.value
  }

  /** Nothing recorded a use later than what is remembered, give or take `slack`. */
  ghost predicate Covered(s: Sys, slack: int) {
    s.lastUsed.Some? && s.latest.Some? ==> s.latest.value - slack <= s.lastUsed.value
  }

  ghost predicate Inv(s: Sys, slack: int) {
    && Covered(s, slack)
    && (s.latest.Some? ==> s.latest.value <= s.clock)
    && (s.lastUsed.Some? ==> s.lastUsed.value <= s.clock)
    && (s.release.Idle? || s.release.Got? || s.release.Held? ==> s.lastUsed.Some?)
    && (s.release.Timed? ==> s.release.now <= s.clock)
    && (s.release.Timed? && s.lastUsed.None? && s.latest.Some? ==> s.latest.value <= s.release.now)
    && (s.release.Timed? && s.lastUsed.Some? && s.release.now < s.lastUsed.value ==> s.latest == s.lastUsed)
  }

  /** The lock's hold keeps a decision to leave true. */
  ghost predicate Decided(grace: int, s: Sys) {
    s.release.Held? ==> s.lastUsed.Some? && s.clock - s.lastUsed.value >= grace
  }

  /** A step backdates by no more than `slack`: the time between Release's clock reading
      and its turn at the lock. */
  ghost predicate Prompt(grace: int, s: Sys, s': Sys, slack: int) {
    Mark(grace, s, s') && Backdates(s) ==> s.clock - s.release.now <= slack
  }

  lemma MarkInv(grace: int, s: Sys, s': Sys, slack: int)
    requires 0 <= slack && Inv(s, slack) && Decided(grace, s) && Mark(grace, s, s') && Prompt(grace, s, s', slack)
    ensures Inv(s', slack) && Decided(grace, s')
  {
  }

  lemma WantInv(grace: int, s: Sys, s': Sys, slack: int, t: nat)
    requires 0 <= slack && Inv(s, slack) && Decided(grace, s) && (Use(s, s', t) || WantGet(s, s', t) || WantUpdate(s, s', t))
    ensures Inv(s', slack) && Decided(grace, s')
  {
  }

  lemma LeaveInv(grace: int, s: Sys, s': Sys, slack: int)
    requires 0 <= slack && Inv(s, slack) && Decided(grace, s)
    requires LeaveGet(s, s') || LeaveLock(grace, s, s') || Removes(s, s') || LeaveConflict(s, s')
    ensures Inv(s', slack) && Decided(grace, s')
  {
  }

  lemma {:induction false} NextInv(grace: int, s: Sys, s': Sys, slack: int)
    requires 0 <= slack && Inv(s, slack) && Decided(grace, s) && Next(grace, s, s') && Prompt(grace, s, s', slack)
    ensures Inv(s', slack) && Decided(grace, s')
  {
    if Mark(grace, s, s') {
      MarkInv(grace, s, s', slack);
    } else if t :| Use(s, s', t) || WantGet(s, s', t) || WantUpdate(s, s', t) {
      WantInv(grace, s, s', slack, t);
    } else if LeaveGet(s, s') || LeaveLock(grace, s, s') || Removes(s, s') || LeaveConflict(s, s') {
      LeaveInv(grace, s, s', slack);
    }
  }

  ghost predicate StepAt(grace: int, run: seq<Sys>, slack: int, k: nat)
    requires k < |run| - 1
  {
    Next(grace, run[k], run[k + 1]) && Prompt(grace, run[k], run[k + 1], slack)
  }

  ghost predicate Run(grace: int, run: seq<Sys>, slack: int) {
    && |run| > 0 && Init(run[0]) && 0 <= slack
    && forall k :: 0 <= k < |run| - 1 ==> StepAt(grace, run, slack, k)
  }

  lemma {:induction false} RunInv(grace: int, run: seq<Sys>, slack: int, k: nat)
    requires Run(grace, run, slack) && k < |run|
    ensures Inv(run[k], slack) && Decided(grace, run[k])
  {
    if k > 0 {
      var j := k - 1;
      RunInv(grace, run, slack, j);
      assert StepAt(grace, run, slack, j);
      NextInv(grace, run[j], run[j + 1], slack);
    }
  }

  /** Every use a Want holds was recorded, and by now. */
  ghost predicate WantsKnown(s: Sys) {
    forall t :: t in s.wants ==> s.latest.Some? && s.wants[t].use <= s.latest.value
  }

  lemma NextWants(grace: int, s: Sys, s': Sys, slack: int)
    requires Inv(s, slack) && WantsKnown(s) && Next(grace, s, s')
    ensures WantsKnown(s')
  {
  }

  lemma {:induction false} RunWants(grace: int, run: seq<Sys>, slack: int, k: nat)
    requires Run(grace, run, slack) && k < |run|
    ensures WantsKnown(run[k])
  {
    if k > 0 {
      var j := k - 1;
      RunWants(grace, run, slack, j);
      RunInv(grace, run, slack, j);
      assert StepAt(grace, run, slack, j);
      NextWants(grace, run[j], run[j + 1], slack);
    }
  }

  /** In every interleaving this agent removes the node no sooner than the grace after
      the use any Want recorded, less the longest time Release backdated a use by: the
      whole grace when it never did. */
  lemma {:induction false} GraceKept(grace: int, run: seq<Sys>, slack: int, k: nat, t: nat)
    requires Run(grace, run, slack) && k < |run| - 1 && Removes(run[k], run[k + 1])
    requires t in run[k].wants
    ensures run[k].clock - run[k].wants[t].use >= grace - slack
  {
    RunInv(grace, run, slack, k);
    RunWants(grace, run, slack, k);
  }

  /** A Want returns in the step. */
  ghost predicate Returns(s: Sys, s': Sys, t: nat) {
    t in s'.wants && s'.wants[t].Wanted? && !(t in s.wants && s.wants[t].Wanted?)
  }

  /** It returns only with the node listed. */
  lemma ReturnsListed(grace: int, s: Sys, s': Sys, t: nat)
    requires Next(grace, s, s') && Returns(s, s', t)
    ensures s'.listed
  {
  }

  lemma NextClock(grace: int, s: Sys, s': Sys)
    requires Next(grace, s, s')
    ensures s.clock <= s'.clock
  {
  }

  /** What a Want returned stays, and only leave or another writer takes the node off. */
  lemma StaysWanted(grace: int, s: Sys, s': Sys, t: nat)
    requires Next(grace, s, s') && t in s.wants && s.wants[t].Wanted?
    ensures t in s'.wants && s'.wants[t] == s.wants[t]
    ensures s.listed && !s'.listed ==> Removes(s, s') || Other(s, s')
  {
  }

  lemma RunStep(grace: int, run: seq<Sys>, slack: int, j: nat)
    requires Run(grace, run, slack) && j < |run| - 1
    ensures Next(grace, run[j], run[j + 1]) && run[j].clock <= run[j + 1].clock
  {
    assert StepAt(grace, run, slack, j);
    NextClock(grace, run[j], run[j + 1]);
  }

  lemma ReturnsAt(grace: int, run: seq<Sys>, slack: int, i: nat, t: nat)
    requires Run(grace, run, slack) && i < |run| - 1 && Returns(run[i], run[i + 1], t)
    ensures run[i + 1].listed && run[i + 1].wants[t].Wanted?
  {
    RunStep(grace, run, slack, i);
    ReturnsListed(grace, run[i], run[i + 1], t);
  }

  /** One step within the grace. */
  lemma ListedStep(grace: int, run: seq<Sys>, slack: int, j: nat, t: nat)
    requires Run(grace, run, slack) && j < |run| - 1 && t in run[j].wants && run[j].wants[t].Wanted? && run[j].listed
    requires !(Other(run[j], run[j + 1]) && !run[j + 1].listed)
    requires run[j + 1].clock - run[j].wants[t].use < grace - slack
    ensures t in run[j + 1].wants && run[j + 1].wants[t] == run[j].wants[t] && run[j + 1].listed
  {
    RunStep(grace, run, slack, j);
    StaysWanted(grace, run[j], run[j + 1], t);
    if Removes(run[j], run[j + 1]) { GraceKept(grace, run, slack, j, t); }
  }

  /** In every interleaving, once a Want has returned, the node stays listed for the grace
      after its use, less the longest time Release backdated a use by, unless another
      writer takes it off. */
  lemma {:induction false} ListedForGrace(grace: int, run: seq<Sys>, slack: int, i: nat, k: nat, t: nat)
    requires Run(grace, run, slack) && i < k < |run| && Returns(run[i], run[i + 1], t)
    requires forall j :: i < j < k ==> !(Other(run[j], run[j + 1]) && !run[j + 1].listed)
    requires run[k].clock - run[i + 1].wants[t].use < grace - slack
    ensures t in run[k].wants && run[k].wants[t] == run[i + 1].wants[t] && run[k].listed
  {
    var j := k - 1;
    if j == i {
      ReturnsAt(grace, run, slack, i, t);
    } else {
      assert run[j].clock <= run[k].clock by { RunStep(grace, run, slack, j); }
      ListedForGrace(grace, run, slack, i, j, t);
      ListedStep(grace, run, slack, j, t);
    }
  }

  /** Mark keeps every recorded use covered exactly when it does not backdate one. */
  lemma {:induction false} MarkCovers(grace: int, s: Sys, s': Sys)
    requires Inv(s, 0) && Mark(grace, s, s')
    ensures Covered(s', 0) <==> !Backdates(s)
  {
  }

  // --------------------------------------------------- a grace cut short

  /** After a Release backdates a use: time passes to the grace after the time it wrote,
      and the next Release finds the set idle and leaves. */
  function Leaving(grace: int, s: Sys): (r: seq<Sys>)
    requires s.release.Timed?
    ensures |r| == 10
  {
    var at := Max(s.clock, s.release.now + grace);
    var s1 := s.(lastUsed := Some(s.release.now), release := Resting);
    var s2 := s1.(clock := at);
    var s8 := s2.(release := Held(s.version));
    [s, s1, s2, s2.(release := Listed(true)), s2.(release := Asked(true, false)), s2.(release := Timed(true, false, at)),
     s2.(release := Idle), s2.(release := Got(s.version)), s8, s8.(listed := false, version := s.version + 1, release := Resting)]
  }

  ghost predicate Steps(grace: int, run: seq<Sys>) {
    forall k :: 0 <= k < |run| - 1 ==> Next(grace, run[k], run[k + 1])
  }

  /** Conversely to GraceKept, wherever a Release backdates the use of a Want still in its
      grace, the node can be gone before that grace has passed. */
  lemma {:induction false} BackdatingCutsShort(grace: int, s: Sys, t: nat)
    requires Backdates(s) && s.listed && t in s.wants && s.wants[t].Wanted?
    requires s.release.now < s.wants[t].use && s.clock < s.wants[t].use + grace
    ensures var run := Leaving(grace, s);
            && Steps(grace, run) && Removes(run[8], run[9])
            && t in run[8].wants && run[8].wants[t] == s.wants[t]
            && run[8].clock - run[8].wants[t].use < grace
  {
    var run := Leaving(grace, s);
    assert Mark(grace, run[0], run[1]) && Tick(run[1], run[2]) && List(run[2], run[3]);
    assert Ask(run[3], run[4], false) && ReadClock(run[4], run[5]) && Mark(grace, run[5], run[6]);
    assert LeaveGet(run[6], run[7]) && LeaveLock(grace, run[7], run[8]) && Removes(run[8], run[9]);
  }

  /** A Release lists the set, finds its output in use and reads the clock at 0; at 1 a
      Want records a use and returns. */
  function Overtaken(): seq<Sys> {
    var s0 := Sys(0, true, 0, None, map[], Resting, None);
    var s3 := s0.(release := Timed(true, true, 0));
    var s4 := s3.(clock := 1);
    var s5 := s4.(lastUsed := Some(1), latest := Some(1), wants := map[7 := Getting(1)]);
    [s0, s0.(release := Listed(true)), s0.(release := Asked(true, true)), s3, s4, s5, s5.(wants := map[7 := Wanted(1)])]
  }

  /** So a run reaches such a state, and with a grace of 10 loses the node 9 after the
      Want's use. */
  lemma GraceCutShort()
    ensures var run := Overtaken();
            && Init(run[0]) && Steps(10, run) && Backdates(run[6])
            && var end := Leaving(10, run[6]);
               Steps(10, end) && Removes(end[8], end[9]) && 7 in end[8].wants && end[8].clock - end[8].wants[7].use == 9
  {
    var run := Overtaken();
    assert List(run[0], run[1]) && Ask(run[1], run[2], true) && ReadClock(run[2], run[3]) && Tick(run[3], run[4]);
    assert run[5].wants == run[4].wants[7 := Getting(1)] && Use(run[4], run[5], 7);
    assert run[6].wants == run[5].wants[7 := Wanted(1)] && WantGet(run[5], run[6], 7);
    BackdatingCutsShort(10, run[6], 7);
  }
}
