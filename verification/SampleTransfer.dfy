/** The sample transfer loop of gateway/internal/mirror/source_transfer.go, against a
    reader and a fabric that answer anything. */
module SampleTransfer {
  import opened Common

  // --------------------------------------------------------- awaitTransfer

  const ABANDON_AFTER := 2_000_000_000

  /** What a progress call answers. */
  datatype Answer = Ready | NotReady | Interrupted | Failed

  /** One turn of the wait: the progress call, the poll asked after an interruption, and
      the time since the post. */
  datatype Poll = Poll(progress: Answer, poll: Answer, elapsed: int)

  datatype Awaited = Done(late: bool) | Lost(evicted: bool) | Canceled

  function Settled(p: Poll): Answer { if p.progress == Interrupted then p.poll else p.progress }

  /** A turn after which the transfer is still outstanding. */
  predicate Outstanding(p: Poll) {
    Settled(p) == NotReady && p.elapsed <= ABANDON_AFTER
  }

  /** Calls progress until it stops answering not-ready, or `polls` ends as the context
      does. The turn that ends it is the first that is not outstanding. */
  method AwaitTransfer(polls: seq<Poll>, deadline: int) returns (r: Awaited, n: nat)
    ensures n <= |polls| && forall k :: 0 <= k < n ==> Outstanding(polls[k])
    ensures r.Canceled? <==> n == |polls|
    ensures n < |polls| ==> !Outstanding(polls[n])
    ensures r.Done? <==> n < |polls| && Settled(polls[n]) == Ready
    ensures r.Done? ==> (r.late <==> 0 < deadline < polls[n].elapsed)
    ensures r.Lost? ==> (r.evicted <==> Settled(polls[n]) == Interrupted)
  {
    n := 0;
    while n < |polls|
      invariant n <= |polls| && forall k :: 0 <= k < n ==> Outstanding(polls[k])
    {
      var a := polls[n].progress;
      if a == Interrupted {
        a := polls[n].poll;
      }
      match a {
        case Ready => return Done(deadline > 0 && polls[n].elapsed > deadline), n;
        case NotReady =>
          if polls[n].elapsed > ABANDON_AFTER { return Lost(false), n; }
        case Interrupted => return Lost(true), n;
        case Failed => return Lost(false), n;
      }
      n := n + 1;
    }
    r := Canceled;
  }

  // -------------------------------------------------------------- the loop

  datatype Config = Config(batch: nat, maxReadable: nat) {
    /** How far lastSent may trail the head before samples are abandoned; 0 is never. */
    function AgedOut(): nat {
      if maxReadable > batch then maxReadable - batch else maxReadable
    }
  }

  datatype PostResult = Posted | RetryPost | FailPost

  /** What one turn of the loop meets: the probed head, how a post fares, and whether a
      posted transfer completes. */
  datatype Event = ProbeFailed | Probed(head: nat, post: PostResult, completes: bool)

  /** What the loop does, in order. */
  datatype Note = Head(head: nat) | Skip(samples: nat) | Post(from: nat, to: nat) | Complete(to: nat) | Lose(to: nat)

  datatype State = State(lastSent: nat, running: bool)

  /** The position after abandoning what has left the readable window. */
  function Resume(c: Config, lastSent: nat, head: nat): (r: nat)
    ensures r >= lastSent
  {
    if c.AgedOut() > 0 && head - lastSent > c.AgedOut() then head - c.AgedOut() else lastSent
  }

  function Turn(c: Config, s: State, e: Event): (State, seq<Note>) {
    match e
    case ProbeFailed => (s, [])
    case Probed(head, post, completes) =>
      if head < s.lastSent + c.batch then (s, [Head(head)])
      else
        var from := Resume(c, s.lastSent, head);
        var notes := [Head(head), Skip(from - s.lastSent)];
        match post
        case RetryPost => (s.(lastSent := from), notes)
        case FailPost => (State(from, false), notes)
        case Posted =>
          var to := from + c.batch;
          if completes then (s.(lastSent := to), notes + [Post(from, to), Complete(to)])
          else (State(from, false), notes + [Post(from, to), Lose(to)])
  }

  /** The loop over a run of events, from a log so far. */
  function Run(c: Config, s: State, log: seq<Note>, es: seq<Event>): (State, seq<Note>)
    decreases |es|
  {
    if es == [] || !s.running then (s, log)
    else var (s', notes) := Turn(c, s, es[0]); Run(c, s', log + notes, es[1..])
  }

  method RunLoop(c: Config, head0: nat, es: seq<Event>) returns (lastSent: nat, log: seq<Note>)
    ensures (lastSent, log) == (Run(c, State(head0, true), [], es).0.lastSent, Run(c, State(head0, true), [], es).1)
  {
    lastSent, log := head0, [];
    var running, i := true, 0;
    while i < |es| && running
      invariant i <= |es|
      invariant Run(c, State(lastSent, running), log, es[i..]) == Run(c, State(head0, true), [], es)
      decreases |es| - i
    {
      ghost var s0 := State(lastSent, running);
      var e := es[i];
      var notes: seq<Note> := [];
      if e.Probed? {
        notes := [Head(e.head)];
        if e.head >= lastSent + c.batch {
          var skipped := 0;
          if c.AgedOut() > 0 && e.head - lastSent > c.AgedOut() {
            skipped := e.head - c.AgedOut() - lastSent;
            lastSent := e.head - c.AgedOut();
          }
          notes := notes + [Skip(skipped)];
          if e.post == Posted {
            var end := lastSent + c.batch;
            notes := notes + [Post(lastSent, end), if e.completes then Complete(end) else Lose(end)];
            if e.completes {
              lastSent := end;
            } else {
              running := false;
            }
          } else if e.post == FailPost {
            running := false;
          }
        }
      }
      assert notes == Turn(c, s0, e).1;
      log := log + notes;
      assert es[i..][1..] == es[i + 1..];
      i := i + 1;
    }
  }

  // ------------------------------------------------------------ properties

  function Skipped(log: seq<Note>): nat {
    if log == [] then 0
    else Skipped(log[..|log| - 1]) + if log[|log| - 1].Skip? then log[|log| - 1].samples else 0
  }

  function Completed(log: seq<Note>): nat {
    if log == [] then 0
    else Completed(log[..|log| - 1]) + if log[|log| - 1].Complete? then 1 else 0
  }

  lemma {:induction false} Counts(log: seq<Note>, notes: seq<Note>)
    ensures Skipped(log + notes) == Skipped(log) + Skipped(notes)
    ensures Completed(log + notes) == Completed(log) + Completed(notes)
    decreases |notes|
  {
    if notes == [] {
      assert log + notes == log;
    } else {
      var n := |notes| - 1;
      assert (log + notes)[..|log + notes| - 1] == log + notes[..n];
      Counts(log, notes[..n]);
    }
  }

  /** The last head probed. */
  function LastHead(log: seq<Note>): int {
    if log == [] then -1 else if log[|log| - 1].Head? then log[|log| - 1].head else LastHead(log[..|log| - 1])
  }

  lemma {:induction false} LastHeadOf(log: seq<Note>, notes: seq<Note>)
    requires notes != [] && notes[0].Head? && forall k :: 1 <= k < |notes| ==> !notes[k].Head?
    ensures LastHead(log + notes) == notes[0].head
    decreases |notes|
  {
    var n := |notes| - 1;
    assert (log + notes)[..|log + notes| - 1] == log + notes[..n];
    if n > 0 { LastHeadOf(log, notes[..n]); }
  }

  /** Where a loop that began at `head0` is: past what it skipped and completed. */
  function Position(c: Config, head0: nat, log: seq<Note>): int {
    head0 + Skipped(log) + c.batch * Completed(log)
  }

  /** Conservation: what the loop has moved on by is what it skipped and completed. */
  ghost predicate Conserved(c: Config, head0: nat, s: State, log: seq<Note>) {
    s.lastSent == Position(c, head0, log)
  }

  /** Every post is answered before anything else is done, and transfers one batch. */
  ghost predicate Serial(c: Config, log: seq<Note>) {
    forall k :: 0 <= k < |log| && log[k].Post? ==>
      && k + 1 < |log| && (log[k + 1] == Complete(log[k].to) || log[k + 1] == Lose(log[k].to))
      && log[k].to == log[k].from + c.batch
  }

  /** No post starts before the readable window of the head probed in its turn. */
  ghost predicate Readable(c: Config, log: seq<Note>) {
    forall k :: 0 <= k < |log| && log[k].Post? ==>
      c.AgedOut() > 0 ==> LastHead(log[..k]) <= log[k].from + c.AgedOut()
  }

  /** No post reaches past the head probed in its turn. */
  ghost predicate Committed(log: seq<Note>) {
    forall k :: 0 <= k < |log| && log[k].Post? ==> log[k].to <= LastHead(log[..k])
  }

  /** The parameters under which skipping leaves a whole batch below the head. */
  predicate RoomForBatch(c: Config) {
    c.AgedOut() == 0 || c.batch <= c.AgedOut()
  }

  lemma OneCounts(n: Note)
    ensures Skipped([n]) == (if n.Skip? then n.samples else 0) && Completed([n]) == if n.Complete? then 1 else 0
  {
    assert [n][..0] == [];
  }

  lemma TwoCounts(m: Note, n: Note)
    ensures Skipped([m, n]) == Skipped([m]) + Skipped([n]) && Completed([m, n]) == Completed([m]) + Completed([n])
  {
    Counts([m], [n]);
    assert [m] + [n] == [m, n];
  }

  /** A turn moves on by what it skips, and by a batch when it completes one. */
  lemma TurnCounts(c: Config, s: State, e: Event)
    ensures var (s', notes) := Turn(c, s, e);
            Completed(notes) <= 1 && s'.lastSent == s.lastSent + Skipped(notes) + if Completed(notes) == 1 then c.batch else 0
  {
    var (s', notes) := Turn(c, s, e);
    if |notes| >= 2 {
      OneCounts(notes[0]);
      OneCounts(notes[1]);
      TwoCounts(notes[0], notes[1]);
      if |notes| == 4 {
        OneCounts(notes[2]);
        OneCounts(notes[3]);
        TwoCounts(notes[2], notes[3]);
        Counts([notes[0], notes[1]], [notes[2], notes[3]]);
        assert notes == [notes[0], notes[1]] + [notes[2], notes[3]];
      } else {
        assert notes == [notes[0], notes[1]];
      }
    } else if |notes| == 1 {
      OneCounts(notes[0]);
      assert notes == [notes[0]];
    }
  }

  lemma TurnConserves(c: Config, head0: nat, s: State, log: seq<Note>, e: Event)
    requires Conserved(c, head0, s, log)
    ensures Conserved(c, head0, Turn(c, s, e).0, log + Turn(c, s, e).1)
  {
    var n := Completed(log);
    assert c.batch * (n + 1) == c.batch * n + c.batch;
    Counts(log, Turn(c, s, e).1);
    TurnCounts(c, s, e);
  }

  lemma TurnPosts(c: Config, s: State, log: seq<Note>, e: Event)
    requires Serial(c, log) && Readable(c, log) && (RoomForBatch(c) ==> Committed(log))
    ensures var log' := log + Turn(c, s, e).1;
            Serial(c, log') && Readable(c, log') && (RoomForBatch(c) ==> Committed(log'))
  {
    var (s', notes) := Turn(c, s, e);
    var log' := log + notes;
    forall k | 0 <= k < |log'| && log'[k].Post?
      ensures && k + 1 < |log'| && (log'[k + 1] == Complete(log'[k].to) || log'[k + 1] == Lose(log'[k].to))
              && log'[k].to == log'[k].from + c.batch
      ensures c.AgedOut() > 0 ==> LastHead(log'[..k]) <= log'[k].from + c.AgedOut()
      ensures RoomForBatch(c) ==> log'[k].to <= LastHead(log'[..k])
    {
      if k < |log| {
        assert log'[..k] == log[..k];
      } else {
        assert log'[..k] == log + notes[..2];
        LastHeadOf(log, notes[..2]);
      }
    }
  }

  /** How far behind the head the loop may be: what is readable, less a batch if that
      leaves any. */
  function Room(c: Config): int { c.maxReadable - if c.maxReadable > c.batch then c.batch else 0 }

  /** What a loop at `pos` that probes `head` skips: exactly what has left that room. */
  function Aged(c: Config, pos: int, head: int): int {
    if c.maxReadable == 0 then 0 else Max(head - Room(c) - pos, 0)
  }

  /** The skip at `k` is of exactly that. */
  ghost predicate SkipAt(c: Config, head0: nat, log: seq<Note>, k: nat)
    requires k < |log|
  {
    log[k].Skip? ==> log[k].samples == Aged(c, Position(c, head0, log[..k]), LastHead(log[..k]))
  }

  ghost predicate SkipsExactly(c: Config, head0: nat, log: seq<Note>) {
    forall k :: 0 <= k < |log| ==> SkipAt(c, head0, log, k)
  }

  lemma HeadKeepsPosition(c: Config, head0: nat, log: seq<Note>, n: Note)
    requires n.Head?
    ensures Position(c, head0, log + [n]) == Position(c, head0, log) && LastHead(log + [n]) == n.head
  {
    Counts(log, [n]);
    OneCounts(n);
    LastHeadOf(log, [n]);
  }

  lemma OldSkip(c: Config, head0: nat, log: seq<Note>, notes: seq<Note>, k: nat)
    requires k < |log| && SkipAt(c, head0, log, k)
    ensures SkipAt(c, head0, log + notes, k)
  {
    assert (log + notes)[..k] == log[..k];
  }

  lemma NewSkip(c: Config, head0: nat, s: State, log: seq<Note>, e: Event, k: nat)
    requires Conserved(c, head0, s, log) && |log| <= k < |log + Turn(c, s, e).1|
    ensures SkipAt(c, head0, log + Turn(c, s, e).1, k)
  {
    var notes := Turn(c, s, e).1;
    if k == |log| + 1 {
      assert (log + notes)[..k] == log + [notes[0]];
      HeadKeepsPosition(c, head0, log, notes[0]);
    }
  }

  lemma TurnSkips(c: Config, head0: nat, s: State, log: seq<Note>, e: Event)
    requires Conserved(c, head0, s, log) && SkipsExactly(c, head0, log)
    ensures SkipsExactly(c, head0, log + Turn(c, s, e).1)
  {
    var notes := Turn(c, s, e).1;
    forall k | 0 <= k < |log + notes| ensures SkipAt(c, head0, log + notes, k) {
      if k < |log| { OldSkip(c, head0, log, notes, k); } else { NewSkip(c, head0, s, log, e, k); }
    }
  }

  /** In every run the loop skips exactly the samples that have left its room. */
  lemma {:induction false} SkipsOnlyAged(c: Config, head0: nat, s: State, log: seq<Note>, es: seq<Event>)
    requires Conserved(c, head0, s, log) && SkipsExactly(c, head0, log)
    ensures SkipsExactly(c, head0, Run(c, s, log, es).1)
    decreases |es|
  {
    if es != [] && s.running {
      TurnConserves(c, head0, s, log, es[0]);
      TurnSkips(c, head0, s, log, es[0]);
      SkipsOnlyAged(c, head0, Turn(c, s, es[0]).0, log + Turn(c, s, es[0]).1, es[1..]);
    }
  }

  /** A turn posts exactly when the head it probes is a batch on and the post is taken; and
      the loop ends exactly on a post that fails or is lost. */
  lemma TurnPostsExactly(c: Config, s: State, e: Event)
    requires s.running
    ensures var (s', notes) := Turn(c, s, e);
            var due := e.Probed? && e.head >= s.lastSent + c.batch;
            && ((exists k :: 0 <= k < |notes| && notes[k].Post?) <==> due && e.post == Posted)
            && (s'.running <==> !(due && (e.post == FailPost || (e.post == Posted && !e.completes))))
  {
    var notes := Turn(c, s, e).1;
    if |notes| == 4 { assert notes[2].Post?; }
  }

  /** In every run: conservation, one transfer at a time, and every post within the
      readable window of the head probed in its turn, at its end too where a batch fits
      below the point it resumes from. */
  lemma {:induction false} LoopSound(c: Config, head0: nat, s: State, log: seq<Note>, es: seq<Event>)
    requires Conserved(c, head0, s, log) && Serial(c, log) && Readable(c, log) && (RoomForBatch(c) ==> Committed(log))
    ensures var (s', log') := Run(c, s, log, es);
            && Conserved(c, head0, s', log') && Serial(c, log') && Readable(c, log')
            && (RoomForBatch(c) ==> Committed(log'))
    decreases |es|
  {
    if es != [] && s.running {
      TurnConserves(c, head0, s, log, es[0]);
      TurnPosts(c, s, log, es[0]);
      LoopSound(c, head0, Turn(c, s, es[0]).0, log + Turn(c, s, es[0]).1, es[1..]);
    }
  }

  /** Without that room, a loop that fell two batches behind posts samples not written yet. */
  lemma PastHead(c: Config)
    requires 0 < c.AgedOut() < c.batch
    ensures !Committed(Run(c, State(0, true), [], [Probed(2 * c.batch, Posted, true)]).1)
  {
    var e := Probed(2 * c.batch, Posted, true);
    var notes := Turn(c, State(0, true), e).1;
    assert Run(c, State(0, true), [], [e]) == (Turn(c, State(0, true), e).0, [] + notes);
    assert [] + notes == notes;
    assert notes[2].Post?;
    LastHeadOf([], notes[..2]);
    assert [] + notes[..2] == notes[..2];
  }

  /** No run ever posts past the head exactly when a batch fits between the head and
      where the loop resumes: maxReadable is 0, the batch, or twice it and more. */
  lemma {:induction false} NeverPastHead(c: Config)
    requires 0 < c.batch
    ensures (forall head0, es :: Committed(Run(c, State(head0, true), [], es).1)) <==> RoomForBatch(c)
    ensures RoomForBatch(c) <==> c.maxReadable == 0 || c.maxReadable == c.batch || c.maxReadable >= 2 * c.batch
  {
    if RoomForBatch(c) {
      forall head0, es ensures Committed(Run(c, State(head0, true), [], es).1) {
        LoopSound(c, head0, State(head0, true), [], es);
      }
    } else {
      PastHead(c);
    }
  }
}
