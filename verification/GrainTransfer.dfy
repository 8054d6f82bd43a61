/** The grain transfer loop of gateway/internal/mirror/source_transfer.go, against a
    reader and a fabric that answer anything. A video grain goes in batches of slices
    as they become valid; `start` is the slice the next batch starts at. */
module GrainTransfer {

  /** GrainValidSlicesAll: the largest slice count, which asks for the whole grain. */
  const ALL: nat := 65535

  const MAX_MIRROR_LAG := 4

  /** The valid slices a read starting at `start` waits for. 16-bit addition that never
      wraps, and always asks for more than `start` has. */
  function BatchEnd(start: nat, batch: nat): (r: nat)
    requires start <= ALL && batch <= ALL
    ensures r <= ALL && (start < ALL ==> start < r)
    ensures r == ALL || r == start + batch
    ensures r == ALL <==> batch == 0 || start + batch >= ALL
  {
    if batch == 0 || start > ALL - batch then ALL else start + batch
  }

  /** `data` flows and a zero `batch` send whole grains. */
  datatype Config = Config(data: bool, batch: nat)

  datatype PostResult = Posted | RetryPost | FailPost

  /** What reading and posting a grain answers. */
  datatype Answer =
    | AgedOut
    | NotYet
    | Read(valid: nat, total: nat, invalid: bool, post: PostResult)

  datatype Event = ProbeFailed | Probed(head: nat, answer: Answer, completes: bool)

  /** What the loop does, in order: a post completed, carrying slices [from, to) of a
      grain, `last` when it finished the grain; a post lost; or the grain under way given
      up, at a probed head. */
  datatype Note =
    | Complete(grain: int, from: nat, to: nat, last: bool, invalid: bool)
    | Lose(grain: int)
    | GiveUp(grain: int, head: nat)

  datatype State = State(lastSent: int, start: nat, running: bool)

  /** The loop trails the head too far to catch up grain by grain. */
  predicate Resyncs(s: State, head: nat) {
    s.start == 0 && head > MAX_MIRROR_LAG && s.lastSent < head - MAX_MIRROR_LAG
  }

  function NextGrain(s: State, head: nat): int {
    if Resyncs(s, head) then head else s.lastSent + 1
  }

  /** The slice range a read grain is posted with, and where its next batch starts: 0
      when this one finishes it. */
  function Batch(c: Config, start: nat, a: Answer): (r: (nat, nat, nat))
    requires a.Read?
    ensures r.0 <= r.1
  {
    if a.invalid then (0, 0, 0)
    else if c.data then (0, a.valid, 0)
    else
      var end := if a.valid < start then start else a.valid;
      (start, end, if end >= a.total then 0 else end)
  }

  function Turn(c: Config, s: State, e: Event): (State, seq<Note>) {
    match e
    case ProbeFailed => (s, [])
    case Probed(head, answer, completes) =>
      var grain := NextGrain(s, head);
      match answer
      case NotYet => (s, [])
      case AgedOut => (s.(lastSent := head, start := 0), [GiveUp(grain, head)])
      case Read(valid, total, invalid, post) =>
        match post
        case RetryPost => (s, [])
        case FailPost => (s.(running := false), [])
        case Posted =>
          var (from, to, next) := Batch(c, s.start, answer);
          if !completes then (s.(running := false), [Lose(grain)])
          else
            (s.(start := next, lastSent := if next == 0 then grain else s.lastSent),
             [Complete(grain, from, to, next == 0, invalid)])
  }

  function Run(c: Config, s: State, log: seq<Note>, es: seq<Event>): (State, seq<Note>)
    decreases |es|
  {
    if es == [] || !s.running then (s, log)
    else var (s', notes) := Turn(c, s, es[0]); Run(c, s', log + notes, es[1..])
  }

  method RunLoop(c: Config, head0: nat, es: seq<Event>) returns (lastSent: int, log: seq<Note>)
    ensures (lastSent, log) == (Run(c, State(head0, 0, true), [], es).0.lastSent, Run(c, State(head0, 0, true), [], es).1)
  {
    lastSent, log := head0, [];
    var start: nat, running, i := 0, true, 0;
    while i < |es| && running
      invariant i <= |es|
      invariant Run(c, State(lastSent, start, running), log, es[i..]) == Run(c, State(head0, 0, true), [], es)
      decreases |es| - i
    {
      ghost var s0 := State(lastSent, start, running);
      var e := es[i];
      var notes: seq<Note> := [];
      if e.Probed? {
        var next := lastSent + 1;
        if start == 0 && e.head > MAX_MIRROR_LAG && lastSent < e.head - MAX_MIRROR_LAG {
          next := e.head;
        }
        if e.answer.AgedOut? {
          notes := [GiveUp(next, e.head)];
          lastSent, start := e.head, 0;
        } else if e.answer.Read? && e.answer.post == FailPost {
          running := false;
        } else if e.answer.Read? && e.answer.post == Posted {
          var (from, to, step) := Batch(c, start, e.answer);
          if e.completes {
            notes := [Complete(next, from, to, step == 0, e.answer.invalid)];
            start := step;
            if step == 0 {
              lastSent := next;
            }
          } else {
            notes := [Lose(next)];
            running := false;
          }
        }
      }
      assert (State(lastSent, start, running), notes) == Turn(c, s0, e);
      log := log + notes;
      assert es[i..][1..] == es[i + 1..];
      i := i + 1;
    }
  }

  // ------------------------------------------------- what each turn sends

  /** An event the loop does nothing on: no head, no grain yet, or a post that failed. */
  predicate Silent(e: Event) {
    e.ProbeFailed? || e.answer.NotYet? || (e.answer.Read? && e.answer.post != Posted)
  }

  /** What the loop notes of a turn: the grain given up at the head probed; the post lost; or
      the post completed. An invalid grain's carries no slice and finishes it; a data
      grain's carries all that was read valid and finishes it; a video grain's carries on
      up to what was read valid, and finishes it if that is all, or none. */
  ghost predicate Answers(c: Config, e: Event, n: Note) {
    && e.Probed?
    && (if e.answer.AgedOut? then n.GiveUp? && n.head == e.head
        else if !e.completes then n.Lose?
        else
          && e.answer.Read? && n.Complete? && n.invalid == e.answer.invalid
          && if e.answer.invalid then n.from == n.to == 0 && n.last
             else if c.data then n.from == 0 && n.to == e.answer.valid && n.last
             else n.from <= n.to && (n.to == e.answer.valid || e.answer.valid < n.from == n.to) 
                  && (n.last <==> n.to >= e.answer.total || n.to == 0))
  }

  /** The log answers the events one for one, in order, until a post fails or is lost. */
  ghost predicate InStep(c: Config, es: seq<Event>, log: seq<Note>)
    decreases |es|
  {
    if es == [] then log == []
    else if Silent(es[0]) then
      if es[0].Probed? && es[0].answer.Read? && es[0].answer.post == FailPost then log == [] else InStep(c, es[1..], log)
    else
      && log != [] && Answers(c, es[0], log[0])
      && if log[0].Lose? then |log| == 1 else InStep(c, es[1..], log[1..])
  }

  lemma TurnAnswers(c: Config, s: State, e: Event)
    requires s.running
    ensures var (s', notes) := Turn(c, s, e);
            if Silent(e) then
              notes == [] && s' == s.(running := s'.running) && (s'.running <==> !(e.Probed? && e.answer.Read? && e.answer.post == FailPost))
            else |notes| == 1 && Answers(c, e, notes[0]) && (s'.running <==> !notes[0].Lose?)
  {
  }

  lemma {:induction false} RunAppends(c: Config, s: State, log: seq<Note>, es: seq<Event>)
    ensures Run(c, s, log, es) == (Run(c, s, [], es).0, log + Run(c, s, [], es).1)
    decreases |es|
  {
    if es == [] || !s.running {
      assert log + [] == log;
    } else {
      var (s', notes) := Turn(c, s, es[0]);
      RunAppends(c, s', log + notes, es[1..]);
      RunAppends(c, s', [] + notes, es[1..]);
      assert [] + notes == notes;
      assert log + (notes + Run(c, s', [], es[1..]).1) == (log + notes) + Run(c, s', [], es[1..]).1;
    }
  }

  /** In every run what is sent is what was read, turn by turn. */
  lemma {:induction false} SendsWhatIsRead(c: Config, s: State, es: seq<Event>)
    requires s.running
    ensures InStep(c, es, Run(c, s, [], es).1)
    decreases |es|
  {
    if es != [] {
      TurnAnswers(c, s, es[0]);
      var (s', notes) := Turn(c, s, es[0]);
      var rest := Run(c, s', [], es[1..]).1;
      RunAppends(c, s', [] + notes, es[1..]);
      assert [] + notes == notes && [] + rest == rest;
      if s'.running { SendsWhatIsRead(c, s', es[1..]); }
      if notes != [] { assert (notes + rest)[0] == notes[0] && (notes + rest)[1..] == rest; }
    }
  }

  /** The grain the loop is past: the last one it finished, or the head at which it last gave
      up, or where it began. */
  function LastDone(log: seq<Note>, head0: int): int {
    if log == [] then head0
    else
      var n := log[|log| - 1];
      if n.GiveUp? then n.head else if n.Complete? && n.last then n.grain else LastDone(log[..|log| - 1], head0)
  }

  /** In every run the loop is past exactly that. */
  lemma {:induction false} LastSentIsDone(c: Config, head0: int, s: State, log: seq<Note>, es: seq<Event>)
    requires s.lastSent == LastDone(log, head0)
    ensures Run(c, s, log, es).0.lastSent == LastDone(Run(c, s, log, es).1, head0)
    decreases |es|
  {
    if es != [] && s.running {
      var (s', notes) := Turn(c, s, es[0]);
      if notes == [] { assert log + notes == log; } else { assert (log + notes)[..|log|] == log; }
      LastSentIsDone(c, head0, s', log + notes, es[1..]);
    }
  }

  /** A turn takes the next grain, or, between grains and more than four behind, the head. A
      video post starts where the last one ended, and the next starts where it ends. */
  lemma TurnTakes(c: Config, s: State, e: Event)
    requires Turn(c, s, e).1 != []
    ensures var (s', n) := (Turn(c, s, e).0, Turn(c, s, e).1[0]);
            && e.Probed? && n.grain == (if s.start == 0 && e.head > 4 && s.lastSent < e.head - 4 then e.head else s.lastSent + 1)
            && (n.Complete? && !n.invalid && !c.data ==> n.from == s.start)
            && (n.Complete? ==> s'.start == if n.last then 0 else n.to)
            && (n.GiveUp? ==> s'.start == 0) && (n.Lose? ==> s'.start == s.start && s'.lastSent == s.lastSent)
  {
  }

  // ------------------------------------------------------ whole grains

  /** The completed posts of the grain under way: those since the last one that
      finished a grain, or gave one up. */
  function UnderWay(log: seq<Note>): (r: seq<Note>)
    ensures forall k :: 0 <= k < |r| ==> r[k].Complete? && !r[k].last
  {
    if log == [] then []
    else
      var last := log[|log| - 1];
      if last.GiveUp? || (last.Complete? && last.last) then []
      else if last.Complete? then UnderWay(log[..|log| - 1]) + [last]
      else UnderWay(log[..|log| - 1])
  }

  /** Posts of `grain` that carry [0, end) in adjoining ranges, in order. */
  ghost predicate Partition(posts: seq<Note>, grain: int, end: nat) {
    && (forall k :: 0 <= k < |posts| ==> posts[k].Complete? && posts[k].grain == grain && posts[k].from <= posts[k].to)
    && (if posts == [] then end == 0 else posts[0].from == 0 && posts[|posts| - 1].to == end)
    && forall k :: 0 <= k < |posts| - 1 ==> posts[k].to == posts[k + 1].from
  }

  /** Every video grain the loop finished was carried whole: the posts since the last
      grain's end are all of that grain and adjoin from slice 0 to its last. */
  ghost predicate Whole(c: Config, total: int -> nat, log: seq<Note>) {
    forall k :: 0 <= k < |log| && log[k].Complete? && log[k].last && !log[k].invalid && !c.data ==>
      Partition(UnderWay(log[..k]) + [log[k]], log[k].grain, total(log[k].grain))
  }

  /** libmxl's side: a read asking for k slices returns at least min(k, total) of them,
      and a grain has the same number of slices at every read. */
  ghost predicate Reader(c: Config, total: int -> nat, s: State, e: Event)
    requires s.start <= ALL && c.batch <= ALL
  {
    e.Probed? && e.answer.Read? && !e.answer.invalid && !c.data ==>
      var a := e.answer;
      && a.total == total(NextGrain(s, e.head)) && a.valid <= a.total <= ALL
      && (a.valid >= BatchEnd(s.start, c.batch) || a.valid == a.total)
  }

  /** The turn resyncs to the head and sends only part of that grain. */
  predicate SplitResync(c: Config, s: State, e: Event) {
    && e.Probed? && Resyncs(s, e.head) && e.answer.Read? && e.answer.post == Posted && e.completes
    && Batch(c, s.start, e.answer).2 != 0
  }

  /** `start` slices of grain lastSent + 1 have been carried, and of nothing else. */
  ghost predicate Linked(total: int -> nat, s: State, log: seq<Note>) {
    && s.start <= ALL
    && Partition(UnderWay(log), s.lastSent + 1, s.start)
    && (s.start == 0 ==> UnderWay(log) == [])
    && (s.start > 0 ==> s.start < total(s.lastSent + 1))
  }

  lemma UnderWayNext(log: seq<Note>, n: Note)
    ensures UnderWay(log + [n]) ==
            if n.GiveUp? || (n.Complete? && n.last) then []
            else if n.Complete? then UnderWay(log) + [n] else UnderWay(log)
  {
    assert (log + [n])[..|log|] == log;
  }

  lemma SplitUnlinks(c: Config, total: int -> nat, s: State, log: seq<Note>, e: Event)
    requires Linked(total, s, log) && SplitResync(c, s, e)
    ensures !Linked(total, Turn(c, s, e).0, log + Turn(c, s, e).1)
  {
    var n := Turn(c, s, e).1[0];
    UnderWayNext(log, n);
    assert ([] + [n])[0].grain == e.head;
  }

  lemma PartitionNext(posts: seq<Note>, n: Note, grain: int, at: nat)
    requires Partition(posts, grain, at) && n.Complete? && n.grain == grain && n.from == at <= n.to
    ensures Partition(posts + [n], grain, n.to)
  {
    var all := posts + [n];
    forall k | 0 <= k < |all| - 1 ensures all[k].to == all[k + 1].from {
      if k < |posts| - 1 { assert posts[k].to == posts[k + 1].from; }
    }
  }

  /** A turn that completes nothing and gives nothing up keeps its place. */
  lemma IdleLinks(total: int -> nat, s: State, s': State, log: seq<Note>, notes: seq<Note>)
    requires Linked(total, s, log) && s' == s.(running := s'.running) && (notes == [] || (|notes| == 1 && notes[0].Lose?))
    ensures Linked(total, s', log + notes)
  {
    if notes == [] { assert log + notes == log; } else { assert notes == [notes[0]]; UnderWayNext(log, notes[0]); }
  }

  /** One that ends a grain begins the next. */
  lemma EndLinks(total: int -> nat, s': State, log: seq<Note>, n: Note)
    requires s'.start == 0 && (n.GiveUp? || (n.Complete? && n.last))
    ensures Linked(total, s', log + [n])
  {
    UnderWayNext(log, n);
  }

  /** One that sends part of its grain goes on from there. */
  lemma PartLinks(total: int -> nat, s: State, s': State, log: seq<Note>, n: Note)
    requires Linked(total, s, log) && n.Complete? && !n.last && n.grain == s.lastSent + 1 && n.from == s.start <= n.to
    requires s' == s.(start := n.to) && 0 < n.to < total(s.lastSent + 1) && n.to <= ALL
    ensures Linked(total, s', log + [n])
  {
    PartitionNext(UnderWay(log), n, s.lastSent + 1, s.start);
    UnderWayNext(log, n);
  }

  /** The turns that end or send part of a grain, and those that do neither. */
  lemma TurnKinds(c: Config, total: int -> nat, s: State, e: Event)
    requires c.batch <= ALL && s.start <= ALL && Reader(c, total, s, e) && !SplitResync(c, s, e)
    requires s.start > 0 ==> s.start < total(s.lastSent + 1)
    ensures var (s', notes) := Turn(c, s, e);
            || (s' == s.(running := s'.running) && (notes == [] || (|notes| == 1 && notes[0].Lose?)))
            || (s'.start == 0 && |notes| == 1 && (notes[0].GiveUp? || (notes[0].Complete? && notes[0].last)))
            || (&& |notes| == 1 && notes[0].Complete? && !notes[0].last && notes[0].grain == s.lastSent + 1
                && notes[0].from == s.start <= notes[0].to && s' == s.(start := notes[0].to)
                && 0 < notes[0].to < total(s.lastSent + 1) && notes[0].to <= ALL)
  {
  }

  lemma PlainLinks(c: Config, total: int -> nat, s: State, log: seq<Note>, e: Event)
    requires c.batch <= ALL && Linked(total, s, log) && Reader(c, total, s, e) && !SplitResync(c, s, e)
    ensures Linked(total, Turn(c, s, e).0, log + Turn(c, s, e).1)
  {
    TurnKinds(c, total, s, e);
    var (s', notes) := Turn(c, s, e);
    if notes == [] || notes[0].Lose? {
      IdleLinks(total, s, s', log, notes);
    } else {
      assert notes == [notes[0]];
      if notes[0].Complete? && !notes[0].last { PartLinks(total, s, s', log, notes[0]); } else { EndLinks(total, s', log, notes[0]); }
    }
  }

  /** The link between `start` and the grain it belongs to survives a turn exactly when
      the turn does not send part of a grain it resynced to: lastSent stays behind, and
      the next batch starts that far into another grain. */
  lemma {:induction false} TurnLinks(c: Config, total: int -> nat, s: State, log: seq<Note>, e: Event)
    requires c.batch <= ALL && Linked(total, s, log) && Reader(c, total, s, e)
    ensures var (s', notes) := Turn(c, s, e);
            Linked(total, s', log + notes) <==> !SplitResync(c, s, e)
  {
    if SplitResync(c, s, e) {
      SplitUnlinks(c, total, s, log, e);
    } else {
      PlainLinks(c, total, s, log, e);
    }
  }

  lemma TurnWhole(c: Config, total: int -> nat, s: State, log: seq<Note>, e: Event)
    requires c.batch <= ALL && Linked(total, s, log) && Reader(c, total, s, e) && Whole(c, total, log)
    ensures Whole(c, total, log + Turn(c, s, e).1)
  {
    var notes := Turn(c, s, e).1;
    var log' := log + notes;
    forall k | 0 <= k < |log'| && log'[k].Complete? && log'[k].last && !log'[k].invalid && !c.data
      ensures Partition(UnderWay(log'[..k]) + [log'[k]], log'[k].grain, total(log'[k].grain))
    {
      if k < |log| {
        assert log'[..k] == log[..k];
      } else {
        assert log'[..k] == log;
        var grain := log'[k].grain;
        assert s.start == 0 || grain == s.lastSent + 1;
        assert Partition(UnderWay(log), grain, s.start);
        PartitionNext(UnderWay(log), log'[k], grain, s.start);
      }
    }
  }

  /** Every turn of a run: the reader keeps its side. */
  ghost predicate Served(c: Config, total: int -> nat, s: State, es: seq<Event>)
    requires c.batch <= ALL
    decreases |es|
  {
    es == [] || !s.running ||
    (s.start <= ALL && Reader(c, total, s, es[0]) && Served(c, total, Turn(c, s, es[0]).0, es[1..]))
  }

  /** And no resync is split. */
  ghost predicate Plain(c: Config, s: State, es: seq<Event>)
    decreases |es|
  {
    es == [] || !s.running || (!SplitResync(c, s, es[0]) && Plain(c, Turn(c, s, es[0]).0, es[1..]))
  }

  /** In every run without a split resync, each grain the loop finishes, neither invalid
      nor given up, went in adjoining batches from its first slice to its last. */
  lemma {:induction false} GrainsWhole(c: Config, total: int -> nat, s: State, log: seq<Note>, es: seq<Event>)
    requires c.batch <= ALL && Linked(total, s, log) && Whole(c, total, log)
    requires Served(c, total, s, es) && Plain(c, s, es)
    ensures Whole(c, total, Run(c, s, log, es).1)
    decreases |es|
  {
    if es != [] && s.running {
      TurnLinks(c, total, s, log, es[0]);
      TurnWhole(c, total, s, log, es[0]);
      GrainsWhole(c, total, Turn(c, s, es[0]).0, log + Turn(c, s, es[0]).1, es[1..]);
    }
  }

  /** The flows whose every read waits for the whole grain. */
  predicate WholeReads(c: Config) {
    c.data || c.batch == 0 || c.batch == ALL
  }

  /** Whole-grain reads never split a resync. */
  lemma {:induction false} WholeReadsPlain(c: Config, total: int -> nat, s: State, es: seq<Event>)
    requires c.batch <= ALL && WholeReads(c) && Served(c, total, s, es)
    ensures Plain(c, s, es)
    decreases |es|
  {
    if es != [] && s.running {
      WholeReadsPlain(c, total, Turn(c, s, es[0]).0, es[1..]);
    }
  }

  ghost predicate AlwaysWhole(c: Config)
    requires c.batch <= ALL
  {
    forall total: int -> nat, head0: nat, es ::
      Served(c, total, State(head0, 0, true), es) ==> Whole(c, total, Run(c, State(head0, 0, true), [], es).1)
  }

  function SplitRun(b: nat): seq<Event> {
    [Probed(6, Read(b, b + 1, false, Posted), true), Probed(6, Read(b + 1, b + 1, false, Posted), true)]
  }

  function Slices(b: nat): int -> nat { (g: int) => b + 1 }

  lemma SplitTurns(b: nat)
    requires 0 < b < ALL
    ensures var (c, es) := (Config(false, b), SplitRun(b));
            && Turn(c, State(1, 0, true), es[0]) == (State(1, b, true), [Complete(6, 0, b, false, false)])
            && Turn(c, State(1, b, true), es[1]) == (State(2, 0, true), [Complete(2, b, b + 1, true, false)])
            && Reader(c, Slices(b), State(1, 0, true), es[0]) && Reader(c, Slices(b), State(1, b, true), es[1])
  {
  }

  /** The loop over two events, turn by turn. */
  lemma RunTwo(c: Config, s0: State, s1: State, s2: State, e0: Event, e1: Event, n0: Note, n1: Note)
    requires s0.running && s1.running && Turn(c, s0, e0) == (s1, [n0]) && Turn(c, s1, e1) == (s2, [n1])
    ensures Run(c, s0, [], [e0, e1]) == (s2, [n0, n1])
  {
    assert [e0, e1][1..] == [e1] && [e1][1..] == [];
    assert [] + [n0] == [n0] && [n0] + [n1] == [n0, n1];
    assert Run(c, s1, [n0], [e1]) == Run(c, s2, [n0, n1], []);
  }

  lemma ServedTwo(c: Config, total: int -> nat, s0: State, s1: State, e0: Event, e1: Event)
    requires c.batch <= ALL && s0.start <= ALL && s1.start <= ALL && Turn(c, s0, e0).0 == s1
    requires Reader(c, total, s0, e0) && Reader(c, total, s1, e1)
    ensures Served(c, total, s0, [e0, e1])
  {
    assert [e0, e1][1..] == [e1] && [e1][1..] == [];
    assert Served(c, total, s1, [e1]);
  }

  lemma MixedIsNotWhole(c: Config, total: int -> nat, n0: Note, n1: Note)
    requires !c.data && n0.Complete? && !n0.last && n1.Complete? && n1.last && !n1.invalid && n0.grain != n1.grain
    ensures !Whole(c, total, [n0, n1])
  {
    var log := [n0, n1];
    assert log[..1] == [n0] && [n0][..0] == [];
    assert UnderWay(log[..1]) == [n0];
    assert ([n0] + [n1])[0].grain == n0.grain;
    assert !Partition(UnderWay(log[..1]) + [log[1]], n1.grain, total(n1.grain));
    assert log[1].Complete? && log[1].last;
  }

  /** Grains of b + 1 slices, in batches of b. A loop at grain 1 finds the head at 6,
      resyncs there and sends the first b slices, and then sends the last slice of grain
      2: grain 2 counts as sent without the others, and the rest of grain 6 is not sent
      next. */
  lemma SplitResyncMixesGrains(b: nat)
    requires 0 < b < ALL
    ensures var (c, s0, es) := (Config(false, b), State(1, 0, true), SplitRun(b));
            && Served(c, Slices(b), s0, es)
            && Run(c, s0, [], es) == (State(2, 0, true), [Complete(6, 0, b, false, false), Complete(2, b, b + 1, true, false)])
            && !Whole(c, Slices(b), Run(c, s0, [], es).1)
  {
    var (c, es) := (Config(false, b), SplitRun(b));
    var s0, s1, s2 := State(1, 0, true), State(1, b, true), State(2, 0, true);
    var n0, n1 := Complete(6, 0, b, false, false), Complete(2, b, b + 1, true, false);
    SplitTurns(b);
    RunTwo(c, s0, s1, s2, es[0], es[1], n0, n1);
    ServedTwo(c, Slices(b), s0, s1, es[0], es[1]);
    MixedIsNotWhole(c, Slices(b), n0, n1);
  }

  /** Every run carries every grain it finishes whole exactly when grains are not sent
      in batches: for a batch, some run mixes two grains. */
  lemma {:induction false} WholeExactly(c: Config)
    requires c.batch <= ALL
    ensures AlwaysWhole(c) <==> WholeReads(c)
  {
    if WholeReads(c) {
      forall total: int -> nat, head0: nat, es | Served(c, total, State(head0, 0, true), es)
        ensures Whole(c, total, Run(c, State(head0, 0, true), [], es).1)
      {
        WholeReadsPlain(c, total, State(head0, 0, true), es);
        GrainsWhole(c, total, State(head0, 0, true), [], es);
      }
    } else {
      SplitResyncMixesGrains(c.batch);
    }
  }
}
