/** The burst limit on mirrors created on demand, and its retry queue, of
    agent/internal/intent/dispatcher.go. Times are nanoseconds; a pod is its UID. */
module BurstLimiter {
  import opened Ring

  type Pod = string
  type Flow = string

  /** A refused flow in the queue, and the retry time it was last given. */
  datatype Waiter = Waiter(flow: Flow, at: int)

  /** One pod's creations inside the window, and its refused flows in the order first refused. */
  datatype Burst = Burst(created: seq<int>, waiting: seq<Waiter>)

  datatype Limits = Limits(perPod: int, perNode: int, burst: int, window: int)

  datatype Verdict = Admitted | RefusedBurst(retryAfter: int) | RefusedCount

  // ------------------------------------------------------------- pruning

  function KeepTimes(ts: seq<int>, now: int, window: int): (r: seq<int>) {
    if ts == [] then []
    else (if now - ts[0] >= window then [] else [ts[0]]) + KeepTimes(ts[1..], now, window)
  }

  function KeepWaiters(ws: seq<Waiter>, now: int, window: int): (r: seq<Waiter>)
    ensures forall w :: w in r ==> w in ws
  {
    if ws == [] then []
    else (if now - ws[0].at >= window then [] else [ws[0]]) + KeepWaiters(ws[1..], now, window)
  }

  function Pruned(b: Burst, now: int, window: int): Burst {
    Burst(KeepTimes(b.created, now, window), KeepWaiters(b.waiting, now, window))
  }

  /** Forgets what has left the window, and pods with nothing left. */
  function Prune(bs: map<Pod, Burst>, now: int, window: int): map<Pod, Burst> {
    map p | p in bs && Pruned(bs[p], now, window) != Burst([], []) :: Pruned(bs[p], now, window)
  }

  // ------------------------------------------------------------- refusal

  /** The first position of `flow` in the queue, or the queue's length. */
  function IndexOf(ws: seq<Waiter>, flow: Flow): (r: nat)
    ensures r <= |ws| && (r < |ws| ==> ws[r].flow == flow)
    ensures forall k :: 0 <= k < r ==> ws[k].flow != flow
  {
    if ws == [] || ws[0].flow == flow then 0 else 1 + IndexOf(ws[1..], flow)
  }

  /** When position i of the queue is told to ask again. */
  function RetryAt(created: seq<int>, n: nat, window: int, i: nat): int
    requires 0 < n <= |created|
  {
    created[|created| - n + i % n] + (i / n + 1) * window
  }

  predicate Full(l: Limits, b: Burst) {
    0 < l.burst <= |b.created|
  }

  /** Refuses `flow` while the window is full, and otherwise forgets it was refused. */
  function Refuse(l: Limits, b: Burst, flow: Flow, now: int): (Burst, Verdict) {
    var i := IndexOf(b.waiting, flow);
    if !Full(l, b) then
      (if i < |b.waiting| then b.(waiting := b.waiting[..i] + b.waiting[i + 1..]) else b, Admitted)
    else
      var at := RetryAt(b.created, l.burst, l.window, i);
      (b.(waiting := if i < |b.waiting| then b.waiting[i := Waiter(flow, at)] else b.waiting + [Waiter(flow, at)]),
       RefusedBurst(at - now))
  }

  /** admit: `own` and `node` are the pod's and the node's live mirrors, as listed. */
  function Admit(l: Limits, bs: map<Pod, Burst>, pod: Pod, flow: Flow, now: int, own: nat, node: nat): (map<Pod, Burst>, Verdict) {
    var kept := Prune(bs, now, l.window);
    var b := if pod in kept then kept[pod] else Burst([], []);
    var (b', v) := Refuse(l, b, flow, now);
    (kept[pod := b'],
     if v != Admitted then v
     else if (l.perPod > 0 && own >= l.perPod) || (l.perNode > 0 && node >= l.perNode) then RefusedCount
     else Admitted)
  }

  // -------------------------------------------------------------- every run

  /** The limiter, the time, and every creation so far, which only the proof keeps. */
  datatype Sys = Sys(bursts: map<Pod, Burst>, clock: int, history: map<Pod, seq<int>>)

  function History(s: Sys, p: Pod): seq<int> { if p in s.history then s.history[p] else [] }

  function CreatedOf(bs: map<Pod, Burst>, p: Pod): seq<int> { if p in bs then bs[p].created else [] }

  /** A request under the limit's lock: asked at `now`; when admitted, the mirror may be
      created, at `at`, or the API server may refuse it. */
  ghost predicate Request(l: Limits, s: Sys, s': Sys, pod: Pod, flow: Flow, now: int, at: int, own: nat, node: nat) {
    && s.clock <= now <= at
    && var (bs, v) := Admit(l, s.bursts, pod, flow, now, own, node);
       || s' == Sys(bs, now, s.history)
       || (v == Admitted && pod in bs &&
           s' == Sys(bs[pod := bs[pod].(created := bs[pod].created + [at])], at, s.history[pod := History(s, pod) + [at]]))
  }

  /** refuseEarly, either time under the lock: it prunes, and the second time refuses
      when the pod is full. */
  ghost predicate Early(l: Limits, s: Sys, s': Sys, pod: Pod, flow: Flow, now: int, at: int) {
    && s.clock <= now <= at
    && var bs := Prune(s.bursts, now, l.window);
       || s' == Sys(bs, now, s.history)
       || (pod in bs && Full(l, bs[pod]) && s' == Sys(bs[pod := Refuse(l, bs[pod], flow, at).0], at, s.history))
  }

  ghost predicate Next(l: Limits, s: Sys, s': Sys) {
    || (exists pod, flow, now, at, own, node :: Request(l, s, s', pod, flow, now, at, own, node))
    || (exists pod, flow, now, at :: Early(l, s, s', pod, flow, now, at))
  }

  ghost predicate Sorted(h: seq<int>) {
    forall i, j :: 0 <= i <= j < |h| ==> h[i] <= h[j]
  }

  /** Any n + 1 consecutive creations span the window. */
  ghost predicate Spaced(h: seq<int>, n: nat, window: int) {
    forall i, j :: 0 <= i && i + n <= j < |h| ==> h[j] - h[i] >= window
  }

  /** `created` is the end of the history, and what came before has left the window. */
  ghost predicate Remembers(l: Limits, created: seq<int>, h: seq<int>, clock: int) {
    && |created| <= |h| && created == h[|h| - |created|..]
    && forall i :: 0 <= i < |h| - |created| ==> clock - h[i] >= l.window
  }

  ghost predicate PodInv(l: Limits, created: seq<int>, h: seq<int>, clock: int)
    requires 0 < l.burst
  {
    && Sorted(h) && Spaced(h, l.burst, l.window) && |created| <= l.burst
    && (forall i :: 0 <= i < |h| ==> h[i] <= clock)
    && Remembers(l, created, h, clock)
  }

  ghost predicate Inv(l: Limits, s: Sys)
    requires 0 < l.burst
  {
    forall p :: PodInv(l, CreatedOf(s.bursts, p), History(s, p), s.clock)
  }

  lemma {:induction false} KeepAll(ts: seq<int>, now: int, window: int)
    requires forall i :: 0 <= i < |ts| ==> now - ts[i] < window
    ensures KeepTimes(ts, now, window) == ts
  {
    if ts != [] { KeepAll(ts[1..], now, window); }
  }

  lemma SuffixOf(ts: seq<int>, n: nat)
    requires n < |ts|
    ensures ts[1..][|ts| - 1 - n..] == ts[|ts| - n..]
  {
  }

  /** `kept` is the end of the times, and what came before has left the window. */
  ghost predicate Ends(ts: seq<int>, kept: seq<int>, now: int, window: int) {
    && |kept| <= |ts| && kept == ts[|ts| - |kept|..]
    && (forall i :: 0 <= i < |ts| - |kept| ==> now - ts[i] >= window)
    && (forall i :: 0 <= i < |kept| ==> now - kept[i] < window)
  }

  lemma EndsOn(ts: seq<int>, kept: seq<int>, now: int, window: int)
    requires ts != [] && Ends(ts[1..], kept, now, window) && now - ts[0] >= window
    ensures Ends(ts, kept, now, window)
  {
    SuffixOf(ts, |kept|);
    assert forall i :: 1 <= i < |ts| - |kept| ==> ts[i] == ts[1..][i - 1];
  }

  /** Pruning sorted times takes off a prefix. */
  lemma {:induction false} KeepSuffix(ts: seq<int>, now: int, window: int)
    requires Sorted(ts)
    ensures Ends(ts, KeepTimes(ts, now, window), now, window)
  {
    if ts != [] {
      if now - ts[0] < window {
        KeepAll(ts, now, window);
      } else {
        KeepSuffix(ts[1..], now, window);
        EndsOn(ts, KeepTimes(ts[1..], now, window), now, window);
      }
    }
  }

  lemma PrunePod(l: Limits, created: seq<int>, h: seq<int>, clock: int, now: int)
    requires 0 < l.burst && PodInv(l, created, h, clock) && clock <= now
    ensures PodInv(l, KeepTimes(created, now, l.window), h, now)
    ensures forall t :: t in KeepTimes(created, now, l.window) ==> now - t < l.window
  {
    var kept := KeepTimes(created, now, l.window);
    KeepSuffix(created, now, l.window);
    var a, b := |h| - |created|, |h| - |kept|;
    forall i | 0 <= i < b ensures now - h[i] >= l.window {
      if i >= a { assert h[i] == created[i - a]; }
    }
  }

  lemma CreatePod(l: Limits, created: seq<int>, h: seq<int>, now: int, at: int)
    requires 0 < l.burst && PodInv(l, created, h, now) && now <= at && |created| < l.burst
    ensures PodInv(l, created + [at], h + [at], at)
  {
    var h', c' := h + [at], created + [at];
    forall i, j | 0 <= i && i + l.burst <= j < |h'| ensures h'[j] - h'[i] >= l.window {
      if j == |h| { assert now - h[i] >= l.window; }
    }
  }

  lemma PrunedCreated(bs: map<Pod, Burst>, now: int, window: int, p: Pod)
    ensures CreatedOf(Prune(bs, now, window), p) == KeepTimes(CreatedOf(bs, p), now, window)
  {
  }

  /** Refusing changes only the queue, and lets a flow pass only while there is room. */
  lemma RefuseKeeps(l: Limits, b: Burst, flow: Flow, now: int)
    ensures Refuse(l, b, flow, now).0.created == b.created
    ensures Refuse(l, b, flow, now).1 == Admitted <==> !Full(l, b)
  {
  }

  lemma AdmitCreated(l: Limits, bs: map<Pod, Burst>, pod: Pod, flow: Flow, now: int, own: nat, node: nat, p: Pod)
    ensures var (r, v) := Admit(l, bs, pod, flow, now, own, node);
            && CreatedOf(r, p) == KeepTimes(CreatedOf(bs, p), now, l.window)
            && (v == Admitted && 0 < l.burst ==> |CreatedOf(r, pod)| < l.burst)
  {
    PrunedCreated(bs, now, l.window, p);
    PrunedCreated(bs, now, l.window, pod);
    var kept := Prune(bs, now, l.window);
    RefuseKeeps(l, if pod in kept then kept[pod] else Burst([], []), flow, now);
  }

  /** Time passing takes nothing back. */
  lemma LaterPod(l: Limits, created: seq<int>, h: seq<int>, now: int, at: int)
    requires 0 < l.burst && PodInv(l, created, h, now) && now <= at
    ensures PodInv(l, created, h, at)
  {
  }

  lemma RequestPod(l: Limits, s: Sys, s': Sys, pod: Pod, flow: Flow, now: int, at: int, own: nat, node: nat, p: Pod)
    requires 0 < l.burst && Request(l, s, s', pod, flow, now, at, own, node)
    requires PodInv(l, CreatedOf(s.bursts, p), History(s, p), s.clock)
    ensures PodInv(l, CreatedOf(s'.bursts, p), History(s', p), s'.clock)
  {
    PrunePod(l, CreatedOf(s.bursts, p), History(s, p), s.clock, now);
    AdmitCreated(l, s.bursts, pod, flow, now, own, node, p);
    var created := KeepTimes(CreatedOf(s.bursts, p), now, l.window);
    if s'.history != s.history && p == pod {
      CreatePod(l, created, History(s, p), now, at);
    } else if s'.history != s.history {
      LaterPod(l, created, History(s, p), now, at);
    }
  }

  lemma EarlyPod(l: Limits, s: Sys, s': Sys, pod: Pod, flow: Flow, now: int, at: int, p: Pod)
    requires 0 < l.burst && Early(l, s, s', pod, flow, now, at)
    requires PodInv(l, CreatedOf(s.bursts, p), History(s, p), s.clock)
    ensures PodInv(l, CreatedOf(s'.bursts, p), History(s', p), s'.clock)
  {
    PrunePod(l, CreatedOf(s.bursts, p), History(s, p), s.clock, now);
    PrunedCreated(s.bursts, now, l.window, p);
    var bs := Prune(s.bursts, now, l.window);
    if pod in bs { RefuseKeeps(l, bs[pod], flow, at); }
    LaterPod(l, CreatedOf(bs, p), History(s, p), now, s'.clock);
  }

  lemma {:induction false} NextInv(l: Limits, s: Sys, s': Sys)
    requires 0 < l.burst && Inv(l, s) && Next(l, s, s')
    ensures Inv(l, s')
  {
    forall p ensures PodInv(l, CreatedOf(s'.bursts, p), History(s', p), s'.clock) {
      assert PodInv(l, CreatedOf(s.bursts, p), History(s, p), s.clock);
      if pod, flow, now, at, own, node :| Request(l, s, s', pod, flow, now, at, own, node) {
        RequestPod(l, s, s', pod, flow, now, at, own, node, p);
      } else {
        var pod, flow, now, at :| Early(l, s, s', pod, flow, now, at);
        EarlyPod(l, s, s', pod, flow, now, at, p);
      }
    }
  }

  ghost predicate Run(l: Limits, run: seq<Sys>) {
    && |run| > 0 && run[0].bursts == map[] && run[0].history == map[]
    && forall k :: 0 <= k < |run| - 1 ==> Next(l, run[k], run[k + 1])
  }

  lemma {:induction false} RunInv(l: Limits, run: seq<Sys>, k: nat)
    requires 0 < l.burst && Run(l, run) && k < |run|
    ensures Inv(l, run[k])
  {
    if k > 0 {
      RunInv(l, run, k - 1);
      NextInv(l, run[k - 1], run[k]);
    }
  }

  /** How many of the creations fall inside (t - window, t]. */
  function Count(h: seq<int>, t: int, window: int): (r: nat)
    ensures r <= |h|
  {
    if h == [] then 0
    else Count(h[..|h| - 1], t, window) + if t - window < h[|h| - 1] <= t then 1 else 0
  }

  lemma {:induction false} CountIsSuffix(h: seq<int>, t: int, window: int)
    requires Sorted(h) && forall i :: 0 <= i < |h| ==> h[i] <= t
    ensures forall i :: |h| - Count(h, t, window) <= i < |h| ==> t - window < h[i]
  {
    if h != [] {
      CountIsSuffix(h[..|h| - 1], t, window);
    }
  }

  lemma {:induction false} CountBound(h: seq<int>, n: nat, t: int, window: int)
    requires Sorted(h) && Spaced(h, n, window)
    ensures Count(h, t, window) <= n
  {
    if h != [] {
      if h[|h| - 1] > t {
        CountBound(h[..|h| - 1], n, t, window);
      } else {
        CountIsSuffix(h, t, window);
        assert |h| > n ==> h[|h| - 1] - h[|h| - 1 - n] >= window;
      }
    }
  }

  /** In every run at most `burst` mirrors are created for one pod in any window's
      length of time, and the limiter keeps its creations sorted and within the limit. */
  lemma {:induction false} BurstHolds(l: Limits, run: seq<Sys>, k: nat, pod: Pod, t: int)
    requires 0 < l.burst && Run(l, run) && k < |run|
    ensures Count(History(run[k], pod), t, l.window) <= l.burst
    ensures var created := CreatedOf(run[k].bursts, pod); Sorted(created) && |created| <= l.burst
  {
    RunInv(l, run, k);
    assert PodInv(l, CreatedOf(run[k].bursts, pod), History(run[k], pod), run[k].clock);
    CountBound(History(run[k], pod), l.burst, t, l.window);
  }

  // --------------------------------------------------------- the retry queue

  /** No flow is queued twice. */
  ghost predicate OnceEach(ws: seq<Waiter>) {
    forall i, j :: 0 <= i < j < |ws| ==> ws[i].flow != ws[j].flow
  }

  lemma {:induction false} KeepOnce(ws: seq<Waiter>, now: int, window: int)
    requires OnceEach(ws)
    ensures OnceEach(KeepWaiters(ws, now, window))
  {
    if ws != [] {
      KeepOnce(ws[1..], now, window);
      var rest := KeepWaiters(ws[1..], now, window);
      forall j | 0 <= j < |rest| ensures rest[j].flow != ws[0].flow {
        assert rest[j] in ws[1..];
      }
    }
  }

  lemma RefuseOnce(l: Limits, b: Burst, flow: Flow, now: int)
    requires OnceEach(b.waiting)
    ensures OnceEach(Refuse(l, b, flow, now).0.waiting)
    ensures Refuse(l, b, flow, now).1 == Admitted ==> forall w :: w in Refuse(l, b, flow, now).0.waiting ==> w.flow != flow
  {
  }

  /** The creations the schedule is drawn from, and then the schedule: place k + n frees
      a window after place k. */
  function Place(created: seq<int>, n: nat, window: int, k: nat): int
    requires 0 < n <= |created|
  {
    if k < n then created[|created| - n + k] else RetryAt(created, n, window, k - n)
  }

  lemma OneWindowOn(created: seq<int>, n: nat, window: int, k: nat)
    requires 0 < n <= |created|
    ensures Place(created, n, window, k + n) == Place(created, n, window, k) + window
  {
    assert k == n * (k / n) + k % n;
    if k < n {
      Split(k, n, 0, k);
      assert n * (k / n) == 0;
      Multiple(n, k / n);
    } else {
      var i := k - n;
      assert i == n * (i / n) + i % n;
      assert n * (i / n + 1) == n * (i / n) + n;
      Split(k, n, i / n + 1, i % n);
      assert n * (k / n) == n * (i / n + 1);
      Multiple(n, k / n - (i / n + 1));
      Multiple(n, i / n + 1 - k / n);
      assert n * (k / n - (i / n + 1)) == n * (k / n) - n * (i / n + 1);
      assert n * (i / n + 1 - k / n) == n * (i / n + 1) - n * (k / n);
      assert k / n == i / n + 1;
      assert (k / n + 1) * window == (i / n + 1) * window + window;
    }
  }

  /** The creations the limiter holds when it refuses: sorted, and all in the window. */
  ghost predicate InWindow(created: seq<int>, now: int, window: int) {
    Sorted(created) && forall i :: 0 <= i < |created| ==> now - window < created[i] <= now
  }

  lemma {:induction false} PlacesAscend(created: seq<int>, n: nat, window: int, now: int, k: nat)
    requires 0 < n <= |created| && InWindow(created, now, window)
    ensures Place(created, n, window, k) <= Place(created, n, window, k + 1)
  {
    if k + 1 >= n {
      OneWindowOn(created, n, window, k + 1 - n);
      if k >= n {
        OneWindowOn(created, n, window, k - n);
        PlacesAscend(created, n, window, now, k - n);
      }
    }
  }

  /** The retry times of the queue: strictly in the future, never earlier for a later
      position, and exactly one window on from the position a burst before. */
  lemma {:induction false} RetrySchedule(created: seq<int>, n: nat, window: int, now: int, i: nat)
    requires 0 < n <= |created| && InWindow(created, now, window)
    ensures RetryAt(created, n, window, i) > now
    ensures RetryAt(created, n, window, i) <= RetryAt(created, n, window, i + 1)
    ensures RetryAt(created, n, window, i + n) == RetryAt(created, n, window, i) + window
  {
    PlacesAscend(created, n, window, now, n + i);
    OneWindowOn(created, n, window, n + i);
    if i == 0 {
      OneWindowOn(created, n, window, 0);
    } else {
      RetrySchedule(created, n, window, now, i - 1);
    }
  }

  function WaitingOf(bs: map<Pod, Burst>, p: Pod): seq<Waiter> { if p in bs then bs[p].waiting else [] }

  lemma PrunedOnce(bs: map<Pod, Burst>, now: int, window: int, p: Pod)
    requires OnceEach(WaitingOf(bs, p))
    ensures OnceEach(WaitingOf(Prune(bs, now, window), p))
  {
    KeepOnce(WaitingOf(bs, p), now, window);
  }

  lemma NextOnce(l: Limits, s: Sys, s': Sys, p: Pod)
    requires Next(l, s, s') && OnceEach(WaitingOf(s.bursts, p))
    ensures OnceEach(WaitingOf(s'.bursts, p))
  {
    if pod, flow, now, at, own, node :| Request(l, s, s', pod, flow, now, at, own, node) {
      PrunedOnce(s.bursts, now, l.window, p);
      var kept := Prune(s.bursts, now, l.window);
      if p == pod { RefuseOnce(l, if pod in kept then kept[pod] else Burst([], []), flow, now); }
    } else {
      var pod, flow, now, at :| Early(l, s, s', pod, flow, now, at);
      PrunedOnce(s.bursts, now, l.window, p);
      var kept := Prune(s.bursts, now, l.window);
      if pod in kept && p == pod { RefuseOnce(l, kept[pod], flow, at); }
    }
  }

  /** In every run no flow is queued twice. */
  lemma {:induction false} QueuedOnce(l: Limits, run: seq<Sys>, k: nat, pod: Pod)
    requires Run(l, run) && k < |run|
    ensures OnceEach(WaitingOf(run[k].bursts, pod))
  {
    if k > 0 {
      QueuedOnce(l, run, k - 1, pod);
      NextOnce(l, run[k - 1], run[k], pod);
    }
  }

  /** The refused flow's one place in the queue, and its time. */
  ghost predicate HasPlace(l: Limits, b: Burst, flow: Flow, now: int, retryAfter: int)
    requires 0 < l.burst
  {
    && |b.created| == l.burst && InWindow(b.created, now, l.window) && OnceEach(b.waiting)
    && exists i :: 0 <= i < |b.waiting| && b.waiting[i] == Waiter(flow, now + retryAfter)
                   && now + retryAfter == RetryAt(b.created, l.burst, l.window, i)
  }

  lemma RefusedPlace(l: Limits, b: Burst, flow: Flow, now: int)
    requires 0 < l.burst && |b.created| <= l.burst && InWindow(b.created, now, l.window) && OnceEach(b.waiting)
    ensures var (b', v) := Refuse(l, b, flow, now); v.RefusedBurst? ==> v.retryAfter > 0 && HasPlace(l, b', flow, now, v.retryAfter)
  {
    RefuseOnce(l, b, flow, now);
    if Full(l, b) {
      var i := IndexOf(b.waiting, flow);
      RetrySchedule(b.created, l.burst, l.window, now, i);
      assert Refuse(l, b, flow, now).0.waiting[i] == Waiter(flow, RetryAt(b.created, l.burst, l.window, i));
    }
  }

  lemma PodInWindow(l: Limits, created: seq<int>, h: seq<int>, clock: int, now: int)
    requires 0 < l.burst && PodInv(l, created, h, clock) && clock <= now
    ensures var kept := KeepTimes(created, now, l.window); |kept| <= l.burst && InWindow(kept, now, l.window)
  {
    PrunePod(l, created, h, clock, now);
    var kept := KeepTimes(created, now, l.window);
    assert forall i :: 0 <= i < |kept| ==> kept[i] == h[|h| - |kept| + i] && kept[i] in kept;
  }

  lemma PrunedInWindow(l: Limits, run: seq<Sys>, k: nat, pod: Pod, now: int)
    requires 0 < l.burst && Run(l, run) && k < |run| && run[k].clock <= now
    ensures var bs := Prune(run[k].bursts, now, l.window);
            |CreatedOf(bs, pod)| <= l.burst && InWindow(CreatedOf(bs, pod), now, l.window) && OnceEach(WaitingOf(bs, pod))
  {
    RunInv(l, run, k);
    QueuedOnce(l, run, k, pod);
    var s := run[k];
    PodInWindow(l, CreatedOf(s.bursts, pod), History(s, pod), s.clock, now);
    PrunedCreated(s.bursts, now, l.window, pod);
    PrunedOnce(s.bursts, now, l.window, pod);
  }

  /** In every run, a flow the burst limit refuses is told a time strictly in the future,
      that of its one position in the queue, and the window it found full holds exactly a
      burst of creations. */
  lemma {:induction false} RefusedHasItsPlace(l: Limits, run: seq<Sys>, k: nat, pod: Pod, flow: Flow, now: int, own: nat, node: nat)
    requires 0 < l.burst && Run(l, run) && k < |run| && run[k].clock <= now
    ensures var (bs, v) := Admit(l, run[k].bursts, pod, flow, now, own, node);
            v.RefusedBurst? ==> v.retryAfter > 0 && pod in bs && HasPlace(l, bs[pod], flow, now, v.retryAfter)
  {
    PrunedInWindow(l, run, k, pod, now);
    var kept := Prune(run[k].bursts, now, l.window);
    RefusedPlace(l, if pod in kept then kept[pod] else Burst([], []), flow, now);
  }

  /** The creations the schedule would lead to: the last burst, and then the first `m`
      of the queue, each at its retry time. */
  function Followed(created: seq<int>, n: nat, window: int, m: nat): (r: seq<int>)
    requires 0 < n <= |created|
    ensures |r| == n + m && forall k :: 0 <= k < n + m ==> r[k] == Place(created, n, window, k)
  {
    seq(n + m, k requires 0 <= k => Place(created, n, window, k))
  }

  lemma {:induction false} PlacesSorted(created: seq<int>, n: nat, window: int, now: int, i: nat, j: nat)
    requires 0 < n <= |created| && InWindow(created, now, window) && i <= j
    ensures Place(created, n, window, i) <= Place(created, n, window, j)
  {
    if i < j {
      PlacesSorted(created, n, window, now, i, j - 1);
      PlacesAscend(created, n, window, now, j - 1);
    }
  }

  lemma FollowedSpaced(created: seq<int>, n: nat, window: int, now: int, m: nat)
    requires 0 < n <= |created| && InWindow(created, now, window)
    ensures var h := Followed(created, n, window, m); Sorted(h) && Spaced(h, n, window)
  {
    var h := Followed(created, n, window, m);
    forall i, j | 0 <= i <= j < |h| ensures h[i] <= h[j] { PlacesSorted(created, n, window, now, i, j); }
    forall i, j | 0 <= i && i + n <= j < |h| ensures h[j] - h[i] >= window {
      OneWindowOn(created, n, window, i);
      PlacesSorted(created, n, window, now, i + n, j);
    }
  }

  /** Once creation m has left the window, at most what follows it is left. */
  lemma KeptAfter(h: seq<int>, at: int, window: int, m: nat)
    requires Sorted(h) && m < |h| && at - h[m] >= window
    ensures |KeepTimes(h, at, window)| < |h| - m
  {
    KeepSuffix(h, at, window);
    var kept := KeepTimes(h, at, window);
    forall i | |h| - |kept| <= i < |h| ensures at - h[i] < window {
      assert h[i] == kept[i - (|h| - |kept|)];
    }
  }

  /** Asking again at its retry time, each refused flow passes: by then the place it was
      promised has left the window, and the burst limit holds throughout. */
  lemma {:induction false} ScheduleFeasible(l: Limits, created: seq<int>, now: int, m: nat, waiting: seq<Waiter>, flow: Flow)
    requires 0 < l.burst <= |created| && InWindow(created, now, l.window)
    ensures var h := Followed(created, l.burst, l.window, m);
            var at := RetryAt(created, l.burst, l.window, m);
            && Sorted(h) && Spaced(h, l.burst, l.window)
            && Refuse(l, Pruned(Burst(h, waiting), at, l.window), flow, at).1 == Admitted
  {
    var h := Followed(created, l.burst, l.window, m);
    FollowedSpaced(created, l.burst, l.window, now, m);
    OneWindowOn(created, l.burst, l.window, m);
    KeptAfter(h, RetryAt(created, l.burst, l.window, m), l.window, m);
  }

  /** No order of creations the limit allows serves a position sooner. */
  lemma {:induction false} ScheduleEarliest(created: seq<int>, n: nat, window: int, h: seq<int>, i: nat)
    requires 0 < n == |created| && Sorted(h) && Spaced(h, n, window)
    requires n + i < |h| && h[..n] == created
    ensures h[n + i] >= RetryAt(created, n, window, i)
  {
    OneWindowOn(created, n, window, i);
    if i < n {
      assert h[i] == created[i];
    } else {
      ScheduleEarliest(created, n, window, h, i - n);
    }
  }

  // ------------------------------------------------------ whom it admits

  /** The end of sorted times past the window's start is what falls inside the window. */
  lemma {:induction false} CountEnds(h: seq<int>, kept: seq<int>, now: int, window: int)
    requires Sorted(h) && Ends(h, kept, now, window) && forall i :: 0 <= i < |h| ==> h[i] <= now
    ensures Count(h, now, window) == |kept|
  {
    if h != [] {
      var n := |h| - 1;
      if kept == [] {
        CountEnds(h[..n], [], now, window);
      } else {
        assert kept[|kept| - 1] == h[n];
        assert kept[..|kept| - 1] == h[..n][|h[..n]| - (|kept| - 1)..];
        CountEnds(h[..n], kept[..|kept| - 1], now, window);
      }
    }
  }

  /** What pruning keeps of a pod is the end of its history in the window. */
  lemma PrunedEnds(l: Limits, created: seq<int>, h: seq<int>, clock: int, now: int)
    requires 0 < l.burst && PodInv(l, created, h, clock) && clock <= now
    ensures Ends(h, KeepTimes(created, now, l.window), now, l.window) && forall i :: 0 <= i < |h| ==> h[i] <= now
  {
    PrunePod(l, created, h, clock, now);
    var kept := KeepTimes(created, now, l.window);
    assert forall i :: 0 <= i < |kept| ==> kept[i] in kept;
  }

  /** In every run a request is refused for its burst exactly when the window up to now holds
      Burst creations of its pod; otherwise for a count exactly when its pod or the node is
      at a limit that is set; and admitted otherwise. */
  lemma {:induction false} AdmitsExactly(l: Limits, run: seq<Sys>, k: nat, pod: Pod, flow: Flow, now: int, own: nat, node: nat)
    requires 0 < l.burst && Run(l, run) && k < |run| && run[k].clock <= now
    ensures var v := Admit(l, run[k].bursts, pod, flow, now, own, node).1;
            var full := Count(History(run[k], pod), now, l.window) >= l.burst;
            var counted := (0 < l.perPod <= own) || (0 < l.perNode <= node);
            (v.RefusedBurst? <==> full) && (v == RefusedCount <==> !full && counted) && (v == Admitted <==> !full && !counted)
  {
    RunInv(l, run, k);
    var s := run[k];
    var (created, h) := (CreatedOf(s.bursts, pod), History(s, pod));
    assert PodInv(l, created, h, s.clock);
    PrunedEnds(l, created, h, s.clock, now);
    CountEnds(h, KeepTimes(created, now, l.window), now, l.window);
    PrunedCreated(s.bursts, now, l.window, pod);
    var kept := Prune(s.bursts, now, l.window);
    RefuseKeeps(l, if pod in kept then kept[pod] else Burst([], []), flow, now);
  }

  /** Without a burst limit only the counts refuse. */
  lemma AdmitsByCount(l: Limits, bs: map<Pod, Burst>, pod: Pod, flow: Flow, now: int, own: nat, node: nat)
    requires l.burst <= 0
    ensures var v := Admit(l, bs, pod, flow, now, own, node).1;
            v == if (0 < l.perPod <= own) || (0 < l.perNode <= node) then RefusedCount else Admitted
  {
  }

  /** The queue without a flow. */
  function Others(ws: seq<Waiter>, flow: Flow): seq<Waiter> {
    if ws == [] then [] else (if ws[0].flow == flow then [] else [ws[0]]) + Others(ws[1..], flow)
  }

  lemma {:induction false} OthersConcat(a: seq<Waiter>, b: seq<Waiter>, flow: Flow)
    ensures Others(a + b, flow) == Others(a, flow) + Others(b, flow)
  {
    if a == [] {
      assert a + b == b;
    } else {
      assert (a + b)[1..] == a[1..] + b;
      OthersConcat(a[1..], b, flow);
    }
  }

  /** A waiter of the flow makes no difference to the others. */
  lemma OthersAround(a: seq<Waiter>, w: Waiter, b: seq<Waiter>, flow: Flow)
    requires w.flow == flow
    ensures Others(a + ([w] + b), flow) == Others(a, flow) + Others(b, flow)
  {
    OthersConcat(a, [w] + b, flow);
    assert ([w] + b)[1..] == b;
  }

  lemma IndexIs(ws: seq<Waiter>, flow: Flow, i: nat)
    requires i < |ws| && ws[i].flow == flow && forall k :: 0 <= k < i ==> ws[k].flow != flow
    ensures IndexOf(ws, flow) == i
  {
  }

  lemma PassedQueue(ws: seq<Waiter>, flow: Flow, i: nat)
    requires i == IndexOf(ws, flow) < |ws|
    ensures Others(ws[..i] + ws[i + 1..], flow) == Others(ws, flow)
  {
    OthersConcat(ws[..i], ws[i + 1..], flow);
    OthersAround(ws[..i], ws[i], ws[i + 1..], flow);
    assert ws == ws[..i] + ([ws[i]] + ws[i + 1..]);
  }

  lemma Around(ws: seq<Waiter>, w: Waiter, i: nat)
    requires i < |ws|
    ensures ws == ws[..i] + ([ws[i]] + ws[i + 1..]) && ws[i := w] == ws[..i] + ([w] + ws[i + 1..])
  {
  }

  lemma StayedQueue(ws: seq<Waiter>, w: Waiter, i: nat)
    requires i == IndexOf(ws, w.flow) < |ws|
    ensures Others(ws[i := w], w.flow) == Others(ws, w.flow) && IndexOf(ws[i := w], w.flow) == i
  {
    OthersAround(ws[..i], ws[i], ws[i + 1..], w.flow);
    OthersAround(ws[..i], w, ws[i + 1..], w.flow);
    Around(ws, w, i);
    IndexIs(ws[i := w], w.flow, i);
  }

  lemma JoinedQueue(ws: seq<Waiter>, w: Waiter)
    requires IndexOf(ws, w.flow) == |ws|
    ensures Others(ws + [w], w.flow) == Others(ws, w.flow) && IndexOf(ws + [w], w.flow) == |ws|
  {
    OthersConcat(ws, [w], w.flow);
    IndexIs(ws + [w], w.flow, |ws|);
  }

  /** Refusing or passing a flow leaves the others' queue as it is; a refused flow keeps its
      position, or takes the last. */
  lemma {:induction false} RefuseKeepsQueue(l: Limits, b: Burst, flow: Flow, now: int)
    ensures var b' := Refuse(l, b, flow, now).0;
            && Others(b'.waiting, flow) == Others(b.waiting, flow)
            && (Full(l, b) ==> IndexOf(b'.waiting, flow) == IndexOf(b.waiting, flow) < |b'.waiting|)
  {
    var i := IndexOf(b.waiting, flow);
    if Full(l, b) {
      var w := Waiter(flow, RetryAt(b.created, l.burst, l.window, i));
      if i < |b.waiting| { StayedQueue(b.waiting, w, i); } else { JoinedQueue(b.waiting, w); }
    } else if i < |b.waiting| {
      PassedQueue(b.waiting, flow, i);
    }
  }

  /** Pruning keeps exactly the waiters told a time less than a window ago, in order. */
  lemma {:induction false} PruneKeepsQueue(a: seq<Waiter>, b: seq<Waiter>, w: Waiter, now: int, window: int)
    ensures KeepWaiters(a + [w] + b, now, window) ==
            KeepWaiters(a, now, window) + (if now < w.at + window then [w] else []) + KeepWaiters(b, now, window)
  {
    if a == [] {
      assert a + [w] + b == [w] + b;
      assert ([w] + b)[1..] == b;
    } else {
      assert (a + [w] + b)[1..] == a[1..] + [w] + b;
      PruneKeepsQueue(a[1..], b, w, now, window);
    }
  }

  // ------------------------------------------------- the limiter, in place

  lemma KeepsSorted(l: Limits, created: seq<int>, h: seq<int>, clock: int)
    requires 0 < l.burst && PodInv(l, created, h, clock)
    ensures Sorted(created) && |created| <= l.burst
  {
  }

  /** What a request keeps of its pod. */
  lemma RequestKeeps(l: Limits, s: Sys, s': Sys, pod: Pod, flow: Flow, now: int, at: int, own: nat, node: nat)
    requires Request(l, s, s', pod, flow, now, at, own, node)
    ensures 0 < l.burst && Inv(l, s) ==>
              && Inv(l, s') && Sorted(CreatedOf(s'.bursts, pod)) && |CreatedOf(s'.bursts, pod)| <= l.burst
  {
    if 0 < l.burst && Inv(l, s) {
      forall p ensures PodInv(l, CreatedOf(s'.bursts, p), History(s', p), s'.clock) {
        assert PodInv(l, CreatedOf(s.bursts, p), History(s, p), s.clock);
        RequestPod(l, s, s', pod, flow, now, at, own, node, p);
      }
      KeepsSorted(l, CreatedOf(s'.bursts, pod), History(s', pod), s'.clock);
    }
  }

  lemma Requeued(ws: seq<Waiter>, i: nat, blank: Waiter, w: Waiter)
    requires i <= |ws|
    ensures (if i < |ws| then ws else ws + [blank])[i := w] == if i < |ws| then ws[i := w] else ws + [w]
  {
  }

  class Dispatcher {
    const l: Limits
    var bursts: map<Pod, Burst>

    constructor (l: Limits)
      ensures this.l == l && bursts == map[]
    {
      this.l := l;
      bursts := map[];
    }

    method PruneBursts(now: int)
      modifies this
      ensures bursts == Prune(old(bursts), now, l.window)
    {
      var left, kept := bursts.Keys, map[];
      while left != {}
        invariant left <= bursts.Keys && bursts == old(bursts)
        invariant forall p :: p in kept ==> p in bursts && p !in left
        invariant forall p :: p in bursts && p !in left ==> (p in kept <==> Pruned(bursts[p], now, l.window) != Burst([], []))
        invariant forall p :: p in kept ==> kept[p] == Pruned(bursts[p], now, l.window)
      {
        var p :| p in left;
        var b := Pruned(bursts[p], now, l.window);
        if |b.created| != 0 || |b.waiting| != 0 {
          kept := kept[p := b];
        }
        left := left - {p};
      }
      bursts := kept;
    }

    method Position(ws: seq<Waiter>, flow: Flow) returns (i: nat)
      ensures i == IndexOf(ws, flow)
    {
      i := 0;
      while i < |ws| && ws[i].flow != flow
        invariant i <= |ws| && IndexOf(ws, flow) == i + IndexOf(ws[i..], flow)
      {
        assert ws[i..][1..] == ws[i + 1..];
        i := i + 1;
      }
    }

    method BurstRefusal(b: Burst, flow: Flow, now: int) returns (b': Burst, v: Verdict)
      ensures (b', v) == Refuse(l, b, flow, now)
    {
      var i := Position(b.waiting, flow);
      if l.burst <= 0 || |b.created| < l.burst {
        b' := if i < |b.waiting| then b.(waiting := b.waiting[..i] + b.waiting[i + 1..]) else b;
        return b', Admitted;
      }
      var waiting := if i < |b.waiting| then b.waiting else b.waiting + [Waiter(flow, 0)];
      var at := RetryAt(b.created, l.burst, l.window, i);
      b' := b.(waiting := waiting[i := Waiter(flow, at)]);
      v := RefusedBurst(at - now);
      Requeued(b.waiting, i, Waiter(flow, 0), Waiter(flow, at));
    }

    method AdmitMirror(pod: Pod, flow: Flow, now: int, own: nat, node: nat) returns (v: Verdict)
      modifies this
      ensures (bursts, v) == Admit(l, old(bursts), pod, flow, now, own, node)
      ensures pod in bursts
    {
      PruneBursts(now);
      var b := if pod in bursts then bursts[pod] else Burst([], []);
      var b', w := BurstRefusal(b, flow, now);
      bursts := bursts[pod := b'];
      if w != Admitted {
        return w;
      }
      if l.perPod > 0 && own >= l.perPod {
        return RefusedCount;
      }
      if l.perNode > 0 && node >= l.perNode {
        return RefusedCount;
      }
      return Admitted;
    }

    /** The tail of ensureMirror: admits the flow, and records the mirror if the API server
        creates it. It is one step of the limiter's runs, and so keeps every pod's
        creations sorted and within the limit. */
    method EnsureMirror(pod: Pod, flow: Flow, now: int, at: int, own: nat, node: nat, accepted: bool, ghost s: Sys)
      returns (v: Verdict, ghost s': Sys)
      requires s.bursts == bursts && s.clock <= now <= at
      modifies this
      ensures s'.bursts == bursts && Request(l, s, s', pod, flow, now, at, own, node)
      ensures v == Admit(l, old(bursts), pod, flow, now, own, node).1
      ensures History(s', pod) == History(s, pod) + if v == Admitted && accepted then [at] else []
      ensures 0 < l.burst && Inv(l, s) ==> Inv(l, s') && Sorted(CreatedOf(bursts, pod)) && |CreatedOf(bursts, pod)| <= l.burst
    {
      v := AdmitMirror(pod, flow, now, own, node);
      s' := Sys(bursts, now, s.history);
      if v == Admitted && accepted {
        bursts := bursts[pod := bursts[pod].(created := bursts[pod].created + [at])];
        s' := Sys(bursts, at, s.history[pod := History(s, pod) + [at]]);
      }
      RequestKeeps(l, s, s', pod, flow, now, at, own, node);
    }
  }
}
