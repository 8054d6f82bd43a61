/** The ref-counted holds of source rings, and their two nested locks, of
    gateway/internal/numaplace/numaplace.go, as steps of any number of threads. The
    Placer's mutex guards the links and the flows map; each pin's own mutex serializes
    its first acquire. place takes the Placer's inside the pin's, and the last release
    the pin's inside the Placer's. A critical section that takes no other lock is one
    step, taken when the lock is free. */
module RingHolds {

  type Thread = nat
  type Pin = nat
  type Key = nat

  /** Where a thread is. Between steps the Placer's mutex is held only by a last release
      (LastWaits, LastCloses), and a pin's mutex only in place (Placing, PlaceWaits) and
      by a last release that closes (LastCloses). */
  datatype Stage =
    | Out              // outside
    | AcquireWaits     // Acquire, for the Placer's mutex
    | PinWaits         // Acquire, linked, for the pin's mutex
    | Placing          // place
    | PlaceWaits       // place, for the Placer's mutex
    | Holding          // Acquire returned
    | ReleaseWaits     // release, for the Placer's mutex
    | LastWaits        // last release, for the pin's mutex
    | LastCloses       // last release, closing the files

  datatype At = At(stage: Stage, key: Key, pin: Pin)

  /** A flow's pin: its links, whether its first acquire began, how often place ran, and
      how many ring files it holds open. */
  datatype PinState = PinState(key: Key, links: nat, done: bool, placed: nat, open: nat)

  datatype Sys = Sys(at: map<Thread, At>, pins: map<Pin, PinState>, flows: map<Key, Pin>)

  predicate InPlace(a: At, p: Pin) { (a.stage == Placing || a.stage == PlaceWaits) && a.pin == p }

  /** Acquire has returned to the thread, and its release has not ended the count. */
  predicate Returned(a: At, p: Pin) { (a.stage == Holding || a.stage == ReleaseWaits) && a.pin == p }

  /** The thread counts as one of the pin's links. */
  predicate Links(a: At, p: Pin) { InPlace(a, p) || Returned(a, p) || (a.stage == PinWaits && a.pin == p) }

  predicate Closing(a: At, p: Pin) { (a.stage == LastWaits || a.stage == LastCloses) && a.pin == p }

  predicate HoldsMu(a: At) { a.stage == LastWaits || a.stage == LastCloses }

  predicate HoldsPin(a: At, p: Pin) { InPlace(a, p) || (a.stage == LastCloses && a.pin == p) }

  ghost predicate MuFree(s: Sys) { forall t :: t in s.at ==> !HoldsMu(s.at[t]) }

  ghost predicate PinFree(s: Sys, p: Pin) { forall t :: t in s.at ==> !HoldsPin(s.at[t], p) }

  ghost function Users(s: Sys, p: Pin): set<Thread> {
    set t | t in s.at && Links(s.at[t], p)
  }

  // ---------------------------------------------------------------- steps

  function Go(s: Sys, t: Thread, a: At): Sys { s.(at := s.at[t := a]) }

  function SetPin(s: Sys, p: Pin, ps: PinState): Sys { s.(pins := s.pins[p := ps]) }

  ghost predicate Is(s: Sys, t: Thread, stage: Stage) {
    t in s.at && s.at[t].stage == stage
  }

  /** Acquire begins, for any flow. */
  ghost predicate Enter(s: Sys, s': Sys, t: Thread, k: Key) {
    (t in s.at ==> s.at[t].stage == Out) && s' == Go(s, t, At(AcquireWaits, k, 0))
  }

  /** Acquire counts itself on the flow's pin. */
  ghost predicate Link(s: Sys, s': Sys, t: Thread, p: Pin) {
    && Is(s, t, AcquireWaits) && MuFree(s)
    && var k := s.at[t].key;
       k in s.flows && p == s.flows[k] && p in s.pins &&
       s' == SetPin(Go(s, t, At(PinWaits, k, p)), p, s.pins[p].(links := s.pins[p].links + 1))
  }

  /** Acquire makes the flow a pin. */
  ghost predicate NewPin(s: Sys, s': Sys, t: Thread, p: Pin) {
    && Is(s, t, AcquireWaits) && MuFree(s)
    && var k := s.at[t].key;
       k !in s.flows && p !in s.pins &&
       s' == SetPin(Go(s, t, At(PinWaits, k, p)), p, PinState(k, 1, false, 0, 0)).(flows := s.flows[k := p])
  }

  /** An acquire after the first passes through the pin's mutex and returns. */
  ghost predicate Join(s: Sys, s': Sys, t: Thread) {
    && Is(s, t, PinWaits) && s.at[t].pin in s.pins && PinFree(s, s.at[t].pin) && s.pins[s.at[t].pin].done
    && s' == Go(s, t, s.at[t].(stage := Holding))
  }

  /** The first acquire takes the pin's mutex and begins to place. */
  ghost predicate First(s: Sys, s': Sys, t: Thread) {
    && Is(s, t, PinWaits) && s.at[t].pin in s.pins && PinFree(s, s.at[t].pin) && !s.pins[s.at[t].pin].done
    && var p := s.at[t].pin;
       s' == SetPin(Go(s, t, s.at[t].(stage := Placing)), p, s.pins[p].(done := true, placed := s.pins[p].placed + 1))
  }

  /** place opens ring files, or closes those it opened. */
  ghost predicate Open(s: Sys, s': Sys, t: Thread, n: nat) {
    && Is(s, t, Placing) && s.at[t].pin in s.pins
    && s' == SetPin(s, s.at[t].pin, s.pins[s.at[t].pin].(open := n))
  }

  /** place goes for the Placer's mutex, and passes through it. */
  ghost predicate Note(s: Sys, s': Sys, t: Thread) {
    || (Is(s, t, Placing) && s' == Go(s, t, s.at[t].(stage := PlaceWaits)))
    || (Is(s, t, PlaceWaits) && MuFree(s) && s' == Go(s, t, s.at[t].(stage := Placing)))
  }

  /** place is done and the first acquire returns. */
  ghost predicate Return(s: Sys, s': Sys, t: Thread) {
    Is(s, t, Placing) && s' == Go(s, t, s.at[t].(stage := Holding))
  }

  ghost predicate StartRelease(s: Sys, s': Sys, t: Thread) {
    Is(s, t, Holding) && s' == Go(s, t, s.at[t].(stage := ReleaseWaits))
  }

  /** A release that is not the last ends its count. */
  ghost predicate Unlink(s: Sys, s': Sys, t: Thread) {
    && Is(s, t, ReleaseWaits) && MuFree(s) && s.at[t].pin in s.pins && s.pins[s.at[t].pin].links > 1
    && var p := s.at[t].pin;
       s' == SetPin(Go(s, t, At(Out, 0, 0)), p, s.pins[p].(links := s.pins[p].links - 1))
  }

  /** The last release takes the pin out of the flows, and keeps the Placer's mutex. */
  ghost predicate UnlinkLast(s: Sys, s': Sys, t: Thread) {
    && Is(s, t, ReleaseWaits) && MuFree(s) && s.at[t].pin in s.pins && s.pins[s.at[t].pin].links == 1
    && var p := s.at[t].pin;
       s' == SetPin(Go(s, t, s.at[t].(stage := LastWaits)), p, s.pins[p].(links := 0)).(flows := s.flows - {s.pins[p].key})
  }

  ghost predicate TakePin(s: Sys, s': Sys, t: Thread) {
    Is(s, t, LastWaits) && PinFree(s, s.at[t].pin) && s' == Go(s, t, s.at[t].(stage := LastCloses))
  }

  /** The last release closes the files and lets both mutexes go. */
  ghost predicate Close(s: Sys, s': Sys, t: Thread) {
    && Is(s, t, LastCloses) && s.at[t].pin in s.pins
    && s' == SetPin(Go(s, t, At(Out, 0, 0)), s.at[t].pin, s.pins[s.at[t].pin].(open := 0))
  }

  ghost predicate Next(s: Sys, s': Sys, t: Thread) {
    || (exists k :: Enter(s, s', t, k))
    || (exists p :: Link(s, s', t, p)) || (exists p :: NewPin(s, s', t, p))
    || Join(s, s', t) || First(s, s', t)
    || (exists n :: Open(s, s', t, n)) || Note(s, s', t) || Return(s, s', t)
    || StartRelease(s, s', t) || Unlink(s, s', t) || UnlinkLast(s, s', t) || TakePin(s, s', t) || Close(s, s', t)
  }

  // ----------------------------------------------------------- the invariant

  /** Each mutex has at most one holder. */
  ghost predicate Exclusive(s: Sys) {
    && (forall t, u :: t in s.at && u in s.at && HoldsMu(s.at[t]) && HoldsMu(s.at[u]) ==> t == u)
    && (forall t, u, p :: t in s.at && u in s.at && HoldsPin(s.at[t], p) && HoldsPin(s.at[u], p) ==> t == u)
  }

  /** Threads are at pins there are, and a release closes a pin without links. */
  ghost predicate Known(s: Sys) {
    && (forall t, p :: t in s.at && (Links(s.at[t], p) || Closing(s.at[t], p)) ==> p in s.pins)
    && (forall t, p :: t in s.at && Closing(s.at[t], p) ==> s.pins[p].links == 0)
  }

  /** A pin's links are its threads. */
  ghost predicate Counted(s: Sys) {
    Known(s) && forall p :: p in s.pins ==> s.pins[p].links == |Users(s, p)|
  }

  /** The flow's pin is the one with links. */
  ghost predicate Found(s: Sys) {
    && (forall k :: k in s.flows ==> s.flows[k] in s.pins && s.pins[s.flows[k]].key == k && s.pins[s.flows[k]].links > 0)
    && (forall p :: p in s.pins && s.pins[p].links > 0 ==> s.pins[p].key in s.flows && s.flows[s.pins[p].key] == p)
  }

  /** place runs at most once, before any acquire of the pin returns. */
  ghost predicate PlacedOnce(s: Sys) {
    && (forall p :: p in s.pins ==> s.pins[p].placed == if s.pins[p].done then 1 else 0)
    && (forall t, p :: t in s.at && p in s.pins && (InPlace(s.at[t], p) || Returned(s.at[t], p)) ==> s.pins[p].done)
    && (forall t, u, p :: t in s.at && u in s.at && InPlace(s.at[t], p) ==> !Returned(s.at[u], p))
  }

  /** With no link left, files are open only while a release is closing them. */
  ghost predicate Closed(s: Sys) {
    forall p :: p in s.pins && s.pins[p].links == 0 && s.pins[p].open > 0 ==> exists t :: t in s.at && Closing(s.at[t], p)
  }

  ghost predicate Inv(s: Sys) {
    Exclusive(s) && Counted(s) && Found(s) && PlacedOnce(s) && Closed(s)
  }

  // -------------------------------------------------- what each step keeps

  lemma UsersMove(s: Sys, s': Sys, t: Thread, b: At, p: Pin)
    requires s'.at == s.at[t := b]
    ensures Users(s', p) == if Links(b, p) then Users(s, p) + {t} else Users(s, p) - {t}
    ensures t in Users(s, p) <==> t in s.at && Links(s.at[t], p)
  {
  }

  /** A linked pin has a link. */
  lemma Linked(s: Sys, t: Thread, p: Pin)
    requires Counted(s) && t in s.at && Links(s.at[t], p)
    ensures p in s.pins && s.pins[p].links > 0
  {
    assert t in Users(s, p);
  }

  ghost predicate SameLinks(s: Sys, s': Sys) {
    && s'.flows == s.flows && s'.pins.Keys == s.pins.Keys
    && forall p :: p in s.pins ==> s'.pins[p].links == s.pins[p].links && s'.pins[p].key == s.pins[p].key
  }

  /** A move that neither links, unlinks nor starts a close. */
  lemma KeepCounted(s: Sys, s': Sys, t: Thread, b: At)
    requires Counted(s) && Found(s) && s'.at == s.at[t := b] && SameLinks(s, s')
    requires forall p :: Links(b, p) <==> t in s.at && Links(s.at[t], p)
    requires forall p :: Closing(b, p) ==> t in s.at && Closing(s.at[t], p)
    ensures Counted(s') && Found(s')
  {
    forall p | p in s'.pins ensures s'.pins[p].links == |Users(s', p)| {
      UsersMove(s, s', t, b, p);
      assert Users(s', p) == Users(s, p);
    }
  }

  /** A move that ends no close. */
  lemma KeepClosed(s: Sys, s': Sys, t: Thread, b: At)
    requires Closed(s) && s'.at == s.at[t := b] && (t in s.at ==> forall p :: Closing(s.at[t], p) ==> Closing(b, p))
    requires forall p :: p in s'.pins && s'.pins[p].links == 0 && s'.pins[p].open > 0 ==>
               (p in s.pins && s.pins[p].links == 0 && s.pins[p].open > 0) || Closing(b, p)
    ensures Closed(s')
  {
    forall p | p in s'.pins && s'.pins[p].links == 0 && s'.pins[p].open > 0
      ensures exists u :: u in s'.at && Closing(s'.at[u], p)
    {
      if Closing(b, p) {
        assert Closing(s'.at[t], p);
      } else {
        var u :| u in s.at && Closing(s.at[u], p);
        assert u in s'.at && Closing(s'.at[u], p);
      }
    }
  }

  /** A move that takes only free mutexes. */
  lemma KeepExclusive(s: Sys, s': Sys, t: Thread, b: At)
    requires Exclusive(s) && s'.at == s.at[t := b]
    requires HoldsMu(b) ==> MuFree(s) || (t in s.at && HoldsMu(s.at[t]))
    requires forall p :: HoldsPin(b, p) ==> PinFree(s, p) || (t in s.at && HoldsPin(s.at[t], p))
    ensures Exclusive(s')
  {
  }

  /** A move that neither enters place, nor returns an acquire. */
  lemma KeepPlaced(s: Sys, s': Sys, t: Thread, b: At)
    requires PlacedOnce(s) && s'.at == s.at[t := b] && s'.pins.Keys == s.pins.Keys
    requires forall p :: p in s.pins ==> s'.pins[p].done == s.pins[p].done && s'.pins[p].placed == s.pins[p].placed
    requires forall p :: InPlace(b, p) ==> t in s.at && InPlace(s.at[t], p)
    requires forall p :: Returned(b, p) ==> t in s.at && Returned(s.at[t], p)
    ensures PlacedOnce(s')
  {
  }

  // Every step but Open moves one thread, and changes at most its pin.

  ghost predicate Moves(s: Sys, s': Sys, t: Thread) {
    t in s'.at && s'.at == s.at[t := s'.at[t]]
  }

  lemma ExclusiveStep(s: Sys, s': Sys, t: Thread)
    requires Exclusive(s) && Next(s, s', t)
    ensures Exclusive(s')
  {
    if n :| Open(s, s', t, n) {
    } else {
      assert Moves(s, s', t);
      KeepExclusive(s, s', t, s'.at[t]);
    }
  }

  lemma JoinCounts(s: Sys, s': Sys, t: Thread)
    requires Counted(s) && Found(s) && (Join(s, s', t) || First(s, s', t))
    ensures Counted(s') && Found(s')
  {
    KeepCounted(s, s', t, s'.at[t]);
  }

  lemma StartCounts(s: Sys, s': Sys, t: Thread)
    requires Counted(s) && Found(s) && StartRelease(s, s', t)
    ensures Counted(s') && Found(s')
  {
    KeepCounted(s, s', t, s.at[t].(stage := ReleaseWaits));
  }

  lemma ReturnCounts(s: Sys, s': Sys, t: Thread)
    requires Counted(s) && Found(s) && Return(s, s', t)
    ensures Counted(s') && Found(s')
  {
    KeepCounted(s, s', t, s.at[t].(stage := Holding));
  }

  lemma NoteCounts(s: Sys, s': Sys, t: Thread)
    requires Counted(s) && Found(s) && Note(s, s', t)
    ensures Counted(s') && Found(s')
  {
    KeepCounted(s, s', t, s.at[t].(stage := if s.at[t].stage == Placing then PlaceWaits else Placing));
  }

  lemma CloseCounts(s: Sys, s': Sys, t: Thread)
    requires Counted(s) && Found(s) && (TakePin(s, s', t) || Close(s, s', t))
    ensures Counted(s') && Found(s')
  {
    KeepCounted(s, s', t, s'.at[t]);
  }

  lemma EnterCounts(s: Sys, s': Sys, t: Thread, k: Key)
    requires Counted(s) && Found(s) && Enter(s, s', t, k)
    ensures Counted(s') && Found(s')
  {
    KeepCounted(s, s', t, At(AcquireWaits, k, 0));
  }

  lemma UsersMore(s: Sys, s': Sys, t: Thread, b: At, p: Pin, q: Pin)
    requires s'.at == s.at[t := b] && t in s.at && !Links(s.at[t], q) && (Links(b, q) <==> q == p)
    ensures |Users(s', q)| == |Users(s, q)| + if q == p then 1 else 0
  {
    UsersMove(s, s', t, b, q);
    assert t !in Users(s, q);
    if q != p { assert Users(s', q) == Users(s, q); }
  }

  lemma LinkUsers(s: Sys, s': Sys, t: Thread, p: Pin, q: Pin)
    requires Counted(s) && (Link(s, s', t, p) || NewPin(s, s', t, p)) && q in s'.pins
    ensures s'.pins[q].links == |Users(s', q)|
  {
    UsersMore(s, s', t, At(PinWaits, s.at[t].key, p), p, q);
    if q !in s.pins { assert Users(s, q) == {}; }
  }

  lemma LinkKnown(s: Sys, s': Sys, t: Thread, p: Pin)
    requires Known(s) && (Link(s, s', t, p) || NewPin(s, s', t, p))
    ensures Known(s')
  {
    assert forall u, q :: u in s.at && Closing(s.at[u], q) ==> HoldsMu(s.at[u]);
  }

  lemma LinkCounts(s: Sys, s': Sys, t: Thread, p: Pin)
    requires Counted(s) && (Link(s, s', t, p) || NewPin(s, s', t, p))
    ensures Counted(s')
  {
    forall q | q in s'.pins ensures s'.pins[q].links == |Users(s', q)| { LinkUsers(s, s', t, p, q); }
    LinkKnown(s, s', t, p);
  }

  lemma LinkFound(s: Sys, s': Sys, t: Thread, p: Pin)
    requires Found(s) && (Link(s, s', t, p) || NewPin(s, s', t, p))
    ensures Found(s')
  {
  }

  lemma UsersLess(s: Sys, s': Sys, t: Thread, b: At, p: Pin, q: Pin)
    requires s'.at == s.at[t := b] && t in s.at && !Links(b, q) && (Links(s.at[t], q) <==> q == p)
    ensures |Users(s', q)| == |Users(s, q)| - if q == p then 1 else 0
  {
    UsersMove(s, s', t, b, q);
    if q != p {
      assert t !in Users(s, q);
      assert Users(s', q) == Users(s, q);
    }
  }

  lemma UnlinkUsers(s: Sys, s': Sys, t: Thread, q: Pin)
    requires Counted(s) && (Unlink(s, s', t) || UnlinkLast(s, s', t)) && q in s'.pins
    ensures s'.pins[q].links == |Users(s', q)|
  {
    UsersLess(s, s', t, s'.at[t], s.at[t].pin, q);
  }

  lemma UnlinkKnown(s: Sys, s': Sys, t: Thread)
    requires Known(s) && (Unlink(s, s', t) || UnlinkLast(s, s', t))
    ensures Known(s')
  {
    assert forall u, q :: u in s.at && Closing(s.at[u], q) ==> HoldsMu(s.at[u]);
  }

  lemma UnlinkCounts(s: Sys, s': Sys, t: Thread)
    requires Counted(s) && (Unlink(s, s', t) || UnlinkLast(s, s', t))
    ensures Counted(s')
  {
    forall q | q in s'.pins ensures s'.pins[q].links == |Users(s', q)| { UnlinkUsers(s, s', t, q); }
    UnlinkKnown(s, s', t);
  }

  lemma UnlinkFound(s: Sys, s': Sys, t: Thread)
    requires Found(s) && (Unlink(s, s', t) || UnlinkLast(s, s', t))
    ensures Found(s')
  {
  }

  lemma {:induction false} CountedStep(s: Sys, s': Sys, t: Thread)
    requires Counted(s) && Found(s) && Next(s, s', t)
    ensures Counted(s') && Found(s')
  {
    if k :| Enter(s, s', t, k) { EnterCounts(s, s', t, k); }
    else if p :| Link(s, s', t, p) || NewPin(s, s', t, p) { LinkCounts(s, s', t, p); LinkFound(s, s', t, p); }
    else if n :| Open(s, s', t, n) { assert s'.at == s.at[t := s.at[t]]; KeepCounted(s, s', t, s.at[t]); }
    else if Unlink(s, s', t) || UnlinkLast(s, s', t) { UnlinkCounts(s, s', t); UnlinkFound(s, s', t); }
    else if TakePin(s, s', t) || Close(s, s', t) { CloseCounts(s, s', t); }
    else if Join(s, s', t) || First(s, s', t) { JoinCounts(s, s', t); }
    else if StartRelease(s, s', t) { StartCounts(s, s', t); }
    else if Return(s, s', t) { ReturnCounts(s, s', t); }
    else { NoteCounts(s, s', t); }
  }

  lemma LinkPlaced(s: Sys, s': Sys, t: Thread, p: Pin)
    requires Known(s) && PlacedOnce(s) && (Link(s, s', t, p) || NewPin(s, s', t, p))
    ensures PlacedOnce(s')
  {
  }

  /** Nobody is in place, or returned from a pin, before its first acquire begins; and
      whoever is in place holds the pin's mutex. */
  lemma JoinPlaced(s: Sys, s': Sys, t: Thread)
    requires PlacedOnce(s) && Exclusive(s) && (Join(s, s', t) || First(s, s', t) || Return(s, s', t))
    ensures PlacedOnce(s')
  {
    var p := s.at[t].pin;
    assert s.at[t].stage == Placing ==> HoldsPin(s.at[t], p);
    assert forall u :: u in s.at && InPlace(s.at[u], p) ==> HoldsPin(s.at[u], p);
  }

  lemma QuietPlaced(s: Sys, s': Sys, t: Thread)
    requires PlacedOnce(s)
    requires Note(s, s', t) || StartRelease(s, s', t) || Unlink(s, s', t) || UnlinkLast(s, s', t)
             || TakePin(s, s', t) || Close(s, s', t)
    ensures PlacedOnce(s')
  {
    KeepPlaced(s, s', t, s'.at[t]);
  }

  lemma {:induction false} PlacedStep(s: Sys, s': Sys, t: Thread)
    requires PlacedOnce(s) && Exclusive(s) && Counted(s) && Next(s, s', t)
    ensures PlacedOnce(s')
  {
    if k :| Enter(s, s', t, k) { KeepPlaced(s, s', t, At(AcquireWaits, k, 0)); }
    else if p :| Link(s, s', t, p) || NewPin(s, s', t, p) { LinkPlaced(s, s', t, p); }
    else if Join(s, s', t) || First(s, s', t) || Return(s, s', t) { JoinPlaced(s, s', t); }
    else if n :| Open(s, s', t, n) { }
    else { QuietPlaced(s, s', t); }
  }

  /** The release closing a pin closes its files. */
  lemma CloseClosed(s: Sys, s': Sys, t: Thread)
    requires Closed(s) && Exclusive(s) && Close(s, s', t)
    ensures Closed(s')
  {
    assert HoldsMu(s.at[t]);
    assert forall u, p :: u in s.at && Closing(s.at[u], p) ==> HoldsMu(s.at[u]);
  }

  lemma OpenClosed(s: Sys, s': Sys, t: Thread, n: nat)
    requires Closed(s) && Counted(s) && Open(s, s', t, n)
    ensures Closed(s')
  {
    Linked(s, t, s.at[t].pin);
    assert s'.at == s.at[t := s.at[t]];
    KeepClosed(s, s', t, s.at[t]);
  }

  lemma QuietClosed(s: Sys, s': Sys, t: Thread)
    requires Closed(s)
    requires Join(s, s', t) || First(s, s', t) || Note(s, s', t) || Return(s, s', t) || StartRelease(s, s', t) || TakePin(s, s', t)
    ensures Closed(s')
  {
    KeepClosed(s, s', t, s'.at[t]);
  }

  lemma UnlinkClosed(s: Sys, s': Sys, t: Thread)
    requires Closed(s) && (Unlink(s, s', t) || UnlinkLast(s, s', t))
    ensures Closed(s')
  {
    KeepClosed(s, s', t, s'.at[t]);
  }

  lemma {:induction false} ClosedStep(s: Sys, s': Sys, t: Thread)
    requires Closed(s) && Exclusive(s) && Counted(s) && Next(s, s', t)
    ensures Closed(s')
  {
    if Close(s, s', t) { CloseClosed(s, s', t); }
    else if k :| Enter(s, s', t, k) { KeepClosed(s, s', t, At(AcquireWaits, k, 0)); }
    else if p :| Link(s, s', t, p) || NewPin(s, s', t, p) { KeepClosed(s, s', t, At(PinWaits, s.at[t].key, p)); }
    else if n :| Open(s, s', t, n) { OpenClosed(s, s', t, n); }
    else if Unlink(s, s', t) || UnlinkLast(s, s', t) { UnlinkClosed(s, s', t); }
    else { QuietClosed(s, s', t); }
  }

  lemma {:induction false} NextInv(s: Sys, s': Sys, t: Thread)
    requires Inv(s) && Next(s, s', t)
    ensures Inv(s')
  {
    ExclusiveStep(s, s', t);
    CountedStep(s, s', t);
    PlacedStep(s, s', t);
    ClosedStep(s, s', t);
  }

  // ---------------------------------------------------------- every run

  ghost predicate Run(run: seq<Sys>, who: seq<Thread>) {
    && |run| == |who| + 1 && run[0] == Sys(map[], map[], map[])
    && forall k :: 0 <= k < |who| ==> Next(run[k], run[k + 1], who[k])
  }

  lemma {:induction false} RunInv(run: seq<Sys>, who: seq<Thread>, k: nat)
    requires Run(run, who) && k < |run|
    ensures Inv(run[k])
  {
    if k > 0 {
      RunInv(run, who, k - 1);
      NextInv(run[k - 1], run[k], who[k - 1]);
    }
  }

  /** In every run a pin's links are the acquires not yet released, place ran at most
      once, and once they are all released, and the last release has closed, no file of
      the pin is open. */
  lemma {:induction false} LinksTrue(run: seq<Sys>, who: seq<Thread>, k: nat, p: Pin)
    requires Run(run, who) && k < |run| && p in run[k].pins
    ensures run[k].pins[p].links == |Users(run[k], p)| && run[k].pins[p].placed <= 1
    ensures Users(run[k], p) == {} && (forall t :: t in run[k].at ==> !Closing(run[k].at[t], p)) ==> run[k].pins[p].open == 0
  {
    RunInv(run, who, k);
  }

  /** Only place and the last release open or close a pin's files. */
  lemma OpenChanges(s: Sys, s': Sys, t: Thread, p: Pin)
    requires Next(s, s', t) && p in s.pins
    ensures p in s'.pins
    ensures s'.pins[p].open != s.pins[p].open ==> t in s.at && (InPlace(s.at[t], p) || Closing(s.at[t], p))
  {
  }

  lemma OpenKept(s: Sys, s': Sys, t: Thread, u: Thread, p: Pin)
    requires Inv(s) && Next(s, s', t) && u in s.at && Returned(s.at[u], p)
    ensures p in s.pins && p in s'.pins && s'.pins[p].open == s.pins[p].open
  {
    Linked(s, u, p);
    OpenChanges(s, s', t, p);
  }

  /** In every run, from an acquire's return until its release ends the count, no step
      opens or closes a file of the pin. */
  lemma {:induction false} HoldsKept(run: seq<Sys>, who: seq<Thread>, k: nat, u: Thread, p: Pin)
    requires Run(run, who) && k < |who| && u in run[k].at && Returned(run[k].at[u], p)
    ensures p in run[k].pins && p in run[k + 1].pins && run[k + 1].pins[p].open == run[k].pins[p].open
  {
    RunInv(run, who, k);
    OpenKept(run[k], run[k + 1], who[k], u, p);
  }

  /** When a last release takes a pin's mutex inside the Placer's, no other thread holds
      it or waits for it. */
  lemma {:induction false} LastIsAlone(s: Sys, t: Thread, u: Thread)
    requires Inv(s) && Is(s, t, LastWaits) && u in s.at && u != t
    ensures var p := s.at[t].pin; !HoldsPin(s.at[u], p) && !(s.at[u].stage == PinWaits && s.at[u].pin == p)
  {
    var p := s.at[t].pin;
    assert Closing(s.at[t], p);
    if Links(s.at[u], p) { Linked(s, u, p); }
  }

  lemma Fresh(ks: set<nat>) returns (p: nat)
    ensures forall k :: k in ks ==> k < p
  {
    if ks == {} {
      p := 0;
    } else {
      var k :| k in ks;
      p := Fresh(ks - {k});
      assert ks == (ks - {k}) + {k};
      p := if p <= k then k + 1 else p;
    }
  }

  /** A thread inside Acquire or release. */
  ghost predicate Busy(s: Sys, t: Thread) {
    t in s.at && s.at[t].stage != Out && s.at[t].stage != Holding
  }

  ghost predicate CanStep(s: Sys) {
    exists t, s' :: Busy(s, t) && Next(s, s', t)
  }

  lemma Steps(s: Sys, s': Sys, t: Thread)
    requires Busy(s, t) && Next(s, s', t)
    ensures CanStep(s)
  {
  }

  /** The thread in a last release goes on: nobody is in its way. */
  lemma LastSteps(s: Sys, t: Thread)
    requires Inv(s) && t in s.at && HoldsMu(s.at[t])
    ensures CanStep(s)
  {
    var p := s.at[t].pin;
    assert Closing(s.at[t], p);
    if s.at[t].stage == LastWaits {
      forall u | u in s.at ensures !HoldsPin(s.at[u], p) { if u != t { LastIsAlone(s, t, u); } }
      var s' := Go(s, t, s.at[t].(stage := LastCloses));
      assert TakePin(s, s', t);
      Steps(s, s', t);
    } else {
      var s' := SetPin(Go(s, t, At(Out, 0, 0)), p, s.pins[p].(open := 0));
      assert Close(s, s', t);
      Steps(s, s', t);
    }
  }

  /** With the Placer's mutex free, a thread in place goes on. */
  lemma PlaceSteps(s: Sys, t: Thread, p: Pin)
    requires MuFree(s) && t in s.at && InPlace(s.at[t], p)
    ensures CanStep(s)
  {
    if s.at[t].stage == Placing {
      Steps(s, Go(s, t, s.at[t].(stage := Holding)), t);
    } else {
      Steps(s, Go(s, t, s.at[t].(stage := Placing)), t);
    }
  }

  lemma AcquireSteps(s: Sys, t: Thread)
    requires Found(s) && MuFree(s) && Is(s, t, AcquireWaits)
    ensures CanStep(s)
  {
    var k := s.at[t].key;
    if k in s.flows {
      var p := s.flows[k];
      var s' := SetPin(Go(s, t, At(PinWaits, k, p)), p, s.pins[p].(links := s.pins[p].links + 1));
      assert Link(s, s', t, p);
      Steps(s, s', t);
    } else {
      var p := Fresh(s.pins.Keys);
      var s' := SetPin(Go(s, t, At(PinWaits, k, p)), p, PinState(k, 1, false, 0, 0)).(flows := s.flows[k := p]);
      assert NewPin(s, s', t, p);
      Steps(s, s', t);
    }
  }

  lemma PinSteps(s: Sys, t: Thread)
    requires Counted(s) && MuFree(s) && Is(s, t, PinWaits)
    ensures CanStep(s)
  {
    var p := s.at[t].pin;
    Linked(s, t, p);
    if u :| u in s.at && HoldsPin(s.at[u], p) {
      PlaceSteps(s, u, p);
    } else if s.pins[p].done {
      Steps(s, Go(s, t, s.at[t].(stage := Holding)), t);
    } else {
      var s' := SetPin(Go(s, t, s.at[t].(stage := Placing)), p, s.pins[p].(done := true, placed := s.pins[p].placed + 1));
      assert First(s, s', t);
      Steps(s, s', t);
    }
  }

  lemma ReleaseSteps(s: Sys, t: Thread)
    requires Counted(s) && MuFree(s) && Is(s, t, ReleaseWaits)
    ensures CanStep(s)
  {
    var p := s.at[t].pin;
    Linked(s, t, p);
    if s.pins[p].links > 1 {
      var s' := SetPin(Go(s, t, At(Out, 0, 0)), p, s.pins[p].(links := s.pins[p].links - 1));
      assert Unlink(s, s', t);
      Steps(s, s', t);
    } else {
      var s' := SetPin(Go(s, t, s.at[t].(stage := LastWaits)), p, s.pins[p].(links := 0)).(flows := s.flows - {s.pins[p].key});
      assert UnlinkLast(s, s', t);
      Steps(s, s', t);
    }
  }

  /** The two lock orders cannot deadlock: in every state of every run, while any thread
      is inside Acquire or release, one of them can take its next step. */
  lemma {:induction false} NoDeadlock(run: seq<Sys>, who: seq<Thread>, k: nat, t: Thread)
    requires Run(run, who) && k < |run| && Busy(run[k], t)
    ensures CanStep(run[k])
  {
    RunInv(run, who, k);
    var s := run[k];
    if u :| u in s.at && HoldsMu(s.at[u]) {
      LastSteps(s, u);
    } else if Is(s, t, AcquireWaits) {
      AcquireSteps(s, t);
    } else if Is(s, t, PinWaits) {
      PinSteps(s, t);
    } else if Is(s, t, ReleaseWaits) {
      ReleaseSteps(s, t);
    } else {
      PlaceSteps(s, t, s.at[t].pin);
    }
  }
}
