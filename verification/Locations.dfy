/** A flow's status.locations as agent/internal/flowpublisher/publisher.go edits it: the
    agents of all nodes, any number of calls at once, read the one list, edit a copy and
    write it back under the API server's version check, beside the operator's prune of
    departed nodes and every other writer of the object. */
module Locations {
  import opened Common

  type Node = nat
  type Time = int

  datatype Phase = Origin | Mirroring | Ready | Stale

  datatype Location = Location(node: Node, phase: Phase, observed: Option<Time>, appeared: Option<Time>)

  // ------------------------------------------------------- one edit of the list

  /** The first entry of the node from `i` on, or the length. */
  function Find(locs: seq<Location>, n: Node, i: nat := 0): (r: nat)
    requires i <= |locs|
    ensures i <= r <= |locs|
    ensures r < |locs| ==> locs[r].node == n
    ensures forall j :: i <= j < r ==> locs[j].node != n
    decreases |locs| - i
  {
    if i == |locs| || locs[i].node == n then i else Find(locs, n, i + 1)
  }

  function EntryOf(locs: seq<Location>, n: Node): Option<Location> {
    var i := Find(locs, n);
    if i < |locs| then Some(locs[i]) else None
  }

  /** The node's entry after an upsert: an inferred Ready never takes an observed Origin
      back, and Stale forgets the appearance. */
  function Stamp(e: Location, phase: Phase, observed: Option<Time>, appeared: Option<Time>): Location {
    Location(e.node, if phase == Ready && e.phase == Origin then Origin else phase, observed,
             if phase == Stale then None else if appeared.Some? then appeared else e.appeared)
  }

  /** The list an upsert writes, or none when it writes nothing. */
  function Upserted(locs: seq<Location>, n: Node, phase: Phase, observed: Option<Time>, appeared: Option<Time>): Option<seq<Location>> {
    var i := Find(locs, n);
    if i < |locs| then Some(locs[i := Stamp(locs[i], phase, observed, appeared)])
    else if phase == Stale then None
    else Some(locs + [Location(n, phase, observed, appeared)])
  }

  function Refreshed(locs: seq<Location>, n: Node, now: Time): Option<seq<Location>> {
    var i := Find(locs, n);
    if i < |locs| && locs[i].phase != Stale then Some(locs[i := locs[i].(observed := Some(now))]) else None
  }

  /** The operator's keepPresent. */
  function Kept(locs: seq<Location>, departed: set<Node>): seq<Location> {
    if locs == [] then []
    else if locs[0].node in departed then Kept(locs[1..], departed)
    else [locs[0]] + Kept(locs[1..], departed)
  }

  lemma SameFind(a: seq<Location>, b: seq<Location>, m: Node, i: nat := 0)
    requires |a| == |b| && i <= |a|
    requires forall j :: 0 <= j < |a| ==> a[j].node == b[j].node
    ensures Find(a, m, i) == Find(b, m, i)
    decreases |a| - i
  {
    if i < |a| { SameFind(a, b, m, i + 1); }
  }

  lemma AddedFind(a: seq<Location>, e: Location, m: Node, i: nat := 0)
    requires i <= |a|
    ensures Find(a + [e], m, i) ==
            if Find(a, m, i) < |a| then Find(a, m, i) else if e.node == m then |a| else |a| + 1
    decreases |a| - i
  {
    if i < |a| { AddedFind(a, e, m, i + 1); }
  }

  /** The copy of the object a call has read. */
  class Copy {
    var locations: seq<Location>

    constructor (read: seq<Location>)
      ensures locations == read
    {
      locations := read;
    }

    /** The edit of upsertLocation; `update` is whether it goes on to write. */
    method Upsert(n: Node, phase: Phase, observed: Option<Time>, appeared: Option<Time>)
      returns (written: Option<Phase>, update: bool)
      modifies this
      ensures var up := old(Upserted(locations, n, phase, observed, appeared));
              update == up.Some? && locations == if update then up.value else old(locations)
      ensures if update then EntryOf(locations, n).Some? && written == Some(EntryOf(locations, n).value.phase) else written == None
    {
      written := Some(phase);
      var found := false;
      for i := 0 to |locations|
        invariant locations == old(locations) && !found && written == Some(phase)
        invariant Find(locations, n) == Find(locations, n, i)
      {
        if locations[i].node == n {
          var l := locations[i];
          if phase == Ready && l.phase == Origin {
            written := Some(Origin);
          } else {
            l := l.(phase := phase);
          }
          l := l.(observed := observed);
          if phase == Stale {
            l := l.(appeared := None);
          } else if appeared.Some? {
            l := l.(appeared := appeared);
          }
          locations := locations[i := l];
          found := true;
          assert Find(old(locations), n) == i;
          SameFind(old(locations), locations, n);
          break;
        }
      }
      if !found {
        if phase == Stale {
          return None, false;
        }
        locations := locations + [Location(n, phase, observed, appeared)];
        AddedFind(old(locations), Location(n, phase, observed, appeared), n);
      }
      update := true;
    }

    /** The edit of refreshLocalObservations. */
    method Refresh(n: Node, now: Time) returns (update: bool)
      modifies this
      ensures var up := old(Refreshed(locations, n, now));
              update == up.Some? && locations == if update then up.value else old(locations)
    {
      for i := 0 to |locations|
        invariant locations == old(locations)
        invariant Find(locations, n) == Find(locations, n, i)
      {
        if locations[i].node != n { continue; }
        if locations[i].phase == Stale { return false; }
        locations := locations[i := locations[i].(observed := Some(now))];
        return true;
      }
      return false;
    }

    /** ClaimOrigin's look at what it read: it goes on to upsert Origin unless an entry
        of the node already says so. */
    method Claims(n: Node) returns (claim: bool)
      ensures claim <==> forall l :: l in locations ==> !(l.node == n && l.phase == Origin)
    {
      for i := 0 to |locations|
        invariant forall j :: 0 <= j < i ==> !(locations[j].node == n && locations[j].phase == Origin)
      {
        if locations[i].node == n && locations[i].phase == Origin { return false; }
      }
      return true;
    }
  }

  // ---------------------------------------------------- a node's entry by itself

  /** What an agent's call asks: an appearance seen, a directory gone, or a copy still
      here. Every appearance is stamped, and no vanish is. */
  datatype Op = Appear(origin: bool, now: Time) | Vanish | Observe(now: Time)

  function Applied(locs: seq<Location>, n: Node, op: Op): Option<seq<Location>> {
    match op
    case Appear(origin, now) => Upserted(locs, n, if origin then Origin else Ready, Some(now), Some(now))
    case Vanish => Upserted(locs, n, Stale, None, None)
    case Observe(now) => Refreshed(locs, n, now)
  }

  /** The node's entry alone, without a list and without other nodes. */
  function Own(e: Option<Location>, n: Node, op: Op): Option<Location> {
    match op
    case Appear(origin, now) =>
      Some(Location(n, if origin || (e.Some? && e.value.phase == Origin) then Origin else Ready, Some(now), Some(now)))
    case Vanish => if e.Some? then Some(Location(n, Stale, None, None)) else None
    case Observe(now) => if e.Some? && e.value.phase != Stale then Some(e.value.(observed := Some(now))) else e
  }

  /** What changed the object: a call of a node's agent, the operator's prune, a new
      object, the object's deletion, or a writer of something else in it. */
  datatype Event = By(node: Node, op: Op) | Pruned(departed: set<Node>) | Created | Deleted | Other

  function OwnStep(e: Option<Location>, n: Node, ev: Event): Option<Location> {
    match ev
    case By(m, op) => if m == n then Own(e, n, op) else e
    case Pruned(departed) => if n in departed then None else e
    case Created => None
    case Deleted => None
    case Other => e
  }

  /** A node's entry as its own events alone make it. */
  function OwnEntry(log: seq<Event>, n: Node): Option<Location> {
    if log == [] then None else OwnStep(OwnEntry(log[..|log| - 1], n), n, log[|log| - 1])
  }

  // ------------------------------------------------------------------ every run

  type Object = Option<seq<Location>>

  /** A call that has read version `version` of the object, and will write what it makes
      of that copy. */
  datatype Call = Call(event: Event, version: nat, copy: seq<Location>)

  /** `versions` is everything the API server ever stored, the last the one it stores,
      and a position in it a resource version. The log says, for the proof alone, what
      made each version of the one before. */
  datatype Sys = Sys(versions: seq<Object>, log: seq<Event>, calls: map<nat, Call>)

  function Latest(s: Sys): Object
    requires |s.versions| > 0
  {
    s.versions[|s.versions| - 1]
  }

  /** What the call writes, or none when it writes nothing. */
  function Edit(c: Call): Option<seq<Location>> {
    match c.event
    case By(n, op) => Applied(c.copy, n, op)
    case Pruned(departed) => Some(Kept(c.copy, departed))
    case _ => None
  }

  /** A call reads the object as it is, or, from a cache, as it once was. */
  ghost predicate Get(s: Sys, s': Sys, t: nat, v: nat, ev: Event) {
    && v < |s.versions| && s.versions[v].Some? && (ev.By? || ev.Pruned?)
    && s' == s.(calls := s.calls[t := Call(ev, v, s.versions[v].value)])
  }

  /** The server takes the write of the version it stores, and refuses any other. A
      refused call reads again, or gives up. */
  ghost predicate Put(s: Sys, s': Sys, t: nat) {
    && t in s.calls && |s.versions| > 0
    && var c := s.calls[t]; var rest := s.(calls := s.calls - {t});
       if c.version == |s.versions| - 1 && Edit(c).Some? then
         s' == rest.(versions := s.versions + [Some(Edit(c).value)], log := s.log + [c.event])
       else s' == rest
  }

  ghost predicate Elsewhere(s: Sys, s': Sys, ev: Event) {
    && |s.versions| > 0
    && (if ev == Created then Latest(s).None? else (ev == Deleted || ev == Other) && Latest(s).Some?)
    && s' == s.(log := s.log + [ev],
                versions := s.versions + [if ev == Created then Some([]) else if ev == Deleted then None else Latest(s)])
  }

  ghost predicate Next(s: Sys, s': Sys) {
    || (exists t, v, ev :: Get(s, s', t, v, ev))
    || (exists t :: Put(s, s', t))
    || (exists ev :: Elsewhere(s, s', ev))
  }

  ghost predicate Run(run: seq<Sys>) {
    && |run| > 0 && run[0] == Sys([None], [], map[])
    && forall k :: 0 <= k < |run| - 1 ==> Next(run[k], run[k + 1])
  }

  // ---------------------------------------------------------------- invariants

  ghost predicate OneEach(locs: seq<Location>) {
    forall i, j :: 0 <= i < j < |locs| ==> locs[i].node != locs[j].node
  }

  /** An entry says when it appeared exactly when it is not Stale. */
  ghost predicate Stamped(locs: seq<Location>) {
    forall i :: 0 <= i < |locs| ==> (locs[i].appeared.Some? <==> locs[i].phase != Stale)
  }

  ghost predicate Sound(o: Object) {
    o.Some? ==> OneEach(o.value) && Stamped(o.value)
  }

  function ObjectEntry(o: Object, n: Node): Option<Location> {
    if o.Some? then EntryOf(o.value, n) else None
  }

  /** One change of the object, atomically, on what it was. */
  function Effect(o: Object, ev: Event): Object {
    match ev
    case By(n, op) => if o.Some? && Applied(o.value, n, op).Some? then Applied(o.value, n, op) else o
    case Pruned(departed) => if o.Some? then Some(Kept(o.value, departed)) else o
    case Created => Some([])
    case Deleted => None
    case Other => o
  }

  predicate Made(o: Object, ev: Event, o': Object) {
    o' == Effect(o, ev) && (o.Some? || ev == Created)
  }

  /** A copy is what was stored at its version, and every version is one change, made
      atomically, of the version before. */
  ghost predicate Inv(s: Sys) {
    && |s.versions| == |s.log| + 1 && s.versions[0] == None
    && (forall t :: t in s.calls ==> var c := s.calls[t];
         c.version < |s.versions| && s.versions[c.version] == Some(c.copy) && (c.event.By? || c.event.Pruned?))
    && (forall i :: 0 <= i < |s.log| ==> Made(s.versions[i], s.log[i], s.versions[i + 1]))
  }

  /** An edit of one entry leaves every other node's alone. */
  lemma EditedEntry(locs: seq<Location>, i: nat, e: Location, n: Node, m: Node)
    requires i == Find(locs, n) < |locs| && e.node == n
    ensures EntryOf(locs[i := e], m) == if m == n then Some(e) else EntryOf(locs, m)
  {
    SameFind(locs, locs[i := e], m);
  }

  lemma AppliedEntry(locs: seq<Location>, n: Node, op: Op, m: Node)
    requires Stamped(locs)
    ensures var up := Applied(locs, n, op);
            (if up.Some? then EntryOf(up.value, m) else EntryOf(locs, m)) ==
            if m == n then Own(EntryOf(locs, n), n, op) else EntryOf(locs, m)
  {
    var up := Applied(locs, n, op);
    var i := Find(locs, n);
    if i < |locs| {
      if up.Some? { EditedEntry(locs, i, up.value[i], n, m); }
    } else if up.Some? {
      AddedFind(locs, up.value[|locs|], m);
    }
  }

  lemma ShiftFind(e: Location, rest: seq<Location>, m: Node, i: nat)
    requires i <= |rest|
    ensures Find([e] + rest, m, i + 1) == Find(rest, m, i) + 1
    decreases |rest| - i
  {
    if i < |rest| { ShiftFind(e, rest, m, i + 1); }
  }

  lemma HeadEntry(e: Location, rest: seq<Location>, m: Node)
    ensures EntryOf([e] + rest, m) == if e.node == m then Some(e) else EntryOf(rest, m)
  {
    ShiftFind(e, rest, m, 0);
  }

  lemma {:induction false} KeptEntry(locs: seq<Location>, departed: set<Node>, m: Node)
    ensures EntryOf(Kept(locs, departed), m) == if m in departed then None else EntryOf(locs, m)
  {
    if locs != [] {
      var rest := locs[1..];
      KeptEntry(rest, departed, m);
      HeadEntry(locs[0], rest, m);
      HeadEntry(locs[0], Kept(rest, departed), m);
      assert locs == [locs[0]] + rest;
    }
  }

  lemma {:induction false} KeptSubset(locs: seq<Location>, departed: set<Node>, e: Location)
    requires e in Kept(locs, departed)
    ensures e in locs
  {
    if locs[0].node in departed || e != locs[0] { KeptSubset(locs[1..], departed, e); }
  }

  lemma {:induction false} KeptSound(locs: seq<Location>, departed: set<Node>)
    requires OneEach(locs) && Stamped(locs)
    ensures OneEach(Kept(locs, departed)) && Stamped(Kept(locs, departed))
  {
    if locs != [] {
      var rest := Kept(locs[1..], departed);
      KeptSound(locs[1..], departed);
      forall i | 0 <= i < |rest| ensures rest[i].node != locs[0].node {
        KeptSubset(locs[1..], departed, rest[i]);
      }
    }
  }

  lemma EffectSound(o: Object, ev: Event)
    requires Sound(o)
    ensures Sound(Effect(o, ev))
  {
    if o.Some? && ev.Pruned? { KeptSound(o.value, ev.departed); }
  }

  lemma EffectOwn(o: Object, ev: Event, n: Node)
    requires Sound(o) && (ev.By? || ev.Pruned? || ev.Other? ==> o.Some?)
    ensures ObjectEntry(Effect(o, ev), n) == OwnStep(ObjectEntry(o, n), n, ev)
  {
    if ev.By? {
      AppliedEntry(o.value, ev.node, ev.op, n);
    } else if ev.Pruned? {
      KeptEntry(o.value, ev.departed, n);
    }
  }

  lemma Grows(s: Sys, s': Sys, ev: Event)
    requires Inv(s) && |s'.versions| == |s.versions| + 1 && s'.versions[..|s.versions|] == s.versions
    requires s'.log == s.log + [ev] && Made(Latest(s), ev, Latest(s'))
    requires s'.calls.Keys <= s.calls.Keys && forall t :: t in s'.calls ==> s'.calls[t] == s.calls[t]
    ensures Inv(s')
  {
    assert forall i :: 0 <= i < |s.versions| ==> s'.versions[i] == s.versions[i];
  }

  /** The version check: what is written was made of what is stored. */
  lemma PutInv(s: Sys, s': Sys, t: nat)
    requires Inv(s) && Put(s, s', t)
    ensures Inv(s')
  {
    if |s'.versions| > |s.versions| { Grows(s, s', s.calls[t].event); }
  }

  lemma NextInv(s: Sys, s': Sys)
    requires Inv(s) && Next(s, s')
    ensures Inv(s')
  {
    if t :| Put(s, s', t) {
      PutInv(s, s', t);
    } else if ev :| Elsewhere(s, s', ev) {
      Grows(s, s', ev);
    }
  }

  lemma {:induction false} RunInv(run: seq<Sys>, k: nat)
    requires Run(run) && k < |run|
    ensures Inv(run[k])
  {
    if k > 0 {
      RunInv(run, k - 1);
      NextInv(run[k - 1], run[k]);
    }
  }

  /** In every run, what the server stores is its log of changes applied one after the
      other: no call's write is lost, and none brings back what another replaced. */
  lemma {:induction false} WritesAtomic(run: seq<Sys>, k: nat, i: nat)
    requires Run(run) && k < |run| && i < |run[k].log|
    ensures |run[k].versions| == |run[k].log| + 1
    ensures run[k].versions[i + 1] == Effect(run[k].versions[i], run[k].log[i])
  {
    RunInv(run, k);
  }

  lemma {:induction false} VersionSound(s: Sys, i: nat)
    requires Inv(s) && i < |s.versions|
    ensures Sound(s.versions[i])
  {
    if i > 0 {
      VersionSound(s, i - 1);
      EffectSound(s.versions[i - 1], s.log[i - 1]);
      assert Made(s.versions[i - 1], s.log[i - 1], s.versions[i]);
    }
  }

  /** In every version of every run a node has at most one entry, and an entry says when
      it appeared exactly when it is not Stale. */
  lemma {:induction false} OneEntryPerNode(run: seq<Sys>, k: nat, i: nat)
    requires Run(run) && k < |run| && i < |run[k].versions| && run[k].versions[i].Some?
    ensures OneEach(run[k].versions[i].value) && Stamped(run[k].versions[i].value)
  {
    RunInv(run, k);
    VersionSound(run[k], i);
  }

  lemma {:induction false} VersionOwn(s: Sys, i: nat, n: Node)
    requires Inv(s) && i < |s.versions|
    ensures ObjectEntry(s.versions[i], n) == OwnEntry(s.log[..i], n)
  {
    if i > 0 {
      VersionOwn(s, i - 1, n);
      VersionSound(s, i - 1);
      assert Made(s.versions[i - 1], s.log[i - 1], s.versions[i]);
      EffectOwn(s.versions[i - 1], s.log[i - 1], n);
      assert s.log[..i][..i - 1] == s.log[..i - 1];
    }
  }

  /** In every run, every node's entry is what that node's own calls made it, in the
      order they were written, whatever other agents wrote in between: as if each node
      had the object to itself. */
  lemma {:induction false} EntryIsOwn(run: seq<Sys>, k: nat, i: nat, n: Node)
    requires Run(run) && k < |run| && i < |run[k].versions|
    ensures i <= |run[k].log| && ObjectEntry(run[k].versions[i], n) == OwnEntry(run[k].log[..i], n)
  {
    RunInv(run, k);
    VersionOwn(run[k], i, n);
  }

  ghost predicate AtOrigin(e: Option<Location>) { e.Some? && e.value.phase == Origin }

  /** What takes the node's entry away from Origin: its own agent's vanish, the
      operator's prune of the node, or the object's own end. */
  ghost predicate Leaves(ev: Event, n: Node) {
    ev == By(n, Vanish) || (ev.Pruned? && n in ev.departed) || ev == Created || ev == Deleted
  }

  /** Origin is left only through Stale, while the object and the node last; and an
      Origin is there only because the node's agent claimed it. */
  lemma {:induction false} OriginLeft(run: seq<Sys>, k: nat, i: nat, n: Node)
    requires Run(run) && k < |run| && i < |run[k].log|
    ensures |run[k].versions| == |run[k].log| + 1
    ensures var ev := run[k].log[i]; var e, e' := ObjectEntry(run[k].versions[i], n), ObjectEntry(run[k].versions[i + 1], n);
            && (AtOrigin(e) ==> (AtOrigin(e') <==> !Leaves(ev, n)))
            && (AtOrigin(e) && ev == By(n, Vanish) ==> e' == Some(Location(n, Stale, None, None)))
            && (!AtOrigin(e) && AtOrigin(e') ==> ev.By? && ev.node == n && ev.op.Appear? && ev.op.origin)
            && (e.Some? && e'.Some? && e.value.appeared != e'.value.appeared ==> ev.By? && ev.node == n && !ev.op.Observe?)
  {
    RunInv(run, k);
    var s := run[k];
    VersionSound(s, i);
    assert Made(s.versions[i], s.log[i], s.versions[i + 1]);
    EffectOwn(s.versions[i], s.log[i], n);
  }

  /** A claim of Origin holds through any number of other agents' writes, and of the
      node's own Ready inferences and observations, until something leaves it. */
  lemma {:induction false} OriginKept(run: seq<Sys>, k: nat, i: nat, j: nat, n: Node, now: Time)
    requires Run(run) && k < |run| && i < j <= |run[k].log| && run[k].log[i] == By(n, Appear(true, now))
    requires forall x :: i < x < j ==> !Leaves(run[k].log[x], n)
    ensures j < |run[k].versions| && AtOrigin(ObjectEntry(run[k].versions[j], n))
  {
    RunInv(run, k);
    if j == i + 1 {
      var s := run[k];
      VersionSound(s, i);
      assert Made(s.versions[i], s.log[i], s.versions[j]);
      EffectOwn(s.versions[i], s.log[i], n);
    } else {
      OriginKept(run, k, i, j - 1, n, now);
      OriginLeft(run, k, j - 1, n);
    }
  }
}
