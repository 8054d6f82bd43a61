/** The audio merge against what the members really committed and wrote, over every
    run (gateway/internal/merge/policy.go).

    The policy sees only one coverage entry per page slot. The first part shows that
    the entries are exactly what the set of committed samples says. The second lets
    members write ahead, commit, be replaced, and the engine pass, in any order, and
    shows every sample readers trust from silence or from a member that committed it
    and has not overwritten it. */
module AudioSafety {
  import opened Common
  import opened AudioPolicy
  import opened Ring

  // ------------------------------------------------------------- coverage

  predicate Between(lo: nat, s: nat, hi: nat) { lo <= s < hi }

  function Range(lo: nat, hi: nat): (r: set<nat>)
    ensures forall s: nat :: s in r <==> lo <= s < hi
  {
    set s: nat | lo <= s < hi && Between(lo, s, hi)
  }

  /** The committed samples of page `n` are exactly its samples below `to`. */
  ghost predicate Prefix(done: set<nat>, n: nat, to: nat) {
    forall s: nat :: n * PAGE <= s < (n + 1) * PAGE ==> (s in done <==> s < to)
  }

  /** What a slot's entry says of the samples committed since the ring was taken: the
      newest page of the slot any of them lies in, its gapless start, and whether
      anything follows a gap. */
  ghost predicate SlotOk(c: Config, e: Coverage, done: set<nat>, p: nat)
    requires c.Valid()
  {
    if !e.valid then forall s :: s in done ==> s / PAGE % c.pages != p
    else
      && e.n % c.pages == p
      && e.n * PAGE <= e.to <= (e.n + 1) * PAGE
      && (forall s :: s in done && s / PAGE % c.pages == p ==> s / PAGE <= e.n)
      && (exists s :: s in done && s / PAGE == e.n)
      && (forall s: nat :: e.n * PAGE <= s < e.to ==> s in done)
      && (!e.broken ==> Prefix(done, e.n, e.to))
      && (e.broken ==> e.to !in done && exists s :: s in done && e.to < s < (e.n + 1) * PAGE)
  }

  ghost predicate RingHolds(c: Config, ring: seq<Coverage>, done: set<nat>)
    requires c.Valid()
  {
    |ring| == c.pages && forall p :: 0 <= p < c.pages ==> SlotOk(c, ring[p], done, p)
  }

  /** An entry is unbroken exactly when the page's committed samples have no gap. */
  lemma UnbrokenIsGapless(c: Config, e: Coverage, done: set<nat>, p: nat)
    requires c.Valid() && SlotOk(c, e, done, p) && e.valid
    ensures !e.broken <==> exists to: nat :: Prefix(done, e.n, to)
    ensures forall to: nat | !e.broken && Prefix(done, e.n, to) && e.n * PAGE <= to <= (e.n + 1) * PAGE :: to == e.to
  {
    if e.broken {
      var s :| s in done && e.to < s < (e.n + 1) * PAGE;
      forall to: nat ensures !Prefix(done, e.n, to) {
        assert Prefix(done, e.n, to) ==> s < to;
        assert Prefix(done, e.n, to) ==> (e.to in done <==> e.to < to);
      }
    } else {
      forall to: nat | Prefix(done, e.n, to) && e.n * PAGE <= to <= (e.n + 1) * PAGE ensures to == e.to {
        assert to < e.to ==> (to in done <==> to < to);
        assert e.to < to ==> (e.to in done <==> e.to < e.to);
      }
    }
  }

  /** No committed sample is of a later page of page `n`'s slot. */
  ghost predicate Newest(c: Config, done: set<nat>, n: nat)
    requires c.Valid()
  {
    forall s :: s in done && s / PAGE % c.pages == n % c.pages ==> s / PAGE <= n
  }

  /** An entry holds page `n` past `h` exactly when `h` was committed, the page's committed
      samples have no gap, and no later page is in the slot. */
  lemma UptoMeans(c: Config, e: Coverage, done: set<nat>, n: nat, h: nat)
    requires c.Valid() && SlotOk(c, e, done, n % c.pages) && h / PAGE == n
    ensures Upto(e, n) > h <==> h in done && Newest(c, done, n) && exists to: nat :: Prefix(done, n, to)
  {
    if e.valid { UnbrokenIsGapless(c, e, done, n % c.pages); }
    if Upto(e, n) > h { assert Prefix(done, n, e.to); }
    if h in done && Newest(c, done, n) {
      var t: nat :| e.valid ==> t in done && t / PAGE == e.n;
      assert e.valid && e.n == n;
    }
  }

  /** An entry holds page `n` whole exactly when all of the page below the head was
      committed, and something of it was, without a gap, and no later page is in the slot. */
  lemma WholeMeans(c: Config, e: Coverage, done: set<nat>, n: nat, head: nat)
    requires c.Valid() && SlotOk(c, e, done, n % c.pages) && n * PAGE < head
    ensures Whole(e, n, head) <==>
              && (forall s: nat :: s / PAGE == n && s < head ==> s in done)
              && Newest(c, done, n) && exists to: nat :: Prefix(done, n, to)
  {
    if e.valid { UnbrokenIsGapless(c, e, done, n % c.pages); }
    if Whole(e, n, head) { assert Prefix(done, n, e.to); }
    if (forall s: nat :: s / PAGE == n && s < head ==> s in done) && Newest(c, done, n) && exists to: nat :: Prefix(done, n, to) {
      assert n * PAGE in done && (n * PAGE) / PAGE == n;
      var t: nat :| e.valid ==> t in done && t / PAGE == e.n;
      assert e.valid && e.n == n;
      assert e.to < (n + 1) * PAGE ==> e.to / PAGE == n && e.to !in done;
    }
  }

  /** A slot whose entry is of an older page, or of none, before page `n` enters it. */
  lemma FreshPage(c: Config, e: Coverage, done: set<nat>, n: nat, lo: nat, s: nat)
    requires c.Valid() && SlotOk(c, e, done, n % c.pages) && (!e.valid || e.n != n)
    requires forall t :: t in done ==> t < lo
    requires lo < (n + 1) * PAGE && s in done && s / PAGE % c.pages == n % c.pages
    ensures s / PAGE < n
  {
    if e.valid {
      var t :| t in done && t / PAGE == e.n;
      assert t < lo;
    }
  }

  /** A new page enters its slot. */
  lemma CommitNewPage(c: Config, e: Coverage, done: set<nat>, n: nat, lo: nat, hi: nat)
    requires c.Valid() && n * PAGE <= lo < hi <= (n + 1) * PAGE && (!e.valid || e.n != n)
    requires forall s :: s in done && s / PAGE % c.pages == n % c.pages ==> s / PAGE < n
    ensures SlotOk(c, CommitPage(e, n, lo, hi), done + Range(lo, hi), n % c.pages)
  {
    var all := done + Range(lo, hi);
    assert lo in all && lo / PAGE == n;
    assert forall s :: s in Range(lo, hi) ==> s / PAGE == n;
    assert forall s :: s in done ==> s / PAGE != n;
  }

  /** More of the page its slot is at. */
  lemma CommitSamePage(c: Config, e: Coverage, done: set<nat>, n: nat, lo: nat, hi: nat)
    requires c.Valid() && SlotOk(c, e, done, n % c.pages) && e.valid && e.n == n
    requires n * PAGE <= lo < hi <= (n + 1) * PAGE && forall s :: s in done ==> s < lo
    ensures SlotOk(c, CommitPage(e, n, lo, hi), done + Range(lo, hi), n % c.pages)
  {
    var f, all := CommitPage(e, n, lo, hi), done + Range(lo, hi);
    assert lo in all && lo / PAGE == n;
    assert forall s :: s in Range(lo, hi) ==> s / PAGE == n;
    assert e.to <= lo by {
      if e.to > n * PAGE { assert e.to - 1 in done; }
    }
    assert forall s :: s in all && s / PAGE % c.pages == n % c.pages ==> s / PAGE <= n;
  }

  /** One page's part of an ascending commit keeps its slot's entry exact. */
  lemma CommitPageExact(c: Config, e: Coverage, done: set<nat>, n: nat, lo: nat, hi: nat)
    requires c.Valid() && SlotOk(c, e, done, n % c.pages)
    requires n * PAGE <= lo < hi <= (n + 1) * PAGE
    requires forall s :: s in done ==> s < lo
    ensures SlotOk(c, CommitPage(e, n, lo, hi), done + Range(lo, hi), n % c.pages)
  {
    if e.valid && e.n == n {
      CommitSamePage(c, e, done, n, lo, hi);
    } else {
      forall s | s in done && s / PAGE % c.pages == n % c.pages ensures s / PAGE < n {
        FreshPage(c, e, done, n, lo, s);
      }
      CommitNewPage(c, e, done, n, lo, hi);
    }
  }

  lemma OtherSlotKept(c: Config, e: Coverage, done: set<nat>, p: nat, n: nat, lo: nat, hi: nat)
    requires c.Valid() && SlotOk(c, e, done, p) && p != n % c.pages
    requires n * PAGE <= lo <= hi <= (n + 1) * PAGE
    ensures SlotOk(c, e, done + Range(lo, hi), p)
  {
    assert forall s :: s in Range(lo, hi) ==> s / PAGE == n;
    if e.valid {
      assert e.n != n;
    }
  }

  lemma CommitRing(c: Config, ring: seq<Coverage>, done: set<nat>, n: nat, lo: nat, hi: nat)
    requires c.Valid() && RingHolds(c, ring, done)
    requires n * PAGE <= lo < hi <= (n + 1) * PAGE
    requires forall s :: s in done ==> s < lo
    ensures RingHolds(c, ring[n % c.pages := CommitPage(ring[n % c.pages], n, lo, hi)], done + Range(lo, hi))
  {
    CommitPageExact(c, ring[n % c.pages], done, n, lo, hi);
    forall q | 0 <= q < c.pages && q != n % c.pages ensures SlotOk(c, ring[q], done + Range(lo, hi), q) {
      OtherSlotKept(c, ring[q], done, q, n, lo, hi);
    }
  }

  /** The pages from `n` on of a commit that ends at `end`. */
  lemma {:induction false} CommitPagesExact(c: Config, ring: seq<Coverage>, done: set<nat>, start: nat, end: nat, n: nat)
    requires c.Valid() && start < end && start < (n + 1) * PAGE
    requires RingHolds(c, ring, done) && forall s :: s in done ==> s < Max(start, n * PAGE)
    ensures RingHolds(c, CommitPages(c, ring, start, end, n), done + Range(Max(start, n * PAGE), end))
    decreases end - n * PAGE
  {
    var lo, hi := Max(start, n * PAGE), Min(end, (n + 1) * PAGE);
    if lo < end {
      var ring' := ring[n % c.pages := CommitPage(ring[n % c.pages], n, lo, hi)];
      CommitRing(c, ring, done, n, lo, hi);
      CommitPagesExact(c, ring', done + Range(lo, hi), start, end, n + 1);
      assert done + Range(lo, hi) + Range(Max(start, (n + 1) * PAGE), end) == done + Range(lo, end);
    } else {
      assert done + Range(lo, end) == done;
    }
  }

  /** Recording an ascending commit, however long, keeps every entry of the member's
      ring exactly what its committed samples say. */
  lemma {:induction false} CommitExact(c: Config, a: Policy, m: nat, start: nat, end: nat, done: set<nat>)
    requires ValidPolicy(c, a) && m < c.members && start < end
    requires RingHolds(c, a.cov[m], done) && forall s :: s in done ==> s < start
    ensures RingHolds(c, Commit(c, a, m, start, end).cov[m], done + Range(start, end))
  {
    CommitPagesExact(c, a.cov[m], done, start, end, start / PAGE);
  }

  // ------------------------------------------------------- what is shown

  ghost predicate ValidWorld(c: Config, done: seq<set<nat>>, bounds: seq<nat>) {
    c.Valid() && |done| == |bounds| == c.members
  }

  /** Source `src` committed sample `s`, and writing up to its bound leaves it alone. */
  ghost predicate Holds(c: Config, done: seq<set<nat>>, bounds: seq<nat>, src: int, s: nat)
    requires ValidWorld(c, done, bounds)
  {
    src == c.members || (0 <= src < c.members && s in done[src] && bounds[src] <= s + c.Length())
  }

  ghost predicate Shows(c: Config, done: seq<set<nat>>, bounds: seq<nat>, current: seq<int>, lo: nat, hi: nat)
    requires ValidWorld(c, done, bounds) && |current| == c.pages
  {
    forall s: nat {:trigger Holds(c, done, bounds, current[s / PAGE % c.pages], s)} :: lo <= s < hi ==>
      Holds(c, done, bounds, current[s / PAGE % c.pages], s)
  }

  /** Bounds that promise nothing: what is shown was committed, if perhaps overwritten. */
  function NoBounds(c: Config): (r: seq<nat>)
    ensures |r| == c.members
  {
    seq(c.members, _ => 0)
  }

  /** Pointing page `n` at a source that holds its samples; the window spans less than
      a ring around it. */
  lemma Repoint(c: Config, done: seq<set<nat>>, bounds: seq<nat>, current: seq<int>, lo: nat, hi: nat, n: nat, src: int)
    requires ValidWorld(c, done, bounds) && |current| == c.pages
    requires forall s: nat :: lo <= s < hi && s / PAGE != n ==> Holds(c, done, bounds, current[s / PAGE % c.pages], s)
    requires forall s: nat :: lo <= s < hi && s / PAGE == n ==> Holds(c, done, bounds, src, s)
    requires n < lo / PAGE + c.pages && hi <= (n + c.pages) * PAGE
    ensures Shows(c, done, bounds, current[n % c.pages := src], lo, hi)
  {
    forall s: nat | lo <= s < hi ensures Holds(c, done, bounds, current[n % c.pages := src][s / PAGE % c.pages], s) {
      var k := s / PAGE;
      if k < n { OtherSlot(k, n, c.pages); } else if n < k { OtherSlot(n, k, c.pages); }
    }
  }

  /** Every member's entries are exact, and its commits are below its reported head. */
  ghost predicate Exact(c: Config, a: Policy, done: seq<set<nat>>) {
    && ValidPolicy(c, a) && |done| == c.members
    && (forall m :: 0 <= m < c.members ==> RingHolds(c, a.cov[m], done[m]))
    && (forall m, s :: 0 <= m < c.members && s in done[m] ==> s < a.evHead[m])
  }

  /** An unbroken entry of page `n` holds the page's samples up to where it reaches. */
  lemma EntryHolds(c: Config, a: Policy, done: seq<set<nat>>, m: nat, n: nat, s: nat)
    requires Exact(c, a, done) && m < c.members && s / PAGE == n
    requires s < Upto(a.cov[m][n % c.pages], n)
    ensures s in done[m]
  {
    assert SlotOk(c, a.cov[m][n % c.pages], done[m], n % c.pages);
  }

  // ----------------------------------------------------------------- Step

  /** A turn ends within the head's page, and its source committed the page up to there. */
  lemma TurnHolds(c: Config, a: Policy, done: seq<set<nat>>, now: int, lead: nat)
    requires Exact(c, a, done) && a.head < lead && LeadOk(c, a, lead)
    ensures var (turn, n) := (TakeTurn(c, a, now, lead).0, a.head / PAGE);
            turn.Advance? ==>
              && a.head < turn.upto <= (n + 1) * PAGE
              && forall s: nat :: s / PAGE == n && s < turn.upto ==> Holds(c, done, NoBounds(c), turn.source, s)
  {
    TurnAdvances(c, a, now, lead);
    var (turn, n) := (TakeTurn(c, a, now, lead).0, a.head / PAGE);
    if turn.Advance? && turn.source < c.members {
      assert CoverageOk(a.cov[turn.source][n % c.pages], a.evHead[turn.source]);
      forall s: nat | s / PAGE == n && s < turn.upto ensures s in done[turn.source] {
        EntryHolds(c, a, done, turn.source, n, s);
      }
    }
  }

  lemma ShowHas(c: Config, a: Policy, done: seq<set<nat>>, src: int, upto: nat)
    requires Exact(c, a, done) && 0 <= src <= c.members && a.head < upto <= (a.head / PAGE + 1) * PAGE
    requires Shows(c, done, NoBounds(c), a.current, Low(c, a.head), a.head)
    requires forall s: nat :: s / PAGE == a.head / PAGE && s < upto ==> Holds(c, done, NoBounds(c), src, s)
    ensures var b := Show(c, a, src, upto);
            Exact(c, b, done) && Shows(c, done, NoBounds(c), b.current, Low(c, b.head), b.head)
  {
    Repoint(c, done, NoBounds(c), a.current, Low(c, upto), upto, a.head / PAGE, src);
  }

  lemma {:induction false} StepHas(c: Config, a: Policy, done: seq<set<nat>>, now: int, lead: nat)
    requires Exact(c, a, done) && LeadOk(c, a, lead)
    requires Shows(c, done, NoBounds(c), a.current, Low(c, a.head), a.head)
    ensures var b := StepLoop(c, a, now, lead).policy;
            && a.head <= b.head && Exact(c, b, done)
            && b == a.(head := b.head, current := b.current, primary := b.primary,
                       waitingPage := b.waitingPage, waitingSince := b.waitingSince)
            && Shows(c, done, NoBounds(c), b.current, Low(c, b.head), b.head)
    decreases lead - a.head
  {
    if a.head < lead {
      TurnAdvances(c, a, now, lead);
      var (turn, w) := TakeTurn(c, a, now, lead);
      if turn.Advance? {
        TurnHolds(c, a, done, now, lead);
        ShowHas(c, w, done, turn.source, turn.upto);
        StepHas(c, Show(c, w, turn.source, turn.upto), done, now, lead);
      }
    }
  }

  // --------------------------------------------------------------- Retire

  /** Where Retire leaves page `n`. */
  function Kept(c: Config, a: Policy, bounds: seq<nat>, cur: int, n: nat): (r: int)
    requires ValidPolicy(c, a) && 0 <= cur <= c.members == |bounds|
    ensures 0 <= r <= c.members
  {
    var first := Max(Low(c, a.head), n * PAGE);
    if AtRisk(c, bounds, cur, first) then Heir(c, a.cov, a.head, bounds, cur, n, first, 0) else cur
  }

  /** Page `n`'s trusted samples are safe from its source there. */
  lemma KeptHolds(c: Config, a: Policy, done: seq<set<nat>>, current: seq<int>, bounds: seq<nat>, n: nat, s: nat)
    requires Exact(c, a, done) && Sources(c, current) && |bounds| == c.members
    requires Shows(c, done, NoBounds(c), current, Low(c, a.head), a.head)
    requires Low(c, a.head) <= s < a.head && s / PAGE == n
    ensures var to := Kept(c, a, bounds, current[n % c.pages], n);
            Holds(c, done, bounds, to, s) && Holds(c, done, NoBounds(c), to, s)
  {
    var to := Kept(c, a, bounds, current[n % c.pages], n);
    if to == current[n % c.pages] {
      assert Holds(c, done, NoBounds(c), current[s / PAGE % c.pages], s);
    } else if to < c.members {
      EntryHolds(c, a, done, to, n, s);
    }
  }

  /** One turn of Retire's loop. */
  lemma MoveHolds(c: Config, a: Policy, done: seq<set<nat>>, current: seq<int>, bounds: seq<nat>, n: nat)
    requires Exact(c, a, done) && Sources(c, current) && |bounds| == c.members && Low(c, a.head) / PAGE <= n && n * PAGE < a.head
    requires Shows(c, done, NoBounds(c), current, Low(c, a.head), a.head)
    requires Shows(c, done, bounds, current, Low(c, a.head), Min(n * PAGE, a.head))
    ensures var next := MoveOf(c, a.cov, a.head, current, bounds, n).current;
            && Shows(c, done, NoBounds(c), next, Low(c, a.head), a.head)
            && Shows(c, done, bounds, next, Low(c, a.head), Min((n + 1) * PAGE, a.head))
  {
    var lo, p := Low(c, a.head), n % c.pages;
    var to := Kept(c, a, bounds, current[p], n);
    forall s: nat | lo <= s < a.head && s / PAGE == n
      ensures Holds(c, done, bounds, to, s) && Holds(c, done, NoBounds(c), to, s)
    {
      KeptHolds(c, a, done, current, bounds, n, s);
    }
    Repoint(c, done, NoBounds(c), current, lo, a.head, n, to);
    Repoint(c, done, bounds, current, lo, Min((n + 1) * PAGE, a.head), n, to);
    assert MoveOf(c, a.cov, a.head, current, bounds, n).current == current[p := to];
  }

  /** Past the reach of every member, what is committed is safe. */
  lemma ReachHolds(c: Config, a: Policy, done: seq<set<nat>>, current: seq<int>, bounds: seq<nat>, first: nat)
    requires Exact(c, a, done) && Sources(c, current) && |bounds| == c.members && Most(c, bounds, c.members) <= first
    requires Shows(c, done, NoBounds(c), current, Low(c, a.head), a.head)
    requires Shows(c, done, bounds, current, Low(c, a.head), first)
    ensures Shows(c, done, bounds, current, Low(c, a.head), a.head)
  {
    forall s: nat | Low(c, a.head) <= s < a.head ensures Holds(c, done, bounds, current[s / PAGE % c.pages], s) {
      assert Holds(c, done, NoBounds(c), current[s / PAGE % c.pages], s);
      assert s < first ==> Holds(c, done, bounds, current[s / PAGE % c.pages], s);
    }
  }

  /** After Retire every trusted sample is safe from what its source may write before
      the next pass. */
  lemma {:induction false} RetireHolds(c: Config, a: Policy, done: seq<set<nat>>, current: seq<int>, bounds: seq<nat>, n: nat)
    requires Exact(c, a, done) && Sources(c, current) && |bounds| == c.members && Low(c, a.head) / PAGE <= n
    requires Shows(c, done, NoBounds(c), current, Low(c, a.head), a.head)
    requires Shows(c, done, bounds, current, Low(c, a.head), Min(n * PAGE, a.head))
    ensures Shows(c, done, bounds, RetireLoop(c, a.cov, a.head, current, bounds, n).current, Low(c, a.head), a.head)
    decreases a.head - n * PAGE
  {
    var first := Max(Low(c, a.head), n * PAGE);
    if first < a.head && first < Most(c, bounds, c.members) {
      MoveHolds(c, a, done, current, bounds, n);
      RetireHolds(c, a, done, MoveOf(c, a.cov, a.head, current, bounds, n).current, bounds, n + 1);
    } else if first < a.head {
      ReachHolds(c, a, done, current, bounds, first);
    }
    RetireUnfolds(c, a.cov, a.head, current, bounds, n);
  }

  // ----------------------------------------------------------------- Drop

  /** Moving one slot to where Drop moves it keeps every published sample committed. */
  lemma DropOne(c: Config, a: Policy, done: seq<set<nat>>, current: seq<int>, m: nat, p: nat)
    requires Exact(c, a, done) && Sources(c, current) && p < c.pages && m < c.members
    requires Shows(c, done, NoBounds(c), current, Low(c, a.head), a.head)
    ensures Shows(c, done, NoBounds(c), current[p := DropTarget(c, a.cov, a.head, m, p)], Low(c, a.head), a.head)
  {
    var to := DropTarget(c, a.cov, a.head, m, p);
    if a.head > 0 {
      var last := (a.head - 1) / PAGE;
      var back := Behind(last, p, c.pages);
      forall s: nat | Low(c, a.head) <= s < a.head
        ensures Holds(c, done, NoBounds(c), current[p := to][s / PAGE % c.pages], s)
      {
        assert Holds(c, done, NoBounds(c), current[s / PAGE % c.pages], s);
        var k := s / PAGE;
        assert last - c.pages < k <= last;
        if back > last {
          NoneBehind(last, p, c.pages, k);
        } else {
          BehindSlot(last, p, c.pages);
          var n := last - back;
          if k < n { OtherSlot(k, n, c.pages); } else if n < k { OtherSlot(n, k, c.pages); }
          if k == n && to < c.members { EntryHolds(c, a, done, to, n, s); }
        }
      }
    }
  }

  lemma {:induction false} DropHas(c: Config, a: Policy, done: seq<set<nat>>, current: seq<int>, m: nat, p: nat)
    requires Exact(c, a, done) && Sources(c, current) && p <= c.pages && m < c.members
    requires Shows(c, done, NoBounds(c), current, Low(c, a.head), a.head)
    ensures Shows(c, done, NoBounds(c), DropLoop(c, a, current, m, p).current, Low(c, a.head), a.head)
    decreases c.pages - p
  {
    if p < c.pages {
      if current[p] == m {
        DropOne(c, a, done, current, m, p);
        DropHas(c, a, done, current[p := DropTarget(c, a.cov, a.head, m, p)], m, p + 1);
      } else {
        DropHas(c, a, done, current, m, p + 1);
      }
    }
  }

  // ------------------------------------- Drop alone, before the next pass

  /** The page slot `p` shows below the head, when it has one. */
  function ShownPage(c: Config, head: nat, p: nat): int
    requires p < c.pages && 0 < head
  {
    var last := (head - 1) / PAGE;
    last - Behind(last, p, c.pages)
  }

  /** The slot's trusted samples, if any, lie past what its new source may write. */
  ghost predicate Spared(c: Config, head: nat, p: nat, bound: nat)
    requires p < c.pages && 0 < head
  {
    var n := ShownPage(c, head, p);
    var first := Max(Low(c, head), n * PAGE);
    first / PAGE == n ==> Intact(c, bound) <= first
  }

  /** A slot's trusted samples are all of the page it shows. */
  lemma TrustedPage(c: Config, head: nat, x: nat)
    requires c.Valid() && Low(c, head) <= x < head
    ensures ShownPage(c, head, x / PAGE % c.pages) == x / PAGE
  {
    var last, p, k := (head - 1) / PAGE, x / PAGE % c.pages, x / PAGE;
    var back := Behind(last, p, c.pages);
    assert last - c.pages < k <= last;
    if back > last {
      NoneBehind(last, p, c.pages, k);
    } else {
      BehindSlot(last, p, c.pages);
      if k < last - back { OtherSlot(k, last - back, c.pages); } else if last - back < k { OtherSlot(last - back, k, c.pages); }
    }
  }

  /** A page moved to a member that may overwrite its first trusted sample is not intact. */
  lemma IntactSpares(c: Config, done: seq<set<nat>>, bounds: seq<nat>, current: seq<int>, head: nat, p: nat)
    requires ValidWorld(c, done, bounds) && Sources(c, current) && p < c.pages && 0 < head && current[p] < c.members
    requires Shows(c, done, bounds, current, Low(c, head), head)
    ensures ShownPage(c, head, p) >= 0 ==> Spared(c, head, p, bounds[current[p]])
  {
    var n := ShownPage(c, head, p);
    var first := Max(Low(c, head), n * PAGE);
    if n >= 0 && first / PAGE == n {
      BehindSlot((head - 1) / PAGE, p, c.pages);
      assert Holds(c, done, bounds, current[first / PAGE % c.pages], first);
    }
  }

  /** Conversely, a committed sample of a spared slot is intact. */
  lemma SparedIntact(c: Config, done: seq<set<nat>>, bounds: seq<nat>, src: int, head: nat, x: nat)
    requires ValidWorld(c, done, bounds) && 0 <= src < c.members && Low(c, head) <= x < head
    requires Holds(c, done, NoBounds(c), src, x) && Spared(c, head, x / PAGE % c.pages, bounds[src])
    ensures Holds(c, done, bounds, src, x)
  {
    TrustedPage(c, head, x);
  }

  /** Every page Drop moves off `m` to another member is spared by that member. */
  ghost predicate HeirsSpare(c: Config, a: Policy, limit: seq<nat>, m: nat)
    requires ValidPolicy(c, a) && |limit| == c.members && m < c.members
  {
    forall p :: 0 <= p < c.pages && a.current[p] == m && DropTarget(c, a.cov, a.head, m, p) < c.members ==>
      Spared(c, a.head, p, limit[DropTarget(c, a.cov, a.head, m, p)])
  }

  /** Drop does not look at what the members it moves pages to may overwrite, as Retire
      does. Before the next pass the trusted samples stay intact exactly when every
      page it moves to a member is spared by that member. */
  lemma {:induction false} DropIntact(c: Config, a: Policy, done: seq<set<nat>>, limit: seq<nat>, m: nat)
    requires Exact(c, a, done) && |limit| == c.members && m < c.members
    requires Shows(c, done, NoBounds(c), a.current, Low(c, a.head), a.head)
    requires Shows(c, done, limit, a.current, Low(c, a.head), a.head)
    ensures Shows(c, done, limit, Drop(c, a, m).policy.current, Low(c, a.head), a.head) <==> HeirsSpare(c, a, limit, m)
  {
    var head, current := a.head, Drop(c, a, m).policy.current;
    DropExact(c, a, a.current, m, 0);
    if Shows(c, done, limit, current, Low(c, head), head) {
      forall p | 0 <= p < c.pages && a.current[p] == m && DropTarget(c, a.cov, a.head, m, p) < c.members
        ensures Spared(c, head, p, limit[DropTarget(c, a.cov, a.head, m, p)])
      {
        IntactSpares(c, done, limit, current, head, p);
      }
    }
    if HeirsSpare(c, a, limit, m) {
      DropHas(c, a, done, a.current, m, 0);
      forall x: nat | Low(c, head) <= x < head ensures Holds(c, done, limit, current[x / PAGE % c.pages], x) {
        assert Holds(c, done, NoBounds(c), current[x / PAGE % c.pages], x);
        assert Holds(c, done, limit, a.current[x / PAGE % c.pages], x);
        if a.current[x / PAGE % c.pages] == m && current[x / PAGE % c.pages] < c.members {
          SparedIntact(c, done, limit, current[x / PAGE % c.pages], head, x);
        }
      }
    }
  }

  // ------------------------------------ a pass over what is written already

  /** No member has written over the first trusted sample of a page it shows. */
  ghost predicate WrittenSpares(c: Config, a: Policy, written: seq<nat>)
    requires ValidPolicy(c, a) && |written| == c.members
  {
    0 < a.head ==> forall p :: 0 <= p < c.pages && a.current[p] < c.members && ShownPage(c, a.head, p) >= 0 ==>
      Spared(c, a.head, p, written[a.current[p]])
  }

  /** A pass looks at how far members may write from here on, not at how far they have
      written. What it shows is intact exactly when they have not written over it. */
  lemma {:induction false} PassIntact(c: Config, a: Policy, done: seq<set<nat>>, written: seq<nat>)
    requires Exact(c, a, done) && |written| == c.members
    requires Shows(c, done, NoBounds(c), a.current, Low(c, a.head), a.head)
    ensures Shows(c, done, written, a.current, Low(c, a.head), a.head) <==> WrittenSpares(c, a, written)
  {
    var head := a.head;
    if Shows(c, done, written, a.current, Low(c, head), head) && 0 < head {
      forall p | 0 <= p < c.pages && a.current[p] < c.members && ShownPage(c, head, p) >= 0
        ensures Spared(c, head, p, written[a.current[p]])
      {
        IntactSpares(c, done, written, a.current, head, p);
      }
    }
    if WrittenSpares(c, a, written) {
      forall x: nat | Low(c, head) <= x < head ensures Holds(c, done, written, a.current[x / PAGE % c.pages], x) {
        var p := x / PAGE % c.pages;
        assert Holds(c, done, NoBounds(c), a.current[p], x);
        TrustedPage(c, head, x);
        if a.current[p] < c.members { SparedIntact(c, done, written, a.current[p], head, x); }
      }
    }
  }

  /** It is where each member has written no further than a bound under which it is. */
  lemma BoundsSpare(c: Config, a: Policy, done: seq<set<nat>>, written: seq<nat>, bounds: seq<nat>)
    requires Exact(c, a, done) && |written| == |bounds| == c.members
    requires Shows(c, done, bounds, a.current, Low(c, a.head), a.head)
    requires forall m :: 0 <= m < c.members ==> written[m] <= bounds[m]
    ensures WrittenSpares(c, a, written)
  {
    forall x: nat | Low(c, a.head) <= x < a.head
      ensures Holds(c, done, NoBounds(c), a.current[x / PAGE % c.pages], x) && Holds(c, done, written, a.current[x / PAGE % c.pages], x)
    {
      assert Holds(c, done, bounds, a.current[x / PAGE % c.pages], x);
    }
    PassIntact(c, a, done, written);
  }

  // -------------------------------------------------- the machine's runs

  /** `done[m]` is what member m committed since its ring was taken and `written[m]`
      the end of what it has written into its ring; `limit[m]` is how far the last
      Retire took it to write. `settled` is false from a pass that shows what a member has
      already written over, or a replacement that moved a page to a member that may
      overwrite it, to the next pass. `reported[m]` is the greatest end reported of m since
      its ring was taken, and `last[m]` the length of the last report, at most half the
      buffer. */
  datatype Sys = Sys(a: Policy, done: seq<set<nat>>, written: seq<nat>, limit: seq<nat>,
                     reported: seq<nat>, last: seq<nat>, settled: bool)

  ghost predicate Typed(c: Config, s: Sys) {
    ValidPolicy(c, s.a) && |s.done| == |s.written| == |s.limit| == |s.reported| == |s.last| == c.members
  }

  ghost predicate Within(s: Sys) {
    |s.written| == |s.limit| && forall m :: 0 <= m < |s.limit| ==> s.written[m] <= s.limit[m]
  }

  ghost predicate Init(c: Config, s: Sys) {
    && c.Valid() && Typed(c, s)
    && s.a == Policy(0, 0, seq(c.pages, _ => c.members), seq(c.members, _ => seq(c.pages, _ => NOTHING)),
                     seq(c.members, _ => 0), seq(c.members, _ => 0), false, -1, 0)
    && s.done == seq(c.members, _ => {})
    && s.reported == seq(c.members, _ => 0) && s.last == seq(c.members, _ => 0)
    && Within(s) && s.settled
  }

  /** A member writes ahead, within its limit. */
  ghost predicate Write(s: Sys, s': Sys, m: nat, end: nat) {
    m < |s.written| == |s.limit| && s.written[m] <= end <= s.limit[m] && s' == s.(written := s.written[m := end])
  }

  /** A member is reported to have committed [start, end), after all it committed and
      within what it wrote. */
  ghost predicate Report(c: Config, s: Sys, s': Sys, m: nat, start: nat, end: nat)
    requires Typed(c, s)
  {
    && m < c.members && s.reported[m] <= start < end <= s.written[m]
    && s' == s.(a := Commit(c, s.a, m, start, end), done := s.done[m := s.done[m] + Range(start, end)],
                reported := s.reported[m := end], last := s.last[m := Min(end - start, c.Length() / 2)])
  }

  /** A member's pages are dropped and its ring replaced by one written up to `end`. */
  ghost predicate Take(c: Config, s: Sys, s': Sys, m: nat, end: nat, limit: nat)
    requires Typed(c, s)
  {
    && m < c.members && end <= limit
    && s' == s.(a := Drop(c, s.a, m).policy, done := s.done[m := {}], settled := s.settled && HeirsSpare(c, s.a, s.limit, m),
                written := s.written[m := end], limit := s.limit[m := limit], reported := s.reported[m := 0])
  }

  /** The greater of each member's two bounds. */
  function Farther(a: seq<nat>, b: seq<nat>): (r: seq<nat>)
    requires |a| == |b|
    ensures |r| == |a| && forall m :: 0 <= m < |r| ==> r[m] == Max(a[m], b[m])
  {
    seq(|a|, m requires 0 <= m < |a| => Max(a[m], b[m]) as nat)
  }

  /** How far a pass at `due` takes member m to write before the next: past the last report
      or what is due, by what the clock advances and another batch. */
  function Ahead(c: Config, s: Sys, due: nat, m: nat): nat
    requires m < |s.reported| == |s.last|
  {
    Max(s.reported[m], due) + c.ahead + s.last[m]
  }

  /** A pass: Step, then Retire. No member writes farther than that until the next pass, if
      it has not already. */
  ghost predicate Pass(c: Config, s: Sys, s': Sys, now: int, due: nat)
    requires Typed(c, s)
  {
    var a := Retire(c, Step(c, s.a, now).policy, due).policy;
    && s' == s.(a := a, limit := s'.limit, settled := WrittenSpares(c, a, s.written))
    && |s'.limit| == c.members && forall m :: 0 <= m < c.members ==> s'.limit[m] == Max(s.written[m], Ahead(c, s, due, m))
  }

  ghost predicate Next(c: Config, s: Sys, s': Sys) {
    && Typed(c, s)
    && (|| (exists m, end :: Write(s, s', m, end))
        || (exists m, start, end :: Report(c, s, s', m, start, end))
        || (exists m, end, limit :: Take(c, s, s', m, end, limit))
        || (exists now, due :: Pass(c, s, s', now, due)))
  }

  ghost predicate Inv(c: Config, s: Sys) {
    && Typed(c, s) && Exact(c, s.a, s.done) && Within(s) && s.reported == s.a.evHead && s.last == s.a.batch
    && (forall m :: 0 <= m < c.members && s.reported[m] > 0 ==> s.reported[m] - 1 in s.done[m])
    && (!s.a.started ==> s.a.head == 0 && forall p :: 0 <= p < c.pages ==> s.a.current[p] == c.members)
    && Shows(c, s.done, NoBounds(c), s.a.current, Low(c, s.a.head), s.a.head)
    && (s.settled ==> Shows(c, s.done, s.limit, s.a.current, Low(c, s.a.head), s.a.head))
  }

  lemma InitInv(c: Config, s: Sys)
    requires Init(c, s)
    ensures Inv(c, s)
  {
  }

  lemma ReportInv(c: Config, s: Sys, s': Sys, m: nat, start: nat, end: nat)
    requires Inv(c, s) && Report(c, s, s', m, start, end)
    ensures Inv(c, s')
  {
    CommitExact(c, s.a, m, start, end, s.done[m]);
    forall src, x: nat, bounds | |bounds| == c.members && Holds(c, s.done, bounds, src, x)
      ensures Holds(c, s'.done, bounds, src, x)
    {
    }
  }

  lemma TakeInv(c: Config, s: Sys, s': Sys, m: nat, end: nat, limit: nat)
    requires Inv(c, s) && Take(c, s, s', m, end, limit)
    ensures Inv(c, s')
  {
    DropHas(c, s.a, s.done, s.a.current, m, 0);
    DropExact(c, s.a, s.a.current, m, 0);
    var current := s'.a.current;
    forall x: nat | Low(c, s.a.head) <= x < s.a.head
      ensures Holds(c, s'.done, NoBounds(c), current[x / PAGE % c.pages], x)
    {
      assert Holds(c, s.done, NoBounds(c), current[x / PAGE % c.pages], x);
    }
    if s'.settled {
      DropIntact(c, s.a, s.done, s.limit, m);
      forall x: nat | Low(c, s.a.head) <= x < s.a.head
        ensures Holds(c, s'.done, s'.limit, current[x / PAGE % c.pages], x)
      {
        assert Holds(c, s.done, s.limit, current[x / PAGE % c.pages], x);
      }
    }
  }

  /** What a pass shows is committed, and safe from writes up to its bounds. */
  lemma PassHolds(c: Config, s: Sys, now: int, due: nat)
    requires Inv(c, s) && s.a.started
    ensures var b := Step(c, s.a, now).policy; var a := Retire(c, b, due).policy;
            && Exact(c, a, s.done) && a.head == b.head && a.started
            && Shows(c, s.done, NoBounds(c), a.current, Low(c, a.head), a.head)
            && Shows(c, s.done, WriteBounds(c, b, due), a.current, Low(c, a.head), a.head)
  {
    var lead := Lead(s.a.evHead, |s.a.evHead|);
    StepHas(c, s.a, s.done, now, lead);
    var b := StepLoop(c, s.a, now, lead).policy;
    var bounds := WriteBounds(c, b, due);
    RetireHolds(c, b, s.done, b.current, bounds, Low(c, b.head) / PAGE);
    var current := Retire(c, b, due).policy.current;
    forall x: nat | Low(c, b.head) <= x < b.head
      ensures Holds(c, s.done, NoBounds(c), current[x / PAGE % c.pages], x)
    {
      assert Holds(c, s.done, bounds, current[x / PAGE % c.pages], x);
    }
  }

  lemma BothHold(c: Config, done: seq<set<nat>>, current: seq<int>, lo: nat, hi: nat, a: seq<nat>, b: seq<nat>)
    requires ValidWorld(c, done, a) && ValidWorld(c, done, b) && |current| == c.pages
    requires Shows(c, done, a, current, lo, hi) && Shows(c, done, b, current, lo, hi)
    ensures Shows(c, done, Farther(a, b), current, lo, hi)
  {
    forall x: nat | lo <= x < hi ensures Holds(c, done, Farther(a, b), current[x / PAGE % c.pages], x) {
      assert Holds(c, done, a, current[x / PAGE % c.pages], x) && Holds(c, done, b, current[x / PAGE % c.pages], x);
    }
  }

  /** Retire's bounds are how far the reports say. */
  lemma BoundsAhead(c: Config, s: Sys, now: int, due: nat)
    requires Inv(c, s)
    ensures var b := Step(c, s.a, now).policy;
            && b.evHead == s.a.evHead && b.batch == s.a.batch
            && forall m :: 0 <= m < c.members ==> WriteBounds(c, b, due)[m] == Ahead(c, s, due, m)
  {
    if s.a.started { StepHas(c, s.a, s.done, now, Lead(s.a.evHead, |s.a.evHead|)); }
  }

  lemma PassInv(c: Config, s: Sys, s': Sys, now: int, due: nat)
    requires Inv(c, s) && Pass(c, s, s', now, due)
    ensures Inv(c, s')
  {
    BoundsAhead(c, s, now, due);
    if s.a.started {
      PassHolds(c, s, now, due);
      var bounds := WriteBounds(c, Step(c, s.a, now).policy, due);
      assert s'.limit == Farther(s.written, bounds);
      if s'.settled {
        PassIntact(c, s'.a, s.done, s.written);
        BothHold(c, s.done, s'.a.current, Low(c, s'.a.head), s'.a.head, s.written, bounds);
      }
    }
  }

  /** A pass that takes no member to write less far than the limit the one before left is
      settled. */
  lemma {:induction false} PassSettles(c: Config, s: Sys, s': Sys, now: int, due: nat)
    requires Inv(c, s) && Pass(c, s, s', now, due)
    requires forall m :: 0 <= m < c.members ==> s.limit[m] <= Ahead(c, s, due, m)
    ensures s'.settled
  {
    BoundsAhead(c, s, now, due);
    if s.a.started {
      PassHolds(c, s, now, due);
      BoundsSpare(c, s'.a, s.done, s.written, WriteBounds(c, Step(c, s.a, now).policy, due));
    }
  }

  lemma {:induction false} NextInv(c: Config, s: Sys, s': Sys)
    requires Inv(c, s) && Next(c, s, s')
    ensures Inv(c, s')
  {
    if m, end :| Write(s, s', m, end) { }
    else if m, start, end :| Report(c, s, s', m, start, end) { ReportInv(c, s, s', m, start, end); }
    else if m, end, limit :| Take(c, s, s', m, end, limit) { TakeInv(c, s, s', m, end, limit); }
    else {
      var now, due :| Pass(c, s, s', now, due);
      PassInv(c, s, s', now, due);
    }
  }

  ghost predicate Run(c: Config, run: seq<Sys>) {
    && |run| > 0 && Init(c, run[0])
    && forall k :: 0 <= k < |run| - 1 ==> Next(c, run[k], run[k + 1])
  }

  lemma {:induction false} RunInv(c: Config, run: seq<Sys>, k: nat)
    requires Run(c, run) && k < |run|
    ensures Inv(c, run[k])
  {
    if k == 0 {
      InitInv(c, run[0]);
    } else {
      RunInv(c, run, k - 1);
      NextInv(c, run[k - 1], run[k]);
    }
  }

  /** In every state of every run each sample readers trust is shown from silence or
      from a member that committed it since its ring was taken; and one that has not written
      over it, the sample a ring length on not written yet, unless the last pass showed what
      a member had already overwritten, or a ring replaced since left a page to a member
      that may overwrite it. */
  lemma {:induction false} TrustedSamplesTrue(c: Config, run: seq<Sys>, k: nat, x: nat)
    requires Run(c, run) && k < |run|
    requires x < run[k].a.head <= x + c.Length() / 2
    ensures c.Valid() && |run[k].a.current| == c.pages && |run[k].done| == |run[k].written| == c.members
    ensures var s := run[k].a.current[x / PAGE % c.pages];
            || s == c.members
            || (&& 0 <= s < c.members && x in run[k].done[s]
                && (run[k].settled ==> run[k].written[s] <= x + c.Length()))
  {
    RunInv(c, run, k);
    var s := run[k];
    assert Holds(c, s.done, NoBounds(c), s.a.current[x / PAGE % c.pages], x);
    assert s.settled ==> Holds(c, s.done, s.limit, s.a.current[x / PAGE % c.pages], x);
  }

  /** In every run a member's reported head is one past the greatest sample it committed
      since its ring was taken, 0 when it committed none, and its batch the length of its
      last report, at most half the buffer. */
  lemma {:induction false} ReportsTrue(c: Config, run: seq<Sys>, k: nat, m: nat)
    requires Run(c, run) && k < |run| && m < c.members
    ensures |run[k].a.evHead| == |run[k].a.batch| == |run[k].done| == |run[k].last| == c.members
    ensures forall s :: s in run[k].done[m] ==> s < run[k].a.evHead[m]
    ensures run[k].a.evHead[m] > 0 ==> run[k].a.evHead[m] - 1 in run[k].done[m]
    ensures run[k].a.batch[m] == run[k].last[m]
  {
    RunInv(c, run, k);
  }

  /** In every run the coverage of each member's page slot is exactly what the samples
      it committed since its ring was taken say. */
  lemma {:induction false} CoverageTrue(c: Config, run: seq<Sys>, k: nat, m: nat, p: nat)
    requires Run(c, run) && k < |run| && m < c.members && c.Valid() && p < c.pages
    ensures |run[k].a.cov| == |run[k].done| == |run[k].a.evHead| == c.members && |run[k].a.cov[m]| == c.pages
    ensures var (e, done) := (run[k].a.cov[m][p], run[k].done[m]);
            if !e.valid then forall s :: s in done ==> s / PAGE % c.pages != p
            else
              && e.n % c.pages == p && e.to <= run[k].a.evHead[m]
              && (forall s :: s in done && s / PAGE % c.pages == p ==> s / PAGE <= e.n)
              && (!e.broken ==> Prefix(done, e.n, e.to))
              && (!e.broken <==> exists to: nat :: Prefix(done, e.n, to))
  {
    RunInv(c, run, k);
    assert RingHolds(c, run[k].a.cov[m], run[k].done[m]);
    var e := run[k].a.cov[m][p];
    assert SlotOk(c, e, run[k].done[m], p);
    assert RingOk(c, run[k].a.cov[m], run[k].a.evHead[m]);
    if e.valid { UnbrokenIsGapless(c, e, run[k].done[m], p); }
  }
}
