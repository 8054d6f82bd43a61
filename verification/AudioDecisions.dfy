/** What the audio policy's Step and Retire decide: where Step stops, when a page is
    published as silence, and which pages Retire moves
    (gateway/internal/merge/policy.go). */
module AudioDecisions {
  import opened Common
  import opened AudioPolicy
  import opened Ring

  /** Nobody holds the head's page past the head. */
  ghost predicate Nobody(c: Config, a: Policy)
    requires ValidPolicy(c, a)
  {
    var n := a.head / PAGE;
    forall m :: 0 <= m < c.members ==> Upto(a.cov[m][n % c.pages], n) <= a.head
  }

  /** Another member holds the head's page past the head, while the primary shows no
      gap there and its reported head is not past it. */
  ghost predicate Late(c: Config, a: Policy)
    requires ValidPolicy(c, a)
  {
    var n := a.head / PAGE;
    var mine := a.cov[a.primary][n % c.pages];
    && (exists m :: 0 <= m < c.members && m != a.primary && Upto(a.cov[m][n % c.pages], n) > a.head)
    && Upto(mine, n) <= a.head && a.evHead[a.primary] <= a.head && !(mine.valid && mine.n == n && mine.broken)
  }

  /** A turn that does not advance: nobody holds the next sample and the lag is within the
      skew, or it waits for the primary, at most the tolerance. */
  lemma TurnEnds(c: Config, a: Policy, now: int, lead: nat)
    requires ValidPolicy(c, a)
    ensures var (turn, w) := TakeTurn(c, a, now, lead);
            && (turn.Stop? ==> w == a && lead < a.head + c.skew && Nobody(c, a))
            && (turn.Wait? ==> 0 < turn.remaining == c.tolerance - (now - w.waitingSince) && Late(c, w) && w.waitingPage == a.head / PAGE)
            && (a.waitingSince <= now ==> w.waitingSince <= now)
  {
  }

  /** How Step ends: at the lead, or on such a turn. */
  ghost predicate Ended(c: Config, r: StepResult, now: int, lead: nat)
    requires ValidPolicy(c, r.policy)
  {
    || (r.wait == 0 && lead <= r.policy.head)
    || (r.wait == 0 && r.policy.head < lead < r.policy.head + c.skew && Nobody(c, r.policy))
    || (&& 0 < r.wait && r.policy.head < lead && Late(c, r.policy)
        && r.policy.waitingPage == r.policy.head / PAGE
        && r.wait == c.tolerance - (now - r.policy.waitingSince))
  }

  /** Step ends at the lead; or nobody holds the next sample and the lag is within the
      skew; or it waits for the primary, at most the tolerance. */
  lemma {:induction false} StepEnds(c: Config, a: Policy, now: int, lead: nat)
    requires ValidPolicy(c, a) && LeadOk(c, a, lead)
    ensures var r := StepLoop(c, a, now, lead);
            && a.head <= r.policy.head <= Max(a.head, lead) && Ended(c, r, now, lead)
            && (a.waitingSince <= now ==> r.policy.waitingSince <= now && r.wait <= Max(0, c.tolerance))
    decreases lead - a.head
  {
    if a.head < lead {
      TurnEnds(c, a, now, lead);
      StepUnfolds(c, a, now, lead);
      var (turn, w) := TakeTurn(c, a, now, lead);
      if turn.Advance? {
        StepEnds(c, Show(c, w, turn.source, turn.upto), now, lead);
      }
    }
  }

  /** A turn shows silence exactly when nobody holds the page past the head and the
      lead is the skew past it. */
  lemma TurnSilence(c: Config, a: Policy, now: int, lead: nat)
    requires ValidPolicy(c, a)
    ensures var turn := TakeTurn(c, a, now, lead).0;
            turn.Advance? && turn.source == c.members <==> Nobody(c, a) && a.head + c.skew <= lead
  {
    var n := a.head / PAGE;
    var alt := BestOther(a, n % c.pages, n, c.members);
    if Nobody(c, a) {
      assert Upto(a.cov[a.primary][n % c.pages], n) <= a.head;
      assert alt == -1;
    }
  }

  /** Step leaves the pages it has passed alone, until it comes round to their slots. */
  lemma {:induction false} StepUntouched(c: Config, a: Policy, now: int, lead: nat, n: nat)
    requires ValidPolicy(c, a) && LeadOk(c, a, lead)
    requires n < a.head / PAGE && StepLoop(c, a, now, lead).policy.head <= (n + c.pages) * PAGE
    ensures StepLoop(c, a, now, lead).policy.current[n % c.pages] == a.current[n % c.pages]
    decreases lead - a.head
  {
    if a.head < lead {
      StepUnfolds(c, a, now, lead);
      var (turn, w) := TakeTurn(c, a, now, lead);
      if turn.Advance? {
        var b := Show(c, w, turn.source, turn.upto);
        StepEnds(c, b, now, lead);
        OtherSlot(n, a.head / PAGE, c.pages);
        StepUntouched(c, b, now, lead, n);
      }
    }
  }

  lemma TurnInPage(c: Config, a: Policy, now: int, lead: nat)
    requires ValidPolicy(c, a)
    ensures var turn := TakeTurn(c, a, now, lead).0; turn.Advance? ==> turn.upto <= (a.head / PAGE + 1) * PAGE
  {
    var n := a.head / PAGE;
    forall m | 0 <= m < c.members ensures CoverageOk(a.cov[m][n % c.pages], a.evHead[m]) {
      assert RingOk(c, a.cov[m], a.evHead[m]);
    }
  }

  lemma StepStill(c: Config, a: Policy, now: int, lead: nat)
    requires ValidPolicy(c, a) && LeadOk(c, a, lead) && StepLoop(c, a, now, lead).policy.head == a.head
    ensures StepLoop(c, a, now, lead).policy.current == a.current
  {
    if a.head < lead {
      StepUnfolds(c, a, now, lead);
      var (turn, w) := TakeTurn(c, a, now, lead);
      if turn.Advance? { StepEnds(c, Show(c, w, turn.source, turn.upto), now, lead); }
    }
  }

  /** A page some member holds to its end, or to the lead, is never left as silence. */
  lemma {:induction false} StepNoSilence(c: Config, a: Policy, now: int, lead: nat, n: nat, m: nat)
    requires ValidPolicy(c, a) && LeadOk(c, a, lead) && m < c.members
    requires a.head / PAGE <= n && Upto(a.cov[m][n % c.pages], n) >= Min((n + 1) * PAGE, lead)
    requires var head := StepLoop(c, a, now, lead).policy.head; a.head < head && n * PAGE < head <= (n + c.pages) * PAGE
    ensures StepLoop(c, a, now, lead).policy.current[n % c.pages] < c.members
    decreases lead - a.head
  {
    StepUnfolds(c, a, now, lead);
    TurnSilence(c, a, now, lead);
    var (turn, w) := TakeTurn(c, a, now, lead);
    var b := Show(c, w, turn.source, turn.upto);
    var r := StepLoop(c, b, now, lead).policy;
    StepEnds(c, b, now, lead);
    TurnInPage(c, a, now, lead);
    if a.head / PAGE == n {
      if b.head / PAGE > n {
        StepUntouched(c, b, now, lead, n);
      } else if b.head < r.head {
        StepNoSilence(c, b, now, lead, n, m);
      } else {
        StepStill(c, b, now, lead);
      }
    } else {
      StepNoSilence(c, b, now, lead, n, m);
    }
  }

  /** Nobody holds page `n` past sample `h`. */
  ghost predicate Unheld(c: Config, cov: seq<seq<Coverage>>, n: nat, h: nat)
    requires ValidCov(c, cov)
  {
    forall m :: 0 <= m < c.members ==> Upto(cov[m][n % c.pages], n) <= h
  }

  /** Where Step goes over to silence: a sample of page `n` it reaches, past which nobody
      holds the page, with the lead the skew past it. */
  ghost predicate SilentFrom(c: Config, a: Policy, lead: nat, n: nat, end: nat, h: nat)
    requires ValidCov(c, a.cov)
  {
    a.head <= h < end && h / PAGE == n && h + c.skew <= lead && Unheld(c, a.cov, n, h)
  }

  /** A page Step leaves on silence is one that, from some sample of it on, nobody held
      when the lead was the skew past that sample. */
  lemma {:induction false} StepSilence(c: Config, a: Policy, now: int, lead: nat, n: nat)
    requires ValidPolicy(c, a) && LeadOk(c, a, lead) && a.head / PAGE <= n
    requires var head := StepLoop(c, a, now, lead).policy.head; a.head < head && n * PAGE < head <= (n + c.pages) * PAGE
    requires StepLoop(c, a, now, lead).policy.current[n % c.pages] == c.members
    ensures exists h :: SilentFrom(c, a, lead, n, StepLoop(c, a, now, lead).policy.head, h)
    decreases lead - a.head
  {
    StepUnfolds(c, a, now, lead);
    TurnSilence(c, a, now, lead);
    var (turn, w) := TakeTurn(c, a, now, lead);
    var b := Show(c, w, turn.source, turn.upto);
    var r := StepLoop(c, b, now, lead).policy;
    StepEnds(c, b, now, lead);
    TurnInPage(c, a, now, lead);
    if a.head / PAGE == n && (b.head / PAGE > n || b.head == r.head) {
      if b.head / PAGE > n { StepUntouched(c, b, now, lead, n); } else { StepStill(c, b, now, lead); }
      assert SilentFrom(c, a, lead, n, r.head, a.head);
    } else {
      StepSilence(c, b, now, lead, n);
      var h :| SilentFrom(c, b, lead, n, r.head, h);
      assert SilentFrom(c, a, lead, n, r.head, h);
    }
  }

  /** No two pages with a trusted sample share a slot. */
  lemma PagesApart(c: Config, head: nat, n: nat, k: nat)
    requires c.Valid() && Low(c, head) / PAGE <= n && n * PAGE < head && Low(c, head) / PAGE <= k && k * PAGE < head
    ensures n != k ==> n % c.pages != k % c.pages
  {
    if n < k { OtherSlot(n, k, c.pages); } else if k < n { OtherSlot(k, n, c.pages); }
  }

  /** A turn of Retire's loop changes no other trusted page. */
  lemma MoveOther(c: Config, cov: seq<seq<Coverage>>, head: nat, current: seq<int>, bounds: seq<nat>, from: nat, n: nat)
    requires ValidCov(c, cov) && Sources(c, current) && |bounds| == c.members && n != from
    requires Low(c, head) / PAGE <= from && from * PAGE < head && Low(c, head) / PAGE <= n && n * PAGE < head
    ensures MoveOf(c, cov, head, current, bounds, from).current[n % c.pages] == current[n % c.pages]
  {
    PagesApart(c, head, from, n);
  }

  /** Retire's loop leaves the trusted pages below where it is alone. */
  lemma {:induction false} RetirePasses(c: Config, cov: seq<seq<Coverage>>, head: nat, current: seq<int>, bounds: seq<nat>, from: nat, n: nat)
    requires ValidCov(c, cov) && Sources(c, current) && |bounds| == c.members
    requires Low(c, head) / PAGE <= n < from && n * PAGE < head
    ensures RetireLoop(c, cov, head, current, bounds, from).current[n % c.pages] == current[n % c.pages]
    decreases head - from * PAGE
  {
    var first := Max(Low(c, head), from * PAGE);
    if first < head && first < Most(c, bounds, c.members) {
      MoveOther(c, cov, head, current, bounds, from, n);
      RetirePasses(c, cov, head, MoveOf(c, cov, head, current, bounds, from).current, bounds, from + 1, n);
    }
    RetireUnfolds(c, cov, head, current, bounds, from);
  }

  /** Where Retire leaves a trusted page: its source, unless that may write over the page's
      first trusted sample; then the first other member that holds the page whole and will
      not, or silence. */
  function RetiredTo(c: Config, cov: seq<seq<Coverage>>, head: nat, bounds: seq<nat>, cur: int, n: nat): int
    requires ValidCov(c, cov) && |bounds| == c.members && 0 <= cur <= c.members
  {
    var first := Max(Low(c, head), n * PAGE);
    if AtRisk(c, bounds, cur, first) then Heir(c, cov, head, bounds, cur, n, first, 0) else cur
  }

  lemma MoveThis(c: Config, cov: seq<seq<Coverage>>, head: nat, current: seq<int>, bounds: seq<nat>, n: nat)
    requires ValidCov(c, cov) && Sources(c, current) && |bounds| == c.members
    ensures MoveOf(c, cov, head, current, bounds, n).current[n % c.pages] == RetiredTo(c, cov, head, bounds, current[n % c.pages], n)
  {
  }

  /** Past the reach of every member no page is moved. */
  lemma OutOfReach(c: Config, cov: seq<seq<Coverage>>, head: nat, bounds: seq<nat>, cur: int, n: nat)
    requires ValidCov(c, cov) && |bounds| == c.members && 0 <= cur <= c.members
    requires Most(c, bounds, c.members) <= Max(Low(c, head), n * PAGE)
    ensures RetiredTo(c, cov, head, bounds, cur, n) == cur
  {
  }

  /** Retire moves exactly the trusted pages whose source may write over their first
      trusted sample, each to the first other member that holds the page whole and will
      not, or to silence. */
  lemma {:induction false} RetireExact(c: Config, cov: seq<seq<Coverage>>, head: nat, current: seq<int>, bounds: seq<nat>, from: nat, n: nat)
    requires ValidCov(c, cov) && Sources(c, current) && |bounds| == c.members
    requires Low(c, head) / PAGE <= from <= n && n * PAGE < head
    ensures RetireLoop(c, cov, head, current, bounds, from).current[n % c.pages] ==
            RetiredTo(c, cov, head, bounds, current[n % c.pages], n)
    decreases head - from * PAGE
  {
    var first := Max(Low(c, head), from * PAGE);
    if first < head && first < Most(c, bounds, c.members) {
      var next := MoveOf(c, cov, head, current, bounds, from).current;
      if n == from {
        MoveThis(c, cov, head, current, bounds, n);
        RetirePasses(c, cov, head, next, bounds, from + 1, n);
      } else {
        MoveOther(c, cov, head, current, bounds, from, n);
        RetireExact(c, cov, head, next, bounds, from + 1, n);
      }
    } else {
      OutOfReach(c, cov, head, bounds, current[n % c.pages], n);
    }
    RetireUnfolds(c, cov, head, current, bounds, from);
  }
}
