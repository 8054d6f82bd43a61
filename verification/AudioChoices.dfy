/** What the audio policy's calls come to, said without their own steps: whom Step shows each
    page from and how far, where publication starts, how far Retire takes members to write,
    and where Drop moves a page (gateway/internal/merge/policy.go). */
module AudioChoices {
  import opened Common
  import opened Ring
  import opened AudioPolicy
  import opened AudioDecisions

  /** `lead` is the greatest of the members' reported heads. */
  ghost predicate Greatest(evHead: seq<nat>, lead: nat) {
    && (forall m :: 0 <= m < |evHead| ==> evHead[m] <= lead)
    && (lead == 0 || exists m :: 0 <= m < |evHead| && evHead[m] == lead)
  }

  lemma LeadGreatest(evHead: seq<nat>, n: nat)
    requires n <= |evHead|
    ensures Lead(evHead, n) == 0 || exists m :: 0 <= m < n && evHead[m] == Lead(evHead, n)
  {
  }

  lemma LeadIs(evHead: seq<nat>, lead: nat)
    requires Greatest(evHead, lead)
    ensures Lead(evHead, |evHead|) == lead
  {
    LeadGreatest(evHead, |evHead|);
  }

  // ---------------------------------------------------------------- commits

  /** The first commit starts publication at the first page boundary it reaches, and no later
      one moves it. No commit touches what is shown, or whom Step goes by. */
  lemma CommitStarts(c: Config, a: Policy, m: nat, start: nat, end: nat)
    requires ValidPolicy(c, a) && m < c.members && start < end
    ensures var r := Commit(c, a, m, start, end);
            && r.started && (if a.started then r.head == a.head else r.head % PAGE == 0 && start <= r.head < start + PAGE)
            && r.current == a.current && r.primary == a.primary
            && r.waitingPage == a.waitingPage && r.waitingSince == a.waitingSince
  {
  }

  /** A part of a page the slot is at joins what is there exactly when it begins where that
      ends; any other, a repeated one too, leaves the page broken for good. */
  lemma CommitJoins(e: Coverage, n: nat, lo: nat, hi: nat)
    requires e.valid && e.n == n
    ensures var f := CommitPage(e, n, lo, hi);
            && f.valid && f.n == n && (f.broken <==> e.broken || lo != e.to) && f.to == if f.broken then e.to else hi
  {
  }

  // ------------------------------------------------------ whom Step shows

  /** The primary skipped sample `h` of page `n`, or lost some of the page: it is not merely
      late with it. */
  ghost predicate Gap(c: Config, a: Policy, p: int, n: nat, h: nat)
    requires ValidPolicy(c, a) && 0 <= p < c.members
  {
    var e := a.cov[p][n % c.pages];
    (e.valid && e.n == n && e.broken) || a.evHead[p] > h
  }

  /** From sample `h` on page `n` is shown from primary `p` while that holds it past `h`;
      otherwise from the first of the others that hold it farthest, if any holds it past
      `h`; otherwise as silence, with the lead the skew past `h`. */
  ghost predicate Chosen(c: Config, a: Policy, p: int, n: nat, h: nat, lead: nat, s: int)
    requires ValidPolicy(c, a) && 0 <= p < c.members
  {
    var slot := n % c.pages;
    if Upto(a.cov[p][slot], n) > h then s == p
    else if 0 <= s < c.members then
      && s != p && Upto(a.cov[s][slot], n) > h
      && (forall m :: 0 <= m < c.members ==> Upto(a.cov[m][slot], n) <= Upto(a.cov[s][slot], n))
      && (forall m :: 0 <= m < s ==> Upto(a.cov[m][slot], n) < Upto(a.cov[s][slot], n))
    else s == c.members && Unheld(c, a.cov, n, h) && h + c.skew <= lead
  }

  /** How far page `n` is shown from `s`. */
  function Reaches(c: Config, a: Policy, n: nat, lead: nat, s: int): nat
    requires ValidPolicy(c, a) && 0 <= s <= c.members
  {
    if s < c.members then Upto(a.cov[s][n % c.pages], n) else Min((n + 1) * PAGE, lead)
  }

  /** No wait at the head's page is over. */
  ghost predicate Fresh(c: Config, a: Policy, now: int) {
    a.waitingPage < a.head / PAGE || (a.waitingPage == a.head / PAGE && now - a.waitingSince < c.tolerance)
  }

  lemma TurnChosen(c: Config, a: Policy, now: int, lead: nat)
    requires ValidPolicy(c, a) && a.head < lead
    ensures var (turn, n) := (TakeTurn(c, a, now, lead).0, a.head / PAGE);
            turn.Advance? ==> Chosen(c, a, a.primary, n, a.head, lead, turn.source) && turn.upto == Reaches(c, a, n, lead, turn.source)
  {
    BestIsFirst(a, a.head / PAGE % c.pages, a.head / PAGE, c.members);
  }

  /** A turn shows another member at once where the primary has a gap, and otherwise only once
      the page has waited out the tolerance, and then makes it the primary. */
  lemma TurnReplaces(c: Config, a: Policy, now: int, lead: nat)
    requires ValidPolicy(c, a) && 0 < c.tolerance && a.waitingPage <= a.head / PAGE
    ensures var (turn, w) := TakeTurn(c, a, now, lead); var n := a.head / PAGE;
            && w.waitingPage <= n
            && (turn.Advance? && turn.source < c.members && turn.source != a.primary && !Gap(c, a, a.primary, n, a.head) ==>
                  a.waitingPage == n && now - a.waitingSince >= c.tolerance && w.primary == turn.source)
            && (w.primary != a.primary ==> a.waitingPage == n && now - a.waitingSince >= c.tolerance && !Gap(c, a, a.primary, n, a.head))
            && (turn.Wait? ==> w.waitingPage == n && w.waitingSince == if a.waitingPage == n then a.waitingSince else now)
            && (Fresh(c, a, now) ==> w.waitingPage == n ==> now - w.waitingSince < c.tolerance)
  {
  }

  lemma FreshNext(c: Config, a: Policy, now: int, lead: nat)
    requires ValidPolicy(c, a) && LeadOk(c, a, lead) && a.head < lead && 0 < c.tolerance && Fresh(c, a, now)
    ensures var (turn, w) := TakeTurn(c, a, now, lead);
            && w.primary == a.primary
            && (turn.Advance? ==> Fresh(c, Show(c, w, turn.source, turn.upto), now))
  {
    TurnReplaces(c, a, now, lead);
    TurnAdvances(c, a, now, lead);
  }

  /** With no wait over, Step keeps the primary. */
  lemma {:induction false} PrimaryStays(c: Config, a: Policy, now: int, lead: nat)
    requires ValidPolicy(c, a) && LeadOk(c, a, lead) && 0 < c.tolerance && Fresh(c, a, now)
    ensures StepLoop(c, a, now, lead).policy.primary == a.primary
    decreases lead - a.head
  {
    if a.head < lead {
      StepUnfolds(c, a, now, lead);
      FreshNext(c, a, now, lead);
      var (turn, w) := TakeTurn(c, a, now, lead);
      if turn.Advance? { PrimaryStays(c, Show(c, w, turn.source, turn.upto), now, lead); }
    }
  }

  /** A place a turn on page `n` can begin: where Step began, the page's start, or as far as
      some member holds the page. */
  ghost predicate Begins(c: Config, a: Policy, n: nat, h: nat)
    requires ValidPolicy(c, a)
  {
    h == a.head || h == n * PAGE || exists m :: 0 <= m < c.members && Upto(a.cov[m][n % c.pages], n) == h
  }

  /** The last turn on page `n` began at `h`, behind primary `p`, and showed `s`; another
      member than `p` only over a gap. If Step ended on the page, it ended where `s` reaches. */
  ghost predicate ShownFrom(c: Config, a: Policy, p: int, lead: nat, n: nat, end: nat, s: int, h: nat)
    requires ValidPolicy(c, a) && 0 <= p < c.members && 0 <= s <= c.members
  {
    && a.head <= h < end && h / PAGE == n && Begins(c, a, n, h) && Chosen(c, a, p, n, h, lead, s)
    && (s < c.members && s != p ==> Gap(c, a, p, n, h))
    && (end <= (n + 1) * PAGE ==> end == Reaches(c, a, n, lead, s))
  }

  /** A turn on page `n` that is the last on it. */
  lemma LastTurn(c: Config, a: Policy, now: int, lead: nat, end: nat)
    requires ValidPolicy(c, a) && LeadOk(c, a, lead) && a.head < lead && 0 < c.tolerance && a.waitingPage <= a.head / PAGE
    requires TakeTurn(c, a, now, lead).0.Advance? && TakeTurn(c, a, now, lead).1.primary == a.primary
    requires var upto := TakeTurn(c, a, now, lead).0.upto; upto <= end && (upto == end || upto / PAGE > a.head / PAGE)
    ensures ShownFrom(c, a, a.primary, lead, a.head / PAGE, end, TakeTurn(c, a, now, lead).0.source, a.head)
  {
    TurnChosen(c, a, now, lead);
    TurnReplaces(c, a, now, lead);
    TurnAdvances(c, a, now, lead);
    TurnInPage(c, a, now, lead);
  }

  /** Where a later turn begins, seen from before a turn. */
  lemma BeginsBefore(c: Config, a: Policy, now: int, lead: nat, n: nat, h: nat)
    requires ValidPolicy(c, a) && LeadOk(c, a, lead) && a.head < lead && TakeTurn(c, a, now, lead).0.Advance?
    requires var (turn, w) := TakeTurn(c, a, now, lead);
             turn.upto < lead && Begins(c, Show(c, w, turn.source, turn.upto), n, h) && h / PAGE == n && a.head / PAGE <= n
    ensures Begins(c, a, n, h)
  {
    var (turn, w) := TakeTurn(c, a, now, lead);
    TurnChosen(c, a, now, lead);
    TurnInPage(c, a, now, lead);
    if h == turn.upto && h != n * PAGE {
      assert Upto(a.cov[turn.source][n % c.pages], n) == h;
    }
  }

  /** Step's loop leaves page `n` on what some turn on it, behind primary `p`, chose. */
  ghost predicate PageShown(c: Config, a: Policy, p: int, lead: nat, n: nat, r: Policy)
    requires ValidPolicy(c, a) && ValidPolicy(c, r) && 0 <= p < c.members
  {
    exists h :: ShownFrom(c, a, p, lead, n, r.head, r.current[n % c.pages], h)
  }

  /** Choices go by coverage and reported heads alone. */
  lemma SameChoice(c: Config, a: Policy, b: Policy, p: int, n: nat, h: nat, lead: nat, s: int)
    requires ValidPolicy(c, a) && ValidPolicy(c, b) && b.cov == a.cov && b.evHead == a.evHead && 0 <= p < c.members && 0 <= s <= c.members
    ensures Chosen(c, b, p, n, h, lead, s) <==> Chosen(c, a, p, n, h, lead, s)
    ensures (Gap(c, b, p, n, h) <==> Gap(c, a, p, n, h)) && Reaches(c, b, n, lead, s) == Reaches(c, a, n, lead, s)
  {
  }

  /** A later turn's choice, seen from before a turn. */
  lemma ShownBefore(c: Config, a: Policy, b: Policy, now: int, lead: nat, n: nat, p: int, r: Policy)
    requires ValidPolicy(c, a) && LeadOk(c, a, lead) && a.head < lead && a.head / PAGE <= n && ValidPolicy(c, r) && 0 <= p < c.members
    requires var (turn, w) := TakeTurn(c, a, now, lead); turn.Advance? && turn.upto < lead && b == Show(c, w, turn.source, turn.upto)
    requires PageShown(c, b, p, lead, n, r)
    ensures PageShown(c, a, p, lead, n, r)
  {
    var h :| ShownFrom(c, b, p, lead, n, r.head, r.current[n % c.pages], h);
    TurnAdvances(c, a, now, lead);
    BeginsBefore(c, a, now, lead, n, h);
    SameChoice(c, a, b, p, n, h, lead, r.current[n % c.pages]);
    assert ShownFrom(c, a, p, lead, n, r.head, r.current[n % c.pages], h);
  }

  /** The page of the head, when its turn is the last on it. */
  lemma ShownNow(c: Config, a: Policy, b: Policy, now: int, lead: nat, r: Policy)
    requires ValidPolicy(c, a) && LeadOk(c, a, lead) && a.head < lead && 0 < c.tolerance && a.waitingPage <= a.head / PAGE
    requires ValidPolicy(c, r) && b.primary == a.primary
    requires var (turn, w) := TakeTurn(c, a, now, lead);
             turn.Advance? && r.current[a.head / PAGE % c.pages] == turn.source && b == Show(c, w, turn.source, turn.upto) && b.head <= r.head
             && (b.head == r.head || b.head / PAGE > a.head / PAGE)
    ensures PageShown(c, a, a.primary, lead, a.head / PAGE, r)
  {
    LastTurn(c, a, now, lead, r.head);
  }

  /** What the rest of Step leaves of the head's page after its last turn. */
  lemma LastStays(c: Config, b: Policy, now: int, lead: nat, n: nat)
    requires ValidPolicy(c, b) && LeadOk(c, b, lead)
    requires var head := StepLoop(c, b, now, lead).policy.head; head <= (n + c.pages) * PAGE && (b.head == head || b.head / PAGE > n)
    ensures StepLoop(c, b, now, lead).policy.current[n % c.pages] == b.current[n % c.pages]
  {
    if b.head / PAGE > n { StepUntouched(c, b, now, lead, n); } else { StepStill(c, b, now, lead); }
  }

  /** Behind a primary no wait of which is over, a page Step leaves on `s` began, at some
      sample it reached, where `s` is whom the primary's and the others' coverage choose;
      another member than the primary only where the primary has a gap. */
  lemma {:induction false} FreshPages(c: Config, a: Policy, now: int, lead: nat, n: nat)
    requires ValidPolicy(c, a) && LeadOk(c, a, lead) && a.head / PAGE <= n && 0 < c.tolerance && Fresh(c, a, now)
    requires var head := StepLoop(c, a, now, lead).policy.head; a.head < head && n * PAGE < head <= (n + c.pages) * PAGE
    ensures PageShown(c, a, a.primary, lead, n, StepLoop(c, a, now, lead).policy)
    decreases lead - a.head
  {
    FreshNext(c, a, now, lead);
    TurnInPage(c, a, now, lead);
    var (turn, w) := TakeTurn(c, a, now, lead);
    StepUnfolds(c, a, now, lead);
    var b := Show(c, w, turn.source, turn.upto);
    var r := StepLoop(c, b, now, lead).policy;
    StepEnds(c, b, now, lead);
    if a.head / PAGE == n && (b.head / PAGE > n || b.head == r.head) {
      LastStays(c, b, now, lead, n);
      ShownNow(c, a, b, now, lead, r);
    } else {
      FreshPages(c, b, now, lead, n);
      ShownBefore(c, a, b, now, lead, n, a.primary, r);
    }
  }

  /** A primary that holds page `n` past `g` is replaced in this Step, if at all, by one that
      does. */
  lemma {:induction false} NeverBack(c: Config, a: Policy, now: int, lead: nat, n: nat, g: nat)
    requires ValidPolicy(c, a) && LeadOk(c, a, lead) && 0 < c.tolerance && a.waitingPage <= a.head / PAGE
    requires g <= a.head && (a.head / PAGE == n || Fresh(c, a, now)) && Upto(a.cov[a.primary][n % c.pages], n) > g
    ensures var r := StepLoop(c, a, now, lead).policy; r.cov == a.cov && Upto(a.cov[r.primary][n % c.pages], n) > g
    decreases lead - a.head
  {
    StepEnds(c, a, now, lead);
    if a.head < lead {
      TurnReplaces(c, a, now, lead);
      TurnChosen(c, a, now, lead);
      TurnInPage(c, a, now, lead);
      if Fresh(c, a, now) { FreshNext(c, a, now, lead); }
      StepUnfolds(c, a, now, lead);
      var (turn, w) := TakeTurn(c, a, now, lead);
      if turn.Advance? { NeverBack(c, Show(c, w, turn.source, turn.upto), now, lead, n, g); }
    }
  }

  /** A primary Step ends with was not replaced by its first turn. */
  lemma NotReplaced(c: Config, a: Policy, now: int, lead: nat)
    requires ValidPolicy(c, a) && LeadOk(c, a, lead) && a.head < lead && 0 < c.tolerance && a.waitingPage <= a.head / PAGE
    requires TakeTurn(c, a, now, lead).0.Advance? && StepLoop(c, a, now, lead).policy.primary == a.primary
    ensures TakeTurn(c, a, now, lead).1.primary == a.primary
  {
    var (turn, w) := TakeTurn(c, a, now, lead);
    if w.primary != a.primary {
      var n := a.head / PAGE;
      TurnReplaces(c, a, now, lead);
      TurnChosen(c, a, now, lead);
      TurnInPage(c, a, now, lead);
      StepUnfolds(c, a, now, lead);
      NeverBack(c, Show(c, w, turn.source, turn.upto), now, lead, n, a.head);
    }
  }

  /** `b` is what the first turn of a Step leaves, and leaves the primary in place. */
  ghost predicate Follows(c: Config, a: Policy, now: int, lead: nat, b: Policy)
    requires ValidPolicy(c, a)
  {
    var (turn, w) := TakeTurn(c, a, now, lead);
    a.head < lead && turn.Advance? && b == Show(c, w, turn.source, turn.upto) && b.primary == a.primary
  }

  /** The first turn of a Step that moves the head and leaves the primary in place. */
  lemma FirstTurn(c: Config, a: Policy, now: int, lead: nat) returns (b: Policy)
    requires ValidPolicy(c, a) && LeadOk(c, a, lead) && 0 < c.tolerance && a.waitingPage <= a.head / PAGE
    requires var r := StepLoop(c, a, now, lead).policy; r.primary == a.primary && a.head < r.head
    ensures ValidPolicy(c, b) && Follows(c, a, now, lead, b) && LeadOk(c, b, lead)
    ensures b.waitingPage <= a.head / PAGE && b.primary == a.primary
    ensures a.head < b.head <= Min((a.head / PAGE + 1) * PAGE, lead)
    ensures StepLoop(c, a, now, lead).policy == StepLoop(c, b, now, lead).policy && b.head <= StepLoop(c, b, now, lead).policy.head <= lead
  {
    TurnReplaces(c, a, now, lead);
    TurnInPage(c, a, now, lead);
    StepUnfolds(c, a, now, lead);
    var (turn, w) := TakeTurn(c, a, now, lead);
    NotReplaced(c, a, now, lead);
    b := Show(c, w, turn.source, turn.upto);
    StepEnds(c, b, now, lead);
  }

  lemma HeadsLast(c: Config, a: Policy, now: int, lead: nat, b: Policy)
    requires ValidPolicy(c, a) && LeadOk(c, a, lead) && 0 < c.tolerance && a.waitingPage <= a.head / PAGE
    requires ValidPolicy(c, b) && LeadOk(c, b, lead) && Follows(c, a, now, lead, b)
    requires var r := StepLoop(c, b, now, lead).policy;
             b.head <= r.head <= (a.head / PAGE + c.pages) * PAGE && (b.head / PAGE > a.head / PAGE || b.head == r.head)
    ensures PageShown(c, a, a.primary, lead, a.head / PAGE, StepLoop(c, b, now, lead).policy)
  {
    LastStays(c, b, now, lead, a.head / PAGE);
    ShownNow(c, a, b, now, lead, StepLoop(c, b, now, lead).policy);
  }

  lemma HeadsMore(c: Config, a: Policy, now: int, lead: nat, b: Policy, r: Policy)
    requires ValidPolicy(c, a) && LeadOk(c, a, lead) && ValidPolicy(c, b) && ValidPolicy(c, r) && Follows(c, a, now, lead, b)
    requires b.head < lead && PageShown(c, b, a.primary, lead, a.head / PAGE, r)
    ensures PageShown(c, a, a.primary, lead, a.head / PAGE, r)
  {
    ShownBefore(c, a, b, now, lead, a.head / PAGE, a.primary, r);
  }

  /** The head's page `n`, in a Step that leaves the primary `p` in place. */
  lemma {:induction false} HeadsPage(c: Config, a: Policy, now: int, lead: nat, n: nat, p: int)
    requires ValidPolicy(c, a) && LeadOk(c, a, lead) && 0 < c.tolerance && a.waitingPage <= n == a.head / PAGE && p == a.primary
    requires var r := StepLoop(c, a, now, lead).policy; r.primary == p && a.head < r.head <= (n + c.pages) * PAGE
    ensures PageShown(c, a, p, lead, n, StepLoop(c, a, now, lead).policy)
    decreases lead - a.head
  {
    var b := FirstTurn(c, a, now, lead);
    var r := StepLoop(c, b, now, lead).policy;
    if b.head / PAGE > n || b.head == r.head {
      HeadsLast(c, a, now, lead, b);
    } else {
      assert b.head / PAGE == n;
      HeadsPage(c, b, now, lead, n, p);
      HeadsMore(c, a, now, lead, b, r);
    }
  }

  /** Behind any primary: one replaced on the first page leaves the later ones to the primary
      Step ends with. */
  lemma {:induction false} LaterPages(c: Config, a: Policy, now: int, lead: nat, n: nat)
    requires ValidPolicy(c, a) && LeadOk(c, a, lead) && a.head / PAGE < n && 0 < c.tolerance && a.waitingPage <= a.head / PAGE
    requires var head := StepLoop(c, a, now, lead).policy.head; a.head < head && n * PAGE < head <= (n + c.pages) * PAGE
    ensures var r := StepLoop(c, a, now, lead).policy; PageShown(c, a, r.primary, lead, n, r)
    decreases lead - a.head
  {
    TurnReplaces(c, a, now, lead);
    TurnInPage(c, a, now, lead);
    var (turn, w) := TakeTurn(c, a, now, lead);
    StepUnfolds(c, a, now, lead);
    var b := Show(c, w, turn.source, turn.upto);
    var r := StepLoop(c, b, now, lead).policy;
    StepEnds(c, b, now, lead);
    if b.head / PAGE > a.head / PAGE {
      PrimaryStays(c, b, now, lead);
      FreshPages(c, b, now, lead, n);
    } else {
      LaterPages(c, b, now, lead, n);
    }
    ShownBefore(c, a, b, now, lead, n, r.primary, r);
  }

  /** One turn's part in replacing the primary. */
  ghost predicate Replaces(c: Config, a: Policy, now: int, r: StepResult) {
    && a.head <= r.policy.head
    && (r.policy.primary != a.primary ==> a.waitingPage == a.head / PAGE && now - a.waitingSince >= c.tolerance)
    && (r.wait > 0 ==> r.policy.waitingSince == if a.waitingPage == r.policy.head / PAGE then a.waitingSince else now)
  }

  lemma ReplacesBefore(c: Config, a: Policy, now: int, lead: nat, b: Policy, r: StepResult)
    requires ValidPolicy(c, a) && LeadOk(c, a, lead) && a.head < lead && 0 < c.tolerance && a.waitingPage <= a.head / PAGE
    requires var (turn, w) := TakeTurn(c, a, now, lead); turn.Advance? && b == Show(c, w, turn.source, turn.upto)
    requires Replaces(c, b, now, r) && (Fresh(c, a, now) ==> r.policy.primary == a.primary)
    ensures Replaces(c, a, now, r)
  {
    TurnReplaces(c, a, now, lead);
    TurnAdvances(c, a, now, lead);
  }

  /** Step's loop replaces the primary only on the head's page, once that has waited out the
      tolerance; and a wait runs from when the page was first found waiting. */
  lemma {:induction false} LoopReplaces(c: Config, a: Policy, now: int, lead: nat)
    requires ValidPolicy(c, a) && LeadOk(c, a, lead) && 0 < c.tolerance && a.waitingPage <= a.head / PAGE
    ensures Replaces(c, a, now, StepLoop(c, a, now, lead))
    decreases lead - a.head
  {
    if a.head < lead {
      if Fresh(c, a, now) { PrimaryStays(c, a, now, lead); }
      TurnReplaces(c, a, now, lead);
      TurnAdvances(c, a, now, lead);
      StepUnfolds(c, a, now, lead);
      var (turn, w) := TakeTurn(c, a, now, lead);
      if turn.Advance? {
        var b := Show(c, w, turn.source, turn.upto);
        LoopReplaces(c, b, now, lead);
        ReplacesBefore(c, a, now, lead, b, StepLoop(c, b, now, lead));
      }
    }
  }

  /** How Step ends, with the greatest reported head as its lead, when it replaces the
      primary, and from when it waits. */
  lemma {:induction false} StepStops(c: Config, a: Policy, now: int, lead: nat)
    requires ValidPolicy(c, a) && Greatest(a.evHead, lead) && a.started && 0 < c.tolerance && a.waitingPage <= a.head / PAGE
    ensures var r := Step(c, a, now);
            a.head <= r.policy.head <= Max(a.head, lead) && Ended(c, r, now, lead) && Replaces(c, a, now, r)
  {
    LeadIs(a.evHead, lead);
    StepEnds(c, a, now, lead);
    LoopReplaces(c, a, now, lead);
  }

  /** Every page Step publishes of, if its slot has not come round again, is left on what its
      last turn chose: the primary while that holds the page; another member only over a gap
      of the primary; silence only where nobody holds it and the lead is the skew past. The
      primary is the one Step ends with, except on the head's page when Step replaces it. */
  lemma {:induction false} StepPages(c: Config, a: Policy, now: int, lead: nat, n: nat)
    requires ValidPolicy(c, a) && Greatest(a.evHead, lead) && a.started && 0 < c.tolerance && a.waitingPage <= a.head / PAGE
    requires var head := Step(c, a, now).policy.head; a.head < head && n * PAGE < head <= (n + c.pages) * PAGE
    requires a.head / PAGE < n || (a.head / PAGE == n && Step(c, a, now).policy.primary == a.primary)
    ensures var r := Step(c, a, now).policy; PageShown(c, a, r.primary, lead, n, r)
  {
    LeadIs(a.evHead, lead);
    if a.head / PAGE == n {
      HeadsPage(c, a, now, lead, n, a.primary);
    } else {
      LaterPages(c, a, now, lead, n);
    }
  }

  // ------------------------------------------------------------- selects

  /** Selects that turn `view` into `last`, one after the other, each changing its page. */
  ghost predicate Turns(view: seq<int>, sels: seq<PageSelect>, last: seq<int>)
    decreases |sels|
  {
    if sels == [] then view == last
    else
      && sels[0].page < |view| && sels[0].source != view[sels[0].page]
      && Turns(view[sels[0].page := sels[0].source], sels[1..], last)
  }

  lemma TurnsOne(view: seq<int>, sel: PageSelect, rest: seq<PageSelect>, last: seq<int>)
    requires sel.page < |view| && sel.source != view[sel.page] && Turns(view[sel.page := sel.source], rest, last)
    ensures Turns(view, [sel] + rest, last)
  {
    assert ([sel] + rest)[1..] == rest;
  }

  /** Step's selects turn what was shown into what Step shows. */
  lemma {:induction false} StepSelects(c: Config, a: Policy, now: int, lead: nat)
    requires ValidPolicy(c, a) && LeadOk(c, a, lead)
    ensures var r := StepLoop(c, a, now, lead); Turns(a.current, r.selects, r.policy.current)
    decreases lead - a.head
  {
    if a.head < lead {
      StepUnfolds(c, a, now, lead);
      var (turn, w) := TakeTurn(c, a, now, lead);
      if turn.Advance? {
        var (b, p) := (Show(c, w, turn.source, turn.upto), a.head / PAGE % c.pages);
        var rest := StepLoop(c, b, now, lead);
        StepSelects(c, b, now, lead);
        if a.current[p] == turn.source {
          assert b.current == a.current && [] + rest.selects == rest.selects;
        } else {
          TurnsOne(a.current, PageSelect(p, turn.source), rest.selects, rest.policy.current);
        }
      }
    }
  }

  /** Retire's selects do. */
  lemma {:induction false} RetireSelects(c: Config, cov: seq<seq<Coverage>>, head: nat, current: seq<int>, bounds: seq<nat>, n: nat)
    requires ValidCov(c, cov) && Sources(c, current) && |bounds| == c.members
    ensures var r := RetireLoop(c, cov, head, current, bounds, n); Turns(current, r.selects, r.current)
    decreases head - n * PAGE
  {
    var first := Max(Low(c, head), n * PAGE);
    if first < head && first < Most(c, bounds, c.members) {
      var move := MoveOf(c, cov, head, current, bounds, n);
      var rest := RetireLoop(c, cov, head, move.current, bounds, n + 1);
      RetireSelects(c, cov, head, move.current, bounds, n + 1);
      if move.selects == [] {
        assert [] + rest.selects == rest.selects;
      } else {
        TurnsOne(current, move.selects[0], rest.selects, rest.current);
      }
    }
    RetireUnfolds(c, cov, head, current, bounds, n);
  }

  /** Drop's selects do. */
  lemma {:induction false} DropSelects(c: Config, a: Policy, current: seq<int>, m: nat, p: nat)
    requires ValidPolicy(c, a) && Sources(c, current) && m < c.members && p <= c.pages
    ensures var r := DropLoop(c, a, current, m, p); Turns(current, r.selects, r.current)
    decreases c.pages - p
  {
    if p < c.pages {
      if current[p] == m {
        var to := DropTarget(c, a.cov, a.head, m, p);
        var rest := DropLoop(c, a, current[p := to], m, p + 1);
        DropSelects(c, a, current[p := to], m, p + 1);
        TurnsOne(current, PageSelect(p, to), rest.selects, rest.current);
      } else {
        DropSelects(c, a, current, m, p + 1);
      }
    }
  }

  // ---------------------------------------------------------------- Retire

  /** The first trusted sample of page `n`. */
  function FirstTrusted(c: Config, head: nat, n: nat): nat { Max(head - Min(head, c.Length() / 2), n * PAGE) }

  /** Page `n` has a sample readers trust. */
  ghost predicate Trusted(c: Config, head: nat, n: nat) {
    n * PAGE < head && head - Min(head, c.Length() / 2) < (n + 1) * PAGE
  }

  /** Taken to write on from its last report or what is due, by what the clock advances and
      another batch, member `m` leaves the page's first trusted sample alone. */
  ghost predicate Clears(c: Config, a: Policy, due: nat, n: nat, m: int)
    requires ValidPolicy(c, a) && 0 <= m < c.members
  {
    Max(a.evHead[m], due) + c.ahead + a.batch[m] <= FirstTrusted(c, a.head, n) + c.Length()
  }

  lemma ClearsIs(c: Config, a: Policy, due: nat, n: nat, m: int)
    requires ValidPolicy(c, a) && 0 <= m < c.members
    ensures AtRisk(c, WriteBounds(c, a, due), m, FirstTrusted(c, a.head, n)) <==> !Clears(c, a, due, n, m)
    ensures Clears(c, a, due, n, m) <==> FirstTrusted(c, a.head, n) >= Intact(c, WriteBounds(c, a, due)[m])
  {
  }

  /** After Retire every page readers trust is shown from silence or from a member that
      clears it. A page that was so before is not moved; any other goes to the least other
      member that holds it whole and clears it, or to silence. */
  lemma {:induction false} RetireClears(c: Config, a: Policy, due: nat, n: nat)
    requires ValidPolicy(c, a) && a.started && Trusted(c, a.head, n)
    ensures var r := Retire(c, a, due).policy; var p := n % c.pages; var (s, cur) := (r.current[p], a.current[p]);
            && r == a.(current := r.current) && 0 <= s <= c.members
            && (s < c.members ==> Clears(c, a, due, n, s))
            && (cur == c.members || Clears(c, a, due, n, cur) ==> s == cur)
            && (s != cur && s < c.members ==> Whole(a.cov[s][p], n, a.head))
            && (s != cur ==> forall m :: 0 <= m < s && m != cur ==> !(Whole(a.cov[m][p], n, a.head) && Clears(c, a, due, n, m)))
  {
    var bounds := WriteBounds(c, a, due);
    RetireExact(c, a.cov, a.head, a.current, bounds, Low(c, a.head) / PAGE, n);
    forall m | 0 <= m < c.members
      ensures AtRisk(c, bounds, m, FirstTrusted(c, a.head, n)) <==> !Clears(c, a, due, n, m)
      ensures Clears(c, a, due, n, m) <==> FirstTrusted(c, a.head, n) >= Intact(c, bounds[m])
    {
      ClearsIs(c, a, due, n, m);
    }
  }

  lemma {:induction false} LoopTouches(c: Config, cov: seq<seq<Coverage>>, head: nat, current: seq<int>, bounds: seq<nat>, from: nat, p: nat)
    requires ValidCov(c, cov) && Sources(c, current) && |bounds| == c.members && p < c.pages
    requires RetireLoop(c, cov, head, current, bounds, from).current[p] != current[p]
    ensures exists n: nat :: from <= n && n % c.pages == p && n * PAGE < head
    decreases head - from * PAGE
  {
    RetireUnfolds(c, cov, head, current, bounds, from);
    if from % c.pages != p { LoopTouches(c, cov, head, MoveOf(c, cov, head, current, bounds, from).current, bounds, from + 1, p); }
  }

  /** Retire moves no slot without a page readers trust. */
  lemma {:induction false} RetireTouches(c: Config, a: Policy, due: nat, p: nat)
    requires ValidPolicy(c, a) && p < c.pages && Retire(c, a, due).policy.current[p] != a.current[p]
    ensures exists n: nat :: n % c.pages == p && Trusted(c, a.head, n)
  {
    LoopTouches(c, a.cov, a.head, a.current, WriteBounds(c, a, due), Low(c, a.head) / PAGE, p);
    var n: nat :| Low(c, a.head) / PAGE <= n && n % c.pages == p && n * PAGE < a.head;
    assert Trusted(c, a.head, n);
  }

  // ------------------------------------------------------------------ Drop

  /** Drop moves a page slot off the member to the least other member that holds the page the
      slot shows below the head whole, and to silence when none does or the slot shows none. */
  lemma {:induction false} DropFinds(c: Config, a: Policy, m: nat, p: nat, n: nat)
    requires ValidPolicy(c, a) && m < c.members && p < c.pages && a.current[p] == m
    ensures var s := Drop(c, a, m).policy.current[p];
            && (n % c.pages == p && n * PAGE < a.head <= (n + c.pages) * PAGE ==>
                  && 0 <= s <= c.members && s != m && (s < c.members ==> Whole(a.cov[s][p], n, a.head))
                  && forall o :: 0 <= o < s && o != m ==> !Whole(a.cov[o][p], n, a.head))
            && (a.head <= p * PAGE ==> s == c.members)
  {
    DropExact(c, a, a.current, m, 0);
    if a.head > 0 {
      var last := (a.head - 1) / PAGE;
      if n % c.pages == p && n * PAGE < a.head <= (n + c.pages) * PAGE { BehindIs(last, p, c.pages, n); }
      if a.head <= p * PAGE {
        Split(last, c.pages, 0, last);
        Split(last + c.pages - p, c.pages, 0, last + c.pages - p);
      }
    }
  }

  /** Drop moves nothing else: neither the head, nor whom Step goes by, nor any other
      member's coverage, head or batch. */
  lemma DropKeeps(c: Config, a: Policy, m: nat, o: nat)
    requires ValidPolicy(c, a) && m < c.members && o < c.members
    ensures var r := Drop(c, a, m).policy;
            && r.head == a.head && r.started == a.started && r.primary == a.primary
            && r.waitingPage == a.waitingPage && r.waitingSince == a.waitingSince && r.batch == a.batch
            && (o != m ==> r.cov[o] == a.cov[o] && r.evHead[o] == a.evHead[o])
  {
  }
}
