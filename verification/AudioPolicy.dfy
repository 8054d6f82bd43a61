/** The audio merge policy of gateway/internal/merge/policy.go: which member each page
    of a merged flow's channel rings shows, from the sample ranges the members are
    reported to have committed.

    `Commit`, `Step`, `Retire` and `Drop` give the operations as functions of the
    policy's state; the class `Audio` of module AudioMerge runs them in place and is
    proved against them. */
module AudioPolicy {
  import opened Common
  import opened Ring

  /** 32-bit samples in one page of a channel. */
  const PAGE: nat := 1024

  /** What one member holds of the page in one ring slot: of page `n`, samples
      [n * PAGE, to) arrived without a gap; `broken` when a gap followed. */
  datatype Coverage = Coverage(n: nat, to: nat, broken: bool, valid: bool)

  const NOTHING := Coverage(0, 0, false, false)

  /** Sources 0..members-1 are the members and source `members` is silence. `ahead`
      is how many samples the clock advances between two passes. */
  datatype Config = Config(pages: nat, members: nat, skew: nat, tolerance: int, ahead: nat) {
    ghost predicate Valid() {
      2 <= pages && 1 <= members
    }

    function Length(): nat { pages * PAGE }
  }

  datatype Policy = Policy(
    head: nat, primary: int, current: seq<int>,
    cov: seq<seq<Coverage>>, evHead: seq<nat>, batch: seq<nat>,
    started: bool, waitingPage: int, waitingSince: int)

  ghost predicate Sources(c: Config, current: seq<int>) {
    |current| == c.pages && forall p :: 0 <= p < |current| ==> 0 <= current[p] <= c.members
  }

  ghost predicate CoverageOk(e: Coverage, evHead: nat) {
    e.valid ==> e.n * PAGE <= e.to <= (e.n + 1) * PAGE && e.to <= evHead
  }

  ghost predicate RingOk(c: Config, ring: seq<Coverage>, evHead: nat) {
    |ring| == c.pages && forall p :: 0 <= p < |ring| ==> CoverageOk(ring[p], evHead)
  }

  ghost predicate ValidCov(c: Config, cov: seq<seq<Coverage>>) {
    c.Valid() && |cov| == c.members && forall m :: 0 <= m < |cov| ==> |cov[m]| == c.pages
  }

  ghost predicate ValidPolicy(c: Config, a: Policy) {
    && c.Valid() && Sources(c, a.current) && 0 <= a.primary < c.members
    && |a.cov| == |a.evHead| == |a.batch| == c.members
    && (forall m :: 0 <= m < |a.cov| ==> RingOk(c, a.cov[m], a.evHead[m]))
  }

  // ------------------------------------------------------------- Committed

  /** A commit's part [lo, hi) of page `n`, entered into the page's slot. */
  function CommitPage(e: Coverage, n: nat, lo: nat, hi: nat): Coverage {
    var f := if !e.valid || e.n != n then Coverage(n, n * PAGE, false, true) else e;
    if lo != f.to then f.(broken := true)
    else if !f.broken then f.(to := hi)
    else f
  }

  function CommitPages(c: Config, ring: seq<Coverage>, start: nat, end: nat, n: nat): (r: seq<Coverage>)
    requires c.Valid() && |ring| == c.pages
    ensures |r| == c.pages
    decreases end - n * PAGE
  {
    if n * PAGE >= end then ring
    else
      var e := CommitPage(ring[n % c.pages], n, Max(start, n * PAGE), Min(end, (n + 1) * PAGE));
      CommitPages(c, ring[n % c.pages := e], start, end, n + 1)
  }

  lemma CommitPagesOk(c: Config, ring: seq<Coverage>, start: nat, end: nat, n: nat, evHead: nat)
    requires c.Valid() && RingOk(c, ring, evHead) && start < end <= evHead && start < (n + 1) * PAGE
    ensures RingOk(c, CommitPages(c, ring, start, end, n), evHead)
    decreases end - n * PAGE
  {
    if n * PAGE < end {
      var e := CommitPage(ring[n % c.pages], n, Max(start, n * PAGE), Min(end, (n + 1) * PAGE));
      CommitPagesOk(c, ring[n % c.pages := e], start, end, n + 1, evHead);
    }
  }

  /** Member `m` committed samples [start, end). The first commit sets the head to
      the first page boundary on. */
  function Commit(c: Config, a: Policy, m: nat, start: nat, end: nat): (r: Policy)
    requires ValidPolicy(c, a) && m < c.members && start < end
    ensures ValidPolicy(c, r)
  {
    var b := if a.started then a else a.(head := (start + PAGE - 1) / PAGE * PAGE, started := true);
    var evHead := Max(a.evHead[m], end);
    CommitPagesOk(c, a.cov[m], start, end, start / PAGE, evHead);
    b.(cov := a.cov[m := CommitPages(c, a.cov[m], start, end, start / PAGE)],
       evHead := a.evHead[m := evHead],
       batch := a.batch[m := Min(end - start, c.pages * PAGE / 2)])
  }

  // ------------------------------------------------------------------ Step

  function Lead(evHead: seq<nat>, n: nat): (r: nat)
    requires n <= |evHead|
    ensures forall m :: 0 <= m < n ==> evHead[m] <= r
  {
    if n == 0 then 0 else Max(Lead(evHead, n - 1), evHead[n - 1])
  }

  /** How far a slot holds page `n` without a gap; 0 when it does not. */
  function Upto(e: Coverage, n: nat): nat {
    if e.valid && e.n == n && !e.broken then e.to else 0
  }

  /** Of the first `k` members other than the primary, the first that holds the page
      farthest past the head; -1 when none holds it past the head. */
  function BestOther(a: Policy, p: nat, n: nat, k: nat): (r: int)
    requires k <= |a.cov| && forall m :: 0 <= m < |a.cov| ==> p < |a.cov[m]|
    ensures r == -1 <==> forall m :: 0 <= m < k && m != a.primary ==> Upto(a.cov[m][p], n) <= a.head
    ensures r != -1 ==> 0 <= r < k && r != a.primary && Upto(a.cov[r][p], n) > a.head
    ensures r != -1 ==> forall m :: 0 <= m < k && m != a.primary ==> Upto(a.cov[m][p], n) <= Upto(a.cov[r][p], n)
  {
    if k == 0 then -1
    else
      var m, b := k - 1, BestOther(a, p, n, k - 1);
      if m != a.primary && Upto(a.cov[m][p], n) > a.head && (b < 0 || Upto(a.cov[m][p], n) > Upto(a.cov[b][p], n)) then m
      else b
  }

  /** Of those that hold it as far, it is the first. */
  lemma BestIsFirst(a: Policy, p: nat, n: nat, k: nat)
    requires k <= |a.cov| && forall m :: 0 <= m < |a.cov| ==> p < |a.cov[m]|
    ensures var r := BestOther(a, p, n, k);
            r != -1 ==> forall m :: 0 <= m < r && m != a.primary ==> Upto(a.cov[m][p], n) < Upto(a.cov[r][p], n)
  {
  }

  datatype Turn = Advance(source: int, upto: nat) | Wait(remaining: int) | Stop

  function TakeTurn(c: Config, a: Policy, now: int, lead: nat): (r: (Turn, Policy))
    requires ValidPolicy(c, a)
    ensures ValidPolicy(c, r.1)
    ensures r.1 == a.(primary := r.1.primary, waitingPage := r.1.waitingPage, waitingSince := r.1.waitingSince)
    ensures r.0.Advance? ==> 0 <= r.0.source <= c.members
  {
    var n := a.head / PAGE;
    var p := n % c.pages;
    var mine := a.cov[a.primary][p];
    var alt := BestOther(a, p, n, c.members);
    if Upto(mine, n) > a.head then (Advance(a.primary, Upto(mine, n)), a)
    else if alt >= 0 then
      var w := if a.waitingPage != n then a.(waitingPage := n, waitingSince := now) else a;
      var gap := (mine.valid && mine.n == n && mine.broken) || a.evHead[a.primary] > a.head;
      if gap then (Advance(alt, Upto(a.cov[alt][p], n)), w)
      else if now - w.waitingSince >= c.tolerance then (Advance(alt, Upto(a.cov[alt][p], n)), w.(primary := alt))
      else (Wait(c.tolerance - (now - w.waitingSince)), w)
    else if lead < a.head + c.skew then (Stop, a)
    else (Advance(c.members, Min((n + 1) * PAGE, lead)), a)
  }

  datatype PageSelect = PageSelect(page: nat, source: int)

  function SelectOf(current: seq<int>, p: nat, source: int): seq<PageSelect>
    requires p < |current|
  {
    if current[p] == source then [] else [PageSelect(p, source)]
  }

  /** The state after the head's page is shown from `source`, up to `upto`. */
  function Show(c: Config, a: Policy, source: int, upto: nat): (r: Policy)
    requires ValidPolicy(c, a) && 0 <= source <= c.members
    ensures ValidPolicy(c, r)
  {
    a.(head := upto, current := a.current[a.head / PAGE % c.pages := source])
  }

  datatype StepResult = StepResult(policy: Policy, selects: seq<PageSelect>, wait: int)

  /** The lead is never behind the coverage it is taken from, so each turn moves the
      head and none past the lead. */
  lemma TurnAdvances(c: Config, a: Policy, now: int, lead: nat)
    requires ValidPolicy(c, a) && a.head < lead && forall m :: 0 <= m < c.members ==> a.evHead[m] <= lead
    ensures var turn := TakeTurn(c, a, now, lead).0; turn.Advance? ==> a.head < turn.upto <= lead
  {
    var p := a.head / PAGE % c.pages;
    forall m | 0 <= m < c.members ensures CoverageOk(a.cov[m][p], a.evHead[m]) {
      assert RingOk(c, a.cov[m], a.evHead[m]);
    }
  }

  ghost predicate LeadOk(c: Config, a: Policy, lead: nat)
    requires |a.evHead| == c.members
  {
    forall m :: 0 <= m < c.members ==> a.evHead[m] <= lead
  }

  function StepLoop(c: Config, a: Policy, now: int, lead: nat): (r: StepResult)
    requires ValidPolicy(c, a) && LeadOk(c, a, lead)
    ensures ValidPolicy(c, r.policy)
    decreases lead - a.head
  {
    if a.head >= lead then StepResult(a, [], 0)
    else
      TurnAdvances(c, a, now, lead);
      var (turn, w) := TakeTurn(c, a, now, lead);
      match turn
      case Stop => StepResult(w, [], 0)
      case Wait(remaining) => StepResult(w, [], remaining)
      case Advance(source, upto) =>
        var rest := StepLoop(c, Show(c, w, source, upto), now, lead);
        StepResult(rest.policy, SelectOf(a.current, a.head / PAGE % c.pages, source) + rest.selects, rest.wait)
  }

  /** One turn of the loop, taken off the front. */
  lemma StepUnfolds(c: Config, a: Policy, now: int, lead: nat)
    requires ValidPolicy(c, a) && LeadOk(c, a, lead) && a.head < lead
    ensures var (turn, w) := TakeTurn(c, a, now, lead);
            if turn.Advance? then
              a.head < turn.upto <= lead &&
              var rest := StepLoop(c, Show(c, w, turn.source, turn.upto), now, lead);
              StepLoop(c, a, now, lead) ==
              StepResult(rest.policy, SelectOf(a.current, a.head / PAGE % c.pages, turn.source) + rest.selects, rest.wait)
            else
              StepLoop(c, a, now, lead) == StepResult(w, [], if turn.Wait? then turn.remaining else 0)
  {
    TurnAdvances(c, a, now, lead);
  }

  /** One whole turn: what it decides, the policy it leaves, and its selects. */
  ghost predicate Turned(c: Config, a: Policy, now: int, lead: nat, turn: Turn, b: Policy, selects: seq<PageSelect>)
    requires ValidPolicy(c, a)
  {
    var (t, w) := TakeTurn(c, a, now, lead);
    && turn == t
    && b == (if t.Advance? then Show(c, w, t.source, t.upto) else w)
    && selects == if t.Advance? then SelectOf(a.current, a.head / PAGE % c.pages, t.source) else []
  }

  /** The loop is at `a`, with `selects` so far, on its way to `whole`. */
  ghost predicate Stepping(c: Config, now: int, lead: nat, whole: StepResult, a: Policy, selects: seq<PageSelect>)
    requires ValidPolicy(c, a) && LeadOk(c, a, lead)
  {
    var rest := StepLoop(c, a, now, lead);
    whole == StepResult(rest.policy, selects + rest.selects, rest.wait)
  }

  lemma SteppingStarts(c: Config, now: int, lead: nat, a: Policy)
    requires ValidPolicy(c, a) && LeadOk(c, a, lead)
    ensures Stepping(c, now, lead, StepLoop(c, a, now, lead), a, [])
  {
    var rest := StepLoop(c, a, now, lead);
    assert [] + rest.selects == rest.selects;
  }

  lemma SteppingTurns(c: Config, now: int, lead: nat, whole: StepResult, a: Policy, selects: seq<PageSelect>,
                      turn: Turn, b: Policy, sel: seq<PageSelect>)
    requires ValidPolicy(c, a) && LeadOk(c, a, lead) && a.head < lead && Stepping(c, now, lead, whole, a, selects)
    requires Turned(c, a, now, lead, turn, b, sel)
    ensures turn.Advance? ==>
              && ValidPolicy(c, b) && LeadOk(c, b, lead) && a.head < b.head
              && Stepping(c, now, lead, whole, b, selects + sel)
    ensures !turn.Advance? ==> whole == StepResult(b, selects, if turn.Wait? then turn.remaining else 0)
  {
    StepUnfolds(c, a, now, lead);
    if turn.Advance? {
      var rest := StepLoop(c, b, now, lead);
      assert selects + (sel + rest.selects) == (selects + sel) + rest.selects;
    } else {
      assert selects + [] == selects;
    }
  }

  lemma SteppingEnds(c: Config, now: int, lead: nat, whole: StepResult, a: Policy, selects: seq<PageSelect>)
    requires ValidPolicy(c, a) && LeadOk(c, a, lead) && lead <= a.head && Stepping(c, now, lead, whole, a, selects)
    ensures whole == StepResult(a, selects, 0)
  {
    assert selects + [] == selects;
  }

  function Step(c: Config, a: Policy, now: int): (r: StepResult)
    requires ValidPolicy(c, a)
    ensures ValidPolicy(c, r.policy)
  {
    if a.started then StepLoop(c, a, now, Lead(a.evHead, |a.evHead|)) else StepResult(a, [], 0)
  }

  // ---------------------------------------------------------------- Retire

  /** A slot holds all that is published of page `n`. */
  predicate Whole(e: Coverage, n: nat, head: nat) {
    e.valid && e.n == n && !e.broken && e.to >= Min((n + 1) * PAGE, head)
  }

  /** The first sample each member writes no further than, before the next pass. */
  function WriteBounds(c: Config, a: Policy, due: nat): (r: seq<nat>)
    requires |a.evHead| == |a.batch| == c.members
    ensures |r| == c.members
  {
    seq(c.members, m requires 0 <= m < c.members => Max(a.evHead[m], due) + c.ahead + a.batch[m])
  }

  /** The first sample a member writing up to `bound` does not overwrite. */
  function Intact(c: Config, bound: nat): nat { bound - Min(bound, c.Length()) }

  function Most(c: Config, bounds: seq<nat>, n: nat): (r: nat)
    requires n <= |bounds|
    ensures forall m :: 0 <= m < n ==> Intact(c, bounds[m]) <= r
  {
    if n == 0 then 0 else Max(Most(c, bounds, n - 1), Intact(c, bounds[n - 1]))
  }

  /** The oldest sample readers trust under a published head. */
  function Low(c: Config, head: nat): nat { head - Min(head, c.Length() / 2) }

  /** The first member from `from` on, other than `cur`, that holds page `n` whole and
      will not write over `first`; silence when there is none. */
  function Heir(c: Config, cov: seq<seq<Coverage>>, head: nat, bounds: seq<nat>, cur: int, n: nat, first: nat, from: nat): (r: int)
    requires ValidCov(c, cov) && |bounds| == c.members && from <= c.members
    ensures from <= r <= c.members
    ensures r < c.members ==> r != cur && Whole(cov[r][n % c.pages], n, head) && first >= Intact(c, bounds[r])
    ensures forall m :: from <= m < r && m != cur ==>
              !(Whole(cov[m][n % c.pages], n, head) && first >= Intact(c, bounds[m]))
    decreases c.members - from
  {
    if from == c.members then c.members
    else if from != cur && Whole(cov[from][n % c.pages], n, head) && first >= Intact(c, bounds[from]) then from
    else Heir(c, cov, head, bounds, cur, n, first, from + 1)
  }

  datatype Moves = Moves(current: seq<int>, selects: seq<PageSelect>)

  predicate AtRisk(c: Config, bounds: seq<nat>, cur: int, first: nat)
    requires 0 <= cur <= c.members == |bounds|
  {
    cur != c.members && first < Intact(c, bounds[cur])
  }

  function RetireLoop(c: Config, cov: seq<seq<Coverage>>, head: nat, current: seq<int>, bounds: seq<nat>, n: nat): (r: Moves)
    requires ValidCov(c, cov) && Sources(c, current) && |bounds| == c.members
    ensures Sources(c, r.current)
    decreases head - n * PAGE
  {
    var first := Max(Low(c, head), n * PAGE);
    if first >= head || first >= Most(c, bounds, c.members) then Moves(current, [])
    else
      var p := n % c.pages;
      if !AtRisk(c, bounds, current[p], first) then RetireLoop(c, cov, head, current, bounds, n + 1)
      else
        var to := Heir(c, cov, head, bounds, current[p], n, first, 0);
        var rest := RetireLoop(c, cov, head, current[p := to], bounds, n + 1);
        Moves(rest.current, [PageSelect(p, to)] + rest.selects)
  }

  /** The pages after the turn of page `n`, and the selects of the turn. */
  function MoveOf(c: Config, cov: seq<seq<Coverage>>, head: nat, current: seq<int>, bounds: seq<nat>, n: nat): (r: Moves)
    requires ValidCov(c, cov) && Sources(c, current) && |bounds| == c.members
    ensures Sources(c, r.current)
  {
    var (p, first) := (n % c.pages, Max(Low(c, head), n * PAGE));
    if AtRisk(c, bounds, current[p], first) then
      var to := Heir(c, cov, head, bounds, current[p], n, first, 0);
      Moves(current[p := to], [PageSelect(p, to)])
    else Moves(current, [])
  }

  /** One turn of the loop, taken off the front, and its end. */
  lemma RetireUnfolds(c: Config, cov: seq<seq<Coverage>>, head: nat, current: seq<int>, bounds: seq<nat>, n: nat)
    requires ValidCov(c, cov) && Sources(c, current) && |bounds| == c.members
    ensures var first := Max(Low(c, head), n * PAGE);
            if first < head && first < Most(c, bounds, c.members) then
              var move := MoveOf(c, cov, head, current, bounds, n);
              var rest := RetireLoop(c, cov, head, move.current, bounds, n + 1);
              RetireLoop(c, cov, head, current, bounds, n) == Moves(rest.current, move.selects + rest.selects)
            else RetireLoop(c, cov, head, current, bounds, n) == Moves(current, [])
  {
    var rest := RetireLoop(c, cov, head, current, bounds, n + 1);
    assert [] + rest.selects == rest.selects;
  }

  /** The loop is at page `n`, with `selects` so far, on its way to `whole`. */
  ghost predicate Retiring(c: Config, cov: seq<seq<Coverage>>, head: nat, bounds: seq<nat>, whole: Moves, current: seq<int>, n: nat, selects: seq<PageSelect>)
    requires ValidCov(c, cov) && Sources(c, current) && |bounds| == c.members
  {
    var rest := RetireLoop(c, cov, head, current, bounds, n);
    whole == Moves(rest.current, selects + rest.selects)
  }

  lemma RetiringStarts(c: Config, cov: seq<seq<Coverage>>, head: nat, bounds: seq<nat>, current: seq<int>, n: nat)
    requires ValidCov(c, cov) && Sources(c, current) && |bounds| == c.members
    ensures Retiring(c, cov, head, bounds, RetireLoop(c, cov, head, current, bounds, n), current, n, [])
  {
    var rest := RetireLoop(c, cov, head, current, bounds, n);
    assert [] + rest.selects == rest.selects;
  }

  lemma RetiringTurns(c: Config, cov: seq<seq<Coverage>>, head: nat, bounds: seq<nat>, whole: Moves, current: seq<int>, n: nat,
                      selects: seq<PageSelect>)
    requires ValidCov(c, cov) && Sources(c, current) && |bounds| == c.members
    requires var first := Max(Low(c, head), n * PAGE); first < head && first < Most(c, bounds, c.members)
    requires Retiring(c, cov, head, bounds, whole, current, n, selects)
    ensures var move := MoveOf(c, cov, head, current, bounds, n);
            Retiring(c, cov, head, bounds, whole, move.current, n + 1, selects + move.selects)
  {
    var move := MoveOf(c, cov, head, current, bounds, n);
    var rest := RetireLoop(c, cov, head, move.current, bounds, n + 1);
    assert selects + (move.selects + rest.selects) == (selects + move.selects) + rest.selects;
    RetireUnfolds(c, cov, head, current, bounds, n);
  }

  lemma RetiringEnds(c: Config, cov: seq<seq<Coverage>>, head: nat, bounds: seq<nat>, whole: Moves, current: seq<int>, n: nat, selects: seq<PageSelect>)
    requires ValidCov(c, cov) && Sources(c, current) && |bounds| == c.members && Retiring(c, cov, head, bounds, whole, current, n, selects)
    requires var first := Max(Low(c, head), n * PAGE); first >= head || first >= Most(c, bounds, c.members)
    ensures whole == Moves(current, selects)
  {
    assert selects + [] == selects;
  }

  datatype PolicyMoves = PolicyMoves(policy: Policy, selects: seq<PageSelect>)

  function Retire(c: Config, a: Policy, due: nat): (r: PolicyMoves)
    requires ValidPolicy(c, a)
    ensures ValidPolicy(c, r.policy)
  {
    if !a.started then PolicyMoves(a, [])
    else
      var r := RetireLoop(c, a.cov, a.head, a.current, WriteBounds(c, a, due), Low(c, a.head) / PAGE);
      PolicyMoves(a.(current := r.current), r.selects)
  }

  // ------------------------------------------------------------------ Drop

  /** The first member from `from` on, other than `m`, whose slot `p` holds page `n` whole. */
  function FirstWhole(c: Config, cov: seq<seq<Coverage>>, head: nat, m: nat, n: nat, p: nat, from: nat): (r: int)
    requires ValidCov(c, cov) && p < c.pages && from <= c.members
    ensures from <= r <= c.members
    ensures r < c.members ==> r != m && Whole(cov[r][p], n, head)
    ensures forall o :: from <= o < r && o != m ==> !Whole(cov[o][p], n, head)
    decreases c.members - from
  {
    if from == c.members then c.members
    else if from != m && Whole(cov[from][p], n, head) then from
    else FirstWhole(c, cov, head, m, n, p, from + 1)
  }

  /** Where a page slot of `m` moves: to another member that holds the page the slot
      shows below the head, or to silence. */
  function DropTarget(c: Config, cov: seq<seq<Coverage>>, head: nat, m: nat, p: nat): (r: int)
    requires ValidCov(c, cov) && p < c.pages
    ensures 0 <= r <= c.members && (m < c.members ==> r != m)
  {
    if head == 0 then c.members
    else
      var last := (head - 1) / PAGE;
      var back := Behind(last, p, c.pages);
      if last < back then c.members else FirstWhole(c, cov, head, m, last - back, p, 0)
  }

  function DropLoop(c: Config, a: Policy, current: seq<int>, m: nat, p: nat): (r: Moves)
    requires ValidPolicy(c, a) && Sources(c, current) && p <= c.pages
    ensures Sources(c, r.current)
    decreases c.pages - p
  {
    if p == c.pages then Moves(current, [])
    else if current[p] != m then DropLoop(c, a, current, m, p + 1)
    else
      var to := DropTarget(c, a.cov, a.head, m, p);
      var rest := DropLoop(c, a, current[p := to], m, p + 1);
      Moves(rest.current, [PageSelect(p, to)] + rest.selects)
  }

  /** Moves every page off `m` and forgets what it committed. */
  function Drop(c: Config, a: Policy, m: nat): (r: PolicyMoves)
    requires ValidPolicy(c, a) && m < c.members
    ensures ValidPolicy(c, r.policy)
  {
    var r := DropLoop(c, a, a.current, m, 0);
    PolicyMoves(a.(current := r.current, cov := a.cov[m := seq(c.pages, _ => NOTHING)], evHead := a.evHead[m := 0]), r.selects)
  }

  lemma {:induction false} DropExact(c: Config, a: Policy, current: seq<int>, m: nat, from: nat)
    requires ValidPolicy(c, a) && Sources(c, current) && m < c.members && from <= c.pages
    ensures var r := DropLoop(c, a, current, m, from);
            forall p :: 0 <= p < c.pages ==>
              r.current[p] == if p >= from && current[p] == m then DropTarget(c, a.cov, a.head, m, p) else current[p]
    decreases c.pages - from
  {
    if from < c.pages {
      var to := DropTarget(c, a.cov, a.head, m, from);
      DropExact(c, a, if current[from] == m then current[from := to] else current, m, from + 1);
    }
  }
}
