/** The object names of api/v1alpha1/flowref.go and api/v1alpha1/lease.go: a flow's name
    and its Origin Lease's, and the parsers that take them apart. */
module Names {
  import opened Common

  const PREFIX := "mxl-flow-"
  const ID_LENGTH := 36

  /** A flow's domain, empty for the primary domain, and its id. */
  datatype FlowRef = FlowRef(domain: string, id: string)

  datatype Lease = Lease(ref: FlowRef, node: string)

  function Name(r: FlowRef): string {
    if r.domain == "" then r.id else r.domain + "." + r.id
  }

  /** The index of the last dot, or -1. */
  function LastDot(s: string): (i: int)
    ensures -1 <= i < |s|
    ensures i >= 0 ==> s[i] == '.'
    ensures forall j :: i < j < |s| ==> s[j] != '.'
  {
    if s == "" then -1
    else if s[|s| - 1] == '.' then |s| - 1
    else LastDot(s[..|s| - 1])
  }

  function ParseFlowName(name: string): FlowRef {
    var i := LastDot(name);
    if i >= 0 then FlowRef(name[..i], name[i + 1..]) else FlowRef("", name)
  }

  lemma LastDotBefore(domain: string, id: string)
    requires '.' !in id
    ensures LastDot(domain + "." + id) == |domain| && LastDot(id) == -1
  {
    var s := domain + "." + id;
    assert s[|domain|] == '.';
    assert forall j :: |domain| < j < |s| ==> s[j] in id;
    assert forall j :: 0 <= j < |id| ==> id[j] in id;
  }

  /** A dot in the id is where its name is split, or before. */
  lemma DotSplitsId(before: string, id: string)
    requires '.' in id
    ensures |ParseFlowName(before + id).id| < |id|
  {
    var j :| 0 <= j < |id| && id[j] == '.';
    assert (before + id)[|before| + j] == '.';
  }

  /** Parsing inverts naming exactly for ids without a dot, whatever the domain. */
  lemma FlowNameRoundTrip(r: FlowRef)
    ensures ParseFlowName(Name(r)) == r <==> '.' !in r.id
  {
    if '.' in r.id {
      DotSplitsId(if r.domain == "" then "" else r.domain + ".", r.id);
      assert "" + r.id == r.id;
    } else {
      LastDotBefore(r.domain, r.id);
      assert (r.domain + "." + r.id)[..|r.domain|] == r.domain;
    }
  }

  /** Naming inverts parsing exactly for names whose last dot does not come first. */
  lemma ParsedNameRoundTrip(s: string)
    ensures Name(ParseFlowName(s)) == s <==> LastDot(s) != 0
  {
    var i := LastDot(s);
    if i > 0 {
      assert s == s[..i] + [s[i]] + s[i + 1..];
    } else if i == 0 {
      assert |Name(ParseFlowName(s))| == |s| - 1;
    }
  }

  // ------------------------------------------------------------------ leases

  function LeaseName(id: string, node: string): string {
    PREFIX + id + "-" + node
  }

  function LeaseNameFor(l: Lease): string {
    PREFIX + Name(l.ref) + "-" + l.node
  }

  predicate Hex(c: char) { '0' <= c <= '9' || 'a' <= c <= 'f' }

  predicate Dash(i: int) { i == 8 || i == 13 || i == 18 || i == 23 }

  /** A canonical flow id: five groups of lower-case hexadecimal digits, of 8, 4, 4, 4
      and 12. */
  predicate FlowId(s: string) {
    && |s| == ID_LENGTH
    && forall i :: 0 <= i < |s| ==> if Dash(i) then s[i] == '-' else Hex(s[i])
  }

  /** `s` begins with a flow id, a dash and at least one more character. */
  predicate Opens(s: string) {
    |s| >= ID_LENGTH + 2 && s[ID_LENGTH] == '-' && FlowId(s[..ID_LENGTH])
  }

  function CutPrefix(name: string): (r: Option<string>)
    ensures r.Some? ==> name == PREFIX + r.value
    ensures r.None? ==> forall rest :: name != PREFIX + rest
  {
    if |name| >= |PREFIX| && name[..|PREFIX|] == PREFIX then Some(name[|PREFIX|..])
    else
      assert forall rest: string :: (PREFIX + rest)[..|PREFIX|] == PREFIX;
      None
  }

  function ParseLeaseName(name: string): Option<Lease> {
    var rest := CutPrefix(name);
    if rest.None? || !Opens(rest.value) then None
    else Some(Lease(FlowRef("", rest.value[..ID_LENGTH]), rest.value[ID_LENGTH + 1..]))
  }

  /** Position `i` holds a dot that ends a domain: a flow id and a node follow it. */
  predicate Splits(s: string, i: nat) {
    i < |s| && s[i] == '.' && Opens(s[i + 1..])
  }

  /** The first position from `i` on that ends a domain, or the length. */
  function FirstSplit(s: string, i: nat): (r: nat)
    requires i <= |s|
    ensures i <= r <= |s|
    ensures forall j :: i <= j < r ==> !Splits(s, j)
    ensures r < |s| ==> Splits(s, r)
    decreases |s| - i
  {
    if i == |s| || Splits(s, i) then i else FirstSplit(s, i + 1)
  }

  /** The domain and the rest of a lease name without its prefix. */
  function SplitDomain(rest: string): (string, string) {
    var i := FirstSplit(rest, 0);
    if i < |rest| then (rest[..i], rest[i + 1..]) else ("", rest)
  }

  function Parsed(name: string): Option<Lease> {
    var rest := CutPrefix(name);
    if rest.None? then None
    else
      var (domain, tail) := SplitDomain(rest.value);
      var l := ParseLeaseName(PREFIX + tail);
      if l.None? then None else Some(Lease(FlowRef(domain, l.value.ref.id), l.value.node))
  }

  method ParseLeaseNameFor(name: string) returns (l: Option<Lease>)
    ensures l == Parsed(name)
  {
    var cut := CutPrefix(name);
    if cut.None? { return None; }
    var domain, rest := "", cut.value;
    for i := 0 to |rest|
      invariant domain == "" && rest == cut.value
      invariant FirstSplit(rest, 0) == FirstSplit(rest, i)
    {
      if rest[i] != '.' { continue; }
      var cand := rest[i + 1..];
      if Opens(cand) {
        domain, rest := rest[..i], cand;
        break;
      }
    }
    assert (domain, rest) == SplitDomain(cut.value);
    var p := ParseLeaseName(PREFIX + rest);
    if p.None? { return None; }
    return Some(Lease(FlowRef(domain, p.value.ref.id), p.value.node));
  }

  // -------------------------------------------------------------- round trips

  /** A dot, a flow id and a dash, `i` characters into `s`. */
  predicate HoldsIdAt(s: string, i: nat) {
    i + ID_LENGTH + 2 <= |s| && s[i] == '.' && s[i + ID_LENGTH + 1] == '-' && FlowId(s[i + 1..i + ID_LENGTH + 1])
  }

  /** The names that come apart again: a canonical id and a node; and in the primary
      domain, no node that itself reads "….<id>-<node>", in another, no domain that
      itself holds ".<id>-". */
  predicate Decomposable(l: Lease) {
    && FlowId(l.ref.id) && l.node != ""
    && if l.ref.domain == "" then forall i :: 0 <= i < |l.node| ==> !Splits(l.node, i)
       else forall i :: 0 <= i < |l.ref.domain| ==> !HoldsIdAt(l.ref.domain, i)
  }

  lemma Joined(a: string, b: string, c: string)
    ensures (a + b) + c == a + (b + c)
  {
  }

  /** The part of a lease's name after the prefix. */
  function Rest(l: Lease): string {
    var tail := l.ref.id + "-" + l.node;
    if l.ref.domain == "" then tail else l.ref.domain + "." + tail
  }

  /** A lease's name, field by field. */
  lemma LeaseNameParts(l: Lease)
    ensures LeaseNameFor(l) == PREFIX + Rest(l)
  {
    var dash := "-" + l.node;
    Joined(PREFIX, Name(l.ref), "-");
    Joined(PREFIX + Name(l.ref), "-", l.node);
    Joined(PREFIX, Name(l.ref), dash);
    Joined(l.ref.id, "-", l.node);
    if l.ref.domain != "" {
      Joined(l.ref.domain + ".", l.ref.id, dash);
    }
  }

  lemma CutsPrefix(rest: string)
    ensures CutPrefix(PREFIX + rest) == Some(rest)
  {
  }

  /** A flow id holds no dot, so no domain ends inside it or its dash. */
  lemma SplitsAfterId(s: string, i: nat)
    requires Opens(s) && Splits(s, i)
    ensures i > ID_LENGTH
  {
    assert forall j :: 0 <= j < ID_LENGTH ==> s[..ID_LENGTH][j] == s[j];
  }

  lemma OpensId(id: string, node: string)
    ensures Opens(id + "-" + node) <== FlowId(id) && node != ""
    ensures FlowId(id) ==> (id + "-" + node)[..ID_LENGTH] == id && (id + "-" + node)[ID_LENGTH + 1..] == node
  {
    var s := id + "-" + node;
    if FlowId(id) { assert s[..ID_LENGTH] == id; assert s[ID_LENGTH + 1..] == node; }
  }

  lemma ParsesId(id: string, node: string)
    requires FlowId(id) && node != ""
    ensures ParseLeaseName(PREFIX + (id + "-" + node)) == Some(Lease(FlowRef("", id), node))
  {
    CutsPrefix(id + "-" + node);
    OpensId(id, node);
  }

  /** LeaseName and its parser. */
  lemma LeaseNameRoundTrip(id: string, node: string)
    ensures ParseLeaseName(LeaseName(id, node)) == Some(Lease(FlowRef("", id), node)) <==> FlowId(id) && node != ""
  {
    var s := id + "-" + node;
    assert LeaseName(id, node) == PREFIX + s;
    CutsPrefix(s);
    if FlowId(id) && node != "" { ParsesId(id, node); }
  }

  lemma SplitsShift(a: string, b: string, i: nat)
    ensures Splits(a + b, |a| + i) <==> Splits(b, i)
  {
    if i < |b| { assert (a + b)[|a| + i + 1..] == b[i + 1..]; }
  }

  /** In the primary domain a domain is found exactly when one ends in the node. */
  lemma PrimarySplit(id: string, node: string)
    requires FlowId(id) && node != ""
    ensures var s := id + "-" + node;
            FirstSplit(s, 0) == |s| <==> forall i :: 0 <= i < |node| ==> !Splits(node, i)
  {
    var a := id + "-";
    var s := a + node;
    OpensId(id, node);
    assert s == id + "-" + node;
    forall i | 0 <= i < |node| ensures Splits(s, |a| + i) <==> Splits(node, i) { SplitsShift(a, node, i); }
    var r := FirstSplit(s, 0);
    if r < |s| {
      SplitsAfterId(s, r);
      assert Splits(node, r - |a|);
    }
  }

  /** What ends a domain before its own dot lies wholly inside it: a flow id and its
      dash cannot run over a dot. */
  lemma SplitsInside(domain: string, tail: string, i: nat)
    requires i < |domain|
    requires |tail| >= ID_LENGTH + 2
    ensures Splits(domain + "." + tail, i) <==> HoldsIdAt(domain, i)
  {
    var s := domain + "." + tail;
    var cand := s[i + 1..];
    var d := |domain| - (i + 1);
    assert cand[d] == '.';
    if d < ID_LENGTH {
      assert cand[..ID_LENGTH][d] == '.';
    } else if d > ID_LENGTH {
      assert cand[..ID_LENGTH] == domain[i + 1..i + ID_LENGTH + 1];
    }
  }

  lemma NamedSplit(domain: string, id: string, node: string)
    requires FlowId(id) && node != ""
    ensures var s := domain + "." + (id + "-" + node);
            FirstSplit(s, 0) == |domain| <==> forall i :: 0 <= i < |domain| ==> !HoldsIdAt(domain, i)
  {
    var tail := id + "-" + node;
    var s := domain + "." + tail;
    OpensId(id, node);
    forall i | 0 <= i < |domain| ensures Splits(s, i) <==> HoldsIdAt(domain, i) { SplitsInside(domain, tail, i); }
    assert s[|domain| + 1..] == tail;
    assert Splits(s, |domain|);
  }

  /** A parsed lease has a canonical id and a node. */
  lemma ParsedShape(name: string)
    requires Parsed(name).Some?
    ensures FlowId(Parsed(name).value.ref.id) && Parsed(name).value.node != ""
  {
  }

  lemma PrimaryRoundTrip(id: string, node: string)
    requires FlowId(id) && node != ""
    ensures Parsed(LeaseNameFor(Lease(FlowRef("", id), node))) == Some(Lease(FlowRef("", id), node))
       <==> forall i :: 0 <= i < |node| ==> !Splits(node, i)
  {
    var s := id + "-" + node;
    LeaseNameParts(Lease(FlowRef("", id), node));
    CutsPrefix(s);
    PrimarySplit(id, node);
    var i := FirstSplit(s, 0);
    if i < |s| {
      OpensId(id, node);
      SplitsAfterId(s, i);
      assert s[..i] != "";
    } else {
      ParsesId(id, node);
    }
  }

  lemma NamedRoundTrip(domain: string, id: string, node: string)
    requires FlowId(id) && node != "" && domain != ""
    ensures Parsed(LeaseNameFor(Lease(FlowRef(domain, id), node))) == Some(Lease(FlowRef(domain, id), node))
       <==> forall i :: 0 <= i < |domain| ==> !HoldsIdAt(domain, i)
  {
    var tail := id + "-" + node;
    var s := domain + "." + tail;
    LeaseNameParts(Lease(FlowRef(domain, id), node));
    CutsPrefix(s);
    NamedSplit(domain, id, node);
    OpensId(id, node);
    assert s[|domain| + 1..] == tail && s[..|domain|] == domain;
    assert Splits(s, |domain|);
    if FirstSplit(s, 0) == |domain| {
      ParsesId(id, node);
    } else {
      assert |SplitDomain(s).0| < |domain|;
    }
  }

  /** ParseLeaseNameFor inverts LeaseNameFor exactly on the decomposable leases. */
  lemma LeaseNameForRoundTrip(l: Lease)
    ensures Parsed(LeaseNameFor(l)) == Some(l) <==> Decomposable(l)
  {
    if FlowId(l.ref.id) && l.node != "" {
      if l.ref.domain == "" {
        PrimaryRoundTrip(l.ref.id, l.node);
      } else {
        NamedRoundTrip(l.ref.domain, l.ref.id, l.node);
      }
    } else if Parsed(LeaseNameFor(l)).Some? {
      ParsedShape(LeaseNameFor(l));
    }
  }

  /** A dot-free domain never stands in the way. */
  lemma DotFreeDecomposes(l: Lease)
    requires FlowId(l.ref.id) && l.node != "" && l.ref.domain != "" && '.' !in l.ref.domain
    ensures Parsed(LeaseNameFor(l)) == Some(l)
  {
    LeaseNameForRoundTrip(l);
    assert forall i :: 0 <= i < |l.ref.domain| ==> l.ref.domain[i] in l.ref.domain;
  }

  /** Two leases with one name: outside the condition the names do collide. */
  lemma NamesCollide(id: string, part: string, id2: string, node: string)
    ensures LeaseNameFor(Lease(FlowRef("", id), part + "." + id2 + "-" + node))
         == LeaseNameFor(Lease(FlowRef(id + "-" + part, id2), node))
  {
    assert id + "-" + (part + "." + id2 + "-" + node) == (id + "-" + part) + "." + id2 + "-" + node;
    var n := part + "." + id2 + "-" + node;
    assert PREFIX + id + "-" + n == PREFIX + (id + "-" + n);
    assert PREFIX + ((id + "-" + part) + "." + id2) + "-" + node == PREFIX + ((id + "-" + part) + "." + id2 + "-" + node);
  }

  /** Two decomposable leases with the same name are the same lease. */
  lemma NamesDistinct(l: Lease, k: Lease)
    requires Decomposable(l) && Decomposable(k) && LeaseNameFor(l) == LeaseNameFor(k)
    ensures l == k
  {
    LeaseNameForRoundTrip(l);
    LeaseNameForRoundTrip(k);
  }

  lemma TailParts(tail: string)
    requires Opens(tail)
    ensures tail == tail[..ID_LENGTH] + "-" + tail[ID_LENGTH + 1..]
  {
  }

  lemma SplitAt(s: string, i: nat)
    requires i < |s|
    ensures s == s[..i] + [s[i]] + s[i + 1..]
  {
  }

  lemma DomainParts(rest: string)
    ensures var i := FirstSplit(rest, 0); var (domain, tail) := SplitDomain(rest);
            if i < |rest| then domain == rest[..i] && rest == domain + "." + tail else domain == "" && rest == tail
  {
    var i := FirstSplit(rest, 0);
    if i < |rest| { SplitAt(rest, i); }
  }

  lemma ParsedTail(rest: string)
    requires Parsed(PREFIX + rest).Some?
    ensures var (domain, tail) := SplitDomain(rest);
            Opens(tail) && Parsed(PREFIX + rest) == Some(Lease(FlowRef(domain, tail[..ID_LENGTH]), tail[ID_LENGTH + 1..]))
  {
    CutsPrefix(rest);
    CutsPrefix(SplitDomain(rest).1);
  }

  /** What ParseLeaseNameFor found, put together again; an empty domain's dot is lost. */
  lemma ParsedParts(rest: string)
    requires Parsed(PREFIX + rest).Some?
    ensures var r := Rest(Parsed(PREFIX + rest).value); rest == if Splits(rest, 0) then "." + r else r
  {
    var (domain, tail) := SplitDomain(rest);
    ParsedTail(rest);
    TailParts(tail);
    DomainParts(rest);
    assert Rest(Parsed(PREFIX + rest).value) == if domain == "" then tail else domain + "." + tail;
    assert domain == "" && FirstSplit(rest, 0) < |rest| ==> FirstSplit(rest, 0) == 0 && rest == "." + tail;
  }

  /** A name that parses prints back exactly when it does not begin with an empty
      domain and its dot. */
  lemma ParsedPrints(rest: string)
    requires Parsed(PREFIX + rest).Some?
    ensures LeaseNameFor(Parsed(PREFIX + rest).value) == PREFIX + rest <==> !Splits(rest, 0)
  {
    ParsedParts(rest);
    LeaseNameParts(Parsed(PREFIX + rest).value);
    assert |PREFIX + rest| == |PREFIX| + |rest|;
  }

  lemma OpensParse(rest: string)
    requires FirstSplit(rest, 0) < |rest|
    ensures Parsed(PREFIX + rest).Some?
  {
    CutsPrefix(rest);
    CutsPrefix(SplitDomain(rest).1);
  }

  /** The name of a lease with a canonical id and a node always parses. */
  lemma ParsesRest(l: Lease)
    requires FlowId(l.ref.id) && l.node != ""
    ensures Parsed(PREFIX + Rest(l)).Some?
  {
    var tail := l.ref.id + "-" + l.node;
    OpensId(l.ref.id, l.node);
    CutsPrefix(Rest(l));
    if FirstSplit(Rest(l), 0) < |Rest(l)| {
      OpensParse(Rest(l));
    } else if l.ref.domain == "" {
      CutsPrefix(tail);
    } else {
      assert Rest(l)[|l.ref.domain| + 1..] == tail;
      assert Splits(Rest(l), |l.ref.domain|);
    }
  }

  /** A lease with a canonical id and a node that does not come apart, and whose name does
      not begin with an empty domain, shares its name with another lease: the one its name
      parses to. */
  lemma SharesName(l: Lease)
    requires FlowId(l.ref.id) && l.node != "" && !Decomposable(l) && !Splits(Rest(l), 0)
    ensures Parsed(LeaseNameFor(l)).Some?
    ensures Parsed(LeaseNameFor(l)).value != l && LeaseNameFor(Parsed(LeaseNameFor(l)).value) == LeaseNameFor(l)
  {
    LeaseNameParts(l);
    ParsesRest(l);
    LeaseNameForRoundTrip(l);
    ParsedPrints(Rest(l));
  }
}
