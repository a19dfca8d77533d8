/** The theory behind services/fraud_detector.py: which cycles qualify, and the search as a function.
    Amounts are whole paise, so rounding to two decimals is the identity; dates are day numbers. */
module PaymentCycles {
  import opened Base
  import opened Numeric
  import opened Sorting

  const CYCLE_WINDOW_DAYS := 90
  const HIGH_RISK_CYCLE_VALUE := 100_000_000 // INR 10 lakhs in paise
  const CIRCULAR_RATIO_CRITICAL := 0.15
  const MAX_CYCLE_LENGTH := 8

  datatype Edge = Edge(src: string, dst: string, amount: int, date: int)

  /** The identity of a cycle for deduplication: its sorted node tuple, here the node set, and its
      total value. */
  datatype Signature = Signature(nodes: set<string>, total: int)

  function Total(c: seq<Edge>): int {
    if c == [] then 0 else Total(c[..|c| - 1]) + c[|c| - 1].amount
  }

  function MaxDate(c: seq<Edge>): int
    requires c != []
  {
    if |c| == 1 then c[0].date
    else var m := MaxDate(c[..|c| - 1]); if c[|c| - 1].date > m then c[|c| - 1].date else m
  }

  function MinDate(c: seq<Edge>): int
    requires c != []
  {
    if |c| == 1 then c[0].date
    else var m := MinDate(c[..|c| - 1]); if c[|c| - 1].date < m then c[|c| - 1].date else m
  }

  function Span(c: seq<Edge>): int
    requires c != []
  {
    MaxDate(c) - MinDate(c)
  }

  function Nodes(c: seq<Edge>): set<string> {
    (set e | e in c :: e.src) + (set e | e in c :: e.dst)
  }

  function Sig(c: seq<Edge>): Signature { Signature(Nodes(c), Total(c)) }

  function Sigs(cs: seq<seq<Edge>>): set<Signature> { set c | c in cs :: Sig(c) }

  // ---------------------------------------------------------------------------------------------
  // The reference: which cycles of a multigraph qualify, with no search in sight.
  // ---------------------------------------------------------------------------------------------

  /** Any two edges are at most 90 days apart. */
  ghost predicate WithinWindow(c: seq<Edge>) {
    forall i, j :: 0 <= i < |c| && 0 <= j < |c| ==> c[i].date - c[j].date <= CYCLE_WINDOW_DAYS
  }

  /** A closed chain of 2 to 9 of the given edges that leaves no node twice. */
  ghost predicate SimpleCycle(edges: seq<Edge>, c: seq<Edge>) {
    && 2 <= |c| <= MAX_CYCLE_LENGTH + 1
    && (forall i :: 0 <= i < |c| ==> c[i] in edges)
    && (forall i :: 0 <= i < |c| - 1 ==> c[i].dst == c[i + 1].src)
    && c[|c| - 1].dst == c[0].src
    && (forall i, j :: 0 <= i < j < |c| ==> c[i].src != c[j].src)
  }

  /** A simple cycle inside the window. */
  ghost predicate QualifyingCycle(edges: seq<Edge>, c: seq<Edge>) { SimpleCycle(edges, c) && WithinWindow(c) }

  // ---------------------------------------------------------------------------------------------
  // The search as a function: the accepted walks in the order the depth-first search meets them,
  // and the deduplication that keeps the first of each signature.
  // ---------------------------------------------------------------------------------------------

  function OutEdges(edges: seq<Edge>, n: string): seq<Edge> {
    if edges == [] then []
    else
      var e := edges[|edges| - 1];
      OutEdges(edges[..|edges| - 1], n) + if e.src == n then [e] else []
  }

  /** The distinct sources, in order of first appearance: the adjacency dictionary's keys. */
  function Sources(edges: seq<Edge>): seq<string> {
    if edges == [] then []
    else
      var ns := Sources(edges[..|edges| - 1]);
      var n := edges[|edges| - 1].src;
      if n in ns then ns else ns + [n]
  }

  function Walks(edges: seq<Edge>, start: string, current: string, path: seq<Edge>, visited: set<string>)
    : seq<seq<Edge>>
    decreases MAX_CYCLE_LENGTH + 1 - |path|, |edges| + 1
  {
    if |path| > MAX_CYCLE_LENGTH then []
    else WalksAlong(edges, start, OutEdges(edges, current), path, visited)
  }

  function WalksAlong(edges: seq<Edge>, start: string, out: seq<Edge>, path: seq<Edge>, visited: set<string>)
    : seq<seq<Edge>>
    requires |path| <= MAX_CYCLE_LENGTH
    decreases MAX_CYCLE_LENGTH + 1 - |path|, 0, |out|
  {
    if out == [] then []
    else WalksBy(edges, start, out[0], path, visited) + WalksAlong(edges, start, out[1..], path, visited)
  }

  /** The walks that continue path with one given edge. */
  function WalksBy(edges: seq<Edge>, start: string, e: Edge, path: seq<Edge>, visited: set<string>)
    : seq<seq<Edge>>
    requires |path| <= MAX_CYCLE_LENGTH
    decreases MAX_CYCLE_LENGTH + 1 - |path|, 0, 0
  {
    if e.dst == start && path != [] then
      if Span(path + [e]) <= CYCLE_WINDOW_DAYS then [path + [e]] else []
    else if e.dst !in visited then Walks(edges, start, e.dst, path + [e], visited + {e.dst})
    else []
  }

  function WalksFrom(edges: seq<Edge>, starts: seq<string>): seq<seq<Edge>> {
    if starts == [] then []
    else Walks(edges, starts[0], starts[0], [], {starts[0]}) + WalksFrom(edges, starts[1..])
  }

  function Absorb(kept: seq<seq<Edge>>, found: seq<seq<Edge>>): seq<seq<Edge>>
    decreases |found|
  {
    if found == [] then kept
    else Absorb(if Sig(found[0]) in Sigs(kept) then kept else kept + [found[0]], found[1..])
  }

  function CyclesOf(edges: seq<Edge>): seq<seq<Edge>> {
    Absorb([], WalksFrom(edges, Sources(edges)))
  }

  // ---------------------------------------------------------------------------------------------
  // Soundness and completeness of the walks.
  // ---------------------------------------------------------------------------------------------

  lemma {:induction false} SpanIsWindow(c: seq<Edge>)
    requires c != []
    ensures forall i :: 0 <= i < |c| ==> MinDate(c) <= c[i].date <= MaxDate(c)
    ensures exists i, j :: 0 <= i < |c| && 0 <= j < |c| && c[i].date == MaxDate(c) && c[j].date == MinDate(c)
    ensures Span(c) <= CYCLE_WINDOW_DAYS <==> WithinWindow(c)
  {
    if |c| == 1 {
      assert c[0].date == MaxDate(c) && c[0].date == MinDate(c);
    } else {
      var b, n := c[..|c| - 1], |c| - 1;
      SpanIsWindow(b);
      var i, j :| 0 <= i < |b| && 0 <= j < |b| && b[i].date == MaxDate(b) && b[j].date == MinDate(b);
      var i', j' := if c[n].date > MaxDate(b) then n else i, if c[n].date < MinDate(b) then n else j;
      assert c[i'].date == MaxDate(c) && c[j'].date == MinDate(c);
    }
  }

  lemma {:induction false} OutEdgesAre(edges: seq<Edge>, n: string)
    ensures forall e :: e in OutEdges(edges, n) <==> e in edges && e.src == n
  {
    if edges != [] {
      OutEdgesAre(edges[..|edges| - 1], n);
      assert edges == edges[..|edges| - 1] + [edges[|edges| - 1]];
    }
  }

  lemma {:induction false} SourcesAre(edges: seq<Edge>)
    ensures forall n :: n in Sources(edges) <==> exists e :: e in edges && e.src == n
  {
    if edges != [] {
      SourcesAre(edges[..|edges| - 1]);
      assert edges == edges[..|edges| - 1] + [edges[|edges| - 1]];
    }
  }

  /** What the recursion keeps: path is a simple chain of given edges from start to current, and
      visited is exactly its nodes. */
  ghost predicate OnPath(edges: seq<Edge>, start: string, current: string, path: seq<Edge>, visited: set<string>) {
    && (forall i :: 0 <= i < |path| ==> path[i] in edges)
    && (forall i :: 0 <= i < |path| - 1 ==> path[i].dst == path[i + 1].src)
    && (forall i, j :: 0 <= i < j < |path| ==> path[i].src != path[j].src)
    && (forall i :: 0 <= i < |path| ==> path[i].src != current)
    && (if path == [] then current == start else path[0].src == start && path[|path| - 1].dst == current)
    && visited == (set e | e in path :: e.src) + {current}
  }

  lemma {:induction false} ExtendPath(edges: seq<Edge>, start: string, current: string, path: seq<Edge>,
      visited: set<string>, e: Edge)
    requires OnPath(edges, start, current, path, visited)
    requires e in edges && e.src == current && e.dst !in visited
    ensures OnPath(edges, start, e.dst, path + [e], visited + {e.dst})
  {
    forall i | 0 <= i < |path + [e]|
      ensures (path + [e])[i].src != e.dst
    {
      assert (path + [e])[i].src in visited;
    }
    forall n
      ensures n in visited + {e.dst} <==> n in (set f | f in path + [e] :: f.src) + {e.dst}
    {
      assert e in path + [e];
      forall f | f in path
        ensures f in path + [e]
      {
      }
    }
  }

  lemma {:induction false} WalksSound(edges: seq<Edge>, start: string, current: string, path: seq<Edge>,
      visited: set<string>)
    requires OnPath(edges, start, current, path, visited)
    ensures forall c :: c in Walks(edges, start, current, path, visited) ==> QualifyingCycle(edges, c)
    decreases MAX_CYCLE_LENGTH + 1 - |path|, |edges| + 1
  {
    if |path| <= MAX_CYCLE_LENGTH {
      OutEdgesAre(edges, current);
      WalksAlongSound(edges, start, current, OutEdges(edges, current), path, visited);
    }
  }

  lemma ClosePath(edges: seq<Edge>, start: string, current: string, path: seq<Edge>, visited: set<string>, e: Edge)
    requires OnPath(edges, start, current, path, visited) && 0 < |path| <= MAX_CYCLE_LENGTH
    requires e in edges && e.src == current && e.dst == start
    ensures SimpleCycle(edges, path + [e])
  {
  }

  lemma {:induction false} WalksAlongSound(edges: seq<Edge>, start: string, current: string, out: seq<Edge>,
      path: seq<Edge>, visited: set<string>)
    requires OnPath(edges, start, current, path, visited) && |path| <= MAX_CYCLE_LENGTH
    requires forall e :: e in out ==> e in edges && e.src == current
    ensures forall c :: c in WalksAlong(edges, start, out, path, visited) ==> QualifyingCycle(edges, c)
    decreases MAX_CYCLE_LENGTH + 1 - |path|, 0, |out|
  {
    if out != [] {
      var e := out[0];
      WalksAlongSound(edges, start, current, out[1..], path, visited);
      if e.dst == start && path != [] {
        if Span(path + [e]) <= CYCLE_WINDOW_DAYS {
          ClosePath(edges, start, current, path, visited, e);
          SpanIsWindow(path + [e]);
        }
      } else if e.dst !in visited {
        ExtendPath(edges, start, current, path, visited, e);
        WalksSound(edges, start, e.dst, path + [e], visited + {e.dst});
      }
    }
  }

  lemma {:induction false} WalksComplete(edges: seq<Edge>, start: string, current: string, path: seq<Edge>,
      visited: set<string>, c: seq<Edge>)
    requires OnPath(edges, start, current, path, visited)
    requires QualifyingCycle(edges, c) && path < c && c[0].src == start
    ensures c in Walks(edges, start, current, path, visited)
    decreases |c| - |path|
  {
    var k := |path|;
    var e := c[k];
    assert forall i :: 0 <= i < k ==> path[i] == c[i];
    assert e.src == current;
    OutEdgesAre(edges, current);
    var next := path + [e];
    assert next == c[..k + 1];
    if k + 1 == |c| {
      assert next == c;
      SpanIsWindow(c);
    } else {
      assert e.dst == c[k + 1].src;
      assert e.dst !in visited by {
        assert forall i :: 0 <= i <= k ==> c[i].src != c[k + 1].src;
        assert forall f :: f in path ==> f.src != e.dst;
      }
      assert e.dst != start;
      ExtendPath(edges, start, current, path, visited, e);
      WalksComplete(edges, start, e.dst, next, visited + {e.dst}, c);
    }
    assert c in WalksBy(edges, start, e, path, visited);
    EachEdgeIsTried(edges, start, OutEdges(edges, current), path, visited, e);
  }

  lemma {:induction false} EachEdgeIsTried(edges: seq<Edge>, start: string, out: seq<Edge>, path: seq<Edge>,
      visited: set<string>, e: Edge)
    requires |path| <= MAX_CYCLE_LENGTH && e in out
    ensures forall c :: c in WalksBy(edges, start, e, path, visited) ==>
              c in WalksAlong(edges, start, out, path, visited)
    decreases |out|
  {
    if e != out[0] {
      EachEdgeIsTried(edges, start, out[1..], path, visited, e);
    }
  }

  lemma {:induction false} WalksFromExact(edges: seq<Edge>, starts: seq<string>)
    ensures forall c :: c in WalksFrom(edges, starts) ==> QualifyingCycle(edges, c)
    ensures forall c: seq<Edge> :: QualifyingCycle(edges, c) && c[0].src in starts ==> c in WalksFrom(edges, starts)
  {
    if starts != [] {
      var s := starts[0];
      assert OnPath(edges, s, s, [], {s});
      WalksSound(edges, s, s, [], {s});
      WalksFromExact(edges, starts[1..]);
      forall c: seq<Edge> | QualifyingCycle(edges, c) && c[0].src == s
        ensures c in Walks(edges, s, s, [], {s})
      {
        WalksComplete(edges, s, s, [], {s}, c);
      }
    }
  }

  // ---------------------------------------------------------------------------------------------
  // Deduplication.
  // ---------------------------------------------------------------------------------------------

  ghost predicate DistinctSigs(cs: seq<seq<Edge>>) {
    forall i, j :: 0 <= i < j < |cs| ==> Sig(cs[i]) != Sig(cs[j])
  }

  lemma {:induction false} SigsSnoc(cs: seq<seq<Edge>>, c: seq<Edge>)
    ensures Sigs(cs + [c]) == Sigs(cs) + {Sig(c)}
  {
    assert c in cs + [c];
    forall d | d in cs
      ensures d in cs + [c]
    {
    }
  }

  lemma {:induction false} AbsorbSpec(kept: seq<seq<Edge>>, found: seq<seq<Edge>>)
    requires DistinctSigs(kept)
    ensures DistinctSigs(Absorb(kept, found))
    ensures Sigs(Absorb(kept, found)) == Sigs(kept) + Sigs(found)
    ensures forall c :: c in Absorb(kept, found) ==> c in kept || c in found
    decreases |found|
  {
    if found != [] {
      var c := found[0];
      assert found == [c] + found[1..];
      assert Sigs(found) == {Sig(c)} + Sigs(found[1..]);
      if Sig(c) in Sigs(kept) {
        AbsorbSpec(kept, found[1..]);
      } else {
        SigsSnoc(kept, c);
        forall i | 0 <= i < |kept|
          ensures Sig(kept[i]) != Sig(c)
        {
          assert kept[i] in kept;
        }
        AbsorbSpec(kept + [c], found[1..]);
      }
    }
  }

  lemma {:induction false} AbsorbConcat(kept: seq<seq<Edge>>, a: seq<seq<Edge>>, b: seq<seq<Edge>>)
    ensures Absorb(kept, a + b) == Absorb(Absorb(kept, a), b)
    decreases |a|
  {
    if a == [] {
      assert a + b == b;
    } else {
      assert (a + b)[1..] == a[1..] + b && (a + b)[0] == a[0];
      AbsorbConcat(if Sig(a[0]) in Sigs(kept) then kept else kept + [a[0]], a[1..], b);
    }
  }

  // ---------------------------------------------------------------------------------------------
  // Main results on the search.
  // ---------------------------------------------------------------------------------------------

  /** Every reported list is a qualifying cycle, every qualifying cycle has a reported one with its
      node set and total, and no signature is reported twice. */
  lemma {:induction false} CyclesSoundAndComplete(edges: seq<Edge>)
    ensures forall c :: c in CyclesOf(edges) ==> QualifyingCycle(edges, c)
    ensures forall c :: QualifyingCycle(edges, c) ==> Sig(c) in Sigs(CyclesOf(edges))
    ensures DistinctSigs(CyclesOf(edges))
  {
    var starts := Sources(edges);
    WalksFromExact(edges, starts);
    AbsorbSpec([], WalksFrom(edges, starts));
    forall c | QualifyingCycle(edges, c)
      ensures Sig(c) in Sigs(CyclesOf(edges))
    {
      SourcesAre(edges);
      assert c[0] in edges;
      assert c in WalksFrom(edges, starts);
    }
  }

  /** Adding payments never removes a signature. */
  lemma {:induction false} MorePaymentsKeepSignatures(edges: seq<Edge>, more: seq<Edge>)
    requires forall e :: e in edges ==> e in more
    ensures Sigs(CyclesOf(edges)) <= Sigs(CyclesOf(more))
  {
    CyclesSoundAndComplete(edges);
    CyclesSoundAndComplete(more);
    forall s | s in Sigs(CyclesOf(edges))
      ensures s in Sigs(CyclesOf(more))
    {
      var c :| c in CyclesOf(edges) && Sig(c) == s;
      assert QualifyingCycle(more, c);
    }
  }

  // ---------------------------------------------------------------------------------------------
  // Findings.
  // ---------------------------------------------------------------------------------------------

  datatype Finding =
    | HighValueCycle(cycle: seq<Edge>, chain: seq<string>, total: int, span: int, hops: int)
    | CriticalRatio(ratio: real, chains: seq<seq<string>>)

  function SeverityOf(f: Finding): Severity {
    if f.HighValueCycle? then High else Critical
  }

  function MinAmount(c: seq<Edge>): int
    requires c != []
  {
    if |c| == 1 then c[0].amount
    else var m := MinAmount(c[..|c| - 1]); if c[|c| - 1].amount < m then c[|c| - 1].amount else m
  }

  function Chain(c: seq<Edge>): seq<string>
    requires c != []
  {
    [c[0].src] + seq(|c|, i requires 0 <= i < |c| => c[i].dst)
  }

  function HighFinding(c: seq<Edge>): Finding
    requires c != []
  {
    HighValueCycle(c, Chain(c), Total(c), Span(c), |c|)
  }

  function HighFindings(cs: seq<seq<Edge>>): seq<Finding>
    requires forall i :: 0 <= i < |cs| ==> cs[i] != []
  {
    if cs == [] then []
    else
      var c := cs[|cs| - 1];
      HighFindings(cs[..|cs| - 1]) +
      if Total(c) > HIGH_RISK_CYCLE_VALUE then [HighFinding(c)] else []
  }

  function CircularValue(cs: seq<seq<Edge>>): int
    requires forall i :: 0 <= i < |cs| ==> cs[i] != []
  {
    if cs == [] then 0 else CircularValue(cs[..|cs| - 1]) + MinAmount(cs[|cs| - 1])
  }

  function Round4(x: real): real { HalfEven(x * 10000.0) as real / 10000.0 }

  /** Both in paise. */
  function Ratio(circularValue: int, totalRevenue: real): real {
    Round4(SafeDiv(circularValue as real, totalRevenue, 0.0))
  }

  function Chains(fs: seq<Finding>): seq<seq<string>> {
    if fs == [] then []
    else (if fs[0].HighValueCycle? then [fs[0].chain] else []) + Chains(fs[1..])
  }

  lemma {:induction false} CyclesNonempty(edges: seq<Edge>)
    ensures forall i :: 0 <= i < |CyclesOf(edges)| ==> CyclesOf(edges)[i] != []
  {
    CyclesSoundAndComplete(edges);
    forall i | 0 <= i < |CyclesOf(edges)|
      ensures CyclesOf(edges)[i] != []
    {
      assert QualifyingCycle(edges, CyclesOf(edges)[i]);
    }
  }

  function Detect(edges: seq<Edge>, totalRevenue: real): (seq<Finding>, real) {
    CyclesNonempty(edges);
    var cs := CyclesOf(edges);
    var high := HighFindings(cs);
    var ratio := Ratio(CircularValue(cs), totalRevenue);
    (if ratio > CIRCULAR_RATIO_CRITICAL then high + [CriticalRatio(ratio, Chains(high))] else high, ratio)
  }

  /** What a HIGH finding says of its cycle: the nodes it visits, from its start back to it, the sum of
      its amounts, and the greatest distance between two of its dates. */
  ghost predicate Describes(f: Finding, c: seq<Edge>) {
    && f.HighValueCycle? && f.cycle == c && f.total == Total(c)
    && f.hops == |c| == |f.chain| - 1 && f.chain[0] == f.chain[|c|]
    && (forall i :: 0 <= i < |c| ==> f.chain[i] == c[i].src && f.chain[i + 1] == c[i].dst)
    && (forall i, j :: 0 <= i < |c| && 0 <= j < |c| ==> c[i].date - c[j].date <= f.span)
    && (exists i, j :: 0 <= i < |c| && 0 <= j < |c| && c[i].date - c[j].date == f.span)
  }

  lemma {:induction false} DescribesCycle(edges: seq<Edge>, c: seq<Edge>)
    requires QualifyingCycle(edges, c)
    ensures Describes(HighFinding(c), c)
  {
    SpanIsWindow(c);
    forall i | 0 <= i < |c|
      ensures Chain(c)[i] == c[i].src && Chain(c)[i + 1] == c[i].dst
    {
      assert i > 0 ==> c[i - 1].dst == c[i - 1 + 1].src;
    }
  }

  lemma {:induction false} FindingHasCycle(cs: seq<seq<Edge>>, f: Finding)
    requires forall i :: 0 <= i < |cs| ==> cs[i] != []
    requires f in HighFindings(cs)
    ensures f.HighValueCycle? && f.cycle in cs && f.cycle != [] && f == HighFinding(f.cycle)
    ensures Total(f.cycle) > HIGH_RISK_CYCLE_VALUE
  {
    var init, last := cs[..|cs| - 1], cs[|cs| - 1];
    if f in HighFindings(init) {
      FindingHasCycle(init, f);
    } else {
      assert f == HighFinding(last);
    }
  }

  lemma {:induction false} CycleHasFinding(cs: seq<seq<Edge>>, c: seq<Edge>)
    requires forall i :: 0 <= i < |cs| ==> cs[i] != []
    requires c in cs && c != [] && Total(c) > HIGH_RISK_CYCLE_VALUE
    ensures HighFinding(c) in HighFindings(cs)
  {
    var init, last := cs[..|cs| - 1], cs[|cs| - 1];
    assert cs == init + [last];
    if c in init {
      CycleHasFinding(init, c);
    }
  }

  /** The HIGH findings are exactly the reported cycles of more than INR 10 lakhs, and describe them. */
  lemma {:induction false} FindingsDescribeCycles(edges: seq<Edge>, totalRevenue: real)
    ensures forall f :: f in Detect(edges, totalRevenue).0 && f.HighValueCycle? ==>
              && f.cycle in CyclesOf(edges)
              && Total(f.cycle) > HIGH_RISK_CYCLE_VALUE
              && Describes(f, f.cycle)
    ensures forall c :: c in CyclesOf(edges) && Total(c) > HIGH_RISK_CYCLE_VALUE ==>
              exists f :: f in Detect(edges, totalRevenue).0 && Describes(f, c)
  {
    forall f | f in Detect(edges, totalRevenue).0 && f.HighValueCycle?
      ensures f.cycle in CyclesOf(edges) && Total(f.cycle) > HIGH_RISK_CYCLE_VALUE && Describes(f, f.cycle)
    {
      FindingDescribes(edges, totalRevenue, f);
    }
    forall c | c in CyclesOf(edges) && Total(c) > HIGH_RISK_CYCLE_VALUE
      ensures exists f :: f in Detect(edges, totalRevenue).0 && Describes(f, c)
    {
      CycleIsDescribed(edges, totalRevenue, c);
    }
  }

  lemma {:induction false} FindingDescribes(edges: seq<Edge>, totalRevenue: real, f: Finding)
    requires f in Detect(edges, totalRevenue).0 && f.HighValueCycle?
    ensures f.cycle in CyclesOf(edges) && Total(f.cycle) > HIGH_RISK_CYCLE_VALUE && Describes(f, f.cycle)
  {
    CyclesNonempty(edges);
    FindingHasCycle(CyclesOf(edges), f);
    CyclesSoundAndComplete(edges);
    DescribesCycle(edges, f.cycle);
  }

  lemma {:induction false} CycleIsDescribed(edges: seq<Edge>, totalRevenue: real, c: seq<Edge>)
    requires c in CyclesOf(edges) && Total(c) > HIGH_RISK_CYCLE_VALUE
    ensures exists f :: f in Detect(edges, totalRevenue).0 && Describes(f, c)
  {
    CyclesNonempty(edges);
    CyclesSoundAndComplete(edges);
    CycleHasFinding(CyclesOf(edges), c);
    DescribesCycle(edges, c);
    assert HighFinding(c) in Detect(edges, totalRevenue).0;
  }

  /** What the circular value adds up: each cycle's smallest amount. */
  lemma {:induction false} LimitingFlowIs(c: seq<Edge>)
    requires c != []
    ensures forall e :: e in c ==> MinAmount(c) <= e.amount
    ensures exists e :: e in c && e.amount == MinAmount(c)
  {
    if |c| == 1 {
      assert c[0] in c;
    } else {
      var b, last := c[..|c| - 1], c[|c| - 1];
      LimitingFlowIs(b);
      assert c == b + [last];
      var e :| e in b && e.amount == MinAmount(b);
      assert e in c && last in c;
    }
  }

  lemma {:induction false} TotalAtLeast(c: seq<Edge>, least: int)
    requires forall e :: e in c ==> least <= e.amount
    ensures |c| * least <= Total(c)
  {
    if c != [] {
      assert c == c[..|c| - 1] + [c[|c| - 1]];
      TotalAtLeast(c[..|c| - 1], least);
      assert |c| * least == (|c| - 1) * least + least;
    }
  }

  function TotalOfAll(cs: seq<seq<Edge>>): int {
    if cs == [] then 0 else TotalOfAll(cs[..|cs| - 1]) + Total(cs[|cs| - 1])
  }

  /** With positive payments the circular value is at most half of the reported cycles' totals. */
  lemma {:induction false} CircularValueIsAtMostHalf(edges: seq<Edge>)
    requires forall e :: e in edges ==> e.amount > 0
    ensures var cs := CyclesOf(edges);
      (forall i :: 0 <= i < |cs| ==> cs[i] != []) && 0 <= 2 * CircularValue(cs) <= TotalOfAll(cs)
  {
    CyclesNonempty(edges);
    CyclesSoundAndComplete(edges);
    HalfOfEach(edges, CyclesOf(edges));
  }

  lemma {:induction false} HalfOfEach(edges: seq<Edge>, cs: seq<seq<Edge>>)
    requires forall e :: e in edges ==> e.amount > 0
    requires forall i :: 0 <= i < |cs| ==> cs[i] != [] && QualifyingCycle(edges, cs[i])
    ensures 0 <= 2 * CircularValue(cs) <= TotalOfAll(cs)
  {
    if cs != [] {
      HalfOfEach(edges, cs[..|cs| - 1]);
      TwiceTheLeast(cs[|cs| - 1]);
    }
  }

  lemma {:induction false} TwiceTheLeast(c: seq<Edge>)
    requires |c| >= 2 && forall e :: e in c ==> e.amount > 0
    ensures 0 < 2 * MinAmount(c) <= Total(c)
  {
    LimitingFlowIs(c);
    TotalAtLeast(c, MinAmount(c));
    assert (|c| - 2) * MinAmount(c) >= 0;
    assert |c| * MinAmount(c) == (|c| - 2) * MinAmount(c) + 2 * MinAmount(c);
  }

  /** The multiset of total values over the HIGH findings. */
  function HighTotals(fs: seq<Finding>): multiset<int> {
    if fs == [] then multiset{}
    else
      HighTotals(fs[..|fs| - 1]) +
      if fs[|fs| - 1].HighValueCycle? then multiset{fs[|fs| - 1].total} else multiset{}
  }

  function BigTotals(sigs: seq<Signature>): multiset<int> {
    if sigs == [] then multiset{}
    else BigTotals(sigs[..|sigs| - 1]) + Big(sigs[|sigs| - 1])
  }

  function Big(s: Signature): multiset<int> {
    if s.total > HIGH_RISK_CYCLE_VALUE then multiset{s.total} else multiset{}
  }

  function SigList(cs: seq<seq<Edge>>): seq<Signature> {
    if cs == [] then [] else SigList(cs[..|cs| - 1]) + [Sig(cs[|cs| - 1])]
  }

  lemma {:induction false} HighTotalsFromSigs(cs: seq<seq<Edge>>)
    requires forall i :: 0 <= i < |cs| ==> cs[i] != []
    ensures HighTotals(HighFindings(cs)) == BigTotals(SigList(cs))
  {
    if cs != [] {
      HighTotalsFromSigs(cs[..|cs| - 1]);
      var c, fs := cs[|cs| - 1], HighFindings(cs[..|cs| - 1]);
      var sigs := SigList(cs[..|cs| - 1]);
      assert (sigs + [Sig(c)])[..|sigs|] == sigs;
      if Total(c) > HIGH_RISK_CYCLE_VALUE {
        var f := HighFinding(c);
        assert HighFindings(cs) == fs + [f];
        assert (fs + [f])[..|fs|] == fs;
      } else {
        assert HighFindings(cs) == fs;
      }
    }
  }

  lemma {:induction false} SigListSpec(cs: seq<seq<Edge>>)
    ensures |SigList(cs)| == |cs| && forall i :: 0 <= i < |cs| ==> SigList(cs)[i] == Sig(cs[i])
  {
    if cs != [] {
      SigListSpec(cs[..|cs| - 1]);
    }
  }

  lemma {:induction false} BigTotalsSnoc(sigs: seq<Signature>, s: Signature)
    ensures BigTotals(sigs + [s]) == BigTotals(sigs) + Big(s)
  {
    assert (sigs + [s])[..|sigs|] == sigs;
  }

  lemma {:induction false} BigTotalsConcat(a: seq<Signature>, b: seq<Signature>)
    ensures BigTotals(a + b) == BigTotals(a) + BigTotals(b)
    decreases |b|
  {
    if b == [] {
      assert a + b == a;
    } else {
      var init, last := b[..|b| - 1], b[|b| - 1];
      calc {
        BigTotals(a + b);
        { assert a + b == a + init + [last]; }
        BigTotals(a + init + [last]);
        { BigTotalsSnoc(a + init, last); }
        BigTotals(a + init) + Big(last);
        { BigTotalsConcat(a, init); }
        BigTotals(a) + BigTotals(init) + Big(last);
        { SumAssociates(BigTotals(a), BigTotals(init), Big(last)); }
        BigTotals(a) + (BigTotals(init) + Big(last));
        BigTotals(a) + BigTotals(b);
      }
    }
  }

  lemma SumAssociates<T>(a: multiset<T>, b: multiset<T>, c: multiset<T>)
    ensures a + b + c == a + (b + c)
  {
  }

  lemma {:induction false} BigTotalsWithout(before: seq<Signature>, s: Signature, after: seq<Signature>)
    ensures BigTotals(before + [s] + after) == BigTotals(before + after) + Big(s)
  {
    BigTotalsConcat(before + [s], after);
    BigTotalsSnoc(before, s);
    BigTotalsConcat(before, after);
  }

  lemma {:induction false} SubtractOne<T>(a: multiset<T>, b: multiset<T>, x: T)
    requires a + multiset{x} <= b + multiset{x}
    ensures a <= b
  {
    forall y
      ensures a[y] <= b[y]
    {
      assert (a + multiset{x})[y] <= (b + multiset{x})[y];
    }
  }

  /** Taking the last element of a out of b as well. */
  lemma {:induction false} TakeOut(a: seq<Signature>, b: seq<Signature>)
    returns (before: seq<Signature>, after: seq<Signature>)
    requires a != [] && multiset(a) <= multiset(b)
    ensures b == before + [a[|a| - 1]] + after
    ensures multiset(a[..|a| - 1]) <= multiset(before + after)
  {
    var init, x := a[..|a| - 1], a[|a| - 1];
    assert a == init + [x];
    assert x in multiset(a);
    assert x in b;
    var k :| 0 <= k < |b| && b[k] == x;
    before, after := b[..k], b[k + 1..];
    assert b == before + [x] + after;
    assert multiset(b) == multiset(before + after) + multiset{x};
    assert multiset(a) == multiset(init) + multiset{x};
    SubtractOne(multiset(init), multiset(before + after), x);
  }

  lemma {:induction false} BigTotalsMonotone(a: seq<Signature>, b: seq<Signature>)
    requires multiset(a) <= multiset(b)
    ensures BigTotals(a) <= BigTotals(b)
    decreases |a|
  {
    if a != [] {
      var before, after := TakeOut(a, b);
      BigTotalsMonotone(a[..|a| - 1], before + after);
      BigTotalsWithout(before, a[|a| - 1], after);
    }
  }

  lemma {:induction false} DistinctSigMultiset(cs: seq<seq<Edge>>)
    requires DistinctSigs(cs)
    ensures forall s :: multiset(SigList(cs))[s] == if s in Sigs(cs) then 1 else 0
  {
    SigListSpec(cs);
    DistinctMultiset(SigList(cs));
    forall s
      ensures s in SigList(cs) <==> s in Sigs(cs)
    {
      if s in SigList(cs) {
        var i :| 0 <= i < |cs| && SigList(cs)[i] == s;
        assert cs[i] in cs;
      }
      if s in Sigs(cs) {
        var c :| c in cs && Sig(c) == s;
        var i :| 0 <= i < |cs| && cs[i] == c;
        assert SigList(cs)[i] == s;
      }
    }
  }

  /** The HIGH findings report the totals of exactly the qualifying signatures above INR 10 lakhs,
      and no CRITICAL finding changes that. */
  lemma {:induction false} DetectTotals(edges: seq<Edge>, totalRevenue: real)
    ensures HighTotals(Detect(edges, totalRevenue).0) == BigTotals(SigList(CyclesOf(edges)))
  {
    CyclesNonempty(edges);
    var high := HighFindings(CyclesOf(edges));
    HighTotalsFromSigs(CyclesOf(edges));
    var fs := Detect(edges, totalRevenue).0;
    if fs != high {
      assert fs[..|high|] == high;
    }
  }

  /** Adding payments only ever adds signatures, counted with multiplicity. */
  lemma {:induction false} SignaturesGrow(edges: seq<Edge>, more: seq<Edge>)
    requires forall e :: e in edges ==> e in more
    ensures multiset(SigList(CyclesOf(edges))) <= multiset(SigList(CyclesOf(more)))
  {
    MorePaymentsKeepSignatures(edges, more);
    CyclesSoundAndComplete(edges);
    CyclesSoundAndComplete(more);
    DistinctSigMultiset(CyclesOf(edges));
    DistinctSigMultiset(CyclesOf(more));
  }

  /** Adding payments, whatever the revenue, only ever adds HIGH findings. */
  lemma {:induction false} MorePaymentsKeepHighFindings(edges: seq<Edge>, more: seq<Edge>, revenue: real,
      revenue': real)
    requires forall e :: e in edges ==> e in more
    ensures HighTotals(Detect(edges, revenue).0) <= HighTotals(Detect(more, revenue').0)
  {
    SignaturesGrow(edges, more);
    BigTotalsMonotone(SigList(CyclesOf(edges)), SigList(CyclesOf(more)));
    DetectTotals(edges, revenue);
    DetectTotals(more, revenue');
  }

  lemma EachWay<T>(a: multiset<T>, b: multiset<T>)
    requires a <= b && b <= a
    ensures a == b
  {
  }

  /** Permuting the payments, or repeating one, changes neither the signatures nor the totals of
      the HIGH findings. */
  lemma {:induction false} DetectionIsOrderIndependent(edges: seq<Edge>, edges': seq<Edge>, revenue: real)
    requires forall e :: e in edges <==> e in edges'
    ensures multiset(SigList(CyclesOf(edges))) == multiset(SigList(CyclesOf(edges')))
    ensures HighTotals(Detect(edges, revenue).0) == HighTotals(Detect(edges', revenue).0)
  {
    SignaturesGrow(edges, edges');
    SignaturesGrow(edges', edges);
    EachWay(multiset(SigList(CyclesOf(edges))), multiset(SigList(CyclesOf(edges'))));
    MorePaymentsKeepHighFindings(edges, edges', revenue, revenue);
    MorePaymentsKeepHighFindings(edges', edges, revenue, revenue);
    EachWay(HighTotals(Detect(edges, revenue).0), HighTotals(Detect(edges', revenue).0));
  }

  // ---------------------------------------------------------------------------------------------
  // The bound is on the path, so nine edges pass.
  // ---------------------------------------------------------------------------------------------

  function RingNode(i: nat): string
    requires i < 10
  {
    [('a' as int + i) as char]
  }

  /** n payments of one paisa, each to the next of n firms and the last to the first. */
  function Ring(n: nat): seq<Edge>
    requires 1 <= n <= 10
  {
    seq(n, i requires 0 <= i < n => Edge(RingNode(i), RingNode(if i + 1 < n then i + 1 else 0), 1, 0))
  }

  lemma {:induction false} UnitTotal(c: seq<Edge>)
    requires forall i :: 0 <= i < |c| ==> c[i].amount == 1
    ensures Total(c) == |c|
  {
    if c != [] {
      UnitTotal(c[..|c| - 1]);
    }
  }

  lemma {:induction false} RingQualifies(n: nat)
    requires 2 <= n <= 9
    ensures QualifyingCycle(Ring(n), Ring(n))
  {
    var ring := Ring(n);
    forall i, j | 0 <= i < j < n
      ensures ring[i].src != ring[j].src
    {
      assert ring[i].src[0] as int == 'a' as int + i && ring[j].src[0] as int == 'a' as int + j;
    }
  }

  /** A ring of nine payments is reported, as a cycle of nine edges. */
  lemma {:induction false} NineEdgesAreReported()
    ensures exists c :: c in CyclesOf(Ring(9)) && |c| == 9
  {
    RingQualifies(9);
    UnitRingIsReported(Ring(9));
  }

  lemma {:induction false} UnitRingIsReported(ring: seq<Edge>)
    requires QualifyingCycle(ring, ring) && forall e :: e in ring ==> e.amount == 1
    ensures exists c :: c in CyclesOf(ring) && |c| == |ring|
  {
    CyclesSoundAndComplete(ring);
    var c :| c in CyclesOf(ring) && Sig(c) == Sig(ring);
    assert QualifyingCycle(ring, c);
    UnitTotal(ring);
    UnitTotal(c);
  }
}
