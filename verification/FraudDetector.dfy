/** services/fraud_detector.py in its own imperative form: graph construction, the recursive
    depth-first search over shared lists, and the detection loop. */
module FraudDetector {
  import opened Base
  import opened PaymentCycles

  /** A bank row: amounts in paise, and the resolved counterparty if any. */
  datatype Transaction = Transaction(date: int, debit: int, credit: int, counterparty: Option<string>)

  /** A supplemental edge; a missing amount counts as zero. */
  datatype ExtraEdge = ExtraEdge(src: string, dst: string, amount: Option<int>, date: int)

  function EdgesOfTransaction(t: Transaction, self: string): seq<Edge> {
    if t.counterparty.None? || t.counterparty.value == "" then []
    else
      (if t.debit > 0 then [Edge(self, t.counterparty.value, t.debit, t.date)] else []) +
      if t.credit > 0 then [Edge(t.counterparty.value, self, t.credit, t.date)] else []
  }

  function BankEdges(txns: seq<Transaction>, self: string): seq<Edge> {
    if txns == [] then []
    else BankEdges(txns[..|txns| - 1], self) + EdgesOfTransaction(txns[|txns| - 1], self)
  }

  function EdgeOfExtra(e: ExtraEdge): Edge {
    Edge(e.src, e.dst, if e.amount.Some? then e.amount.value else 0, e.date)
  }

  function Graph(txns: seq<Transaction>, self: string, extra: seq<ExtraEdge>): seq<Edge> {
    BankEdges(txns, self) + seq(|extra|, i requires 0 <= i < |extra| => EdgeOfExtra(extra[i]))
  }

  method BuildTransactionGraph(bank: Option<seq<Transaction>>, self: string, extra: seq<ExtraEdge>)
    returns (edges: seq<Edge>)
    ensures edges == Graph(if bank.Some? then bank.value else [], self, extra)
  {
    edges := [];
    if bank.Some? {
      var txns := bank.value;
      for i := 0 to |txns|
        invariant edges == BankEdges(txns[..i], self)
      {
        assert txns[..i + 1][..i] == txns[..i];
        var cp := txns[i].counterparty;
        if cp.None? || cp.value == "" {
          continue;
        }
        if txns[i].debit > 0 {
          edges := edges + [Edge(self, cp.value, txns[i].debit, txns[i].date)];
        }
        if txns[i].credit > 0 {
          edges := edges + [Edge(cp.value, self, txns[i].credit, txns[i].date)];
        }
      }
      assert txns[..|txns|] == txns;
    }
    ghost var bankEdges := edges;
    for i := 0 to |extra|
      invariant edges == bankEdges + seq(i, j requires 0 <= j < i => EdgeOfExtra(extra[j]))
    {
      edges := edges + [EdgeOfExtra(extra[i])];
    }
  }

  /** An adjacency dictionary, with its keys in insertion order, groups the edges by source. */
  ghost predicate IndexOf(edges: seq<Edge>, adj: map<string, seq<Edge>>, keys: seq<string>) {
    && keys == Sources(edges)
    && (forall n :: n in adj <==> n in keys)
    && forall n :: OutEdges(edges, n) == Neighbours(adj, n)
  }

  function Neighbours(adj: map<string, seq<Edge>>, n: string): seq<Edge> {
    if n in adj then adj[n] else []
  }

  lemma {:induction false} IndexOneMore(edges: seq<Edge>, e: Edge, adj: map<string, seq<Edge>>, keys: seq<string>)
    requires IndexOf(edges, adj, keys)
    ensures IndexOf(edges + [e], adj[e.src := Neighbours(adj, e.src) + [e]],
                    if e.src in adj then keys else keys + [e.src])
  {
    var more, src := edges + [e], e.src;
    assert more[..|edges|] == edges && more[|more| - 1] == e;
    var adj' := adj[src := Neighbours(adj, src) + [e]];
    var keys' := if src in adj then keys else keys + [src];
    assert keys' == Sources(more);
    assert forall n :: n in keys' <==> n in keys || n == src;
    forall n
      ensures OutEdges(more, n) == Neighbours(adj', n)
    {
      OutEdgesSnoc(edges, e, n);
      assert OutEdges(edges, n) == Neighbours(adj, n);
    }
  }

  lemma {:induction false} OutEdgesSnoc(edges: seq<Edge>, e: Edge, n: string)
    ensures OutEdges(edges + [e], n) == OutEdges(edges, n) + if e.src == n then [e] else []
  {
    assert (edges + [e])[..|edges|] == edges;
  }

  /** The adjacency dictionary, the accumulated cycles and the set of signatures seen so far. */
  class CycleSearch {
    var adj: map<string, seq<Edge>>
    var keys: seq<string>
    var cycles: seq<seq<Edge>>
    var seen: set<Signature>

    ghost predicate Indexes(edges: seq<Edge>)
      reads this`adj, this`keys
    {
      IndexOf(edges, adj, keys)
    }

    constructor (edges: seq<Edge>)
      ensures Indexes(edges) && cycles == [] && seen == {}
    {
      adj, keys, cycles, seen := map[], [], [], {};
      new;
      for i := 0 to |edges|
        invariant Indexes(edges[..i]) && cycles == [] && seen == {}
      {
        assert edges[..i + 1] == edges[..i] + [edges[i]];
        AddEdge(edges[..i], edges[i]);
      }
      assert edges[..|edges|] == edges;
    }

    method AddEdge(ghost earlier: seq<Edge>, e: Edge)
      requires Indexes(earlier)
      modifies this`adj, this`keys
      ensures Indexes(earlier + [e])
    {
      IndexOneMore(earlier, e, adj, keys);
      ghost var grouped := adj[e.src := Neighbours(adj, e.src) + [e]];
      if e.src !in adj {
        adj, keys := adj[e.src := []], keys + [e.src];
      }
      adj := adj[e.src := adj[e.src] + [e]];
      assert adj == grouped;
    }

    /** Keep a closed walk inside the window unless its signature has been seen. */
    method Record(cycle: seq<Edge>)
      requires cycle != [] && seen == Sigs(cycles)
      modifies this`cycles, this`seen
      ensures seen == Sigs(cycles)
      ensures cycles == Absorb(old(cycles), if Span(cycle) <= CYCLE_WINDOW_DAYS then [cycle] else [])
    {
      if Span(cycle) <= CYCLE_WINDOW_DAYS {
        var sig := Sig(cycle);
        if sig !in seen {
          SigsSnoc(cycles, cycle);
          seen := seen + {sig};
          cycles := cycles + [cycle];
        }
      }
    }

    method Dfs(ghost edges: seq<Edge>, start: string, current: string, path: seq<Edge>, visited: set<string>)
      requires Indexes(edges) && seen == Sigs(cycles)
      modifies this`cycles, this`seen
      ensures seen == Sigs(cycles)
      ensures cycles == Absorb(old(cycles), Walks(edges, start, current, path, visited))
      decreases MAX_CYCLE_LENGTH + 1 - |path|, 1
    {
      if |path| > MAX_CYCLE_LENGTH {
        return;
      }
      var out := Neighbours(adj, current);
      assert out == OutEdges(edges, current) && out[0..] == out;
      for i := 0 to |out|
        invariant seen == Sigs(cycles)
        invariant Absorb(old(cycles), WalksAlong(edges, start, out, path, visited))
               == Absorb(cycles, WalksAlong(edges, start, out[i..], path, visited))
      {
        WalkOneMore(edges, start, out, i, path, visited, cycles);
        Follow(edges, start, out[i], path, visited);
      }
    }

    /** One edge out of the current node: close the walk, go on, or turn back. */
    method Follow(ghost edges: seq<Edge>, start: string, edge: Edge, path: seq<Edge>, visited: set<string>)
      requires Indexes(edges) && seen == Sigs(cycles) && |path| <= MAX_CYCLE_LENGTH
      modifies this`cycles, this`seen
      ensures seen == Sigs(cycles)
      ensures cycles == Absorb(old(cycles), WalksBy(edges, start, edge, path, visited))
      decreases MAX_CYCLE_LENGTH + 1 - |path|, 0
    {
      if edge.dst == start && path != [] {
        Record(path + [edge]);
      } else if edge.dst !in visited {
        Dfs(edges, start, edge.dst, path + [edge], visited + {edge.dst});
      }
    }
  }

  lemma {:induction false} WalkOneMore(edges: seq<Edge>, start: string, out: seq<Edge>, i: nat,
      path: seq<Edge>, visited: set<string>, kept: seq<seq<Edge>>)
    requires i < |out| && |path| <= MAX_CYCLE_LENGTH
    ensures Absorb(kept, WalksAlong(edges, start, out[i..], path, visited))
         == Absorb(Absorb(kept, WalksBy(edges, start, out[i], path, visited)),
                   WalksAlong(edges, start, out[i + 1..], path, visited))
  {
    assert out[i..][0] == out[i] && out[i..][1..] == out[i + 1..];
    AbsorbConcat(kept, WalksBy(edges, start, out[i], path, visited),
                 WalksAlong(edges, start, out[i + 1..], path, visited));
  }

  lemma {:induction false} SearchOneMore(edges: seq<Edge>, nodes: seq<string>, i: nat, kept: seq<seq<Edge>>)
    requires i < |nodes|
    ensures Absorb(kept, WalksFrom(edges, nodes[i..]))
         == Absorb(Absorb(kept, Walks(edges, nodes[i], nodes[i], [], {nodes[i]})), WalksFrom(edges, nodes[i + 1..]))
  {
    assert nodes[i..][0] == nodes[i] && nodes[i..][1..] == nodes[i + 1..];
    AbsorbConcat(kept, Walks(edges, nodes[i], nodes[i], [], {nodes[i]}), WalksFrom(edges, nodes[i + 1..]));
  }

  method FindCycles(edges: seq<Edge>) returns (cycles: seq<seq<Edge>>)
    ensures cycles == CyclesOf(edges)
  {
    var search := new CycleSearch(edges);
    var nodes := search.keys;
    assert nodes[0..] == nodes;
    for i := 0 to |nodes|
      invariant search.Indexes(edges) && search.seen == Sigs(search.cycles)
      invariant CyclesOf(edges) == Absorb(search.cycles, WalksFrom(edges, nodes[i..]))
    {
      SearchOneMore(edges, nodes, i, search.cycles);
      search.Dfs(edges, nodes[i], nodes[i], [], {nodes[i]});
    }
    cycles := search.cycles;
  }

  method DetectCircularTrading(edges: seq<Edge>, totalRevenue: real) returns (findings: seq<Finding>, ratio: real)
    ensures (findings, ratio) == Detect(edges, totalRevenue)
  {
    var rawCycles := FindCycles(edges);
    CyclesNonempty(edges);
    findings := [];
    var circularValue := 0;
    for i := 0 to |rawCycles|
      invariant findings == HighFindings(rawCycles[..i])
      invariant circularValue == CircularValue(rawCycles[..i])
    {
      assert rawCycles[..i + 1][..i] == rawCycles[..i];
      var cyc := rawCycles[i];
      circularValue := circularValue + MinAmount(cyc);
      if Total(cyc) > HIGH_RISK_CYCLE_VALUE {
        var chain := Chain(cyc);
        findings := findings + [HighValueCycle(cyc, chain, Total(cyc), Span(cyc), |chain| - 1)];
      }
    }
    assert rawCycles[..|rawCycles|] == rawCycles;
    ratio := Ratio(circularValue, totalRevenue);
    if ratio > CIRCULAR_RATIO_CRITICAL {
      findings := findings + [CriticalRatio(ratio, Chains(findings))];
    }
  }

  // ---------------------------------------------------------------------------------------------
  // Without supplemental edges the graph is a star around the borrower.
  // ---------------------------------------------------------------------------------------------

  /** The debit leg of a row: a payment by the borrower to a named counterparty. */
  predicate IsDebit(t: Transaction, self: string, cp: string, e: Edge) {
    cp != "" && t.counterparty == Some(cp) && t.debit > 0 && e == Edge(self, cp, t.debit, t.date)
  }

  predicate IsCredit(t: Transaction, self: string, cp: string, e: Edge) {
    cp != "" && t.counterparty == Some(cp) && t.credit > 0 && e == Edge(cp, self, t.credit, t.date)
  }

  ghost predicate DebitLeg(txns: seq<Transaction>, self: string, cp: string, e: Edge) {
    exists t :: t in txns && IsDebit(t, self, cp, e)
  }

  ghost predicate CreditLeg(txns: seq<Transaction>, self: string, cp: string, e: Edge) {
    exists t :: t in txns && IsCredit(t, self, cp, e)
  }

  lemma {:induction false} LegsSnoc(txns: seq<Transaction>, t: Transaction, self: string, cp: string, e: Edge)
    ensures DebitLeg(txns + [t], self, cp, e) <==> DebitLeg(txns, self, cp, e) || IsDebit(t, self, cp, e)
    ensures CreditLeg(txns + [t], self, cp, e) <==> CreditLeg(txns, self, cp, e) || IsCredit(t, self, cp, e)
  {
    assert t in txns + [t];
  }

  lemma EdgesOfRow(t: Transaction, self: string, e: Edge)
    ensures e in EdgesOfTransaction(t, self) <==> IsDebit(t, self, e.dst, e) || IsCredit(t, self, e.src, e)
  {
  }

  lemma {:induction false} BankEdgesAreLegs(txns: seq<Transaction>, self: string, e: Edge)
    ensures e in BankEdges(txns, self) <==> DebitLeg(txns, self, e.dst, e) || CreditLeg(txns, self, e.src, e)
  {
    if txns != [] {
      var init, t := txns[..|txns| - 1], txns[|txns| - 1];
      BankEdgesAreLegs(init, self, e);
      EdgesOfRow(t, self, e);
      LegsSnoc(init, t, self, e.dst, e);
      LegsSnoc(init, t, self, e.src, e);
      assert txns == init + [t];
    }
  }

  /** A two-hop cycle through counterparty cp, from either end. */
  ghost predicate RoundTrip(txns: seq<Transaction>, self: string, cp: string, c: seq<Edge>) {
    && cp != self && |c| == 2 && WithinWindow(c)
    && (|| (DebitLeg(txns, self, cp, c[0]) && CreditLeg(txns, self, cp, c[1]))
        || (CreditLeg(txns, self, cp, c[0]) && DebitLeg(txns, self, cp, c[1])))
  }

  lemma {:induction false} StarHasTwoHops(c: seq<Edge>, hub: string)
    requires |c| >= 2 && c[|c| - 1].dst == c[0].src
    requires forall i :: 0 <= i < |c| - 1 ==> c[i].dst == c[i + 1].src
    requires forall i, j :: 0 <= i < j < |c| ==> c[i].src != c[j].src
    requires forall i :: 0 <= i < |c| ==> c[i].src == hub || c[i].dst == hub
    ensures |c| == 2
  {
    assert forall i, j :: i < j ==> !(LeavesHub(c, hub, i) && LeavesHub(c, hub, j));
    assert LeavesHub(c, hub, 0) || LeavesHub(c, hub, 1);
    assert |c| == 2 || LeavesHub(c, hub, 1) || LeavesHub(c, hub, 2);
    assert LeavesHub(c, hub, |c| - 1) || LeavesHub(c, hub, 0);
  }

  ghost predicate LeavesHub(c: seq<Edge>, hub: string, i: int) { 0 <= i < |c| && c[i].src == hub }

  lemma {:induction false} StarCycle(txns: seq<Transaction>, self: string, c: seq<Edge>)
    requires QualifyingCycle(BankEdges(txns, self), c)
    ensures exists cp :: RoundTrip(txns, self, cp, c)
  {
    forall i | 0 <= i < |c|
      ensures (c[i].src == self && DebitLeg(txns, self, c[i].dst, c[i]))
           || (c[i].dst == self && CreditLeg(txns, self, c[i].src, c[i]))
    {
      assert c[i] in BankEdges(txns, self);
      BankEdgesAreLegs(txns, self, c[i]);
    }
    StarHasTwoHops(c, self);
    var cp := if c[0].src == self then c[0].dst else c[0].src;
    assert RoundTrip(txns, self, cp, c);
  }

  lemma {:induction false} RoundTripQualifies(txns: seq<Transaction>, self: string, cp: string, c: seq<Edge>)
    requires RoundTrip(txns, self, cp, c)
    ensures QualifyingCycle(BankEdges(txns, self), c)
  {
    BankEdgesAreLegs(txns, self, c[0]);
    BankEdgesAreLegs(txns, self, c[1]);
  }

  /** With no supplemental edges the reported cycles are exactly the round trips: one debit to and
      one credit from the same counterparty, other than the borrower, within the window. */
  lemma {:induction false} BankOnlyCyclesAreRoundTrips(txns: seq<Transaction>, self: string)
    ensures var cycles := CyclesOf(Graph(txns, self, []));
      && (forall c :: c in cycles ==> exists cp :: RoundTrip(txns, self, cp, c))
      && (forall c, cp :: RoundTrip(txns, self, cp, c) ==> Sig(c) in Sigs(cycles))
  {
    var edges := BankEdges(txns, self);
    assert Graph(txns, self, []) == edges;
    CyclesSoundAndComplete(edges);
    forall c | c in CyclesOf(edges)
      ensures exists cp :: RoundTrip(txns, self, cp, c)
    {
      StarCycle(txns, self, c);
    }
    forall c, cp | RoundTrip(txns, self, cp, c)
      ensures Sig(c) in Sigs(CyclesOf(edges))
    {
      RoundTripQualifies(txns, self, cp, c);
    }
  }
}
