/** What the order of payments decides: of several cycles with one signature the first found is kept, so
    the limiting flows, the ratio and rejection can depend on it. Signatures and totals do not. */
module PaymentOrder {
  import opened Sorting
  import opened PaymentCycles

  // ---------------------------------------------------------------------------------------------
  // Any qualifying cycle is the one kept under some order.
  // ---------------------------------------------------------------------------------------------

  lemma {:induction false} FirstSource(edges: seq<Edge>)
    requires edges != []
    ensures Sources(edges) != [] && Sources(edges)[0] == edges[0].src
  {
    if |edges| > 1 {
      FirstSource(edges[..|edges| - 1]);
    }
  }

  lemma {:induction false} NoOut(edges: seq<Edge>, n: string)
    requires forall j :: 0 <= j < |edges| ==> edges[j].src != n
    ensures OutEdges(edges, n) == []
  {
    if edges != [] {
      NoOut(edges[..|edges| - 1], n);
    }
  }

  lemma {:induction false} FirstOut(edges: seq<Edge>, i: nat)
    requires i < |edges| && forall j :: 0 <= j < i ==> edges[j].src != edges[i].src
    ensures OutEdges(edges, edges[i].src) != [] && OutEdges(edges, edges[i].src)[0] == edges[i]
  {
    if i < |edges| - 1 {
      FirstOut(edges[..|edges| - 1], i);
    } else {
      NoOut(edges[..|edges| - 1], edges[i].src);
    }
  }

  lemma {:induction false} FirstAlong(edges: seq<Edge>, start: string, out: seq<Edge>, path: seq<Edge>,
      visited: set<string>)
    requires |path| <= MAX_CYCLE_LENGTH && out != [] && WalksBy(edges, start, out[0], path, visited) != []
    ensures WalksAlong(edges, start, out, path, visited) != []
    ensures WalksAlong(edges, start, out, path, visited)[0] == WalksBy(edges, start, out[0], path, visited)[0]
  {
  }

  lemma {:induction false} AbsorbKeepsFirst(kept: seq<seq<Edge>>, found: seq<seq<Edge>>)
    requires kept != []
    ensures Absorb(kept, found) != [] && Absorb(kept, found)[0] == kept[0]
    decreases |found|
  {
    if found != [] {
      AbsorbKeepsFirst(if Sig(found[0]) in Sigs(kept) then kept else kept + [found[0]], found[1..]);
    }
  }

  /** The search follows a cycle whose edges come first in the list. */
  lemma {:induction false} WalkFollows(edges: seq<Edge>, c: seq<Edge>, k: nat, visited: set<string>)
    requires QualifyingCycle(edges, c) && c <= edges && k < |c|
    requires forall i :: k < i < |c| ==> c[i].src !in visited
    ensures var found := Walks(edges, c[0].src, c[k].src, c[..k], visited); found != [] && found[0] == c
    decreases |c| - k
  {
    FirstOut(edges, k);
    if k == |c| - 1 {
      LastStep(edges, c, visited);
    } else {
      assert c[k].dst == c[k + 1].src && c[k].dst != c[0].src;
      WalkFollows(edges, c, k + 1, visited + {c[k].dst});
      assert c[..k] + [c[k]] == c[..k + 1];
    }
    FirstAlong(edges, c[0].src, OutEdges(edges, c[k].src), c[..k], visited);
  }

  lemma {:induction false} LastStep(edges: seq<Edge>, c: seq<Edge>, visited: set<string>)
    requires QualifyingCycle(edges, c)
    ensures WalksBy(edges, c[0].src, c[|c| - 1], c[..|c| - 1], visited) == [c]
  {
    SpanIsWindow(c);
    assert c[..|c| - 1] + [c[|c| - 1]] == c;
  }

  /** So that cycle is the first reported. */
  lemma {:induction false} OpeningCycleIsFirst(edges: seq<Edge>, c: seq<Edge>)
    requires QualifyingCycle(edges, c) && c <= edges
    ensures CyclesOf(edges) != [] && CyclesOf(edges)[0] == c
  {
    FirstSource(edges);
    WalkFollows(edges, c, 0, {c[0].src});
    assert c[..0] == [];
    var found := WalksFrom(edges, Sources(edges));
    assert found != [] && found[0] == c;
    AbsorbKeepsFirst([found[0]], found[1..]);
    assert [] + [found[0]] == [found[0]];
  }

  /** The edges other than those of c. */
  lemma {:induction false} Others(edges: seq<Edge>, c: seq<Edge>) returns (rest: seq<Edge>)
    requires multiset(c) <= multiset(edges)
    ensures multiset(edges) == multiset(c + rest)
    decreases |c|
  {
    if c == [] {
      rest := edges;
      assert c + rest == edges;
    } else {
      var init, e := c[..|c| - 1], c[|c| - 1];
      assert c == init + [e];
      assert multiset(c) == multiset(init) + multiset{e};
      var more := Others(edges, init);
      assert multiset(init + more) == multiset(init) + multiset(more);
      Cancel(multiset(init), multiset{e}, multiset(more));
      assert e in multiset(more);
      rest := Without(more, e);
      assert multiset(c + rest) == multiset(c) + multiset(rest);
    }
  }

  lemma {:induction false} Cancel<T>(a: multiset<T>, b: multiset<T>, c: multiset<T>)
    requires a + b <= a + c
    ensures b <= c
  {
    forall x
      ensures b[x] <= c[x]
    {
      assert (a + b)[x] <= (a + c)[x];
    }
  }

  lemma {:induction false} Without(edges: seq<Edge>, e: Edge) returns (rest: seq<Edge>)
    requires e in multiset(edges)
    ensures multiset(edges) == multiset(rest) + multiset{e}
  {
    var k :| 0 <= k < |edges| && edges[k] == e;
    rest := edges[..k] + edges[k + 1..];
    assert edges == edges[..k] + [e] + edges[k + 1..];
  }

  lemma {:induction false} CycleIsAmong(edges: seq<Edge>, c: seq<Edge>)
    requires QualifyingCycle(edges, c)
    ensures multiset(c) <= multiset(edges)
  {
    forall i, j | 0 <= i < j < |c|
      ensures c[i] != c[j]
    {
      assert c[i].src != c[j].src;
    }
    DistinctMultiset(c);
    assert forall e :: e in c ==> e in multiset(edges);
  }

  /** Any qualifying cycle is the one reported for its signature under some order of the payments. */
  lemma {:induction false} SomeOrderReports(edges: seq<Edge>, c: seq<Edge>) returns (order: seq<Edge>)
    requires QualifyingCycle(edges, c)
    ensures multiset(order) == multiset(edges) && c in CyclesOf(order)
  {
    CycleIsAmong(edges, c);
    var rest := Others(edges, c);
    order := c + rest;
    OpeningCycleIsFirst(order, c);
  }

  // ---------------------------------------------------------------------------------------------
  // When the order makes no difference.
  // ---------------------------------------------------------------------------------------------

  /** Cycles with one signature agree in their smallest amount. */
  ghost predicate FlowsAgree(edges: seq<Edge>) {
    forall c, d :: QualifyingCycle(edges, c) && QualifyingCycle(edges, d) && Sig(c) == Sig(d) ==>
      MinAmount(c) == MinAmount(d)
  }

  ghost predicate OrderFreeFlows(edges: seq<Edge>, order: seq<Edge>) {
    forall c, d :: c in CyclesOf(edges) && d in CyclesOf(order) && c != [] && d != [] && Sig(c) == Sig(d) ==>
      MinAmount(c) == MinAmount(d)
  }

  lemma {:induction false} SameElementsQualify(edges: seq<Edge>, order: seq<Edge>)
    requires multiset(order) == multiset(edges)
    ensures forall c :: QualifyingCycle(edges, c) <==> QualifyingCycle(order, c)
  {
    assert forall e :: e in edges <==> e in multiset(edges);
    assert forall e :: e in order <==> e in multiset(order);
  }

  lemma {:induction false} AgreeingFlowsAreOrderFree(edges: seq<Edge>, order: seq<Edge>)
    requires FlowsAgree(edges) && multiset(order) == multiset(edges)
    ensures OrderFreeFlows(edges, order)
  {
    SameElementsQualify(edges, order);
    CyclesSoundAndComplete(edges);
    CyclesSoundAndComplete(order);
  }

  lemma {:induction false} SignatureIsReported(edges: seq<Edge>, c: seq<Edge>)
    requires QualifyingCycle(edges, c)
    ensures c != [] && Sig(c) in Sigs(CyclesOf(edges))
  {
    CyclesSoundAndComplete(edges);
  }

  lemma {:induction false} DifferingFlowsShow(edges: seq<Edge>, c: seq<Edge>, d: seq<Edge>, a: seq<Edge>, b: seq<Edge>)
    requires c != [] && d != [] && Sig(c) == Sig(d) && Sig(c) in Sigs(CyclesOf(edges))
    requires MinAmount(c) != MinAmount(d) && c in CyclesOf(a) && d in CyclesOf(b)
    ensures !OrderFreeFlows(edges, a) || !OrderFreeFlows(edges, b)
  {
    var r := Reporter(edges, Sig(c));
    assert MinAmount(r) != MinAmount(c) || MinAmount(r) != MinAmount(d);
  }

  lemma {:induction false} Reporter(edges: seq<Edge>, s: Signature) returns (r: seq<Edge>)
    requires s in Sigs(CyclesOf(edges))
    ensures r in CyclesOf(edges) && r != [] && Sig(r) == s
  {
    var k := Matching(CyclesOf(edges), s);
    r := CyclesOf(edges)[k];
    CyclesNonempty(edges);
  }

  lemma {:induction false} OrderFreeFlowsAgree(edges: seq<Edge>, c: seq<Edge>, d: seq<Edge>)
    requires forall order :: multiset(order) == multiset(edges) ==> OrderFreeFlows(edges, order)
    requires QualifyingCycle(edges, c) && QualifyingCycle(edges, d) && Sig(c) == Sig(d)
    ensures MinAmount(c) == MinAmount(d)
  {
    SignatureIsReported(edges, c);
    var first := SomeOrderReports(edges, c);
    var second := SomeOrderReports(edges, d);
    if MinAmount(c) != MinAmount(d) {
      DifferingFlowsShow(edges, c, d, first, second);
    }
  }

  /** The limiting flow reported for each signature is the same under every order of the payments exactly
      when all qualifying cycles of one signature have the same one. */
  lemma {:induction false} FlowsAreOrderFreeExactlyWhen(edges: seq<Edge>)
    ensures (forall order :: multiset(order) == multiset(edges) ==> OrderFreeFlows(edges, order)) <==> FlowsAgree(edges)
  {
    if FlowsAgree(edges) {
      forall order | multiset(order) == multiset(edges)
        ensures OrderFreeFlows(edges, order)
      {
        AgreeingFlowsAreOrderFree(edges, order);
      }
    }
    if forall order :: multiset(order) == multiset(edges) ==> OrderFreeFlows(edges, order) {
      forall c, d | QualifyingCycle(edges, c) && QualifyingCycle(edges, d) && Sig(c) == Sig(d)
        ensures MinAmount(c) == MinAmount(d)
      {
        OrderFreeFlowsAgree(edges, c, d);
      }
    }
  }

  ghost predicate NoneEmpty(cs: seq<seq<Edge>>) { forall i :: 0 <= i < |cs| ==> cs[i] != [] }

  lemma {:induction false} CircularValueSnoc(cs: seq<seq<Edge>>, c: seq<Edge>)
    requires NoneEmpty(cs) && c != []
    ensures CircularValue(cs + [c]) == CircularValue(cs) + MinAmount(c)
  {
    assert (cs + [c])[..|cs|] == cs;
  }

  lemma {:induction false} CircularValueWithout(before: seq<seq<Edge>>, c: seq<Edge>, after: seq<seq<Edge>>)
    requires c != [] && NoneEmpty(before) && NoneEmpty(after)
    ensures CircularValue(before + [c] + after) == CircularValue(before + after) + MinAmount(c)
    decreases |after|
  {
    if after == [] {
      assert before + [c] + after == before + [c] && before + after == before;
      CircularValueSnoc(before, c);
    } else {
      var init, last := after[..|after| - 1], after[|after| - 1];
      CircularValueWithout(before, c, init);
      assert before + [c] + after == before + [c] + init + [last] && before + after == before + init + [last];
      CircularValueSnoc(before + [c] + init, last);
      CircularValueSnoc(before + init, last);
    }
  }

  lemma {:induction false} SameCircularValue(cs: seq<seq<Edge>>, ds: seq<seq<Edge>>)
    requires NoneEmpty(cs) && NoneEmpty(ds)
    requires DistinctSigs(cs) && DistinctSigs(ds) && Sigs(cs) == Sigs(ds)
    requires forall i, j :: 0 <= i < |cs| && 0 <= j < |ds| && Sig(cs[i]) == Sig(ds[j]) ==>
               MinAmount(cs[i]) == MinAmount(ds[j])
    ensures CircularValue(cs) == CircularValue(ds)
    decreases |cs|
  {
    SigsEmpty(cs);
    SigsEmpty(ds);
    if cs != [] {
      var n, c := |cs| - 1, cs[|cs| - 1];
      assert cs[n] in cs;
      var k := Matching(ds, Sig(c));
      var others := ds[..k] + ds[k + 1..];
      assert ds == ds[..k] + [ds[k]] + ds[k + 1..];
      SigsWithout(cs, n);
      assert cs[..n] + cs[n + 1..] == cs[..n];
      SigsWithout(ds, k);
      SameCircularValue(cs[..n], others);
      CircularValueWithout(ds[..k], ds[k], ds[k + 1..]);
    }
  }

  lemma {:induction false} SigsEmpty(cs: seq<seq<Edge>>)
    ensures Sigs(cs) == {} <==> cs == []
  {
    if cs != [] {
      assert cs[0] in cs;
      assert Sig(cs[0]) in Sigs(cs);
    }
  }

  lemma {:induction false} Matching(ds: seq<seq<Edge>>, s: Signature) returns (k: nat)
    requires s in Sigs(ds)
    ensures k < |ds| && Sig(ds[k]) == s
  {
    var d :| d in ds && Sig(d) == s;
    k :| 0 <= k < |ds| && ds[k] == d;
  }

  lemma {:induction false} SigsWithout(cs: seq<seq<Edge>>, k: nat)
    requires DistinctSigs(cs) && k < |cs|
    ensures DistinctSigs(cs[..k] + cs[k + 1..]) && Sigs(cs[..k] + cs[k + 1..]) == Sigs(cs) - {Sig(cs[k])}
  {
    forall s
      ensures s in Sigs(cs[..k] + cs[k + 1..]) <==> s in Sigs(cs) - {Sig(cs[k])}
    {
      if s in Sigs(cs[..k] + cs[k + 1..]) {
        FoundWithout(cs, k, s);
      }
      if s in Sigs(cs) - {Sig(cs[k])} {
        StillThere(cs, k, s);
      }
    }
  }

  lemma {:induction false} FoundWithout(cs: seq<seq<Edge>>, k: nat, s: Signature)
    requires DistinctSigs(cs) && k < |cs| && s in Sigs(cs[..k] + cs[k + 1..])
    ensures s in Sigs(cs) && s != Sig(cs[k])
  {
    var i := Matching(cs[..k] + cs[k + 1..], s);
    var j := if i < k then i else i + 1;
    assert Sig(cs[j]) == s && cs[j] in cs;
  }

  lemma {:induction false} StillThere(cs: seq<seq<Edge>>, k: nat, s: Signature)
    requires k < |cs| && s in Sigs(cs) && s != Sig(cs[k])
    ensures s in Sigs(cs[..k] + cs[k + 1..])
  {
    var j := Matching(cs, s);
    var others := cs[..k] + cs[k + 1..];
    assert others[if j < k then j else j - 1] == cs[j];
    assert cs[j] in others;
  }

  /** Then so is the circular ratio, and with it the CRITICAL finding. */
  lemma {:induction false} RatioIsOrderFreeWhenFlowsAgree(edges: seq<Edge>, order: seq<Edge>, totalRevenue: real)
    requires FlowsAgree(edges) && multiset(order) == multiset(edges)
    ensures Detect(order, totalRevenue).1 == Detect(edges, totalRevenue).1
  {
    CyclesSoundAndComplete(edges);
    CyclesSoundAndComplete(order);
    CyclesNonempty(edges);
    CyclesNonempty(order);
    SameSigs(edges, order);
    AgreeingFlowsAreOrderFree(edges, order);
    SameCircularValue(CyclesOf(edges), CyclesOf(order));
  }

  lemma {:induction false} SameSigs(edges: seq<Edge>, order: seq<Edge>)
    requires multiset(order) == multiset(edges)
    ensures Sigs(CyclesOf(order)) == Sigs(CyclesOf(edges))
  {
    assert forall e :: e in edges <==> e in multiset(edges);
    assert forall e :: e in order <==> e in multiset(order);
    MorePaymentsKeepSignatures(edges, order);
    MorePaymentsKeepSignatures(order, edges);
  }

  // ---------------------------------------------------------------------------------------------
  // The same payments in two orders.
  // ---------------------------------------------------------------------------------------------

  const SMALL_OUT := Edge("A", "B", 1, 0)
  const LARGE_BACK := Edge("B", "A", 3, 0)
  const LATER_OUT := Edge("A", "B", 2, 200)
  const LATER_BACK := Edge("B", "A", 2, 200)

  /** Two round trips of total 4 between the same two firms, too far apart to mix. */
  const SMALL_FLOW_FIRST := [SMALL_OUT, LARGE_BACK, LATER_OUT, LATER_BACK]
  const LARGE_FLOW_FIRST := [LATER_OUT, LATER_BACK, SMALL_OUT, LARGE_BACK]

  lemma {:induction false} RoundTripsShareSignature(edges: seq<Edge>, c: seq<Edge>)
    requires forall e :: e in edges ==> e in SMALL_FLOW_FIRST
    requires QualifyingCycle(edges, c)
    ensures Sig(c) == Signature({"A", "B"}, 4)
  {
    assert forall i :: 0 <= i < |c| ==> c[i] in edges && (c[i].src == "A" || c[i].src == "B");
    TwoSources(c, "A", "B");
    assert c == [c[0], c[1]];
    PairSignature(c[0], c[1]);
  }

  ghost predicate SourceAt(c: seq<Edge>, i: int, n: string) { 0 <= i < |c| && c[i].src == n }

  lemma {:induction false} TwoSources(c: seq<Edge>, m: string, n: string)
    requires forall i, j :: 0 <= i < j < |c| ==> c[i].src != c[j].src
    requires forall i :: 0 <= i < |c| ==> c[i].src == m || c[i].src == n
    ensures |c| <= 2
  {
    assert forall i, j :: i < j ==> !(SourceAt(c, i, m) && SourceAt(c, j, m));
    assert forall i, j :: i < j ==> !(SourceAt(c, i, n) && SourceAt(c, j, n));
    assert |c| <= 2 || SourceAt(c, 0, m) || SourceAt(c, 0, n);
    assert |c| <= 2 || SourceAt(c, 1, m) || SourceAt(c, 1, n);
    assert |c| <= 2 || SourceAt(c, 2, m) || SourceAt(c, 2, n);
  }

  lemma {:induction false} PairSignature(e: Edge, f: Edge)
    requires e in SMALL_FLOW_FIRST && f in SMALL_FLOW_FIRST && e.src != f.src
    requires e.date - f.date <= 90 && f.date - e.date <= 90
    ensures Sig([e, f]) == Signature({"A", "B"}, 4)
  {
    var c := [e, f];
    assert c[..1] == [e] && [e][..0] == [];
    assert Total([e]) == e.amount;
    assert e == SMALL_OUT || e == LARGE_BACK || e == LATER_OUT || e == LATER_BACK;
    assert f == SMALL_OUT || f == LARGE_BACK || f == LATER_OUT || f == LATER_BACK;
    assert "A" != "B" && e.amount + f.amount == 4;
    assert e in c && f in c && forall x :: x in c ==> x == e || x == f;
    assert Nodes(c) == {"A", "B"};
  }

  lemma {:induction false} OneReported(edges: seq<Edge>)
    requires forall e :: e in edges ==> e in SMALL_FLOW_FIRST
    ensures |CyclesOf(edges)| <= 1
  {
    CyclesSoundAndComplete(edges);
    var cs := CyclesOf(edges);
    if |cs| > 1 {
      RoundTripsShareSignature(edges, cs[0]);
      RoundTripsShareSignature(edges, cs[1]);
    }
  }

  lemma {:induction false} RatioOfOpening(edges: seq<Edge>, totalRevenue: real)
    requires |edges| >= 2 && edges[0].dst == edges[1].src != edges[0].src == edges[1].dst
    requires edges[0].date == edges[1].date && forall e :: e in edges ==> e in SMALL_FLOW_FIRST
    ensures Detect(edges, totalRevenue).1
         == Ratio(if edges[0].amount <= edges[1].amount then edges[0].amount else edges[1].amount, totalRevenue)
  {
    var c := edges[..2];
    OpeningCycleIsFirst(edges, c);
    OneReported(edges);
    assert CyclesOf(edges) == [c];
    assert c[..1] == [edges[0]];
    var one: seq<seq<Edge>> := [c];
    assert one[..0] == [];
    assert CircularValue(one) == MinAmount(c);
  }

  /** Of two cycles with one signature the first found is kept, and its smallest amount counts: the same
      payments in two orders, with ratios on both sides of the critical 15%. */
  lemma {:induction false} PaymentOrderCanChangeTheRatio()
    ensures multiset(SMALL_FLOW_FIRST) == multiset(LARGE_FLOW_FIRST)
    ensures Detect(SMALL_FLOW_FIRST, 10.0).1 == 0.1 && Detect(LARGE_FLOW_FIRST, 10.0).1 == 0.2
  {
    RatioOfOpening(SMALL_FLOW_FIRST, 10.0);
    RatioOfOpening(LARGE_FLOW_FIRST, 10.0);
    SmallRatios();
  }

  lemma {:induction false} SmallRatios()
    ensures Ratio(1, 10.0) == 0.1 && Ratio(2, 10.0) == 0.2
  {
    assert (1.0 / 10.0 * 10000.0).Floor == 1000 && (2.0 / 10.0 * 10000.0).Floor == 2000;
  }
}
