/** What services/fraud_detector.py answers, said without its functions: the supplemental edges of the
    graph, the circular ratio, the CRITICAL finding, and the whole answer on two payments. */
module DetectionLaws {
  import opened Base
  import Numeric
  import opened PaymentCycles
  import PaymentOrder
  import opened FraudDetector

  // ---------------------------------------------------------------------------------------------
  // The circular ratio.
  // ---------------------------------------------------------------------------------------------

  function SumOf(xs: seq<int>): int { if xs == [] then 0 else SumOf(xs[..|xs| - 1]) + xs[|xs| - 1] }

  /** The amount of some edge, and no edge has a smaller one. */
  ghost predicate LeastAmount(c: seq<Edge>, x: int) {
    (exists e :: e in c && e.amount == x) && forall e :: e in c ==> x <= e.amount
  }

  ghost predicate LeastAmounts(cs: seq<seq<Edge>>, flows: seq<int>) {
    |flows| == |cs| && forall i :: 0 <= i < |cs| ==> LeastAmount(cs[i], flows[i])
  }

  lemma {:induction false} CircularValueIs(cs: seq<seq<Edge>>, flows: seq<int>)
    requires PaymentOrder.NoneEmpty(cs) && LeastAmounts(cs, flows)
    ensures CircularValue(cs) == SumOf(flows)
  {
    if cs != [] {
      var n := |cs| - 1;
      CircularValueIs(cs[..n], flows[..n]);
      assert LeastAmount(cs[n], flows[n]);
      LimitingFlowIs(cs[n]);
    }
  }

  lemma {:induction false} Round4Spec(x: real)
    ensures -0.00005 <= Round4(x) - x <= 0.00005
    ensures (Round4(x) * 10000.0).Floor as real == Round4(x) * 10000.0
    ensures Round4(x) > 0.15 <==> x > 0.15005
  {
    var y := x * 10000.0;
    Numeric.HalfEvenSpec(y);
    assert Round4(x) * 10000.0 == Numeric.HalfEven(y) as real;
    if y > 1500.5 {
      assert Numeric.HalfEven(y) >= 1501;
    } else {
      Numeric.HalfEvenMonotone(y, 1500.5);
      assert Numeric.HalfEven(1500.5) == 1500;
    }
  }

  /** Main result: the ratio is the sum of the reported cycles' least amounts over the revenue, both in
      paise, to the nearest four decimals, and 0 without revenue. There is a CRITICAL finding exactly
      when that quotient exceeds 0.15005, which rounding to four decimals makes of the 15%. */
  lemma {:induction false} RatioIs(edges: seq<Edge>, totalRevenue: real, flows: seq<int>)
    requires LeastAmounts(CyclesOf(edges), flows)
    ensures var (fs, ratio) := Detect(edges, totalRevenue);
      if totalRevenue == 0.0 then ratio == 0.0 && forall f :: f in fs ==> SeverityOf(f) == High
      else
        var quotient := SumOf(flows) as real / totalRevenue;
        && -0.00005 <= ratio - quotient <= 0.00005 && (ratio * 10000.0).Floor as real == ratio * 10000.0
        && ((exists f :: f in fs && SeverityOf(f) == Critical) <==> quotient > 0.15005)
  {
    CyclesNonempty(edges);
    CircularValueIs(CyclesOf(edges), flows);
    CriticalFindingIs(edges, totalRevenue);
    Round4Spec(Numeric.SafeDiv(SumOf(flows) as real, totalRevenue, 0.0));
    if totalRevenue == 0.0 {
      assert (0.0 * 10000.0).Floor == 0;
    }
  }

  /** The CRITICAL finding, if any, is the last, carries the ratio, and lists the chain of every HIGH
      finding in order. */
  lemma {:induction false} CriticalFindingIs(edges: seq<Edge>, totalRevenue: real)
    ensures var (fs, ratio) := Detect(edges, totalRevenue);
      && (forall i :: 0 <= i < |fs| ==>
            if i == |fs| - 1 && ratio > 0.15 then SeverityOf(fs[i]) == Critical && fs[i].CriticalRatio?
            else SeverityOf(fs[i]) == High && fs[i].HighValueCycle?)
      && (ratio > 0.15 ==>
            && fs != []
            && var last := fs[|fs| - 1];
               && last.CriticalRatio? && last.ratio == ratio && |last.chains| == |fs| - 1
               && forall i :: 0 <= i < |fs| - 1 ==> fs[i].HighValueCycle? && last.chains[i] == fs[i].chain)
  {
    CyclesNonempty(edges);
    var high := HighFindings(CyclesOf(edges));
    forall f | f in high
      ensures f.HighValueCycle?
    {
      FindingHasCycle(CyclesOf(edges), f);
    }
    assert forall i :: 0 <= i < |high| ==> high[i] in high;
    ChainsAre(high);
  }

  lemma {:induction false} ChainsAre(fs: seq<Finding>)
    requires forall i :: 0 <= i < |fs| ==> fs[i].HighValueCycle?
    ensures |Chains(fs)| == |fs| && forall i :: 0 <= i < |fs| ==> Chains(fs)[i] == fs[i].chain
  {
    if fs != [] {
      ChainsAre(fs[1..]);
    }
  }

  // ---------------------------------------------------------------------------------------------
  // The graph.
  // ---------------------------------------------------------------------------------------------

  /** A row adds one edge for a positive debit and one for a positive credit, if it names a counterparty. */
  function LegCount(txns: seq<Transaction>): nat {
    if txns == [] then 0
    else
      var t := txns[|txns| - 1];
      LegCount(txns[..|txns| - 1]) +
      if t.counterparty.None? || t.counterparty.value == "" then 0
      else (if t.debit > 0 then 1 else 0) + (if t.credit > 0 then 1 else 0)
  }

  lemma {:induction false} BankEdgeCount(txns: seq<Transaction>, self: string)
    ensures |BankEdges(txns, self)| == LegCount(txns)
  {
    if txns != [] {
      BankEdgeCount(txns[..|txns| - 1], self);
    }
  }

  /** The graph is the bank edges and then one edge per supplemental one, with its ends, date and amount,
      a missing amount counting as 0. */
  lemma {:induction false} GraphIs(txns: seq<Transaction>, self: string, extra: seq<ExtraEdge>)
    ensures var g, n := Graph(txns, self, extra), LegCount(txns);
      && |g| == n + |extra|
      && (forall e :: e in g[..n] <==> DebitLeg(txns, self, e.dst, e) || CreditLeg(txns, self, e.src, e))
      && (forall i :: 0 <= i < |extra| ==>
            && g[n + i].src == extra[i].src && g[n + i].dst == extra[i].dst && g[n + i].date == extra[i].date
            && (extra[i].amount.Some? ==> g[n + i].amount == extra[i].amount.value)
            && (extra[i].amount.None? ==> g[n + i].amount == 0))
  {
    BankEdgeCount(txns, self);
    assert Graph(txns, self, extra)[..LegCount(txns)] == BankEdges(txns, self);
    forall e
      ensures e in BankEdges(txns, self) <==> DebitLeg(txns, self, e.dst, e) || CreditLeg(txns, self, e.src, e)
    {
      BankEdgesAreLegs(txns, self, e);
    }
  }

  /** End to end: a debit to a counterparty and a supplemental payment back within 90 days are reported. */
  lemma {:induction false} SupplementalPaymentBackIsReported(txns: seq<Transaction>, self: string, cp: string,
      extra: seq<ExtraEdge>, out: Edge, i: nat)
    requires cp != self && DebitLeg(txns, self, cp, out)
    requires i < |extra| && extra[i].src == cp && extra[i].dst == self && extra[i].amount.Some?
    requires -90 <= extra[i].date - out.date <= 90
    ensures Signature({self, cp}, out.amount + extra[i].amount.value) in Sigs(CyclesOf(Graph(txns, self, extra)))
  {
    var g, n := Graph(txns, self, extra), LegCount(txns);
    GraphIs(txns, self, extra);
    assert DebitLeg(txns, self, out.dst, out);
    assert out in g[..n];
    PairSignatureIsReported(g, out, g[n + i]);
  }

  lemma {:induction false} PairSignatureIsReported(g: seq<Edge>, out: Edge, back: Edge)
    requires out in g && back in g && out.src != out.dst && back.src == out.dst && back.dst == out.src
    requires -90 <= back.date - out.date <= 90
    ensures Signature({out.src, back.src}, out.amount + back.amount) in Sigs(CyclesOf(g))
  {
    assert QualifyingCycle(g, [out, back]);
    PaymentOrder.SignatureIsReported(g, [out, back]);
    PairIs(out, back);
  }

  lemma {:induction false} PairIs(e: Edge, f: Edge)
    requires e.dst == f.src && f.dst == e.src
    ensures Sig([e, f]) == Signature({e.src, f.src}, e.amount + f.amount)
  {
    var c := [e, f];
    assert c[..1] == [e] && [e][..0] == [];
    assert Total([e]) == e.amount;
    assert e in c && f in c && forall x :: x in c ==> x == e || x == f;
    assert Nodes(c) == {e.src, f.src};
  }

  // ---------------------------------------------------------------------------------------------
  // Two payments, to and fro.
  // ---------------------------------------------------------------------------------------------

  /** On one payment each way the detector's whole answer: a cycle exactly within 90 days, a HIGH finding
      above INR 10 lakhs (100,000,000 paise), a CRITICAL one when the smaller payment exceeds 15.005% of
      the revenue. */
  lemma {:induction false} TwoPayments(e: Edge, f: Edge, totalRevenue: real)
    requires e.src != e.dst && f.src == e.dst && f.dst == e.src && totalRevenue > 0.0
    ensures var (fs, ratio) := Detect([e, f], totalRevenue);
      var near := -90 <= e.date - f.date <= 90;
      var least := if e.amount <= f.amount then e.amount else f.amount;
      && (near ==> CyclesOf([e, f]) == [[e, f]])
      && (!near ==> CyclesOf([e, f]) == [] && fs == [] && ratio == 0.0)
      && ((exists x :: x in fs && SeverityOf(x) == High) <==> near && e.amount + f.amount > 100_000_000)
      && ((exists x :: x in fs && SeverityOf(x) == Critical) <==> near && least as real / totalRevenue > 0.15005)
  {
    var edges := [e, f];
    OnlyThePair(e, f);
    assert edges[..1] == [e] && [e][..0] == [];
    if -90 <= e.date - f.date <= 90 {
      PairReported(e, f);
      var one: seq<seq<Edge>> := [edges];
      assert one[..0] == [];
      assert Total([e]) == e.amount;
      LimitingFlowIs(edges);
      var flows := [MinAmount(edges)];
      assert flows[..0] == [];
      assert LeastAmounts(one, flows);
      RatioIs(edges, totalRevenue, flows);
      PairFindings(edges, totalRevenue);
    } else {
      var none: seq<int> := [];
      RatioIs(edges, totalRevenue, none);
      assert (0.0 / totalRevenue * 10000.0).Floor == 0;
    }
  }

  lemma {:induction false} PairCycle(e: Edge, f: Edge, c: seq<Edge>)
    requires e.src != e.dst && f.src == e.dst && f.dst == e.src && QualifyingCycle([e, f], c)
    ensures Sig(c) == Sig([e, f]) && -90 <= e.date - f.date <= 90
  {
    assert forall i :: 0 <= i < |c| ==> c[i] in [e, f] && (c[i].src == e.src || c[i].src == f.src);
    PaymentOrder.TwoSources(c, e.src, f.src);
    assert c == [c[0], c[1]];
    PairIs(c[0], c[1]);
    PairIs(e, f);
  }

  lemma {:induction false} OnlyThePair(e: Edge, f: Edge)
    requires e.src != e.dst && f.src == e.dst && f.dst == e.src
    ensures |CyclesOf([e, f])| <= 1
    ensures !(-90 <= e.date - f.date <= 90) ==> CyclesOf([e, f]) == []
  {
    var cs := CyclesOf([e, f]);
    CyclesSoundAndComplete([e, f]);
    forall c | c in cs
      ensures Sig(c) == Sig([e, f]) && -90 <= e.date - f.date <= 90
    {
      PairCycle(e, f, c);
    }
    AtMostOne(cs, Sig([e, f]));
  }

  lemma {:induction false} AtMostOne(cs: seq<seq<Edge>>, s: Signature)
    requires DistinctSigs(cs) && forall c :: c in cs ==> Sig(c) == s
    ensures |cs| <= 1
    ensures cs == [] || cs[0] in cs
  {
    if |cs| >= 2 {
      SameSigs(cs, 0, 1, s);
    }
  }

  lemma {:induction false} SameSigs(cs: seq<seq<Edge>>, i: nat, j: nat, s: Signature)
    requires i < |cs| && j < |cs| && forall c :: c in cs ==> Sig(c) == s
    ensures Sig(cs[i]) == Sig(cs[j])
  {
    assert cs[i] in cs && cs[j] in cs;
  }

  lemma {:induction false} PairReported(e: Edge, f: Edge)
    requires e.src != e.dst && f.src == e.dst && f.dst == e.src && -90 <= e.date - f.date <= 90
    ensures CyclesOf([e, f]) == [[e, f]]
  {
    assert QualifyingCycle([e, f], [e, f]);
    PaymentOrder.OpeningCycleIsFirst([e, f], [e, f]);
    OnlyThePair(e, f);
  }

  lemma {:induction false} PairFindings(edges: seq<Edge>, totalRevenue: real)
    requires CyclesOf(edges) == [edges]
    ensures (exists x :: x in Detect(edges, totalRevenue).0 && SeverityOf(x) == High) <==> Total(edges) > 100_000_000
  {
    FindingsDescribeCycles(edges, totalRevenue);
    var fs := Detect(edges, totalRevenue).0;
    if x :| x in fs && SeverityOf(x) == High {
      assert x.HighValueCycle? && x.cycle in [edges];
    }
    if Total(edges) > 100_000_000 {
      assert edges in CyclesOf(edges);
      var x :| x in fs && Describes(x, edges);
      assert SeverityOf(x) == High;
    }
  }
}
