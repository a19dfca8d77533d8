/** services/scoring.py: dimension scores, officer notes, the synthesis and the recommendation. */
module Scoring {
  import opened Base
  import opened Numeric
  import PaymentCycles
  import PaymentOrder

  const CRITICAL_WEAKNESS_FLOOR := 30.0
  const LTV_MAX := 0.75

  /** A dimension's weight is always the table's, so it is not stored here. */
  datatype Dimension = Dimension(kind: FiveC, score: real, critical: bool, overridden: bool)

  const KINDS := [Character, Capacity, Capital, Collateral, Conditions]

  /** _dim: clamp, round, and flag a critical weakness. */
  function MakeDimension(kind: FiveC, score: real): Dimension {
    var s := Round2(Clamp(score));
    Dimension(kind, s, s < CRITICAL_WEAKNESS_FLOOR, false)
  }

  predicate FiveDimensions(ds: seq<Dimension>) { |ds| == 5 && forall i :: 0 <= i < 5 ==> ds[i].kind == KINDS[i] }

  /** Every score is in range and its critical flag is exactly "below 30". */
  ghost predicate SoundDimensions(ds: seq<Dimension>) {
    && FiveDimensions(ds)
    && forall i :: 0 <= i < 5 ==>
         0.0 <= ds[i].score <= 100.0 && (ds[i].critical <==> ds[i].score < 30.0)
  }

  // ---------------------------------------------------------------------------------------------
  // Overall score, critical list, recommendation.
  // ---------------------------------------------------------------------------------------------

  function WeightedSum(ds: seq<Dimension>): real {
    if ds == [] then 0.0 else WeightedSum(ds[..|ds| - 1]) + ds[|ds| - 1].score * Weight(ds[|ds| - 1].kind)
  }

  function Overall(ds: seq<Dimension>): real { Round2(WeightedSum(ds)) }

  function CriticalWeaknesses(ds: seq<Dimension>): seq<FiveC> {
    if ds == [] then []
    else CriticalWeaknesses(ds[..|ds| - 1]) + if ds[|ds| - 1].critical then [ds[|ds| - 1].kind] else []
  }

  function Recommend(overall: real, critical: seq<FiveC>, fraudCritical: bool): Recommendation {
    if fraudCritical then Reject
    else if overall >= 65.0 && critical == [] then Approve
    else if overall >= 50.0 && |critical| <= 1 then ApproveWithConditions
    else Reject
  }

  datatype CreditScore = CreditScore(
    dimensions: seq<Dimension>, overall: real, band: RiskBand, critical: seq<FiveC>, recommendation: Recommendation)

  /** synthesize with the default model, from the five scored dimensions. */
  function Synthesize(ds: seq<Dimension>, fraudCritical: bool): CreditScore {
    var overall := Overall(ds);
    var critical := CriticalWeaknesses(ds);
    CreditScore(ds, overall, ScoreToRiskBand(overall), critical, Recommend(overall, critical, fraudCritical))
  }

  lemma {:induction false} WeightedSumIs(ds: seq<Dimension>)
    requires FiveDimensions(ds)
    ensures WeightedSum(ds) ==
              0.20 * ds[0].score + 0.30 * ds[1].score + 0.20 * ds[2].score + 0.15 * ds[3].score + 0.15 * ds[4].score
  {
    var d1, d2, d3, d4 := [ds[0]], [ds[0], ds[1]], [ds[0], ds[1], ds[2]], [ds[0], ds[1], ds[2], ds[3]];
    assert [] + [ds[0]] == d1 && d1 + [ds[1]] == d2 && d2 + [ds[2]] == d3 && d3 + [ds[3]] == d4 && d4 + [ds[4]] == ds;
    WeightedSumSnoc([], ds[0]);
    WeightedSumSnoc(d1, ds[1]);
    WeightedSumSnoc(d2, ds[2]);
    WeightedSumSnoc(d3, ds[3]);
    WeightedSumSnoc(d4, ds[4]);
    assert ds[0].kind == Character && ds[1].kind == Capacity && ds[2].kind == Capital;
    assert ds[3].kind == Collateral && ds[4].kind == Conditions;
    assert ds[0].score * Weight(ds[0].kind) == 0.20 * ds[0].score;
    assert ds[1].score * Weight(ds[1].kind) == 0.30 * ds[1].score;
    assert ds[2].score * Weight(ds[2].kind) == 0.20 * ds[2].score;
    assert ds[3].score * Weight(ds[3].kind) == 0.15 * ds[3].score;
    assert ds[4].score * Weight(ds[4].kind) == 0.15 * ds[4].score;
  }

  lemma {:induction false} WeightedSumSnoc(ds: seq<Dimension>, d: Dimension)
    ensures WeightedSum(ds + [d]) == WeightedSum(ds) + d.score * Weight(d.kind)
  {
    assert (ds + [d])[..|ds|] == ds;
  }

  /** The overall score of sound dimensions is the rounded weighted sum and stays in range. */
  lemma {:induction false} OverallInRange(ds: seq<Dimension>)
    requires SoundDimensions(ds)
    ensures 0.0 <= Overall(ds) <= 100.0
  {
    WeightedSumIs(ds);
    Round2Range(WeightedSum(ds), 0, 100);
  }

  lemma {:induction false} CriticalCount(ds: seq<Dimension>, ds': seq<Dimension>)
    requires |ds| == |ds'| && forall i :: 0 <= i < |ds| ==> ds'[i].critical ==> ds[i].critical
    ensures |CriticalWeaknesses(ds')| <= |CriticalWeaknesses(ds)|
  {
    if ds != [] {
      CriticalCount(ds[..|ds| - 1], ds'[..|ds| - 1]);
    }
  }

  /** The critical list names exactly the dimensions flagged critical. */
  lemma {:induction false} CriticalWeaknessesAre(ds: seq<Dimension>, k: FiveC)
    ensures k in CriticalWeaknesses(ds) <==> exists d :: d in ds && d.kind == k && d.critical
  {
    if ds != [] {
      CriticalWeaknessesAre(ds[..|ds| - 1], k);
      assert ds == ds[..|ds| - 1] + [ds[|ds| - 1]];
    }
  }

  /** Main result: raising any dimension scores, and not newly finding critical fraud, never lowers
      the overall score, the band or the recommendation. */
  lemma {:induction false} SynthesisIsMonotone(ds: seq<Dimension>, ds': seq<Dimension>, fraudCritical: bool,
      fraudCritical': bool)
    requires SoundDimensions(ds) && SoundDimensions(ds')
    requires forall i :: 0 <= i < 5 ==> ds[i].score <= ds'[i].score
    requires fraudCritical' ==> fraudCritical
    ensures var s, s' := Synthesize(ds, fraudCritical), Synthesize(ds', fraudCritical');
      && s.overall <= s'.overall
      && BandRank(s.band) <= BandRank(s'.band)
      && RecommendationRank(s.recommendation) <= RecommendationRank(s'.recommendation)
  {
    WeightedSumIs(ds);
    WeightedSumIs(ds');
    Round2Monotone(WeightedSum(ds), WeightedSum(ds'));
    CriticalCount(ds, ds');
  }

  /** The weights add up to one: equal dimension scores are the overall score. */
  lemma {:induction false} EqualScoresAreTheOverall(ds: seq<Dimension>, score: real)
    requires FiveDimensions(ds) && TwoDecimals(score) && forall i :: 0 <= i < 5 ==> ds[i].score == score
    ensures Overall(ds) == score
  {
    WeightedSumIs(ds);
    Round2Spec(score);
  }

  /** Bands and recommendations share their thresholds: without critical fraud, approval needs
      exactly a Good or Excellent band with no critical weakness, and anything better than rejection
      at least a Fair band with no more than one. */
  lemma RecommendationMatchesBand(ds: seq<Dimension>)
    ensures var s := Synthesize(ds, false);
      && (s.recommendation == Approve <==> BandRank(s.band) >= BandRank(Good) && s.critical == [])
      && (s.recommendation != Reject <==> BandRank(s.band) >= BandRank(Fair) && |s.critical| <= 1)
    ensures Synthesize(ds, true).recommendation == Reject
  {
  }

  // ---------------------------------------------------------------------------------------------
  // Character and the fraud penalty.
  // ---------------------------------------------------------------------------------------------

  datatype Compliance = Compliance(isCompliant: bool, violations: nat)

  datatype Litigation = Litigation(highRisk: nat, ibc: nat, cases: nat)

  /** What score_character reads besides the fraud findings. */
  datatype CharacterInputs = CharacterInputs(compliance: Option<Compliance>, litigation: Option<Litigation>,
      promoter: real)

  function SeverityPenalty(s: Severity): real {
    match s
    case Critical => 40.0
    case High => 25.0
    case Medium => 12.0
    case Low => 5.0
    case Info => 5.0
  }

  function TotalPenalty(findings: seq<Severity>): real {
    if findings == [] then 0.0
    else TotalPenalty(findings[..|findings| - 1]) + SeverityPenalty(findings[|findings| - 1])
  }

  function FraudPenalty(findings: seq<Severity>): real { Min(40.0, TotalPenalty(findings)) }

  function CharacterBase(inp: CharacterInputs): real {
    var mca := if inp.compliance.Some? && !inp.compliance.value.isCompliant
               then Clamp(100.0 - 20.0 * inp.compliance.value.violations as real) else 90.0;
    var litPenalty := if inp.litigation.Some?
                      then
                        var l := inp.litigation.value;
                        (15 * l.highRisk + 10 * l.ibc + 2 * l.cases) as real
                      else 0.0;
    0.30 * mca + 0.25 * Clamp(100.0 - litPenalty) + 0.25 * Clamp(inp.promoter)
  }

  function ScoreCharacter(inp: CharacterInputs, findings: seq<Severity>): Dimension {
    var penalty := if findings == [] then 0.0 else FraudPenalty(findings);
    var fraudScore := if findings == [] then 95.0 else Clamp(95.0 - penalty);
    MakeDimension(Character, Clamp(CharacterBase(inp) + 0.20 * fraudScore - 0.4 * penalty))
  }

  function HasCritical(findings: seq<Severity>): bool { Severity.Critical in findings }

  lemma {:induction false} PenaltyGrows(findings: seq<Severity>, more: seq<Severity>)
    ensures 0.0 <= TotalPenalty(findings) <= TotalPenalty(findings + more)
    decreases |findings| + |more|
  {
    if more == [] {
      assert findings + more == findings;
      if findings != [] {
        PenaltyGrows(findings[..|findings| - 1], []);
        assert findings[..|findings| - 1] + [] == findings[..|findings| - 1];
      }
    } else {
      PenaltyGrows(findings, more[..|more| - 1]);
      assert (findings + more)[..|findings + more| - 1] == findings + more[..|more| - 1];
    }
  }

  /** The unclamped Character score in terms of the penalty alone. */
  lemma {:induction false} CharacterIs(inp: CharacterInputs, findings: seq<Severity>)
    ensures 0.0 <= FraudPenalty(findings) <= 40.0
    ensures ScoreCharacter(inp, findings).score
         == Round2(Clamp(CharacterBase(inp) + 19.0 - 0.6 * FraudPenalty(findings)))
    ensures SoundDimension(ScoreCharacter(inp, findings))
  {
    PenaltyGrows(findings, []);
    assert findings + [] == findings;
    MakeDimensionSound(Character, CharacterBase(inp) + 19.0 - 0.6 * FraudPenalty(findings));
  }

  ghost predicate SoundDimension(d: Dimension) { 0.0 <= d.score <= 100.0 && (d.critical <==> d.score < 30.0) }

  lemma {:induction false} MakeDimensionSound(kind: FiveC, score: real)
    ensures SoundDimension(MakeDimension(kind, score))
  {
    Round2Range(Clamp(score), 0, 100);
  }

  /** Main result: extending the findings never raises Character, the overall score, the band or the
      recommendation, for any other four dimensions. */
  lemma {:induction false} MoreFraudNeverHelps(inp: CharacterInputs, findings: seq<Severity>,
      more: seq<Severity>, others: seq<Dimension>)
    requires SoundDimensions([ScoreCharacter(inp, [])] + others)
    ensures var ds, ds' := [ScoreCharacter(inp, findings)] + others, [ScoreCharacter(inp, findings + more)] + others;
      var s, s' := Synthesize(ds, HasCritical(findings)), Synthesize(ds', HasCritical(findings + more));
      && ds'[0].score <= ds[0].score
      && s'.overall <= s.overall
      && BandRank(s'.band) <= BandRank(s.band)
      && RecommendationRank(s'.recommendation) <= RecommendationRank(s.recommendation)
  {
    CharacterIs(inp, findings);
    CharacterIs(inp, findings + more);
    PenaltyGrows(findings, more);
    Round2Monotone(Clamp(CharacterBase(inp) + 19.0 - 0.6 * FraudPenalty(findings + more)),
                   Clamp(CharacterBase(inp) + 19.0 - 0.6 * FraudPenalty(findings)));
    var none := [ScoreCharacter(inp, [])] + others;
    var ds, ds' := [ScoreCharacter(inp, findings)] + others, [ScoreCharacter(inp, findings + more)] + others;
    assert forall i :: 1 <= i < 5 ==> ds[i] == none[i] && ds'[i] == none[i];
    assert SoundDimensions(ds) && SoundDimensions(ds');
    SynthesisIsMonotone(ds', ds, HasCritical(findings + more), HasCritical(findings));
  }

  /** Fraud findings cost Character at most 24 points, through clamping and rounding. */
  lemma {:induction false} FraudCostsAtMost24(inp: CharacterInputs, findings: seq<Severity>)
    ensures 0.0 <= ScoreCharacter(inp, []).score - ScoreCharacter(inp, findings).score <= 24.0
  {
    CharacterIs(inp, []);
    CharacterIs(inp, findings);
    var x := Clamp(CharacterBase(inp) + 19.0);
    var y := Clamp(CharacterBase(inp) + 19.0 - 0.6 * FraudPenalty(findings));
    Round2Monotone(y, x);
    Round2Monotone(x - 24.0, y);
    Round2Shift(x - 24.0, 1200);
  }

  function Severities(fs: seq<PaymentCycles.Finding>): seq<Severity> {
    seq(|fs|, i requires 0 <= i < |fs| => PaymentCycles.SeverityOf(fs[i]))
  }

  /** End to end: the circular ratio decides the CRITICAL finding, and with it the application is
      rejected whatever its scores. */
  lemma {:induction false} CriticalCircularRatioRejects(edges: seq<PaymentCycles.Edge>, revenue: real,
      otherFindings: seq<Severity>, ds: seq<Dimension>)
    ensures var (fs, ratio) := PaymentCycles.Detect(edges, revenue);
      && (HasCritical(Severities(fs)) <==> ratio > PaymentCycles.CIRCULAR_RATIO_CRITICAL)
      && (ratio > PaymentCycles.CIRCULAR_RATIO_CRITICAL ==>
            Synthesize(ds, HasCritical(Severities(fs) + otherFindings)).recommendation == Reject)
  {
    PaymentCycles.CyclesNonempty(edges);
    var (fs, ratio) := PaymentCycles.Detect(edges, revenue);
    var high := PaymentCycles.HighFindings(PaymentCycles.CyclesOf(edges));
    HighFindingsAreHigh(PaymentCycles.CyclesOf(edges));
    if ratio > PaymentCycles.CIRCULAR_RATIO_CRITICAL {
      assert Severities(fs)[|fs| - 1] == Severity.Critical;
    } else {
      assert fs == high;
    }
  }

  /** The ratio depends on the order of payments (of two cycles with one signature the first found is
      kept), and so does rejection: the same payments in two orders, one approved and one rejected. */
  lemma {:induction false} PaymentOrderCanDecideRejection(ds: seq<Dimension>)
    requires SoundDimensions(ds) && Overall(ds) >= 65.0 && CriticalWeaknesses(ds) == []
    ensures var a, b := PaymentOrder.SMALL_FLOW_FIRST, PaymentOrder.LARGE_FLOW_FIRST;
      && multiset(a) == multiset(b)
      && Synthesize(ds, HasCritical(Severities(PaymentCycles.Detect(a, 10.0).0))).recommendation == Approve
      && Synthesize(ds, HasCritical(Severities(PaymentCycles.Detect(b, 10.0).0))).recommendation == Reject
  {
    PaymentOrder.PaymentOrderCanChangeTheRatio();
    CriticalCircularRatioRejects(PaymentOrder.SMALL_FLOW_FIRST, 10.0, [], ds);
    CriticalCircularRatioRejects(PaymentOrder.LARGE_FLOW_FIRST, 10.0, [], ds);
  }

  lemma {:induction false} HighFindingsAreHigh(cs: seq<seq<PaymentCycles.Edge>>)
    requires forall i :: 0 <= i < |cs| ==> cs[i] != []
    ensures forall f :: f in PaymentCycles.HighFindings(cs) ==> f.HighValueCycle?
  {
    if cs != [] {
      HighFindingsAreHigh(cs[..|cs| - 1]);
    }
  }

  // ---------------------------------------------------------------------------------------------
  // Collateral.
  // ---------------------------------------------------------------------------------------------

  datatype CollateralType = Property | Inventory | Receivables | Equipment | OtherType

  datatype CollateralItem = CollateralItem(kind: CollateralType, marketValue: real)

  function Haircut(t: CollateralType): real {
    match t
    case Property => 0.25
    case Inventory => 0.40
    case Receivables => 0.30
    case Equipment => 0.35
    case OtherType => 0.50
  }

  function NetValue(item: CollateralItem): real { item.marketValue * (1.0 - Haircut(item.kind)) }

  function SecuredValue(items: seq<CollateralItem>): real {
    if items == [] then 0.0 else SecuredValue(items[..|items| - 1]) + NetValue(items[|items| - 1])
  }

  function Ltv(amount: real, secured: real): real { SafeDiv(amount, secured, 99.0) }

  function LtvScore(ltv: real): real {
    var score := Clamp(100.0 - ltv * 60.0);
    if ltv > LTV_MAX then Min(score, 45.0) else score
  }

  function CollateralDimension(amount: real, items: seq<CollateralItem>): Dimension {
    MakeDimension(Collateral, if items == [] then 30.0 else LtvScore(Ltv(amount, SecuredValue(items))))
  }

  method ScoreCollateral(amount: real, items: seq<CollateralItem>) returns (d: Dimension)
    ensures d == CollateralDimension(amount, items)
  {
    if items == [] {
      return MakeDimension(Collateral, 30.0);
    }
    var secured := 0.0;
    for i := 0 to |items|
      invariant secured == SecuredValue(items[..i])
    {
      assert items[..i + 1][..i] == items[..i];
      secured := secured + items[i].marketValue * (1.0 - Haircut(items[i].kind));
    }
    assert items[..|items|] == items;
    var ltv := SafeDiv(amount, secured, 99.0);
    var score := Clamp(100.0 - ltv * 60.0);
    if ltv > LTV_MAX {
      score := Min(score, 45.0);
    }
    d := MakeDimension(Collateral, score);
  }

  /** The schema's constraint on market values. */
  ghost predicate NonNegative(items: seq<CollateralItem>)
      { forall i :: 0 <= i < |items| ==> items[i].marketValue >= 0.0 }

  /** Post-haircut cover: at least as much of it, item by item. */
  ghost predicate CoversAtLeast(items': seq<CollateralItem>, items: seq<CollateralItem>) {
    |items'| >= |items| && forall i :: 0 <= i < |items| ==>
      items'[i].kind == items[i].kind && items'[i].marketValue >= items[i].marketValue
  }

  lemma {:induction false} SecuredMonotone(items: seq<CollateralItem>, items': seq<CollateralItem>)
    requires NonNegative(items) && NonNegative(items') && CoversAtLeast(items', items)
    ensures 0.0 <= SecuredValue(items) <= SecuredValue(items')
    decreases |items'|
  {
    if items' != [] {
      var n := |items'| - 1;
      if |items| == |items'| {
        SecuredMonotone(items[..n], items'[..n]);
      } else {
        SecuredMonotone(items, items'[..n]);
      }
    }
  }

  lemma {:induction false} SecuredConcat(a: seq<CollateralItem>, b: seq<CollateralItem>)
    ensures SecuredValue(a + b) == SecuredValue(a) + SecuredValue(b)
    decreases |b|
  {
    if b == [] {
      assert a + b == a;
    } else {
      SecuredConcat(a, b[..|b| - 1]);
      assert (a + b)[..|a + b| - 1] == a + b[..|b| - 1];
    }
  }

  /** The place of a new item in the list does not matter. */
  lemma {:induction false} InsertedItemCounts(a: seq<CollateralItem>, item: CollateralItem, b: seq<CollateralItem>)
    ensures SecuredValue(a + [item] + b) == SecuredValue(a + b + [item])
  {
    SecuredConcat(a + [item], b);
    SecuredConcat(a, [item]);
    SecuredConcat(a + b, [item]);
    SecuredConcat(a, b);
  }

  lemma {:induction false} DivMonotone(a: real, b: real, s: real, t: real)
    requires 0.0 < a <= b && 0.0 < s <= t
    ensures a / t <= b / s
  {
    var x, y := a / t, b / s;
    assert x * t == a && y * s == b && y > 0.0;
    assert y * s <= y * t;
    assert (x - y) * t <= 0.0;
  }

  lemma LtvScoreFalls(ltv: real, ltv': real)
    requires ltv <= ltv'
    ensures LtvScore(ltv') <= LtvScore(ltv)
  {
  }

  /** Main result: with collateral given, raising market values or adding items never lowers the
      score, a larger loan never raises it, and the score is at most 45 whenever the post-haircut
      loan-to-value ratio exceeds 0.75, as it does for worthless collateral. */
  lemma {:induction false} CollateralIsMonotone(amount: real, amount': real, items: seq<CollateralItem>,
      items': seq<CollateralItem>)
    requires 0.0 < amount <= amount' && items != []
    requires NonNegative(items) && NonNegative(items') && CoversAtLeast(items', items)
    ensures CollateralDimension(amount, items).score <= CollateralDimension(amount, items').score
    ensures CollateralDimension(amount', items).score <= CollateralDimension(amount, items).score
    ensures Ltv(amount, SecuredValue(items)) > LTV_MAX ==> CollateralDimension(amount, items).score <= 45.0
    ensures SecuredValue(items) == 0.0 ==> CollateralDimension(amount, items).score == 0.0
  {
    SecuredMonotone(items, items');
    var s, s' := SecuredValue(items), SecuredValue(items');
    if s > 0.0 {
      DivMonotone(amount, amount, s, s');
      DivMonotone(amount, amount', s, s);
      LtvScoreFalls(Ltv(amount, s'), Ltv(amount, s));
      LtvScoreFalls(Ltv(amount, s), Ltv(amount', s));
    } else {
      Round2Range(0.0, 0, 0);
    }
    Round2Monotone(Clamp(LtvScore(Ltv(amount, s))), Clamp(LtvScore(Ltv(amount, s'))));
    Round2Monotone(Clamp(LtvScore(Ltv(amount', s))), Clamp(LtvScore(Ltv(amount, s))));
    Round2Range(Clamp(LtvScore(Ltv(amount, s))), 0, 100);
    if Ltv(amount, s) > LTV_MAX {
      Round2Range(Clamp(LtvScore(Ltv(amount, s))), 0, 45);
    }
  }

  /** Adding an item anywhere in a non-empty list never lowers the score. */
  lemma {:induction false} AddedItemNeverHurts(amount: real, a: seq<CollateralItem>, item: CollateralItem,
      b: seq<CollateralItem>)
    requires amount > 0.0 && a + b != [] && NonNegative(a + b) && item.marketValue >= 0.0
    ensures CollateralDimension(amount, a + b).score <= CollateralDimension(amount, a + [item] + b).score
  {
    CollateralIsMonotone(amount, amount, a + b, a + b + [item]);
    InsertedItemCounts(a, item, b);
  }

  /** The law stops at the empty list, which scores 30: pledging a first item lowers the score
      exactly when its cover is worth less than 60/70.005 of the loan. */
  lemma {:induction false} FirstCollateralCanLowerTheScore(amount: real, item: CollateralItem)
    requires amount > 0.0 && item.marketValue >= 0.0
    ensures CollateralDimension(amount, [item]).score < CollateralDimension(amount, []).score
        <==> 60.0 * amount > 70.005 * NetValue(item)
  {
    var s := NetValue(item);
    assert [item][..0] == [];
    assert SecuredValue([item]) == s;
    assert CollateralDimension(amount, []).score == 30.0 by {
      Round2Range(30.0, 30, 30);
    }
    var ltv := Ltv(amount, s);
    var x := Clamp(LtvScore(ltv));
    if s > 0.0 {
      assert ltv * s == amount;
      RatioBound(ltv, s, amount);
    }
    BelowThirty(x);
  }

  lemma {:induction false} RatioBound(ltv: real, s: real, amount: real)
    requires s > 0.0 && ltv * s == amount
    ensures 60.0 * amount > 70.005 * s <==> 60.0 * ltv > 70.005
  {
    assert 60.0 * amount - 70.005 * s == (60.0 * ltv - 70.005) * s;
  }

  /** A value rounds below 30 exactly when it is below 29.995: the tie goes to the even 30.00. */
  lemma BelowThirty(x: real)
    ensures Round2(x) < 30.0 <==> x < 29.995
  {
  }
}
