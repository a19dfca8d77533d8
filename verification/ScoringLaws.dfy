/** What services/scoring.py promises of its numbers, said of its answers: what each input costs or earns
    in points, for Character, Collateral, officer notes and the risk bands. */
module ScoringLaws {
  import opened Base
  import opened Numeric
  import opened Scoring
  import opened Review

  // ---------------------------------------------------------------------------------------------
  // Character.
  // ---------------------------------------------------------------------------------------------

  function LitigationLoad(l: Litigation): nat { 15 * l.highRisk + 10 * l.ibc + 2 * l.cases }

  /** Points off for one finding: 24, 15, 7.2 and 3. */
  function FindingCost(s: Severity): real {
    match s
    case Critical => 24.0
    case High => 15.0
    case Medium => 7.2
    case Low => 3.0
    case Info => 3.0
  }

  function Clean(promoter: real): CharacterInputs { CharacterInputs(None, None, promoter) }

  /** A clean record with promoter score p earns 71 + 0.25 p, rounded. */
  lemma CleanCharacter(p: real)
    requires 0.0 <= p <= 100.0
    ensures ScoreCharacter(Clean(p), []).score == Round2(71.0 + 0.25 * p)
  {
  }

  /** A promoter score outside 0 to 100 counts as the nearer bound. */
  lemma PromoterIsClamped(inp: CharacterInputs, findings: seq<Severity>)
    ensures inp.promoter < 0.0 ==> ScoreCharacter(inp, findings) == ScoreCharacter(inp.(promoter := 0.0), findings)
    ensures inp.promoter > 100.0 ==> ScoreCharacter(inp, findings) == ScoreCharacter(inp.(promoter := 100.0), findings)
  {
    BaseDependsOnClamped(inp, 0.0);
    BaseDependsOnClamped(inp, 100.0);
  }

  lemma BaseDependsOnClamped(inp: CharacterInputs, p: real)
    ensures Clamp(inp.promoter) == Clamp(p) ==> CharacterBase(inp) == CharacterBase(inp.(promoter := p))
  {
  }

  /** A compliant borrower scores as an unchecked one, whatever violations are listed. */
  lemma ComplianceIsNoBonus(inp: CharacterInputs, violations: nat, findings: seq<Severity>)
    requires inp.compliance.None?
    ensures ScoreCharacter(inp.(compliance := Some(Compliance(true, violations))), findings)
         == ScoreCharacter(inp, findings)
  {
  }

  function ViolationScore(p: real, n: nat): real {
    ScoreCharacter(Clean(p).(compliance := Some(Compliance(false, n))), []).score
  }

  /** Without compliance each violation up to the fifth costs exactly 6 points, and later ones nothing. */
  lemma {:induction false} EachViolationCostsSix(p: real, n: nat)
    requires 0.0 <= p <= 100.0
    ensures ViolationScore(p, n) - ViolationScore(p, n + 1) == if n < 5 then 6.0 else 0.0
  {
    NonCompliant(p, n);
    NonCompliant(p, n + 1);
    if n < 5 {
      NextViolation(71.0 + 0.25 * p, n);
    }
  }

  /** Not compliant with no violation listed is worth 3 points more than a clean check. */
  lemma {:induction false} NoViolationListed(p: real)
    requires 0.0 <= p <= 100.0
    ensures ViolationScore(p, 0) == ScoreCharacter(Clean(p), []).score + 3.0
  {
    NonCompliant(p, 0);
    CleanCharacter(p);
    ShiftBy(71.0 + 0.25 * p, 150, 3.0);
  }

  lemma {:induction false} NextViolation(x: real, n: nat)
    requires n < 5
    ensures Round2(x + 3.0 - 6.0 * n as real)
         == Round2(if n == 4 then x - 27.0 else x + 3.0 - 6.0 * (n + 1) as real) + 6.0
  {
    ShiftBy(x + 3.0 - 6.0 * (n + 1) as real, 300, 6.0);
  }

  lemma {:induction false} ShiftBy(x: real, k: int, d: real)
    requires d == (2 * k) as real / 100.0
    ensures Round2(x + d) == Round2(x) + d
  {
    Round2Shift(x, k);
  }

  lemma {:induction false} NonCompliant(p: real, n: nat)
    requires 0.0 <= p <= 100.0
    ensures ViolationScore(p, n)
         == Round2(if n >= 5 then 71.0 + 0.25 * p - 27.0 else 71.0 + 0.25 * p + 3.0 - 6.0 * n as real)
  {
  }

  /** Litigation costs a quarter point per unit of load, 15 for a high-risk case, 10 for insolvency, 2 for any
      case, up to a load of 100. */
  lemma LitigationCosts(p: real, l: Litigation)
    requires 0.0 <= p <= 100.0
    ensures ScoreCharacter(Clean(p).(litigation := Some(l)), []).score
         == Round2(71.0 + 0.25 * p - 0.25 * (if LitigationLoad(l) >= 100 then 100.0 else LitigationLoad(l) as real))
  {
  }

  /** One fraud finding costs 24, 15, 7.2 or 3 points by its severity. */
  lemma {:induction false} OneFindingCosts(p: real, s: Severity)
    requires 0.0 <= p <= 100.0
    ensures ScoreCharacter(Clean(p), [s]).score == Round2(71.0 + 0.25 * p - FindingCost(s))
  {
    assert [s][..0] == [];
    assert TotalPenalty([s]) == SeverityPenalty(s);
    CharacterIs(Clean(p), [s]);
  }

  function SeverityRank(s: Severity): nat {
    match s
    case Info => 0
    case Low => 1
    case Medium => 2
    case High => 3
    case Critical => 4
  }

  /** In every position a worse finding never costs less. */
  lemma {:induction false} WorseFindingsCostMore(inp: CharacterInputs, findings: seq<Severity>, worse: seq<Severity>)
    requires |findings| == |worse|
    requires forall i :: 0 <= i < |findings| ==> SeverityRank(findings[i]) <= SeverityRank(worse[i])
    ensures ScoreCharacter(inp, worse).score <= ScoreCharacter(inp, findings).score
  {
    PenaltyMonotone(findings, worse);
    CharacterIs(inp, findings);
    CharacterIs(inp, worse);
    Round2Monotone(Clamp(CharacterBase(inp) + 19.0 - 0.6 * FraudPenalty(worse)),
                   Clamp(CharacterBase(inp) + 19.0 - 0.6 * FraudPenalty(findings)));
  }

  lemma {:induction false} PenaltyMonotone(findings: seq<Severity>, worse: seq<Severity>)
    requires |findings| == |worse|
    requires forall i :: 0 <= i < |findings| ==> SeverityRank(findings[i]) <= SeverityRank(worse[i])
    ensures TotalPenalty(findings) <= TotalPenalty(worse)
  {
    if findings != [] {
      PenaltyMonotone(findings[..|findings| - 1], worse[..|worse| - 1]);
    }
  }

  ghost predicate NoBetter(a: Option<Litigation>, b: Option<Litigation>) {
    a.Some? && (b.Some? ==>
      b.value.highRisk <= a.value.highRisk && b.value.ibc <= a.value.ibc && b.value.cases <= a.value.cases)
  }

  ghost predicate NoBetterRecord(a: Option<Compliance>, b: Option<Compliance>) {
    a == b || (a.Some? && b.Some? && !a.value.isCompliant && !b.value.isCompliant
               && b.value.violations <= a.value.violations)
  }

  /** With any findings, more litigation, more violations or a lower promoter score never raise Character. */
  lemma {:induction false} CharacterIsMonotone(inp: CharacterInputs, worse: CharacterInputs, findings: seq<Severity>)
    requires NoBetterRecord(worse.compliance, inp.compliance) && worse.promoter <= inp.promoter
    requires worse.litigation == inp.litigation || NoBetter(worse.litigation, inp.litigation)
    ensures ScoreCharacter(worse, findings).score <= ScoreCharacter(inp, findings).score
  {
    CharacterIs(inp, findings);
    CharacterIs(worse, findings);
    BaseMonotone(inp, worse);
    Round2Monotone(Clamp(CharacterBase(worse) + 19.0 - 0.6 * FraudPenalty(findings)),
                   Clamp(CharacterBase(inp) + 19.0 - 0.6 * FraudPenalty(findings)));
  }

  lemma BaseMonotone(inp: CharacterInputs, worse: CharacterInputs)
    requires NoBetterRecord(worse.compliance, inp.compliance) && worse.promoter <= inp.promoter
    requires worse.litigation == inp.litigation || NoBetter(worse.litigation, inp.litigation)
    ensures CharacterBase(worse) <= CharacterBase(inp)
  {
  }

  // ---------------------------------------------------------------------------------------------
  // Collateral.
  // ---------------------------------------------------------------------------------------------

  /** What a hundred of market value covers. */
  function CoverPerHundred(t: CollateralType): real {
    match t
    case Property => 75.0
    case Inventory => 60.0
    case Receivables => 70.0
    case Equipment => 65.0
    case OtherType => 50.0
  }

  lemma {:induction false} CoverIs(items: seq<CollateralItem>, item: CollateralItem)
    ensures SecuredValue(items + [item]) == SecuredValue(items) + item.marketValue * CoverPerHundred(item.kind) / 100.0
  {
    assert (items + [item])[..|items|] == items;
  }

  /** A loan of k hundredths of its cover scores 100 - 0.6 k while k is at most 75, 45 at most above that,
      and 0 from 167 on. */
  lemma {:induction false} CollateralScoreIs(amount: real, items: seq<CollateralItem>)
    requires items != [] && amount > 0.0 && SecuredValue(items) > 0.0
    ensures var ltv, s := amount / SecuredValue(items), CollateralDimension(amount, items).score;
      && (ltv <= 0.75 ==> s == Round2(100.0 - 60.0 * ltv))
      && (0.75 < ltv <= 11.0 / 12.0 ==> s == 45.0)
      && (11.0 / 12.0 < ltv <= 5.0 / 3.0 ==> s == Round2(100.0 - 60.0 * ltv))
      && (ltv > 5.0 / 3.0 ==> s == 0.0)
  {
    var ltv := amount / SecuredValue(items);
    assert ltv > 0.0 by {
      assert ltv * SecuredValue(items) == amount;
    }
    assert TwoDecimals(45.0) && TwoDecimals(0.0);
    Round2Spec(45.0);
    Round2Spec(0.0);
  }

  /** Within the limit the score and 60 points per unit of LTV make 100, up to rounding. */
  lemma {:induction false} WithinTheLimit(amount: real, items: seq<CollateralItem>)
    requires items != [] && amount > 0.0 && SecuredValue(items) > 0.0 && amount / SecuredValue(items) <= 0.75
    ensures var ltv := amount / SecuredValue(items);
      -0.005 <= CollateralDimension(amount, items).score + 60.0 * ltv - 100.0 <= 0.005
  {
    CollateralScoreIs(amount, items);
    Round2Spec(100.0 - 60.0 * (amount / SecuredValue(items)));
  }

  /** No collateral scores 30, which is not a critical weakness. */
  lemma {:induction false} UnsecuredScores30(amount: real)
    ensures CollateralDimension(amount, []) == Dimension(Collateral, 30.0, false, false)
  {
    Round2Range(30.0, 30, 30);
    assert Clamp(30.0) == 30.0;
    assert MakeDimension(Collateral, 30.0) == Dimension(Collateral, 30.0, false, false);
  }

  // ---------------------------------------------------------------------------------------------
  // Notes, bands and the synthesis.
  // ---------------------------------------------------------------------------------------------

  /** What each kind of note moves a score by. */
  lemma {:induction false} NoteImpactIs(severity: Severity)
    ensures EvaluateNote(Adverse, severity) ==
      match severity
      case Critical => -15.0
      case High => -11.25
      case Medium => -7.5
      case Low => -3.75
      case Info => -1.5
    ensures EvaluateNote(Positive, severity) ==
      match severity
      case Critical => 8.0
      case High => 6.0
      case Medium => 4.0
      case Low => 2.0
      case Info => 0.8
    ensures EvaluateNote(Neutral, severity) == 0.0
  {
    var f := SeverityFactor(severity);
    assert TwoDecimals(-15.0 * f) && TwoDecimals(8.0 * f) && TwoDecimals(0.0);
    Round2Spec(-15.0 * f);
    Round2Spec(8.0 * f);
    Round2Spec(0.0);
  }

  /** A worse severity moves a score further, either way. */
  lemma {:induction false} ImpactsGrowWithSeverity(s: Severity, t: Severity)
    requires SeverityRank(s) < SeverityRank(t)
    ensures EvaluateNote(Adverse, t) < EvaluateNote(Adverse, s) < 0.0
    ensures 0.0 < EvaluateNote(Positive, s) < EvaluateNote(Positive, t)
  {
    NoteImpactIs(s);
    NoteImpactIs(t);
  }

  /** A stored impact of zero is evaluated again from the note's sentiment and severity. */
  lemma ZeroImpactIsEvaluated(d: Dimension, n: Note)
    ensures NotedDimension(d, n.(impact := 0.0))
         == NotedDimension(d, n.(impact := EvaluateNote(n.sentiment, n.severity)))
  {
  }

  /** A live note moves the dimension it names by its impact, within 0 to 100, and no other. */
  lemma {:induction false} NoteMoves(s: CreditScore, k: FiveC, sentiment: Sentiment, severity: Severity)
    requires SoundDimensions(s.dimensions) && TwoDecimals(s.dimensions[Index(k)].score)
    ensures var ds := ApplyLive(s, NoteEvent(Some(k), sentiment, severity)).dimensions;
      && |ds| == 5
      && ds[Index(k)].score == Clamp(s.dimensions[Index(k)].score + EvaluateNote(sentiment, severity))
      && (ds[Index(k)].critical <==> ds[Index(k)].score < 30.0)
      && forall i :: 0 <= i < 5 && i != Index(k) ==> ds[i] == s.dimensions[i]
  {
    assert forall j :: 0 <= j < 5 ==> (s.dimensions[j].kind == k <==> j == Index(k));
    NoteMovesDimension(s.dimensions[Index(k)], sentiment, severity);
  }

  lemma {:induction false} NoteMovesDimension(d: Dimension, sentiment: Sentiment, severity: Severity)
    requires TwoDecimals(d.score)
    ensures var d' := NotedDimension(d, Submit(NoteEvent(Some(d.kind), sentiment, severity)));
      d'.score == Clamp(d.score + EvaluateNote(sentiment, severity)) && (d'.critical <==> d'.score < 30.0)
  {
    var i := EvaluateNote(sentiment, severity);
    NoteImpactIs(severity);
    assert TwoDecimals(i);
    TwoDecimalsAdd(d.score, i);
    Round2Spec(Clamp(d.score + i));
  }

  lemma {:induction false} TwoDecimalsAdd(x: real, i: real)
    requires TwoDecimals(x) && TwoDecimals(i)
    ensures TwoDecimals(Clamp(x + i))
  {
    assert (x + i) * 100.0 == ((x * 100.0).Floor + (i * 100.0).Floor) as real;
  }

  /** A live override sets the dimension it names, and no other. */
  lemma {:induction false} OverrideSets(s: CreditScore, o: Override)
    requires SoundDimensions(s.dimensions)
    ensures var ds, k := ApplyLive(s, OverrideEvent(o)).dimensions, Index(o.dimension);
      && |ds| == 5 && ds[k] == Dimension(o.dimension, o.newScore, o.newScore < 30.0, true)
      && forall i :: 0 <= i < 5 && i != k ==> ds[i] == s.dimensions[i]
  {
    assert forall j :: 0 <= j < 5 ==> (s.dimensions[j].kind == o.dimension <==> j == Index(o.dimension));
  }

  /** The bands begin at 35, 50, 65 and 80. */
  lemma BandsBeginAt(score: real)
    ensures BandRank(ScoreToRiskBand(score)) >= 1 <==> score >= 35.0
    ensures BandRank(ScoreToRiskBand(score)) >= 2 <==> score >= 50.0
    ensures BandRank(ScoreToRiskBand(score)) >= 3 <==> score >= 65.0
    ensures BandRank(ScoreToRiskBand(score)) >= 4 <==> score >= 80.0
  {
  }

  /** A point of a dimension is worth its weight: 20, 30, 20, 15 and 15 per cent, up to rounding. */
  lemma {:induction false} WeightsAre(ds: seq<Dimension>)
    requires FiveDimensions(ds)
    ensures var sum := 0.20 * ds[0].score + 0.30 * ds[1].score + 0.20 * ds[2].score + 0.15 * ds[3].score
                       + 0.15 * ds[4].score;
      -0.005 <= Synthesize(ds, false).overall - sum <= 0.005
    ensures TwoDecimals(Synthesize(ds, false).overall)
  {
    WeightedSumIs(ds);
    Round2Spec(WeightedSum(ds));
  }
}
