/** services/bank_parser.py: the conduct metrics of a statement and the sort before them. Amounts are
    whole paise; a month is its year and number. */
module BankConduct {
  import opened Numeric
  import opened Sorting

  datatype Date = Date(year: int, month: int, day: int)

  datatype Month = Month(year: int, month: int)

  datatype Transaction = Transaction(date: Date, debit: int, credit: int, balance: int, bounced: bool)

  datatype ConductMetrics = ConductMetrics(
    monthlyAverage: int, peak: int, minimum: int, totalCredits: int, totalDebits: int, bounced: int, overdrafts: int)

  const NO_METRICS := ConductMetrics(0, 0, 0, 0, 0, 0, 0)

  function MonthOf(t: Transaction): Month { Month(t.date.year, t.date.month) }

  // ---------------------------------------------------------------------------------------------
  // The metrics as functions.
  // ---------------------------------------------------------------------------------------------

  function Sum<T>(s: seq<T>, f: T -> int): int {
    if s == [] then 0 else Sum(s[..|s| - 1], f) + f(s[|s| - 1])
  }

  function SumReal<T>(s: seq<T>, f: T -> real): real {
    if s == [] then 0.0 else SumReal(s[..|s| - 1], f) + f(s[|s| - 1])
  }

  function Credit(t: Transaction): int { t.credit }

  function Debit(t: Transaction): int { t.debit }

  function BouncedFlag(t: Transaction): int { if t.bounced then 1 else 0 }

  function OverdraftFlag(t: Transaction): int { if t.balance < 0 then 1 else 0 }

  function Peak(ts: seq<Transaction>): int
    requires ts != []
  {
    if |ts| == 1 then ts[0].balance
    else var m := Peak(ts[..|ts| - 1]); if ts[|ts| - 1].balance > m then ts[|ts| - 1].balance else m
  }

  function Minimum(ts: seq<Transaction>): int
    requires ts != []
  {
    if |ts| == 1 then ts[0].balance
    else var m := Minimum(ts[..|ts| - 1]); if ts[|ts| - 1].balance < m then ts[|ts| - 1].balance else m
  }

  /** The distinct months in order of first appearance: the grouping dictionary's keys. */
  function Months(ts: seq<Transaction>): seq<Month> {
    if ts == [] then []
    else
      var ms, m := Months(ts[..|ts| - 1]), MonthOf(ts[|ts| - 1]);
      if m in ms then ms else ms + [m]
  }

  function MonthTotal(ts: seq<Transaction>, m: Month): int {
    Sum(ts, (t: Transaction) => if MonthOf(t) == m then t.balance else 0)
  }

  function MonthCount(ts: seq<Transaction>, m: Month): int {
    Sum(ts, (t: Transaction) => if MonthOf(t) == m then 1 else 0)
  }

  function Mean(ts: seq<Transaction>, m: Month): real {
    SafeDiv(MonthTotal(ts, m) as real, MonthCount(ts, m) as real, 0.0)
  }

  function SumOfMeans(ts: seq<Transaction>, ms: seq<Month>): real {
    SumReal(ms, (m: Month) => Mean(ts, m))
  }

  /** The mean of the monthly means, before rounding. */
  function MeanOfMeans(ts: seq<Transaction>): real {
    SafeDiv(SumOfMeans(ts, Months(ts)), |Months(ts)| as real, 0.0)
  }

  function Conduct(ts: seq<Transaction>): ConductMetrics {
    if ts == [] then NO_METRICS
    else ConductMetrics(
      HalfEven(MeanOfMeans(ts)), Peak(ts), Minimum(ts),
      Sum(ts, Credit), Sum(ts, Debit),
      Sum(ts, BouncedFlag),
      Sum(ts, OverdraftFlag))
  }

  predicate NotLater(a: Date, b: Date) {
    a.year < b.year || (a.year == b.year && (a.month < b.month || (a.month == b.month && a.day <= b.day)))
  }

  predicate NotAfter(a: Transaction, b: Transaction) { NotLater(a.date, b.date) }

  /** The parser's stable sort by date. */
  function SortByDate(ts: seq<Transaction>): seq<Transaction> { SortBy(ts, NotAfter) }

  // ---------------------------------------------------------------------------------------------
  // Sums do not depend on order.
  // ---------------------------------------------------------------------------------------------

  lemma {:induction false} SumConcat<T>(a: seq<T>, b: seq<T>, f: T -> int)
    ensures Sum(a + b, f) == Sum(a, f) + Sum(b, f)
    decreases |b|
  {
    if b == [] {
      assert a + b == a;
    } else {
      SumConcat(a, b[..|b| - 1], f);
      assert (a + b)[..|a + b| - 1] == a + b[..|b| - 1];
    }
  }

  lemma {:induction false} SumRealConcat<T>(a: seq<T>, b: seq<T>, f: T -> real)
    ensures SumReal(a + b, f) == SumReal(a, f) + SumReal(b, f)
    decreases |b|
  {
    if b == [] {
      assert a + b == a;
    } else {
      SumRealConcat(a, b[..|b| - 1], f);
      assert (a + b)[..|a + b| - 1] == a + b[..|b| - 1];
    }
  }

  /** Where the last element of a permutation sits in the other list. */
  lemma {:induction false} Locate<T>(a: seq<T>, b: seq<T>) returns (k: nat)
    requires multiset(a) == multiset(b) && a != []
    ensures k < |b| && b[k] == a[|a| - 1]
    ensures b == b[..k] + [b[k]] + b[k + 1..]
    ensures multiset(a[..|a| - 1]) == multiset(b[..k] + b[k + 1..])
  {
    var x := a[|a| - 1];
    assert a == a[..|a| - 1] + [x];
    assert x in multiset(b);
    k :| 0 <= k < |b| && b[k] == x;
    assert b == b[..k] + [x] + b[k + 1..];
    assert multiset(a) == multiset(a[..|a| - 1]) + multiset{x};
    assert multiset(b) == multiset(b[..k] + b[k + 1..]) + multiset{x};
    assert multiset(a[..|a| - 1]) == multiset(a) - multiset{x};
    assert multiset(b[..k] + b[k + 1..]) == multiset(b) - multiset{x};
  }

  lemma {:induction false} SumPermutes<T>(a: seq<T>, b: seq<T>, f: T -> int)
    requires multiset(a) == multiset(b)
    ensures Sum(a, f) == Sum(b, f)
    decreases |a|
  {
    if a == [] {
      assert |b| == |multiset(b)| == 0;
    } else {
      var k := Locate(a, b);
      SumPermutes(a[..|a| - 1], b[..k] + b[k + 1..], f);
      SumConcat(b[..k] + [b[k]], b[k + 1..], f);
      SumConcat(b[..k], [b[k]], f);
      SumConcat(b[..k], b[k + 1..], f);
      assert Sum([b[k]], f) == f(b[k]) by {
        assert [b[k]][..0] == [];
      }
    }
  }

  lemma {:induction false} SumRealPermutes<T>(a: seq<T>, b: seq<T>, f: T -> real, g: T -> real)
    requires multiset(a) == multiset(b) && forall x :: x in a ==> f(x) == g(x)
    ensures SumReal(a, f) == SumReal(b, g)
    decreases |a|
  {
    if a == [] {
      assert |b| == |multiset(b)| == 0;
    } else {
      var k := Locate(a, b);
      assert a[|a| - 1] in a;
      SumRealPermutes(a[..|a| - 1], b[..k] + b[k + 1..], f, g);
      SumRealConcat(b[..k] + [b[k]], b[k + 1..], g);
      SumRealConcat(b[..k], [b[k]], g);
      SumRealConcat(b[..k], b[k + 1..], g);
      assert SumReal([b[k]], g) == g(b[k]) by {
        assert [b[k]][..0] == [];
      }
    }
  }

  lemma {:induction false} MonthsAre(ts: seq<Transaction>)
    ensures forall i, j :: 0 <= i < j < |Months(ts)| ==> Months(ts)[i] != Months(ts)[j]
    ensures forall m :: m in Months(ts) <==> exists t :: t in ts && MonthOf(t) == m
  {
    if ts != [] {
      MonthsAre(ts[..|ts| - 1]);
      assert ts == ts[..|ts| - 1] + [ts[|ts| - 1]];
    }
  }

  lemma {:induction false} SameMonths(ts: seq<Transaction>, ts': seq<Transaction>)
    requires multiset(ts) == multiset(ts')
    ensures multiset(Months(ts)) == multiset(Months(ts')) && |Months(ts)| == |Months(ts')|
  {
    MonthsAre(ts);
    MonthsAre(ts');
    forall m
      ensures m in Months(ts) <==> m in Months(ts')
    {
      assert forall t :: t in ts <==> t in multiset(ts);
      assert forall t :: t in ts' <==> t in multiset(ts');
    }
    DistinctMultiset(Months(ts));
    DistinctMultiset(Months(ts'));
    assert |Months(ts)| == |multiset(Months(ts))|;
    assert |Months(ts')| == |multiset(Months(ts'))|;
  }

  lemma {:induction false} ExtremesAre(ts: seq<Transaction>)
    requires ts != []
    ensures forall t :: t in ts ==> Minimum(ts) <= t.balance <= Peak(ts)
    ensures exists t :: t in ts && t.balance == Peak(ts)
    ensures exists t :: t in ts && t.balance == Minimum(ts)
  {
    if |ts| == 1 {
      assert ts[0] in ts;
    } else {
      var init, last := ts[..|ts| - 1], ts[|ts| - 1];
      ExtremesAre(init);
      assert ts == init + [last];
      var hi :| hi in init && hi.balance == Peak(init);
      var lo :| lo in init && lo.balance == Minimum(init);
      assert hi in ts && lo in ts && last in ts;
    }
  }

  lemma {:induction false} SameExtremes(ts: seq<Transaction>, ts': seq<Transaction>)
    requires multiset(ts) == multiset(ts') && ts != [] && ts' != []
    ensures Peak(ts) == Peak(ts') && Minimum(ts) == Minimum(ts')
  {
    ExtremesAre(ts);
    ExtremesAre(ts');
    assert forall t :: t in ts <==> t in multiset(ts);
    assert forall t :: t in ts' <==> t in multiset(ts');
  }

  /** Main result: permuting the rows changes no conduct metric. */
  lemma {:induction false} ConductIsOrderFree(ts: seq<Transaction>, ts': seq<Transaction>)
    requires multiset(ts) == multiset(ts')
    ensures Conduct(ts) == Conduct(ts')
  {
    assert |ts| == |multiset(ts)| == |multiset(ts')| == |ts'|;
    if ts != [] {
      SameExtremes(ts, ts');
      SameMonths(ts, ts');
      forall m
        ensures Mean(ts, m) == Mean(ts', m)
      {
        SumPermutes(ts, ts', (t: Transaction) => if MonthOf(t) == m then t.balance else 0);
        SumPermutes(ts, ts', (t: Transaction) => if MonthOf(t) == m then 1 else 0);
      }
      var f, g := (m: Month) => Mean(ts, m), (m: Month) => Mean(ts', m);
      SumOfMeansIs(ts, Months(ts), f);
      SumOfMeansIs(ts', Months(ts'), g);
      SumRealPermutes(Months(ts), Months(ts'), f, g);
      SumPermutes(ts, ts', Credit);
      SumPermutes(ts, ts', Debit);
      SumPermutes(ts, ts', BouncedFlag);
      SumPermutes(ts, ts', OverdraftFlag);
    }
  }

  // ---------------------------------------------------------------------------------------------
  // The average lies between the extremes.
  // ---------------------------------------------------------------------------------------------

  lemma {:induction false} MonthTotalBounds(ts: seq<Transaction>, m: Month, low: int, high: int)
    requires forall t :: t in ts ==> low <= t.balance <= high
    ensures MonthCount(ts, m) >= 0
    ensures low * MonthCount(ts, m) <= MonthTotal(ts, m) <= high * MonthCount(ts, m)
    ensures (exists t :: t in ts && MonthOf(t) == m) ==> MonthCount(ts, m) >= 1
  {
    if ts != [] {
      var init, last := ts[..|ts| - 1], ts[|ts| - 1];
      assert ts == init + [last];
      MonthTotalBounds(init, m, low, high);
      var n := MonthCount(init, m);
      assert last in ts;
      assert low * (n + 1) == low * n + low && high * (n + 1) == high * n + high;
    }
  }

  /** Dividing by a positive count keeps bounds. */
  lemma {:induction false} DivideBounds(sum: real, n: real, low: real, high: real)
    requires n > 0.0 && low * n <= sum <= high * n
    ensures low <= sum / n <= high
  {
    var q := sum / n;
    assert q * n == sum;
    NotAbove(low, q, n);
    NotAbove(q, high, n);
  }

  lemma {:induction false} NotAbove(a: real, b: real, n: real)
    requires n > 0.0 && a * n <= b * n
    ensures a <= b
  {
    assert (b - a) * n == b * n - a * n;
  }

  lemma {:induction false} MeanBounds(total: int, count: int, low: int, high: int)
    requires count >= 1 && low * count <= total <= high * count
    ensures low as real <= total as real / count as real <= high as real
  {
    ProductAsReal(low, count);
    ProductAsReal(high, count);
    DivideBounds(total as real, count as real, low as real, high as real);
  }

  lemma {:induction false} ProductAsReal(a: int, n: nat)
    ensures (a * n) as real == a as real * n as real
  {
    if n > 0 {
      ProductAsReal(a, n - 1);
      assert a * n == a * (n - 1) + a;
      assert a as real * n as real == a as real * (n - 1) as real + a as real;
    }
  }

  /** x taken n times. */
  function Times(x: real, n: nat): real { if n == 0 then 0.0 else Times(x, n - 1) + x }

  lemma {:induction false} TimesIsProduct(x: real, n: nat)
    ensures Times(x, n) == x * n as real
  {
    if n > 0 {
      TimesIsProduct(x, n - 1);
      assert x * n as real == x * (n - 1) as real + x;
    }
  }

  lemma {:induction false} DivideTimes(sum: real, n: nat, low: real, high: real)
    requires n > 0 && Times(low, n) <= sum <= Times(high, n)
    ensures low <= sum / n as real <= high
  {
    TimesIsProduct(low, n);
    TimesIsProduct(high, n);
    DivideBounds(sum, n as real, low, high);
  }

  lemma {:induction false} SumOfMeansBounds(ms: seq<Month>, f: Month -> real, low: real, high: real)
    requires forall m :: m in ms ==> low <= f(m) <= high
    ensures Times(low, |ms|) <= SumReal(ms, f) <= Times(high, |ms|)
  {
    if ms != [] {
      var init, last := ms[..|ms| - 1], ms[|ms| - 1];
      assert ms == init + [last];
      assert last in ms;
      SumOfMeansBounds(init, f, low, high);
    }
  }

  lemma {:induction false} EachMeanBounded(ts: seq<Transaction>, m: Month)
    requires m in Months(ts) && ts != []
    ensures Minimum(ts) as real <= Mean(ts, m) <= Peak(ts) as real
  {
    ExtremesAre(ts);
    MonthsAre(ts);
    MonthTotalBounds(ts, m, Minimum(ts), Peak(ts));
    MeanBounds(MonthTotal(ts, m), MonthCount(ts, m), Minimum(ts), Peak(ts));
  }

  lemma {:induction false} SomeMonth(ts: seq<Transaction>)
    requires ts != []
    ensures Months(ts) != []
  {
    MonthsAre(ts);
    assert ts[0] in ts;
    assert MonthOf(ts[0]) in Months(ts);
  }

  lemma {:induction false} SumOfMeansBetween(ts: seq<Transaction>, ms: seq<Month>, low: real, high: real)
    requires ts != [] && low == Minimum(ts) as real && high == Peak(ts) as real
    requires forall m :: m in ms ==> m in Months(ts)
    ensures Times(low, |ms|) <= SumOfMeans(ts, ms) <= Times(high, |ms|)
  {
    var f := (m: Month) => Mean(ts, m);
    forall m | m in ms
      ensures low <= f(m) <= high
    {
      EachMeanBounded(ts, m);
    }
    SumOfMeansBounds(ms, f, low, high);
    SumOfMeansIs(ts, ms, f);
  }

  lemma {:induction false} MeanOfMeansBounds(ts: seq<Transaction>)
    requires ts != []
    ensures Minimum(ts) as real <= MeanOfMeans(ts) <= Peak(ts) as real
  {
    var low, high := Minimum(ts) as real, Peak(ts) as real;
    SomeMonth(ts);
    SumOfMeansBetween(ts, Months(ts), low, high);
    DivideTimes(SumOfMeans(ts, Months(ts)), |Months(ts)|, low, high);
  }

  lemma {:induction false} SumOfMeansIs(ts: seq<Transaction>, ms: seq<Month>, f: Month -> real)
    requires forall m :: f(m) == Mean(ts, m)
    ensures SumReal(ms, f) == SumOfMeans(ts, ms)
  {
    if ms != [] {
      SumOfMeansIs(ts, ms[..|ms| - 1], f);
    }
  }

  /** Main result: for a non-empty statement in whole paise, minimum <= monthly average <= peak,
      although the average is a rounded mean of per-month means. */
  lemma {:induction false} AverageBetweenExtremes(ts: seq<Transaction>)
    requires ts != []
    ensures Conduct(ts).minimum <= Conduct(ts).monthlyAverage <= Conduct(ts).peak
  {
    MeanOfMeansBounds(ts);
    var low, high := Minimum(ts) as real, Peak(ts) as real;
    HalfEvenMonotone(low, MeanOfMeans(ts));
    HalfEvenMonotone(MeanOfMeans(ts), high);
    assert low.Floor == Minimum(ts) && high.Floor == Peak(ts);
  }

  lemma {:induction false} FlagCount(ts: seq<Transaction>)
    ensures 0 <= Sum(ts, OverdraftFlag) <= |ts|
    ensures Sum(ts, OverdraftFlag) == 0 <==> forall t :: t in ts ==> t.balance >= 0
  {
    if ts != [] {
      FlagCount(ts[..|ts| - 1]);
      assert ts == ts[..|ts| - 1] + [ts[|ts| - 1]];
    }
  }

  /** Overdrafts are reported exactly when the minimum balance is negative. */
  lemma {:induction false} OverdraftsMatchMinimum(ts: seq<Transaction>)
    requires ts != []
    ensures Conduct(ts).overdrafts > 0 <==> Conduct(ts).minimum < 0
  {
    FlagCount(ts);
    ExtremesAre(ts);
  }

  // ---------------------------------------------------------------------------------------------
  // What a row and a month count for.
  // ---------------------------------------------------------------------------------------------

  lemma {:induction false} SumSnoc<T>(s: seq<T>, x: T, f: T -> int)
    ensures Sum(s + [x], f) == Sum(s, f) + f(x)
  {
    assert (s + [x])[..|s|] == s;
  }

  /** One more row adds its credit, its debit, its bounce and its overdraft, and moves the extremes to its
      balance if that lies outside them. */
  lemma {:induction false} OneMoreRow(ts: seq<Transaction>, t: Transaction)
    requires ts != []
    ensures var m, m' := Conduct(ts), Conduct(ts + [t]);
      && m'.totalCredits == m.totalCredits + t.credit && m'.totalDebits == m.totalDebits + t.debit
      && m'.bounced == m.bounced + (if t.bounced then 1 else 0)
      && m'.overdrafts == m.overdrafts + (if t.balance < 0 then 1 else 0)
      && m'.peak == (if t.balance > m.peak then t.balance else m.peak)
      && m'.minimum == (if t.balance < m.minimum then t.balance else m.minimum)
  {
    SumSnoc(ts, t, Credit);
    SumSnoc(ts, t, Debit);
    SumSnoc(ts, t, BouncedFlag);
    SumSnoc(ts, t, OverdraftFlag);
    assert (ts + [t])[..|ts|] == ts;
  }

  /** And the first row. */
  lemma {:induction false} FirstRow(t: Transaction)
    ensures Conduct([t]) == ConductMetrics(t.balance, t.balance, t.balance, t.credit, t.debit,
                                           if t.bounced then 1 else 0, if t.balance < 0 then 1 else 0)
  {
    var none: seq<Transaction> := [];
    assert none + [t] == [t];
    SumSnoc(none, t, Credit);
    SumSnoc(none, t, Debit);
    SumSnoc(none, t, BouncedFlag);
    SumSnoc(none, t, OverdraftFlag);
    OneMonthAverage([t], t.date.year, t.date.month);
    SumSnoc(none, t, Balance);
    assert (t.balance as real).Floor == t.balance;
  }

  function Balance(t: Transaction): int { t.balance }

  /** The rows of one calendar month average to the rounded mean of their balances. */
  lemma {:induction false} OneMonthAverage(ts: seq<Transaction>, year: int, month: int)
    requires ts != [] && forall t :: t in ts ==> t.date.year == year && t.date.month == month
    ensures MeanOfMeans(ts) == Sum(ts, Balance) as real / |ts| as real
    ensures Conduct(ts).monthlyAverage == HalfEven(Sum(ts, Balance) as real / |ts| as real)
  {
    var m := Month(year, month);
    OneMonth(ts, m);
    var none: seq<Month> := [];
    assert none + [m] == [m];
    SumOfMeansSnoc(ts, none, m);
  }

  lemma {:induction false} OneMonth(ts: seq<Transaction>, m: Month)
    requires ts != [] && forall t :: t in ts ==> MonthOf(t) == m
    ensures Months(ts) == [m] && MonthTotal(ts, m) == Sum(ts, Balance) && MonthCount(ts, m) == |ts|
  {
    var init, last := ts[..|ts| - 1], ts[|ts| - 1];
    assert ts == init + [last];
    assert last in ts;
    MonthSnoc(init, last, m);
    SumSnoc(init, last, Balance);
    assert Months(ts) == if m in Months(init) then Months(init) else Months(init) + [m];
    if init != [] {
      OneMonth(init, m);
    } else {
      NothingYet(init, m);
    }
  }

  lemma NothingYet(ts: seq<Transaction>, m: Month)
    requires ts == []
    ensures Months(ts) == [] && MonthTotal(ts, m) == 0 && MonthCount(ts, m) == 0 && Sum(ts, Balance) == 0
  {
  }

  lemma {:induction false} SumOfMeansSnoc(ts: seq<Transaction>, ms: seq<Month>, m: Month)
    ensures SumOfMeans(ts, ms + [m]) == SumOfMeans(ts, ms) + Mean(ts, m)
  {
    assert (ms + [m])[..|ms|] == ms;
  }

  lemma {:induction false} MonthsJoin(a: seq<Transaction>, b: seq<Transaction>)
    requires forall m :: m in Months(b) ==> m !in Months(a)
    ensures Months(a + b) == Months(a) + Months(b)
    decreases |b|
  {
    if b == [] {
      assert a + b == a;
    } else {
      var init, last := b[..|b| - 1], b[|b| - 1];
      MonthsJoin(a, init);
      assert (a + b)[..|a + b| - 1] == a + init;
    }
  }

  lemma {:induction false} SameMeans(ts: seq<Transaction>, ts': seq<Transaction>, ms: seq<Month>)
    requires forall m :: m in ms ==> Mean(ts, m) == Mean(ts', m)
    ensures SumOfMeans(ts, ms) == SumOfMeans(ts', ms)
  {
    if ms != [] {
      var init, last := ms[..|ms| - 1], ms[|ms| - 1];
      assert ms == init + [last];
      SameMeans(ts, ts', init);
      SumOfMeansSnoc(ts, init, last);
      SumOfMeansSnoc(ts', init, last);
    }
  }

  lemma {:induction false} MeanOfJoined(a: seq<Transaction>, b: seq<Transaction>, m: Month)
    ensures m !in Months(b) ==> Mean(a + b, m) == Mean(a, m)
    ensures m !in Months(a) ==> Mean(a + b, m) == Mean(b, m)
  {
    SumConcat(a, b, (t: Transaction) => if MonthOf(t) == m then t.balance else 0);
    SumConcat(a, b, (t: Transaction) => if MonthOf(t) == m then 1 else 0);
    if m !in Months(b) {
      MonthAbsent(b, m);
    }
    if m !in Months(a) {
      MonthAbsent(a, m);
    }
  }

  /** The unrounded average times the number of months. */
  function MonthlySum(ts: seq<Transaction>): real { MeanOfMeans(ts) * |Months(ts)| as real }

  /** Every calendar month weighs the same: statements without a common month join with the numbers of
      their months as weights. */
  lemma {:induction false} MonthsWeighTheSame(a: seq<Transaction>, b: seq<Transaction>)
    requires a != [] && b != []
    requires forall s, t :: s in a && t in b ==> s.date.year != t.date.year || s.date.month != t.date.month
    ensures |Months(a + b)| == |Months(a)| + |Months(b)| && MonthlySum(a + b) == MonthlySum(a) + MonthlySum(b)
  {
    SomeMonth(a);
    SomeMonth(b);
    NoCommonMonth(a, b);
    MonthsJoin(a, b);
    JoinedMeans(a, b);
    SumsOfMeansJoin(a + b, Months(a), Months(b));
    MeanTimesMonths(a);
    MeanTimesMonths(b);
    MeanTimesMonths(a + b);
  }

  lemma {:induction false} NoCommonMonth(a: seq<Transaction>, b: seq<Transaction>)
    requires forall s, t :: s in a && t in b ==> s.date.year != t.date.year || s.date.month != t.date.month
    ensures forall m :: m in Months(b) ==> m !in Months(a)
  {
    MonthsAre(a);
    MonthsAre(b);
  }

  lemma {:induction false} JoinedMeans(a: seq<Transaction>, b: seq<Transaction>)
    requires forall m :: m in Months(b) ==> m !in Months(a)
    ensures SumOfMeans(a + b, Months(a)) == SumOfMeans(a, Months(a))
    ensures SumOfMeans(a + b, Months(b)) == SumOfMeans(b, Months(b))
  {
    forall m | m in Months(a)
      ensures Mean(a + b, m) == Mean(a, m)
    {
      MeanOfJoined(a, b, m);
    }
    forall m | m in Months(b)
      ensures Mean(a + b, m) == Mean(b, m)
    {
      MeanOfJoined(a, b, m);
    }
    SameMeans(a + b, a, Months(a));
    SameMeans(a + b, b, Months(b));
  }

  lemma {:induction false} MeanTimesMonths(ts: seq<Transaction>)
    requires Months(ts) != []
    ensures MonthlySum(ts) == SumOfMeans(ts, Months(ts))
  {
  }

  lemma {:induction false} SumsOfMeansJoin(ts: seq<Transaction>, ms: seq<Month>, more: seq<Month>)
    ensures SumOfMeans(ts, ms + more) == SumOfMeans(ts, ms) + SumOfMeans(ts, more)
  {
    SumRealConcat(ms, more, (m: Month) => Mean(ts, m));
  }

  /** Dates compare by year, then month, then day. */
  lemma NotLaterIs(a: Date, b: Date)
    requires 1 <= a.month <= 12 && 1 <= a.day <= 31 && 1 <= b.month <= 12 && 1 <= b.day <= 31
    ensures NotLater(a, b) <==> 372 * a.year + 31 * a.month + a.day <= 372 * b.year + 31 * b.month + b.day
  {
  }

  // ---------------------------------------------------------------------------------------------
  // The metrics as computed: balances grouped by month in a dictionary.
  // ---------------------------------------------------------------------------------------------

  function Identity(x: int): int { x }

  /** The dictionary groups the rows so far. */
  ghost predicate Groups(ts: seq<Transaction>, byMonth: map<Month, seq<int>>, keys: seq<Month>) {
    && keys == Months(ts)
    && (forall m :: m in byMonth <==> m in keys)
    && forall m :: m in byMonth ==>
         && byMonth[m] != []
         && Sum(byMonth[m], Identity) == MonthTotal(ts, m)
         && |byMonth[m]| == MonthCount(ts, m)
  }

  lemma {:induction false} GroupOneMore(ts: seq<Transaction>, t: Transaction, byMonth: map<Month, seq<int>>,
      keys: seq<Month>)
    requires Groups(ts, byMonth, keys)
    ensures var m := MonthOf(t);
      Groups(ts + [t], byMonth[m := (if m in byMonth then byMonth[m] else []) + [t.balance]],
             if m in keys then keys else keys + [m])
  {
    var m := MonthOf(t);
    var balances := if m in byMonth then byMonth[m] else [];
    var byMonth' := byMonth[m := balances + [t.balance]];
    assert (ts + [t])[..|ts|] == ts;
    SumConcat(balances, [t.balance], Identity);
    assert Sum([t.balance], Identity) == t.balance by {
      assert [t.balance][..0] == [];
    }
    if m !in byMonth {
      MonthAbsent(ts, m);
    }
    forall k | k in byMonth'
      ensures byMonth'[k] != [] && Sum(byMonth'[k], Identity) == MonthTotal(ts + [t], k)
        && |byMonth'[k]| == MonthCount(ts + [t], k)
    {
      MonthSnoc(ts, t, k);
    }
  }

  lemma {:induction false} MonthSnoc(ts: seq<Transaction>, t: Transaction, m: Month)
    ensures MonthTotal(ts + [t], m) == MonthTotal(ts, m) + if MonthOf(t) == m then t.balance else 0
    ensures MonthCount(ts + [t], m) == MonthCount(ts, m) + if MonthOf(t) == m then 1 else 0
  {
    assert (ts + [t])[..|ts|] == ts;
  }

  lemma {:induction false} MonthAbsent(ts: seq<Transaction>, m: Month)
    requires m !in Months(ts)
    ensures MonthTotal(ts, m) == 0 && MonthCount(ts, m) == 0
  {
    if ts != [] {
      MonthAbsent(ts[..|ts| - 1], m);
    }
  }

  method ComputeConduct(ts: seq<Transaction>) returns (metrics: ConductMetrics)
    ensures metrics == Conduct(ts)
  {
    if ts == [] {
      return NO_METRICS;
    }
    var byMonth, keys := GroupByMonth(ts);
    var sum := 0.0;
    for k := 0 to |keys|
      invariant sum == SumOfMeans(ts, keys[..k])
    {
      assert keys[..k + 1][..k] == keys[..k];
      assert keys[k] in byMonth;
      sum := sum + Sum(byMonth[keys[k]], Identity) as real / |byMonth[keys[k]]| as real;
      assert sum == SumOfMeans(ts, keys[..k + 1]);
    }
    assert keys[..|keys|] == keys;
    var average := if keys != [] then sum / |keys| as real else 0.0;
    assert average == MeanOfMeans(ts);
    metrics := ConductMetrics(
      HalfEven(average), Peak(ts), Minimum(ts), Sum(ts, Credit), Sum(ts, Debit),
      Sum(ts, BouncedFlag), Sum(ts, OverdraftFlag));
  }

  method GroupByMonth(ts: seq<Transaction>) returns (byMonth: map<Month, seq<int>>, keys: seq<Month>)
    ensures Groups(ts, byMonth, keys)
  {
    byMonth, keys := map[], [];
    for i := 0 to |ts|
      invariant Groups(ts[..i], byMonth, keys)
    {
      var t := ts[i];
      assert ts[..i + 1] == ts[..i] + [t];
      GroupOneMore(ts[..i], t, byMonth, keys);
      var m := MonthOf(t);
      if m !in byMonth {
        byMonth, keys := byMonth[m := []], keys + [m];
      }
      byMonth := byMonth[m := byMonth[m] + [t.balance]];
    }
    assert ts[..|ts|] == ts;
  }

  datatype Period = NoPeriod | Period(start: Date, end: Date)

  /** Every row lies in the period, and both its ends are dates of rows. */
  ghost predicate Covers(period: Period, rows: seq<Transaction>) {
    && period.Period?
    && (forall t :: t in rows ==> NotLater(period.start, t.date) && NotLater(t.date, period.end))
    && (exists t :: t in rows && t.date == period.start)
    && (exists t :: t in rows && t.date == period.end)
  }

  /** The parsed statement: rows by date, metrics that depend on the rows alone, and a period that
      covers every row and ends on rows. */
  method ParseStatement(rows: seq<Transaction>) returns (txns: seq<Transaction>, metrics: ConductMetrics,
      period: Period)
    ensures Ordered(txns, NotAfter) && multiset(txns) == multiset(rows)
    ensures metrics == Conduct(rows)
    ensures if rows == [] then period == NoPeriod else Covers(period, rows)
  {
    txns := SortByDate(rows);
    SortSpec(rows, NotAfter);
    metrics := ComputeConduct(txns);
    ConductIsOrderFree(txns, rows);
    assert |txns| == |multiset(txns)| == |multiset(rows)| == |rows|;
    if txns == [] {
      return txns, metrics, NoPeriod;
    }
    period := Period(txns[0].date, txns[|txns| - 1].date);
    PeriodCovers(txns, rows);
  }

  lemma {:induction false} PeriodCovers(txns: seq<Transaction>, rows: seq<Transaction>)
    requires Ordered(txns, NotAfter) && multiset(txns) == multiset(rows) && txns != []
    ensures Covers(Period(txns[0].date, txns[|txns| - 1].date), rows)
  {
    SameRows(txns, rows);
    assert txns[0] in rows && txns[|txns| - 1] in rows;
    forall t | t in rows
      ensures NotLater(txns[0].date, t.date) && NotLater(t.date, txns[|txns| - 1].date)
    {
      assert t in txns;
      var k :| 0 <= k < |txns| && txns[k] == t;
      assert 0 < k ==> NotAfter(txns[0], txns[k]);
      assert k < |txns| - 1 ==> NotAfter(txns[k], txns[|txns| - 1]);
    }
  }

  lemma {:induction false} SameRows(a: seq<Transaction>, b: seq<Transaction>)
    requires multiset(a) == multiset(b)
    ensures forall t :: t in a <==> t in b
  {
    assert forall t :: t in a <==> t in multiset(a);
    assert forall t :: t in b <==> t in multiset(b);
  }
}
