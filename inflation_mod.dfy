/**
 The inflation calculator of the Inflation mod: two lookup tables keyed by the
 inflation period, the count of whole periods since the game started, the
 linear and compounding cost formulas, and the routing of the economy hooks.

 The mod object's configuration and the game clock it reads through the
 simulation manager are passed in explicitly as a `ModState`; arithmetic is over
 exact reals in place of single-precision floats.
 */
module InflationMod {
  import opened Numerics

  /** The cost categories a request can be inflated under. */
  datatype InflationType = Construction | Maintenance

  /** A value of the int-backed period enum: one of its four named members, or
      any other integer code a cast can put into it. */
  datatype PeriodValue = Daily | Weekly | Monthly | Yearly | Undefined(code: int)

  /** Codes 0 to 3 are always the named members, so `Undefined` holds only the
      codes outside that range. */
  type InflationPeriod = p: PeriodValue | !p.Undefined? || p.code < 0 || 3 < p.code
    witness Monthly

  /** Elapsed game time in days since the game's starting date. */
  type Days = d: real | 0.0 <= d

  /** The four user settings the calculation reads. */
  datatype Config = Config(
    constructionAnnualRate: real,
    maintenanceAnnualRate: real,
    period: InflationPeriod,
    compound: bool)

  /** The settings a freshly loaded mod starts with. */
  const DefaultConfig := Config(0.05, 0.01, Monthly, true)

  /** What every hook of the mod object can see: its settings and the game clock. */
  datatype ModState = ModState(config: Config, elapsedDays: Days)

  // ---------------------------------------------------------------------------
  // The period enum and its integer codes

  /** The integer code of a period value, in declaration order from 0. */
  function Ordinal(p: InflationPeriod): int
  {
    match p
    case Daily => 0
    case Weekly => 1
    case Monthly => 2
    case Yearly => 3
    case Undefined(c) => c
  }

  /** The period value an integer code stands for when cast to the enum. */
  function FromOrdinal(code: int): (p: InflationPeriod)
    ensures p.Undefined? <==> code < 0 || 3 < code
  {
    if code == 0 then Daily
    else if code == 1 then Weekly
    else if code == 2 then Monthly
    else if code == 3 then Yearly
    else Undefined(code)
  }

  /** Casting a code to the enum and back loses nothing, and every period value
      is the cast of its own code. */
  lemma OrdinalRoundTrip(code: int, p: InflationPeriod)
    ensures Ordinal(FromOrdinal(code)) == code
    ensures FromOrdinal(Ordinal(p)) == p
  {
  }

  // ---------------------------------------------------------------------------
  // The two lookup tables

  /** Days in one inflation period. A code outside the enum falls back to a week. */
  function GetPeriodDivider(p: InflationPeriod): (days: int)
    ensures 1 <= days <= 365
  {
    match p
    case Daily => 1
    case Weekly => 7
    case Monthly => 30
    case Yearly => 365
    case Undefined(_) => 7
  }

  /** Inflation periods in one year. A code outside the enum falls back to the
      weekly count. */
  function GetPeriodsInYear(p: InflationPeriod): (periods: int)
    ensures 1 <= periods <= 365
  {
    match p
    case Daily => 365
    case Weekly => 52
    case Monthly => 12
    case Yearly => 1
    case Undefined(_) => 52
  }

  /** The two tables describe a year of 360 to 365 days: exactly 365 for the
      daily and yearly periods, 364 for weeks and 360 for thirty-day months. */
  lemma YearSpan(p: InflationPeriod)
    ensures 360 <= GetPeriodDivider(p) * GetPeriodsInYear(p) <= 365
    ensures GetPeriodDivider(p) * GetPeriodsInYear(p) == 365 <==> p == Daily || p == Yearly
    ensures GetPeriodDivider(p) * GetPeriodsInYear(p) == 360 <==> p == Monthly
  {
  }

  /** A value outside the enum behaves exactly like a weekly period. */
  lemma UndefinedPeriodIsWeekly(p: InflationPeriod)
    requires p.Undefined?
    ensures GetPeriodDivider(p) == GetPeriodDivider(Weekly)
    ensures GetPeriodsInYear(p) == GetPeriodsInYear(Weekly)
  {
  }

  /** Among the named periods a later enum member is a longer period and so
      fits fewer times into a year. */
  lemma LongerPeriodFewerPerYear(p: InflationPeriod, q: InflationPeriod)
    requires !p.Undefined? && !q.Undefined?
    requires Ordinal(p) < Ordinal(q)
    ensures GetPeriodDivider(p) < GetPeriodDivider(q)
    ensures GetPeriodsInYear(p) > GetPeriodsInYear(q)
  {
  }

  // ---------------------------------------------------------------------------
  // Counting periods

  /** Whole periods since the game started: the floor of the elapsed days over
      the period length. */
  function GetNumberOfPeriodsSinceStart(p: InflationPeriod, elapsedDays: Days): nat
  {
    (elapsedDays / GetPeriodDivider(p) as real).Floor
  }

  /** The count n is the one whole number with n periods' worth of days
      elapsed but not n + 1. */
  lemma PeriodsBracketElapsed(p: InflationPeriod, elapsedDays: Days)
    ensures var n := GetNumberOfPeriodsSinceStart(p, elapsedDays);
            (n * GetPeriodDivider(p)) as real <= elapsedDays < ((n + 1) * GetPeriodDivider(p)) as real
  {
    var d := GetPeriodDivider(p) as real;
    var q := elapsedDays / d;
    assert q.Floor as real <= q < q.Floor as real + 1.0;
    assert q * d == elapsedDays;
    assert q.Floor as real * d <= elapsedDays < (q.Floor as real + 1.0) * d;
  }

  /** Every elapsed time in the bucket [k * divider, (k + 1) * divider) counts
      exactly k periods; in particular the count stays the same inside a bucket. */
  lemma PeriodsInBucket(p: InflationPeriod, elapsedDays: Days, k: nat)
    requires (k * GetPeriodDivider(p)) as real <= elapsedDays
    requires elapsedDays < ((k + 1) * GetPeriodDivider(p)) as real
    ensures GetNumberOfPeriodsSinceStart(p, elapsedDays) == k
  {
    var n := GetNumberOfPeriodsSinceStart(p, elapsedDays);
    var d := GetPeriodDivider(p);
    PeriodsBracketElapsed(p, elapsedDays);
    CancelFactor(n, k + 1, d);
    CancelFactor(k, n + 1, d);
  }

  /** No period has elapsed exactly while less than one period length of days
      has passed. */
  lemma NoPeriodBeforeFirstDivider(p: InflationPeriod, elapsedDays: Days)
    ensures GetNumberOfPeriodsSinceStart(p, elapsedDays) == 0
        <==> elapsedDays < GetPeriodDivider(p) as real
  {
    if elapsedDays < GetPeriodDivider(p) as real {
      PeriodsInBucket(p, elapsedDays, 0);
    }
  }

  /** More elapsed time never means fewer periods. */
  lemma PeriodsMonotone(p: InflationPeriod, earlier: Days, later: Days)
    requires earlier <= later
    ensures GetNumberOfPeriodsSinceStart(p, earlier) <= GetNumberOfPeriodsSinceStart(p, later)
  {
    var m := GetNumberOfPeriodsSinceStart(p, earlier);
    var n := GetNumberOfPeriodsSinceStart(p, later);
    PeriodsBracketElapsed(p, earlier);
    PeriodsBracketElapsed(p, later);
    CancelFactor(m, n + 1, GetPeriodDivider(p));
  }

  /** After one 365-day year the count of elapsed periods is exactly the
      table's number of periods in a year, whatever the period. */
  lemma OneYearIsPeriodsInYear(p: InflationPeriod)
    ensures GetNumberOfPeriodsSinceStart(p, 365.0) == GetPeriodsInYear(p)
  {
    PeriodsInBucket(p, 365.0, GetPeriodsInYear(p));
  }

  // ---------------------------------------------------------------------------
  // The cost formulas

  /** The annual rate of the requested category spread over one period. */
  function RateInPeriod(config: Config, inflationType: InflationType): real
  {
    if inflationType == Construction
    then config.constructionAnnualRate / GetPeriodsInYear(config.period) as real
    else config.maintenanceAnnualRate / GetPeriodsInYear(config.period) as real
  }

  /** The configured annual rate of a category. */
  function AnnualRate(config: Config, inflationType: InflationType): real
  {
    match inflationType
    case Construction => config.constructionAnnualRate
    case Maintenance => config.maintenanceAnnualRate
  }

  /** The per-period rate is the requested category's annual rate divided by
      the number of periods in a year. */
  lemma RateInPeriodSpreadsAnnualRate(config: Config, inflationType: InflationType)
    ensures RateInPeriod(config, inflationType)
         == AnnualRate(config, inflationType) / GetPeriodsInYear(config.period) as real
    ensures GetPeriodsInYear(config.period) as real * RateInPeriod(config, inflationType)
         == AnnualRate(config, inflationType)
    ensures config.period == Yearly ==> RateInPeriod(config, inflationType) == AnnualRate(config, inflationType)
  {
  }

  /** Simple inflation: the cost plus n periods' worth of rate on the cost. */
  function LinearCost(originalCost: int, rateInPeriod: real, n: nat): int
  {
    Trunc((n as real) * rateInPeriod * (originalCost as real) + originalCost as real)
  }

  // The three lemmas named ...Unfold state a definition as an equation; the
  // proofs below call them so that the solver need not unfold the nonlinear
  // definitions itself.

  lemma LinearCostUnfold(originalCost: int, rateInPeriod: real, n: nat)
    ensures LinearCost(originalCost, rateInPeriod, n)
         == Trunc((n as real) * rateInPeriod * (originalCost as real) + originalCost as real)
  {
  }

  /** The compounding factor: one plus the per-period rate, once per period. */
  function CompoundedInflation(rateInPeriod: real, n: nat): real
  {
    Pow(1.0 + rateInPeriod, n)
  }

  /** The compounding factor is one at the start and for a zero rate, and each
      further period multiplies it by one plus the rate; for a non-negative
      rate it is at least one and never decreases as periods accumulate. */
  lemma CompoundedInflationFacts(rateInPeriod: real, m: nat, n: nat)
    ensures CompoundedInflation(rateInPeriod, 0) == 1.0
    ensures CompoundedInflation(0.0, n) == 1.0
    ensures CompoundedInflation(rateInPeriod, 1) == 1.0 + rateInPeriod
    ensures CompoundedInflation(rateInPeriod, n + 1) == (1.0 + rateInPeriod) * CompoundedInflation(rateInPeriod, n)
    ensures 0.0 <= rateInPeriod ==> 1.0 <= CompoundedInflation(rateInPeriod, m)
    ensures 0.0 <= rateInPeriod && m <= n
        ==> CompoundedInflation(rateInPeriod, m) <= CompoundedInflation(rateInPeriod, n)
  {
    PowOne(n);
    if 0.0 <= rateInPeriod && m <= n {
      PowMonotone(1.0 + rateInPeriod, m, n);
    }
  }

  /** For a per-period rate of at least -100%, n periods of compounding grow
      the cost at least as much as n periods of simple inflation. */
  lemma CompoundedInflationAtLeastLinear(rateInPeriod: real, n: nat)
    requires -1.0 <= rateInPeriod
    ensures 1.0 + (n as real) * rateInPeriod <= CompoundedInflation(rateInPeriod, n)
  {
    Bernoulli(rateInPeriod, n);
  }

  /** From two periods on, compounding at a nonzero rate of at least -100%
      grows strictly more than simple inflation: the interest earns interest. */
  lemma CompoundedInflationAboveLinear(rateInPeriod: real, n: nat)
    requires -1.0 <= rateInPeriod && rateInPeriod != 0.0
    requires 2 <= n
    ensures 1.0 + (n as real) * rateInPeriod < CompoundedInflation(rateInPeriod, n)
  {
    BernoulliStrict(rateInPeriod, n);
  }

  /** Compound inflation: the cost grown by the rate once per period. */
  function CompoundCost(originalCost: int, rateInPeriod: real, n: nat): int
  {
    Trunc(originalCost as real * CompoundedInflation(rateInPeriod, n))
  }

  lemma CompoundCostUnfold(originalCost: int, rateInPeriod: real, n: nat)
    ensures CompoundCost(originalCost, rateInPeriod, n)
         == Trunc(originalCost as real * CompoundedInflation(rateInPeriod, n))
  {
  }

  /** The inflated cost of a request of the given category after the elapsed
      game time, under the given settings. */
  function GetInflatedCost(config: Config, elapsedDays: Days, inflationType: InflationType,
                           originalCost: int): int
  {
    var numberOfPeriods := GetNumberOfPeriodsSinceStart(config.period, elapsedDays);
    var inflationRateInPeriod := RateInPeriod(config, inflationType);
    if !config.compound then LinearCost(originalCost, inflationRateInPeriod, numberOfPeriods)
    else CompoundCost(originalCost, inflationRateInPeriod, numberOfPeriods)
  }

  /** Simple mode inflates by `LinearCost` and compound mode by `CompoundCost`,
      both of the elapsed period count and the category's per-period rate. */
  lemma InflatedCostByMode(config: Config, elapsedDays: Days,
                           inflationType: InflationType, originalCost: int)
    ensures GetInflatedCost(config, elapsedDays, inflationType, originalCost)
         == if config.compound
            then CompoundCost(originalCost, RateInPeriod(config, inflationType),
                              GetNumberOfPeriodsSinceStart(config.period, elapsedDays))
            else LinearCost(originalCost, RateInPeriod(config, inflationType),
                            GetNumberOfPeriodsSinceStart(config.period, elapsedDays))
  {
  }

  /** A construction request reads only the construction rate, and a
      maintenance request only the maintenance rate. */
  lemma CategoryIsolation(config: Config, elapsedDays: Days, originalCost: int, otherRate: real)
    ensures GetInflatedCost(config.(maintenanceAnnualRate := otherRate), elapsedDays, Construction, originalCost)
         == GetInflatedCost(config, elapsedDays, Construction, originalCost)
    ensures GetInflatedCost(config.(constructionAnnualRate := otherRate), elapsedDays, Maintenance, originalCost)
         == GetInflatedCost(config, elapsedDays, Maintenance, originalCost)
  {
  }

  /** The cost depends on the elapsed time only through the number of whole
      periods. */
  lemma SamePeriodsSameCost(config: Config, earlier: Days, later: Days,
                            inflationType: InflationType, originalCost: int)
    requires GetNumberOfPeriodsSinceStart(config.period, earlier)
          == GetNumberOfPeriodsSinceStart(config.period, later)
    ensures GetInflatedCost(config, earlier, inflationType, originalCost)
         == GetInflatedCost(config, later, inflationType, originalCost)
  {
  }

  /** With no periods elapsed both formulas give back the original cost. */
  lemma FormulasWithoutPeriods(originalCost: int, rateInPeriod: real)
    ensures LinearCost(originalCost, rateInPeriod, 0) == originalCost
    ensures CompoundCost(originalCost, rateInPeriod, 0) == originalCost
  {
    LinearCostUnfold(originalCost, rateInPeriod, 0);
    CompoundCostUnfold(originalCost, rateInPeriod, 0);
    CompoundedInflationFacts(rateInPeriod, 0, 0);
    TruncOfInt(originalCost);
  }

  /** With a zero rate both formulas give back the original cost for any
      number of periods. */
  lemma FormulasWithoutRate(originalCost: int, n: nat)
    ensures LinearCost(originalCost, 0.0, n) == originalCost
    ensures CompoundCost(originalCost, 0.0, n) == originalCost
  {
    LinearCostUnfold(originalCost, 0.0, n);
    CompoundCostUnfold(originalCost, 0.0, n);
    CompoundedInflationFacts(0.0, n, n);
    TruncOfInt(originalCost);
  }

  /** Before the first period has passed the cost is not inflated, linear or
      compounding. */
  lemma NoInflationInFirstPeriod(config: Config, elapsedDays: Days,
                                 inflationType: InflationType, originalCost: int)
    requires elapsedDays < GetPeriodDivider(config.period) as real
    ensures GetInflatedCost(config, elapsedDays, inflationType, originalCost) == originalCost
  {
    NoPeriodBeforeFirstDivider(config.period, elapsedDays);
    InflatedCostByMode(config, elapsedDays, inflationType, originalCost);
    FormulasWithoutPeriods(originalCost, RateInPeriod(config, inflationType));
  }

  /** A zero annual rate for the requested category leaves the cost unchanged
      however much time has passed, linear or compounding. */
  lemma ZeroRateNoInflation(config: Config, elapsedDays: Days,
                            inflationType: InflationType, originalCost: int)
    requires AnnualRate(config, inflationType) == 0.0
    ensures GetInflatedCost(config, elapsedDays, inflationType, originalCost) == originalCost
  {
    RateInPeriodSpreadsAnnualRate(config, inflationType);
    InflatedCostByMode(config, elapsedDays, inflationType, originalCost);
    FormulasWithoutRate(originalCost, GetNumberOfPeriodsSinceStart(config.period, elapsedDays));
  }

  /** With a non-negative cost and rate, simple inflation never goes below the
      original cost and never decreases as periods accumulate. */
  lemma LinearCostGrowth(originalCost: int, rateInPeriod: real, m: nat, n: nat)
    requires 0 <= originalCost && 0.0 <= rateInPeriod
    requires m <= n
    ensures originalCost <= LinearCost(originalCost, rateInPeriod, m)
    ensures LinearCost(originalCost, rateInPeriod, m) <= LinearCost(originalCost, rateInPeriod, n)
  {
    LinearCostUnfold(originalCost, rateInPeriod, m);
    LinearCostUnfold(originalCost, rateInPeriod, n);
    TruncLinearGrowth(originalCost, rateInPeriod, m, n);
  }

  /** With a non-negative cost and rate, compound inflation never goes below the
      original cost and never decreases as periods accumulate. */
  lemma CompoundCostGrowth(originalCost: int, rateInPeriod: real, m: nat, n: nat)
    requires 0 <= originalCost && 0.0 <= rateInPeriod
    requires m <= n
    ensures originalCost <= CompoundCost(originalCost, rateInPeriod, m)
    ensures CompoundCost(originalCost, rateInPeriod, m) <= CompoundCost(originalCost, rateInPeriod, n)
  {
    CompoundCostUnfold(originalCost, rateInPeriod, m);
    CompoundCostUnfold(originalCost, rateInPeriod, n);
    CompoundedInflationFacts(rateInPeriod, m, n);
    TruncScaledGrowth(originalCost, CompoundedInflation(rateInPeriod, m),
                      CompoundedInflation(rateInPeriod, n));
  }

  /** For a non-negative cost and a per-period rate of at least -100%,
      compounding never charges less than simple inflation over the same
      periods (Bernoulli's inequality). */
  lemma CompoundAtLeastLinear(originalCost: int, rateInPeriod: real, n: nat)
    requires 0 <= originalCost && -1.0 <= rateInPeriod
    ensures LinearCost(originalCost, rateInPeriod, n) <= CompoundCost(originalCost, rateInPeriod, n)
  {
    LinearCostUnfold(originalCost, rateInPeriod, n);
    CompoundCostUnfold(originalCost, rateInPeriod, n);
    CompoundedInflationAtLeastLinear(rateInPeriod, n);
    TruncLinearBelowScaled(originalCost, rateInPeriod, n, CompoundedInflation(rateInPeriod, n));
  }

  /** Over a single period the linear and compounding formulas agree. The
      period count is a parameter fixed to one by the precondition, which keeps
      the literal out of the real arithmetic the proof matches on. */
  lemma OnePeriodModesAgree(originalCost: int, rateInPeriod: real, n: nat)
    requires n == 1
    ensures LinearCost(originalCost, rateInPeriod, n) == CompoundCost(originalCost, rateInPeriod, n)
  {
    LinearCostUnfold(originalCost, rateInPeriod, n);
    CompoundCostUnfold(originalCost, rateInPeriod, n);
    CompoundedInflationFacts(rateInPeriod, n, n);
    TruncLinearOnePeriod(originalCost, rateInPeriod, n, CompoundedInflation(rateInPeriod, n));
  }

  /** Simple inflation of a negated cost is the negated result. The negated
      cost is its own parameter so that callers may pass it in any form. */
  lemma LinearCostOdd(originalCost: int, negatedCost: int, rateInPeriod: real, n: nat)
    requires negatedCost == -originalCost
    ensures LinearCost(negatedCost, rateInPeriod, n) == -LinearCost(originalCost, rateInPeriod, n)
  {
    LinearCostUnfold(originalCost, rateInPeriod, n);
    LinearCostUnfold(negatedCost, rateInPeriod, n);
    TruncLinearOdd(originalCost, negatedCost, rateInPeriod, n);
  }

  /** Compound inflation of a negated cost is the negated result. */
  lemma CompoundCostOdd(originalCost: int, negatedCost: int, rateInPeriod: real, n: nat)
    requires negatedCost == -originalCost
    ensures CompoundCost(negatedCost, rateInPeriod, n) == -CompoundCost(originalCost, rateInPeriod, n)
  {
    CompoundCostUnfold(originalCost, rateInPeriod, n);
    CompoundCostUnfold(negatedCost, rateInPeriod, n);
    TruncScaledOdd(originalCost, negatedCost, CompoundedInflation(rateInPeriod, n));
  }

  /** Nothing keeps an inflated cost non-negative: either formula gives a
      negative cost exactly when its real value before truncation is at most
      -1, whatever the signs of the cost and the rate. */
  lemma CostNegativeExactly(originalCost: int, rateInPeriod: real, n: nat)
    ensures LinearCost(originalCost, rateInPeriod, n) < 0
        <==> (n as real) * rateInPeriod * (originalCost as real) + originalCost as real <= -1.0
    ensures CompoundCost(originalCost, rateInPeriod, n) < 0
        <==> originalCost as real * CompoundedInflation(rateInPeriod, n) <= -1.0
  {
    LinearCostUnfold(originalCost, rateInPeriod, n);
    CompoundCostUnfold(originalCost, rateInPeriod, n);
    TruncNegativeExactly((n as real) * rateInPeriod * (originalCost as real) + originalCost as real);
    TruncNegativeExactly(originalCost as real * CompoundedInflation(rateInPeriod, n));
  }

  /** Truncating toward zero makes inflation odd in the cost: a negated cost
      inflates to the negated result, in both modes. */
  lemma InflationOddInCost(config: Config, elapsedDays: Days,
                           inflationType: InflationType, originalCost: int)
    ensures GetInflatedCost(config, elapsedDays, inflationType, -originalCost)
         == -GetInflatedCost(config, elapsedDays, inflationType, originalCost)
  {
    InflatedCostByMode(config, elapsedDays, inflationType, originalCost);
    InflatedCostByMode(config, elapsedDays, inflationType, -originalCost);
    LinearCostOdd(originalCost, -originalCost, RateInPeriod(config, inflationType),
                  GetNumberOfPeriodsSinceStart(config.period, elapsedDays));
    CompoundCostOdd(originalCost, -originalCost, RateInPeriod(config, inflationType),
                    GetNumberOfPeriodsSinceStart(config.period, elapsedDays));
  }

  /** For a non-negative cost and annual rate, the inflated cost never falls
      below the original cost and never decreases as game time advances. */
  lemma InflatedCostGrowsWithTime(config: Config, earlier: Days, later: Days,
                                  inflationType: InflationType, originalCost: int)
    requires 0 <= originalCost
    requires 0.0 <= AnnualRate(config, inflationType)
    requires earlier <= later
    ensures originalCost <= GetInflatedCost(config, earlier, inflationType, originalCost)
    ensures GetInflatedCost(config, earlier, inflationType, originalCost)
         <= GetInflatedCost(config, later, inflationType, originalCost)
  {
    InflatedCostByMode(config, earlier, inflationType, originalCost);
    InflatedCostByMode(config, later, inflationType, originalCost);
    PeriodsMonotone(config.period, earlier, later);
    RateInPeriodSpreadsAnnualRate(config, inflationType);
    assert 0.0 <= RateInPeriod(config, inflationType);
    if config.compound {
      CompoundCostGrowth(originalCost, RateInPeriod(config, inflationType),
                         GetNumberOfPeriodsSinceStart(config.period, earlier),
                         GetNumberOfPeriodsSinceStart(config.period, later));
    } else {
      LinearCostGrowth(originalCost, RateInPeriod(config, inflationType),
                       GetNumberOfPeriodsSinceStart(config.period, earlier),
                       GetNumberOfPeriodsSinceStart(config.period, later));
    }
  }

  /** n periods of simple inflation at a per-period rate that makes up the
      rate a in n periods add exactly the rate a. */
  lemma LinearCostSpreadRate(originalCost: int, rateInPeriod: real, annualRate: real, n: nat)
    requires (n as real) * rateInPeriod == annualRate
    ensures LinearCost(originalCost, rateInPeriod, n)
         == Trunc(originalCost as real + annualRate * originalCost as real)
  {
    LinearCostUnfold(originalCost, rateInPeriod, n);
    TruncLinearSpreadRate(originalCost, rateInPeriod, annualRate, n);
  }

  /** Once a year's worth of periods (by the table) has elapsed, simple
      inflation has added exactly the annual rate of the requested category. */
  lemma YearOfPeriodsLinearIsAnnualRate(config: Config, elapsedDays: Days,
                                        inflationType: InflationType, originalCost: int)
    requires !config.compound
    requires GetNumberOfPeriodsSinceStart(config.period, elapsedDays) == GetPeriodsInYear(config.period)
    ensures GetInflatedCost(config, elapsedDays, inflationType, originalCost)
         == Trunc(originalCost as real + AnnualRate(config, inflationType) * originalCost as real)
  {
    InflatedCostByMode(config, elapsedDays, inflationType, originalCost);
    RateInPeriodSpreadsAnnualRate(config, inflationType);
    LinearCostSpreadRate(originalCost, RateInPeriod(config, inflationType),
                         AnnualRate(config, inflationType), GetPeriodsInYear(config.period));
  }

  /** After exactly one 365-day year, simple inflation has added exactly the
      annual rate of the requested category, whatever the period. */
  lemma OneYearLinearIsAnnualRate(config: Config, inflationType: InflationType, originalCost: int)
    requires !config.compound
    ensures GetInflatedCost(config, 365.0, inflationType, originalCost)
         == Trunc(originalCost as real + AnnualRate(config, inflationType) * originalCost as real)
  {
    OneYearIsPeriodsInYear(config.period);
    YearOfPeriodsLinearIsAnnualRate(config, 365.0, inflationType, originalCost);
  }

  /** One period of compound inflation adds exactly the per-period rate,
      named here a second time as `sameRate` so that a caller can pass it in
      another form, such as the annual rate under the yearly period. */
  lemma CompoundOnePeriodAddsRate(originalCost: int, rateInPeriod: real, sameRate: real, n: nat)
    requires n == 1 && rateInPeriod == sameRate
    ensures CompoundCost(originalCost, rateInPeriod, n)
         == Trunc(originalCost as real + sameRate * originalCost as real)
  {
    OnePeriodModesAgree(originalCost, rateInPeriod, n);
    LinearCostSpreadRate(originalCost, rateInPeriod, sameRate, n);
  }

  /** Under the yearly period, one elapsed period of compound inflation adds
      exactly the annual rate. */
  lemma YearlyPeriodCompoundIsAnnualRate(config: Config, elapsedDays: Days,
                                         inflationType: InflationType, originalCost: int)
    requires config.period == Yearly && config.compound
    requires GetNumberOfPeriodsSinceStart(Yearly, elapsedDays) == 1
    ensures GetInflatedCost(config, elapsedDays, inflationType, originalCost)
         == Trunc(originalCost as real + AnnualRate(config, inflationType) * originalCost as real)
  {
    InflatedCostByMode(config, elapsedDays, inflationType, originalCost);
    RateInPeriodSpreadsAnnualRate(config, inflationType);
    CompoundOnePeriodAddsRate(originalCost, RateInPeriod(config, inflationType),
                              AnnualRate(config, inflationType),
                              GetNumberOfPeriodsSinceStart(config.period, elapsedDays));
  }

  /** Under the yearly period, one 365-day year of compound inflation adds
      exactly the annual rate. */
  lemma OneYearYearlyCompoundIsAnnualRate(config: Config, inflationType: InflationType,
                                          originalCost: int)
    requires config.period == Yearly && config.compound
    ensures GetInflatedCost(config, 365.0, inflationType, originalCost)
         == Trunc(originalCost as real + AnnualRate(config, inflationType) * originalCost as real)
  {
    OneYearIsPeriodsInYear(Yearly);
    YearlyPeriodCompoundIsAnnualRate(config, 365.0, inflationType, originalCost);
  }

  // ---------------------------------------------------------------------------
  // Economy hooks

  /** Host enums passed to the hooks, by their integer codes; no hook of the mod
      looks at them. */
  type EconomyResource = int
  type Service = int
  type SubService = int
  type Level = int

  /** The construction-cost hook inflates under the construction category. */
  function OnGetConstructionCost(mod: ModState, originalConstructionCost: int,
                                 service: Service, subService: SubService, level: Level): int
  {
    GetInflatedCost(mod.config, mod.elapsedDays, Construction, originalConstructionCost)
  }

  /** The maintenance-cost hook inflates under the maintenance category. */
  function OnGetMaintenanceCost(mod: ModState, originalMaintenanceCost: int,
                                service: Service, subService: SubService, level: Level): int
  {
    GetInflatedCost(mod.config, mod.elapsedDays, Maintenance, originalMaintenanceCost)
  }

  /** The construction hook inflates by the construction rate alone: it is the
      inflated cost of the construction category at the current game time, so
      every property of `GetInflatedCost` holds of it; a zero construction rate
      leaves construction costs alone, and changing the maintenance rate never
      changes a construction cost. */
  lemma ConstructionHookUsesConstructionRate(mod: ModState, cost: int, otherRate: real,
                                             service: Service, subService: SubService, level: Level)
    ensures mod.config.constructionAnnualRate == 0.0
        ==> OnGetConstructionCost(mod, cost, service, subService, level) == cost
    ensures OnGetConstructionCost(mod, cost, service, subService, level)
         == GetInflatedCost(mod.config, mod.elapsedDays, Construction, cost)
    ensures OnGetConstructionCost(mod.(config := mod.config.(maintenanceAnnualRate := otherRate)),
                                  cost, service, subService, level)
         == OnGetConstructionCost(mod, cost, service, subService, level)
  {
    if mod.config.constructionAnnualRate == 0.0 {
      ZeroRateNoInflation(mod.config, mod.elapsedDays, Construction, cost);
    }
    CategoryIsolation(mod.config, mod.elapsedDays, cost, otherRate);
  }

  /** The maintenance hook inflates by the maintenance rate alone, in the same
      terms as the construction hook. */
  lemma MaintenanceHookUsesMaintenanceRate(mod: ModState, cost: int, otherRate: real,
                                           service: Service, subService: SubService, level: Level)
    ensures mod.config.maintenanceAnnualRate == 0.0
        ==> OnGetMaintenanceCost(mod, cost, service, subService, level) == cost
    ensures OnGetMaintenanceCost(mod, cost, service, subService, level)
         == GetInflatedCost(mod.config, mod.elapsedDays, Maintenance, cost)
    ensures OnGetMaintenanceCost(mod.(config := mod.config.(constructionAnnualRate := otherRate)),
                                 cost, service, subService, level)
         == OnGetMaintenanceCost(mod, cost, service, subService, level)
  {
    if mod.config.maintenanceAnnualRate == 0.0 {
      ZeroRateNoInflation(mod.config, mod.elapsedDays, Maintenance, cost);
    }
    CategoryIsolation(mod.config, mod.elapsedDays, cost, otherRate);
  }

  /** The money-amount hook leaves the treasury amount as it is. */
  function OnUpdateMoneyAmount(mod: ModState, internalMoneyAmount: int): int
  {
    internalMoneyAmount
  }

  /** The resource hooks leave every amount as it is. */
  function OnPeekResource(mod: ModState, resource: EconomyResource, amount: int): int
  {
    amount
  }

  function OnFetchResource(mod: ModState, resource: EconomyResource, amount: int,
                           service: Service, subService: SubService, level: Level): int
  {
    amount
  }

  function OnAddResource(mod: ModState, resource: EconomyResource, amount: int,
                         service: Service, subService: SubService, level: Level): int
  {
    amount
  }

  /** Relocation and refund hooks return the host's own figure, ignoring the
      construction cost they are handed. */
  function OnGetRelocationCost(mod: ModState, constructionCost: int, relocationCost: int,
                               service: Service, subService: SubService, level: Level): int
  {
    relocationCost
  }

  function OnGetRefundAmount(mod: ModState, constructionCost: int, refundAmount: int,
                             service: Service, subService: SubService, level: Level): int
  {
    refundAmount
  }

  /** Inflation touches nothing but construction and maintenance costs: every
      other hook returns its amount unchanged, whatever the settings, the game
      time or the construction cost handed alongside. */
  lemma OtherHooksPassThrough(mod: ModState, resource: EconomyResource, amount: int,
                              constructionCost: int,
                              service: Service, subService: SubService, level: Level)
    ensures OnUpdateMoneyAmount(mod, amount) == amount
    ensures OnPeekResource(mod, resource, amount) == amount
    ensures OnFetchResource(mod, resource, amount, service, subService, level) == amount
    ensures OnAddResource(mod, resource, amount, service, subService, level) == amount
    ensures OnGetRelocationCost(mod, constructionCost, amount, service, subService, level) == amount
    ensures OnGetRefundAmount(mod, constructionCost, amount, service, subService, level) == amount
  {
  }
}
