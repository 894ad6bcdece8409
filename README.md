# Inflation mod: a verified model of the cost calculator

The Inflation mod for Cities: Skylines raises construction and maintenance
costs as game time passes. It counts how many whole inflation periods
(daily, weekly, thirty-day monthly or 365-day yearly) have passed since the
game's starting date. It spreads a configurable annual rate per cost category
over one year's worth of those periods. Then it inflates each cost the game
asks about:

- Simple inflation is `periods * rate * cost + cost`.
- Compound inflation is `cost * (1 + rate) ^ periods`.
- Either result is truncated toward zero to an `int`.

All other economy hooks of the mod hand their amount back unchanged.

The model has two modules:

- `Numerics` (`numerics.dfy`) holds `Pow`, which stands for `Mathf.Pow` raised
  to a whole exponent, and `Trunc`, which is C#'s `(int)` conversion from a
  floating-point value. It also holds the order and algebra facts the cost
  proofs use, including Bernoulli's inequality.
- `InflationMod` (`inflation_mod.dfy`) covers:
  - the period enum, including integer codes outside the enum;
  - the two lookup tables;
  - the count of elapsed periods;
  - the per-period rate and the two cost formulas;
  - `GetInflatedCost`;
  - the economy hooks.

The mod object reads its settings from its own properties and the game clock
through the simulation manager. Here both come in as a `ModState` value: a
`Config` of the four settings, plus the elapsed game time in days. Every
operation of the core is pure and becomes a function.

## Model

| member | source | states |
|---|---|---|
| Numerics.Pow | Inflation/InflationMod.cs:56 | a power of a non-negative base is non-negative, and a power of a base of at least one is at least one |
| Numerics.PowMonotone | Inflation/InflationMod.cs:56 | for a base of at least one, a larger exponent never gives a smaller power |
| Numerics.Bernoulli | Inflation/InflationMod.cs:54-57 | (1 + r)^n is at least 1 + n*r for every r of at least -1, which links the two inflation modes |
| Numerics.BernoulliStrict | Inflation/InflationMod.cs:54-57 | from two factors on, (1 + r)^n is strictly above 1 + n*r for every nonzero r of at least -1 |
| Numerics.Trunc | Inflation/InflationMod.cs:54-57 | the `(int)` casts of the two formulas; its meaning is stated by `TruncBounds`, `TruncOfNegation`, `TruncNegativeExactly` and `TruncMonotone` |
| Numerics.TruncBounds | Inflation/InflationMod.cs:54-57 | the `(int)` conversion lands within one of its argument, at or below it for non-negative values and at or above it for negative ones (toward zero) |
| Numerics.TruncOfNonNegative | Inflation/InflationMod.cs:54-57 | on non-negative values the conversion is the floor and is non-negative |
| Numerics.TruncOfNegation | Inflation/InflationMod.cs:54-57 | the conversion commutes with negation: a value equal to -x converts to minus the conversion of x |
| Numerics.TruncNegativeExactly | Inflation/InflationMod.cs:54-57 | the conversion is negative if and only if its argument is at most -1; values in (-1, 0) become zero |
| Numerics.TruncMonotone | Inflation/InflationMod.cs:54-57 | the conversion preserves order |
| InflationMod.Ordinal | Inflation/InflationMod.cs:31-36 | the enum's implicit integer codes 0..3 in declaration order; stated by `OrdinalRoundTrip` |
| InflationMod.FromOrdinal | Inflation/InflationMod.cs:13-14 | a code cast to the period enum is a named member exactly when it lies in 0..3 |
| InflationMod.OrdinalRoundTrip | Inflation/InflationMod.cs:31-36 | casting a code to the enum and back gives the code, and every period value is the cast of its own code |
| InflationMod.GetPeriodDivider | Inflation/InflationMod.cs:67-80 | a period lasts between 1 and 365 days |
| InflationMod.GetPeriodsInYear | Inflation/InflationMod.cs:82-95 | a year holds between 1 and 365 periods |
| InflationMod.YearSpan | Inflation/InflationMod.cs:67-95 | days per period times periods per year lies in 360..365; it is 365 exactly for daily and yearly, and 360 exactly for monthly |
| InflationMod.UndefinedPeriodIsWeekly | Inflation/InflationMod.cs:67-95 | a code outside the enum falls back to the weekly divider and weekly periods per year |
| InflationMod.LongerPeriodFewerPerYear | Inflation/InflationMod.cs:67-95 | among named periods, a later member is strictly longer and fits strictly fewer times into a year |
| InflationMod.GetNumberOfPeriodsSinceStart | Inflation/InflationMod.cs:60-65 | the floor of elapsed days over the period divider; stated by `PeriodsBracketElapsed`, `PeriodsInBucket`, `NoPeriodBeforeFirstDivider`, `PeriodsMonotone` and `OneYearIsPeriodsInYear` |
| InflationMod.PeriodsBracketElapsed | Inflation/InflationMod.cs:60-65 | the period count n is the floor of days over divider: n periods' worth of days have elapsed and n + 1 have not |
| InflationMod.PeriodsInBucket | Inflation/InflationMod.cs:60-65 | every elapsed time in [k*divider, (k+1)*divider) counts exactly k periods |
| InflationMod.NoPeriodBeforeFirstDivider | Inflation/InflationMod.cs:60-65 | the count is zero if and only if less than one period length has elapsed |
| InflationMod.PeriodsMonotone | Inflation/InflationMod.cs:60-65 | more elapsed time never gives fewer periods |
| InflationMod.OneYearIsPeriodsInYear | Inflation/InflationMod.cs:60-95 | after 365 days the count equals the table's periods per year, for every period |
| InflationMod.RateInPeriod | Inflation/InflationMod.cs:48-52 | the requested category's annual rate over the periods in a year; stated by `RateInPeriodSpreadsAnnualRate` against the separately written `AnnualRate` |
| InflationMod.RateInPeriodSpreadsAnnualRate | Inflation/InflationMod.cs:48-52 | the per-period rate is the requested category's annual rate divided by the periods per year, so a year's worth of periods makes up the annual rate, and under the yearly period the two rates are equal |
| InflationMod.CompoundedInflation | Inflation/InflationMod.cs:56 | the factor `Mathf.Pow(1 + rate, periods)`; stated by `CompoundedInflationFacts`, `CompoundedInflationAtLeastLinear` and `CompoundedInflationAboveLinear` |
| InflationMod.CompoundedInflationFacts | Inflation/InflationMod.cs:56 | the compounding factor is 1 at zero periods and at zero rate, 1 + rate after one period, and each further period multiplies it by 1 + rate; for a non-negative rate it is at least 1 and never decreases |
| InflationMod.CompoundedInflationAtLeastLinear | Inflation/InflationMod.cs:54-56 | for a rate of at least -100%, the compounding factor is at least 1 + periods*rate |
| InflationMod.CompoundedInflationAboveLinear | Inflation/InflationMod.cs:54-56 | from two periods on, for a nonzero rate of at least -100%, the compounding factor is strictly above 1 + periods*rate |
| InflationMod.LinearCost | Inflation/InflationMod.cs:54 | simple inflation `(int)(periods * rate * cost + cost)`; stated by `FormulasWithoutPeriods`, `FormulasWithoutRate`, `LinearCostGrowth`, `LinearCostOdd`, `LinearCostSpreadRate` and `CostNegativeExactly` |
| InflationMod.CompoundCost | Inflation/InflationMod.cs:56-57 | compound inflation `(int)(cost * (1 + rate)^periods)`; stated by `FormulasWithoutPeriods`, `FormulasWithoutRate`, `CompoundCostGrowth`, `CompoundAtLeastLinear`, `CompoundCostOdd`, `CompoundOnePeriodAddsRate` and `CostNegativeExactly` |
| InflationMod.GetInflatedCost | Inflation/InflationMod.cs:46-58 | the inflated cost of one request; stated by `InflatedCostByMode` and the `GetInflatedCost` lemmas below |
| InflationMod.InflatedCostByMode | Inflation/InflationMod.cs:46-57 | simple mode gives `LinearCost` and compound mode gives `CompoundCost`, each of the elapsed period count and the category's per-period rate |
| InflationMod.CategoryIsolation | Inflation/InflationMod.cs:50-52 | a construction cost never depends on the maintenance rate, and a maintenance cost never depends on the construction rate |
| InflationMod.SamePeriodsSameCost | Inflation/InflationMod.cs:46-65 | two elapsed times with the same period count give the same cost |
| InflationMod.FormulasWithoutPeriods | Inflation/InflationMod.cs:54-57 | with zero periods both formulas return the original cost |
| InflationMod.FormulasWithoutRate | Inflation/InflationMod.cs:54-57 | with a zero rate both formulas return the original cost for any number of periods |
| InflationMod.NoInflationInFirstPeriod | Inflation/InflationMod.cs:46-65 | before one full period has elapsed, the inflated cost is the original cost in both modes |
| InflationMod.ZeroRateNoInflation | Inflation/InflationMod.cs:46-57 | a zero annual rate for the requested category leaves the cost unchanged at any time, in both modes |
| InflationMod.LinearCostGrowth | Inflation/InflationMod.cs:54 | for a non-negative cost and rate, simple inflation is at least the original cost and never decreases with more periods |
| InflationMod.CompoundCostGrowth | Inflation/InflationMod.cs:56-57 | for a non-negative cost and rate, compound inflation is at least the original cost and never decreases with more periods |
| InflationMod.CompoundAtLeastLinear | Inflation/InflationMod.cs:54-57 | for a non-negative cost and a rate of at least -100%, compounding never charges less than simple inflation over the same periods |
| InflationMod.OnePeriodModesAgree | Inflation/InflationMod.cs:54-57 | over a single period the two modes give the same cost |
| InflationMod.LinearCostOdd | Inflation/InflationMod.cs:54 | simple inflation of a negated cost is the negated result |
| InflationMod.CompoundCostOdd | Inflation/InflationMod.cs:56-57 | compound inflation of a negated cost is the negated result |
| InflationMod.CostNegativeExactly | Inflation/InflationMod.cs:54-57 | each formula gives a negative cost if and only if its real value before the cast, `n*r*cost + cost` or `cost * (1 + r)^n`, is at most -1, for every sign of cost and rate |
| InflationMod.InflationOddInCost | Inflation/InflationMod.cs:46-57 | the inflated cost of a negated cost is the negated inflated cost, in both modes (truncation is toward zero) |
| InflationMod.InflatedCostGrowsWithTime | Inflation/InflationMod.cs:46-65 | for a non-negative cost and annual rate, the inflated cost is at least the original and never decreases as game time advances |
| InflationMod.LinearCostSpreadRate | Inflation/InflationMod.cs:50-54 | n periods of simple inflation at a per-period rate whose n-fold is a add exactly the rate a to the cost |
| InflationMod.YearOfPeriodsLinearIsAnnualRate | Inflation/InflationMod.cs:46-54 | in simple mode, once a year's worth of periods has elapsed, the cost has grown by exactly the category's annual rate |
| InflationMod.OneYearLinearIsAnnualRate | Inflation/InflationMod.cs:46-95 | in simple mode, after 365 days the cost has grown by exactly the annual rate, whatever the period |
| InflationMod.CompoundOnePeriodAddsRate | Inflation/InflationMod.cs:56-57 | one period of compound inflation adds exactly the per-period rate to the cost |
| InflationMod.YearlyPeriodCompoundIsAnnualRate | Inflation/InflationMod.cs:46-57 | in compound mode with the yearly period, one elapsed period grows the cost by exactly the annual rate |
| InflationMod.OneYearYearlyCompoundIsAnnualRate | Inflation/InflationMod.cs:46-95 | in compound mode with the yearly period, after 365 days the cost has grown by exactly the annual rate |
| InflationMod.OnGetConstructionCost | Inflation/InflationMod.cs:122-125 | the construction-cost hook; stated by `ConstructionHookUsesConstructionRate` |
| InflationMod.OnGetMaintenanceCost | Inflation/InflationMod.cs:127-130 | the maintenance-cost hook; stated by `MaintenanceHookUsesMaintenanceRate` |
| InflationMod.ConstructionHookUsesConstructionRate | Inflation/InflationMod.cs:122-125 | the construction hook returns the inflated cost of the construction category at the current game time, so every `GetInflatedCost` property above holds of it; it returns the cost unchanged when the construction rate is zero, and ignores the maintenance rate |
| InflationMod.MaintenanceHookUsesMaintenanceRate | Inflation/InflationMod.cs:127-130 | the maintenance hook returns the inflated cost of the maintenance category at the current game time, so every `GetInflatedCost` property above holds of it; it returns the cost unchanged when the maintenance rate is zero, and ignores the construction rate |
| InflationMod.OnUpdateMoneyAmount | Inflation/InflationMod.cs:104-106 | the money hook; stated by `OtherHooksPassThrough` |
| InflationMod.OnPeekResource | Inflation/InflationMod.cs:108-110 | the peek hook; stated by `OtherHooksPassThrough` |
| InflationMod.OnFetchResource | Inflation/InflationMod.cs:112-115 | the fetch hook; stated by `OtherHooksPassThrough` |
| InflationMod.OnAddResource | Inflation/InflationMod.cs:117-120 | the add hook; stated by `OtherHooksPassThrough` |
| InflationMod.OnGetRelocationCost | Inflation/InflationMod.cs:132-135 | the relocation hook; stated by `OtherHooksPassThrough` |
| InflationMod.OnGetRefundAmount | Inflation/InflationMod.cs:137-140 | the refund hook; stated by `OtherHooksPassThrough` |
| InflationMod.OtherHooksPassThrough | Inflation/InflationMod.cs:104-140 | the money, peek, fetch, add, relocation and refund hooks return their amount unchanged, whatever the settings and the game time |

The rows for functions without a contract of their own name the lemmas that
state their meaning. `LinearCostUnfold` and `CompoundCostUnfold` restate the
two formulas as equations. They and the arithmetic helpers in `Numerics`
(`CancelFactor`, `ScaleMonotone` and the `Trunc...` lemmas shaped like the
formulas) are proof steps, not properties of the mod. `AnnualRate` is the
reference that `RateInPeriodSpreadsAnnualRate` checks `RateInPeriod` against.

## Left out

- The settings panel (`OnSettingsUI`) is not modelled. It only builds UI
  controls and parses text with `float.TryParse`, falling back to 0.05 or
  0.01. The settings arrive as a `Config`, and `DefaultConfig` holds the
  initial property values.
- The `OnCreated` / `OnReleased` lifecycle and the `SimulationManager`
  singleton are not modelled. The elapsed game time is a parameter instead.
- The `DateTime` subtraction and `TotalDays` become a day count of type `Days`,
  which is a non-negative real. A current time before the starting date, which
  would give a negative period count, is not modelled.
- Arithmetic is over exact reals, not single-precision floats, so "exactly
  the annual rate" holds for reals, not necessarily for floats. The rounding
  left out includes:
  - the rate division, the products and `Mathf.Pow`;
  - the period count, which casts `TotalDays` to `float` and divides in
    `float` before `Mathf.Floor`. Just below a bucket boundary, the quotient can
    round up to a whole number, so the code may count one period more than
    `GetNumberOfPeriodsSinceStart`;
  - the conversion of the `int` cost to `float` in both formulas, which loses
    precision for costs above 2^24.
- Numerics.Trunc: the conversion of an out-of-range float to `int` is
  unspecified in C#. The model returns the unbounded mathematical truncation,
  and the `int` and `long` results are unbounded integers, with no 32- or
  64-bit wrap-around.
- The host enums `EconomyResource`, `Service`, `SubService` and `Level` are
  integer codes. No hook of the mod reads them.
- `InflationType` values outside its two named members are not modelled. The
  mod only ever passes the two named members.
- The metadata members `Name`, `Description` and `OverrideDefaultPeekResource`
  are not modelled. They have no behaviour to verify.
- InflationMod.InflatedCostGrowsWithTime: growth is stated only for a
  non-negative cost and annual rate. A negative cost mirrors the positive case
  (see `InflationOddInCost`). A negative rate need not shrink a cost. In
  compound mode, a per-period rate of -3 over two periods multiplies the cost
  by 4.
- Nothing in the code keeps an inflated cost non-negative, and the model
  follows the code. Because the cast truncates toward zero, a result is
  negative exactly when the real value before the cast is at most -1 (see
  `CostNegativeExactly`). That value is `cost * (1 + n*r)` in simple mode and
  `cost * (1 + r)^n` in compound mode. A negative cost with a large negative
  rate can therefore come out positive, and a small negative value comes out
  as zero.
