/**
 * `simulate_sip` of `strategy.py`: the periodic simulator, a left fold over
 * the weekly rows that accumulates capital, units, a cashflow list and
 * multiplier-bucket counts, followed by the final valuation.
 */
module Sip {
  import opened Wrappers
  import opened Series
  import opened TierModel

  datatype SipError =
    | EmptySeries      // `data.iloc[-1]` on an empty frame
    | MissingArgument  // a one-argument call of the two-argument combined lookup

  /** The multiplier for one row exactly as the source dispatches it. A
      strategy without tiers is asked `get_multiplier(pe)`, which the combined
      strategy cannot answer: it takes two signals, so the call raises. */
  function RowMultiplierAsWritten(s: Strategy, row: Row, hasPb: bool): Result<real, SipError> {
    match s
    case PEStrategy(_, tiers) => Success(TierMultiplier(tiers, row.pe))
    case PBStrategy(_, tiers) =>
      if |tiers| == 0 then Success(TierMultiplier(tiers, row.pe))
      else if hasPb then Success(TierMultiplier(tiers, row.pb))
      else Success(1.0)
    case CombinedStrategy(_, tiers) =>
      if |tiers| == 0 then Failure(MissingArgument)
      else if hasPb then Success(CombinedMultiplier(tiers, row.pe, row.pb))
      else Success(1.0)
  }

  /** The dispatch the rest of the model uses: as written, except that a
      combined strategy without tiers yields the 1.0 baseline. `hasPb` says
      whether the frame has a `pb` column at all; a row's `pb` of `None` with
      the column present is a NaN cell, which still reaches the lookup. */
  function RowMultiplier(s: Strategy, row: Row, hasPb: bool): real {
    match s
    case PEStrategy(_, tiers) => TierMultiplier(tiers, row.pe)
    case PBStrategy(_, tiers) =>
      if |tiers| == 0 then 1.0
      else if hasPb then TierMultiplier(tiers, row.pb)
      else 1.0
    case CombinedStrategy(_, tiers) =>
      if |tiers| == 0 then 1.0
      else if hasPb then CombinedMultiplier(tiers, row.pe, row.pb)
      else 1.0
  }

  /** The source raises for a combined strategy without tiers, whatever the row. */
  lemma EmptyCombinedStrategyRaises(name: string, row: Row, hasPb: bool)
    ensures RowMultiplierAsWritten(CombinedStrategy(name, []), row, hasPb) == Failure(MissingArgument)
  {
  }

  /** The corrected dispatch agrees with the source wherever the source
      answers, and gives every strategy without tiers the 1.0 baseline. */
  lemma RowMultiplierCorrectsOnlyTheRaise(s: Strategy, row: Row, hasPb: bool)
    ensures RowMultiplierAsWritten(s, row, hasPb).Success? ==>
              RowMultiplierAsWritten(s, row, hasPb).value == RowMultiplier(s, row, hasPb)
    ensures RowMultiplierAsWritten(s, row, hasPb).Failure? <==> s.CombinedStrategy? && |s.combinedTiers| == 0
    ensures (if s.CombinedStrategy? then |s.combinedTiers| == 0 else |s.tiers| == 0) ==>
              RowMultiplier(s, row, hasPb) == 1.0
  {
    if s.PEStrategy? && |s.tiers| == 0 {
      TierMultiplierIsLeastQualifying(s.tiers, row.pe);
    }
    if s.PBStrategy? && |s.tiers| == 0 {
      TierMultiplierIsLeastQualifying(s.tiers, row.pe);
    }
  }

  /** Without a `pb` column, PB and combined strategies fall back to 1.0 on every row. */
  lemma NoPbColumnGivesBaseline(s: Strategy, row: Row)
    requires !s.PEStrategy?
    ensures RowMultiplier(s, row, false) == 1.0
  {
  }

  ghost predicate NonNegativeMultipliers(s: Strategy) {
    match s
    case PEStrategy(_, tiers) => forall t :: t in tiers ==> t.multiplier >= 0.0
    case PBStrategy(_, tiers) => forall t :: t in tiers ==> t.multiplier >= 0.0
    case CombinedStrategy(_, tiers) => forall t :: t in tiers ==> t.multiplier >= 0.0
  }

  /** With non-negative tier multipliers every row's multiplier is non-negative. */
  lemma RowMultiplierNonNegative(s: Strategy, row: Row, hasPb: bool)
    requires NonNegativeMultipliers(s)
    ensures RowMultiplier(s, row, hasPb) >= 0.0
  {
    match s
    case PEStrategy(_, tiers) =>
      TierMultiplierIsLeastQualifying(tiers, row.pe);
    case PBStrategy(_, tiers) =>
      TierMultiplierIsLeastQualifying(tiers, row.pb);
    case CombinedStrategy(_, tiers) =>
      CombinedMultiplierIsLeastMatching(tiers, row.pe, row.pb);
  }

  // Multiplier buckets

  /** Python's `int()` on a float: truncation toward zero. */
  function Trunc(x: real): int {
    if x >= 0.0 then x.Floor else -((-x).Floor)
  }

  /** `min(int(multiplier), 4)`. */
  function BucketKey(m: real): int {
    if Trunc(m) < 4 then Trunc(m) else 4
  }

  /** The reported buckets 1 to 4 receive exactly the multipliers of at least 1. */
  lemma BucketKeyReported(m: real)
    ensures 1 <= BucketKey(m) <= 4 <==> m >= 1.0
    ensures m >= 4.0 ==> BucketKey(m) == 4
  {
    if m >= 0.0 {
      assert m.Floor as real <= m < m.Floor as real + 1.0;
    } else {
      assert (-m).Floor as real <= -m;
    }
  }

  // The fold

  ghost predicate ValidPrices(rows: seq<Row>) {
    forall i :: 0 <= i < |rows| ==> rows[i].price.Some? && rows[i].price.value > 0.0
  }

  /** The loop's running totals. */
  datatype SipState = SipState(invested: real, units: real, cashflows: seq<Cashflow>, buckets: map<int, nat>)

  function Bump(buckets: map<int, nat>, key: int): map<int, nat> {
    buckets[key := (if key in buckets then buckets[key] else 0) + 1]
  }

  /** `base_amount * multiplier`. */
  function Investment(m: real, base: real): real {
    base * m
  }

  /** Units that `base * m` buys at the row's price (`investment / price`). */
  function Purchase(row: Row, m: real, base: real): real
    requires row.price.Some? && row.price.value > 0.0
  {
    base * m / row.price.value
  }

  /** One pass of the loop body: invest `base * m` at the row's price. */
  function SipStep(st: SipState, row: Row, m: real, base: real): SipState
    requires row.price.Some? && row.price.value > 0.0
  {
    var investment := Investment(m, base);
    SipState(
      st.invested + investment, st.units + Purchase(row, m, base),
      st.cashflows + [Cashflow(row.date, -investment)],
      Bump(st.buckets, BucketKey(m)))
  }

  function InitialBuckets(): map<int, nat> {
    map[1 := 0, 2 := 0, 3 := 0, 4 := 0]
  }

  /** The state once the first `n` rows have been processed, in order, with
      `ms[i]` the multiplier of row `i`. */
  function SipAfter(rows: seq<Row>, ms: seq<real>, base: real, n: nat): SipState
    requires ValidPrices(rows) && |ms| == |rows| && n <= |rows|
  {
    if n == 0 then SipState(0.0, 0.0, [], InitialBuckets())
    else SipStep(SipAfter(rows, ms, base, n - 1), rows[n - 1], ms[n - 1], base)
  }

  function Multipliers(rows: seq<Row>, s: Strategy, hasPb: bool): (ms: seq<real>)
    ensures |ms| == |rows|
  {
    seq(|rows|, i requires 0 <= i < |rows| => RowMultiplier(s, rows[i], hasPb))
  }

  /** Units bought on each row. */
  function UnitPurchases(rows: seq<Row>, ms: seq<real>, base: real): (u: seq<real>)
    requires ValidPrices(rows) && |ms| == |rows|
    ensures |u| == |rows|
  {
    seq(|rows|, i requires 0 <= i < |rows| && ValidPrices(rows) && |ms| == |rows| =>
                  Purchase(rows[i], ms[i], base))
  }

  lemma SumStep(s: seq<real>, n: nat)
    requires 0 < n <= |s|
    ensures Sum(s[..n]) == Sum(s[..n - 1]) + s[n - 1]
  {
    assert s[..n][..n - 1] == s[..n - 1];
  }

  lemma FullSlice<T>(s: seq<T>)
    ensures s[..|s|] == s
  {
  }

  lemma Distribute(a: real, b: real, c: real)
    ensures a * (b + c) == a * b + a * c
  {
  }

  /** The amount invested on each row. */
  function Investments(ms: seq<real>, base: real): (inv: seq<real>)
    ensures |inv| == |ms|
  {
    seq(|ms|, i requires 0 <= i < |ms| => Investment(ms[i], base))
  }

  /** Summing the investments is scaling the summed multipliers. */
  lemma {:induction false} SumInvestments(ms: seq<real>, base: real, n: nat)
    requires n <= |ms|
    ensures Sum(Investments(ms, base)[..n]) == base * Sum(ms[..n])
  {
    if n > 0 {
      SumInvestments(ms, base, n - 1);
      SumStep(Investments(ms, base), n);
      SumStep(ms, n);
      Distribute(base, Sum(ms[..n - 1]), ms[n - 1]);
    }
  }

  /** Capital after `n` rows is the sum of their investments. */
  lemma {:induction false} SipAfterInvested(rows: seq<Row>, ms: seq<real>, base: real, n: nat)
    requires ValidPrices(rows) && |ms| == |rows| && n <= |rows|
    ensures SipAfter(rows, ms, base, n).invested == Sum(Investments(ms, base)[..n])
  {
    if n > 0 {
      SipAfterInvested(rows, ms, base, n - 1);
      SumStep(Investments(ms, base), n);
    }
  }

  /** Units after `n` rows are the sum of those rows' purchases. */
  lemma {:induction false} SipAfterUnits(rows: seq<Row>, ms: seq<real>, base: real, n: nat)
    requires ValidPrices(rows) && |ms| == |rows| && n <= |rows|
    ensures SipAfter(rows, ms, base, n).units == Sum(UnitPurchases(rows, ms, base)[..n])
  {
    if n > 0 {
      SipAfterUnits(rows, ms, base, n - 1);
      SumStep(UnitPurchases(rows, ms, base), n);
    }
  }

  /** After `n` rows the cashflow list holds exactly one outflow of each
      row's investment, in row order. */
  lemma {:induction false} SipAfterCashflows(rows: seq<Row>, ms: seq<real>, base: real, n: nat)
    requires ValidPrices(rows) && |ms| == |rows| && n <= |rows|
    ensures |SipAfter(rows, ms, base, n).cashflows| == n
    ensures forall i :: 0 <= i < n ==>
              SipAfter(rows, ms, base, n).cashflows[i] == Cashflow(rows[i].date, -(base * ms[i]))
  {
    if n > 0 {
      SipAfterCashflows(rows, ms, base, n - 1);
    }
  }

  /** Capital and units never decrease from one row to the next when the
      row's multiplier and the base amount are non-negative. */
  lemma SipAfterMonotone(rows: seq<Row>, ms: seq<real>, base: real, k: nat)
    requires ValidPrices(rows) && |ms| == |rows|
    requires base >= 0.0 && k < |rows| && ms[k] >= 0.0
    ensures SipAfter(rows, ms, base, k).invested <= SipAfter(rows, ms, base, k + 1).invested
    ensures SipAfter(rows, ms, base, k).units <= SipAfter(rows, ms, base, k + 1).units
  {
    var inv := base * ms[k];
    assert inv >= 0.0;
    assert inv / rows[k].price.value >= 0.0;
  }

  /** The same for a strategy whose tier multipliers are non-negative. */
  lemma SipRunMonotone(rows: seq<Row>, s: Strategy, base: real, hasPb: bool, k: nat)
    requires ValidPrices(rows)
    requires base >= 0.0 && NonNegativeMultipliers(s) && k < |rows|
    ensures SipAfter(rows, Multipliers(rows, s, hasPb), base, k).invested
              <= SipAfter(rows, Multipliers(rows, s, hasPb), base, k + 1).invested
    ensures SipAfter(rows, Multipliers(rows, s, hasPb), base, k).units
              <= SipAfter(rows, Multipliers(rows, s, hasPb), base, k + 1).units
  {
    RowMultiplierNonNegative(s, rows[k], hasPb);
    SipAfterMonotone(rows, Multipliers(rows, s, hasPb), base, k);
  }

  /** Number of multipliers that fall in bucket `key`. */
  function CountKey(ms: seq<real>, key: int): nat {
    if |ms| == 0 then 0
    else CountKey(ms[..|ms| - 1], key) + (if BucketKey(ms[|ms| - 1]) == key then 1 else 0)
  }

  /** Number of multipliers of at least 1. */
  function CountAtLeastOne(ms: seq<real>): nat {
    if |ms| == 0 then 0
    else CountAtLeastOne(ms[..|ms| - 1]) + (if ms[|ms| - 1] >= 1.0 then 1 else 0)
  }

  /** `multiplier_counts.get(k, 0)`. */
  function BucketCount(buckets: map<int, nat>, k: int): nat {
    if k in buckets then buckets[k] else 0
  }

  /** Every bucket counts the rows whose multiplier falls into it; the four
      reported buckets are always present. */
  lemma {:induction false} SipAfterBuckets(rows: seq<Row>, ms: seq<real>, base: real, n: nat)
    requires ValidPrices(rows) && |ms| == |rows| && n <= |rows|
    ensures forall k :: 1 <= k <= 4 ==> k in SipAfter(rows, ms, base, n).buckets
    ensures forall k :: BucketCount(SipAfter(rows, ms, base, n).buckets, k) == CountKey(ms[..n], k)
  {
    if n > 0 {
      SipAfterBuckets(rows, ms, base, n - 1);
      assert ms[..n][..n - 1] == ms[..n - 1];
    }
  }

  /** The four reported buckets add up to the rows with multiplier at least 1;
      rows with a multiplier under 1 land in bucket 0 or below and are never reported. */
  lemma {:induction false} ReportedBucketsCountAtLeastOne(ms: seq<real>)
    ensures CountKey(ms, 1) + CountKey(ms, 2) + CountKey(ms, 3) + CountKey(ms, 4) == CountAtLeastOne(ms)
  {
    if |ms| > 0 {
      ReportedBucketsCountAtLeastOne(ms[..|ms| - 1]);
      BucketKeyReported(ms[|ms| - 1]);
    }
  }

  /** A constant price breaks even: every purchase buys `investment / p`
      units, so the units are worth exactly what was invested. */
  lemma {:induction false} ConstantPriceBreaksEven(rows: seq<Row>, ms: seq<real>, base: real, p: real, n: nat)
    requires ValidPrices(rows) && |ms| == |rows| && n <= |rows| && p > 0.0
    requires forall i :: 0 <= i < |rows| ==> rows[i].price == Some(p)
    ensures SipAfter(rows, ms, base, n).units * p == SipAfter(rows, ms, base, n).invested
  {
    if n > 0 {
      ConstantPriceBreaksEven(rows, ms, base, p, n - 1);
      var prev := SipAfter(rows, ms, base, n - 1);
      var inv := base * ms[n - 1];
      assert rows[n - 1].price.value == p;
      assert (inv / p) * p == inv;
      assert (prev.units + inv / p) * p == prev.units * p + (inv / p) * p;
    }
  }

  // The weekly ledger

  datatype SipWeek = SipWeek(
    date: int, price: real, pe: Option<real>, multiplier: real, investment: real,
    unitsBought: real, cumulativeUnits: real, cumulativeInvested: real, portfolioValue: real)

  /** Ledger entry `i`: row `i`, its multiplier and purchase, and the
      running totals once row `i` has been processed. */
  function SipWeekAt(rows: seq<Row>, ms: seq<real>, base: real, i: nat): SipWeek
    requires ValidPrices(rows) && |ms| == |rows| && i < |rows|
  {
    var after := SipAfter(rows, ms, base, i + 1);
    var price := rows[i].price.value;
    SipWeek(rows[i].date, price, rows[i].pe, ms[i], base * ms[i], Purchase(rows[i], ms[i], base),
            after.units, after.invested, after.units * price)
  }

  /** The weekly ledger of the first `n` rows, one entry per row. */
  function SipLedger(rows: seq<Row>, ms: seq<real>, base: real, n: nat): (weeks: seq<SipWeek>)
    requires ValidPrices(rows) && |ms| == |rows| && n <= |rows|
    ensures |weeks| == n
  {
    if n == 0 then [] else SipLedger(rows, ms, base, n - 1) + [SipWeekAt(rows, ms, base, n - 1)]
  }

  /** Entry `i` of the ledger is the record of row `i`. */
  lemma {:induction false} SipLedgerEntries(rows: seq<Row>, ms: seq<real>, base: real, n: nat, i: nat)
    requires ValidPrices(rows) && |ms| == |rows| && i < n <= |rows|
    ensures SipLedger(rows, ms, base, n)[i] == SipWeekAt(rows, ms, base, i)
  {
    if i < n - 1 {
      SipLedgerEntries(rows, ms, base, n - 1, i);
    }
  }

  // The final valuation

  datatype SipResult = SipResult(
    strategyName: string,
    totalInvested: real,
    currentValue: real,
    unitsHeld: real,
    xirr: real,
    weeksAt1x: nat,
    weeksAt2x: nat,
    weeksAt3x: nat,
    weeksAt4xPlus: nat)
  {
    function AbsoluteReturn(): real { currentValue - totalInvested }
    function AbsoluteReturnPct(): real { ReturnPct(AbsoluteReturn(), totalInvested) }
    function AvgBuyPrice(): real { AvgPrice(totalInvested, unitsHeld) }
  }

  /** The cashflows handed to the rate solver: one outflow per row, then the
      final value as an inflow on the last row's date. */
  function SipCashflows(rows: seq<Row>, ms: seq<real>, base: real): seq<Cashflow>
    requires ValidPrices(rows) && |ms| == |rows| && |rows| > 0
  {
    var st := SipAfter(rows, ms, base, |rows|);
    st.cashflows + [Cashflow(rows[|rows| - 1].date, st.units * rows[|rows| - 1].price.value)]
  }

  /** The simulation once every row's multiplier is known: the fold over the
      rows, then the valuation at the last row's price. An empty series has
      no last row, which the source reports by raising. `xirrOf` is the rate
      computation, `calculate_xirr`, applied to the cashflows. */
  function SimulateWith(rows: seq<Row>, ms: seq<real>, name: string, base: real,
                        xirrOf: seq<Cashflow> -> real): Result<SipResult, SipError>
    requires ValidPrices(rows) && |ms| == |rows|
  {
    if |rows| == 0 then Failure(EmptySeries)
    else
      var st := SipAfter(rows, ms, base, |rows|);
      Success(SipResult(
        name, st.invested, st.units * rows[|rows| - 1].price.value, st.units,
        xirrOf(SipCashflows(rows, ms, base)) * 100.0,
        BucketCount(st.buckets, 1), BucketCount(st.buckets, 2),
        BucketCount(st.buckets, 3), BucketCount(st.buckets, 4)))
  }

  /** `simulate_sip`: each row's multiplier from the strategy, then the
      simulation. The multipliers come from the corrected dispatch, so a
      combined strategy without tiers invests at 1.0 instead of raising.
      The weekly frame that the source attaches to the result is
      `SipLedger(rows, Multipliers(rows, s, hasPb), base, |rows|)`. */
  function SimulateSip(rows: seq<Row>, s: Strategy, base: real, hasPb: bool,
                       rateOf: seq<Cashflow> -> real): Result<SipResult, SipError>
    requires ValidPrices(rows)
  {
    SimulateWith(rows, Multipliers(rows, s, hasPb), s.name, base, cfs => Xirr(cfs, rateOf))
  }

  /** With the corrected dispatch, the simulation fails exactly on an empty
      series. */
  lemma SimulateSipFailsOnlyWhenEmpty(rows: seq<Row>, s: Strategy, base: real, hasPb: bool,
                                      rateOf: seq<Cashflow> -> real)
    requires ValidPrices(rows)
    ensures SimulateSip(rows, s, base, hasPb, rateOf).Failure? <==> |rows| == 0
    ensures SimulateSip(rows, s, base, hasPb, rateOf).Failure? ==>
              SimulateSip(rows, s, base, hasPb, rateOf).error == EmptySeries
  {
  }

  /** The reported capital is base times the summed multipliers. */
  lemma SimulateCapital(rows: seq<Row>, ms: seq<real>, name: string, base: real,
                        xirrOf: seq<Cashflow> -> real)
    requires ValidPrices(rows) && |ms| == |rows| && |rows| > 0
    ensures var r := SimulateWith(rows, ms, name, base, xirrOf).value;
            && r.strategyName == name
            && r.totalInvested == base * Sum(ms)
  {
    SipAfterInvested(rows, ms, base, |rows|);
    SumInvestments(ms, base, |rows|);
    FullSlice(ms);
  }

  /** The units held are the summed purchases, valued at the last price. */
  lemma SimulateUnits(rows: seq<Row>, ms: seq<real>, name: string, base: real,
                      xirrOf: seq<Cashflow> -> real)
    requires ValidPrices(rows) && |ms| == |rows| && |rows| > 0
    ensures var r := SimulateWith(rows, ms, name, base, xirrOf).value;
            && r.unitsHeld == Sum(UnitPurchases(rows, ms, base))
            && r.currentValue == r.unitsHeld * rows[|rows| - 1].price.value
  {
    SipAfterUnits(rows, ms, base, |rows|);
    FullSlice(UnitPurchases(rows, ms, base));
  }

  /** Each ledger entry records its row's purchase and the running totals
      after it. */
  lemma SipLedgerRunningTotals(rows: seq<Row>, ms: seq<real>, base: real, i: nat)
    requires ValidPrices(rows) && |ms| == |rows| && i < |rows|
    ensures var w := SipLedger(rows, ms, base, |rows|)[i];
            && w.investment == base * ms[i]
            && w.unitsBought == UnitPurchases(rows, ms, base)[i]
            && w.cumulativeInvested == Sum(Investments(ms, base)[..i + 1])
            && w.cumulativeUnits == Sum(UnitPurchases(rows, ms, base)[..i + 1])
  {
    SipLedgerEntries(rows, ms, base, |rows|, i);
    SipAfterInvested(rows, ms, base, i + 1);
    SipAfterUnits(rows, ms, base, i + 1);
  }

  /** The ledger's last entry carries the final capital and units, and its
      portfolio value is the reported current value. */
  lemma SimulateLedgerEndsAtTotals(rows: seq<Row>, ms: seq<real>, name: string, base: real,
                                   xirrOf: seq<Cashflow> -> real)
    requires ValidPrices(rows) && |ms| == |rows| && |rows| > 0
    ensures var r := SimulateWith(rows, ms, name, base, xirrOf).value;
            var w := SipLedger(rows, ms, base, |rows|)[|rows| - 1];
            && w.cumulativeInvested == r.totalInvested
            && w.cumulativeUnits == r.unitsHeld
            && w.portfolioValue == r.currentValue
  {
    SipLedgerEntries(rows, ms, base, |rows|, |rows| - 1);
  }

  /** The reported bucket counts are the rows whose multiplier truncates to
      1, 2, 3 and at least 4, and together they are the rows with a
      multiplier of at least 1. */
  lemma SimulateBuckets(rows: seq<Row>, ms: seq<real>, name: string, base: real,
                        xirrOf: seq<Cashflow> -> real)
    requires ValidPrices(rows) && |ms| == |rows| && |rows| > 0
    ensures var r := SimulateWith(rows, ms, name, base, xirrOf).value;
            && r.weeksAt1x == CountKey(ms, 1)
            && r.weeksAt2x == CountKey(ms, 2)
            && r.weeksAt3x == CountKey(ms, 3)
            && r.weeksAt4xPlus == CountKey(ms, 4)
            && r.weeksAt1x + r.weeksAt2x + r.weeksAt3x + r.weeksAt4xPlus == CountAtLeastOne(ms)
  {
    SipAfterBuckets(rows, ms, base, |rows|);
    assert ms[..|rows|] == ms;
    ReportedBucketsCountAtLeastOne(ms);
  }

  /** The rate is computed, in percent, on the outflows followed by the
      final value. */
  lemma SimulateXirr(rows: seq<Row>, ms: seq<real>, name: string, base: real,
                     xirrOf: seq<Cashflow> -> real)
    requires ValidPrices(rows) && |ms| == |rows| && |rows| > 0
    ensures var r := SimulateWith(rows, ms, name, base, xirrOf).value;
            var cfs := SipCashflows(rows, ms, base);
            && |cfs| == |rows| + 1
            && cfs[|rows|] == Cashflow(rows[|rows| - 1].date, r.currentValue)
            && (forall i :: 0 <= i < |rows| ==> cfs[i] == Cashflow(rows[i].date, -(base * ms[i])))
            && r.xirr == xirrOf(cfs) * 100.0
  {
    SipAfterCashflows(rows, ms, base, |rows|);
  }

  /** Every series yields at least two cashflows, so the guard of
      `calculate_xirr` never fires and the rate is the solver's answer on
      the cashflows in date order. */
  lemma SimulateSipXirr(rows: seq<Row>, s: Strategy, base: real, hasPb: bool,
                        rateOf: seq<Cashflow> -> real)
    requires ValidPrices(rows) && |rows| > 0
    ensures var cfs := SipCashflows(rows, Multipliers(rows, s, hasPb), base);
            && |cfs| >= 2
            && SimulateSip(rows, s, base, hasPb, rateOf).value.xirr
               == rateOf(Sorting.SortBy(cfs, CashflowDate)) * 100.0
  {
    var ms := Multipliers(rows, s, hasPb);
    SimulateXirr(rows, ms, s.name, base, cfs => Xirr(cfs, rateOf));
  }

  /** `compare_strategies`: one simulation per strategy, keyed by name. */
  function CompareStrategies(rows: seq<Row>, strategies: seq<Strategy>, base: real, hasPb: bool,
                             rateOf: seq<Cashflow> -> real): Result<map<string, SipResult>, SipError>
    requires ValidPrices(rows)
  {
    ByName(strategies, s requires ValidPrices(rows) => SimulateSip(rows, s, base, hasPb, rateOf))
  }

  /** With the corrected dispatch, the comparison fails exactly when there
      is a strategy to simulate but no row to value it at; otherwise each name maps to the simulation of
      the last strategy carrying it. */
  lemma CompareStrategiesByName(rows: seq<Row>, strategies: seq<Strategy>, base: real, hasPb: bool,
                                rateOf: seq<Cashflow> -> real, i: nat)
    requires ValidPrices(rows) && i < |strategies| && LastWithName(strategies, i)
    ensures CompareStrategies(rows, strategies, base, hasPb, rateOf).Failure? <==> |rows| == 0
    ensures CompareStrategies(rows, strategies, base, hasPb, rateOf).Success? ==>
              && strategies[i].name in CompareStrategies(rows, strategies, base, hasPb, rateOf).value
              && Success(CompareStrategies(rows, strategies, base, hasPb, rateOf).value[strategies[i].name])
                 == SimulateSip(rows, strategies[i], base, hasPb, rateOf)
  {
    var f := s requires ValidPrices(rows) => SimulateSip(rows, s, base, hasPb, rateOf);
    ByNameFailure(strategies, f);
    ByNameLastWins(strategies, f, i);
    if |rows| == 0 {
      assert f(strategies[0]).Failure?;
    }
  }

  /** With no strategies there is nothing to simulate, even on an empty series. */
  lemma CompareNoStrategies(rows: seq<Row>, base: real, hasPb: bool, rateOf: seq<Cashflow> -> real)
    requires ValidPrices(rows)
    ensures CompareStrategies(rows, [], base, hasPb, rateOf) == Success(map[])
  {
  }

  /** A single tier buys 4x at or below PE 16 and 1x above it. */
  lemma SingleTierMultiplier(tiers: seq<Tier>, pe: real)
    requires |tiers| == 1 && tiers[0].threshold == 16.0 && tiers[0].multiplier == 4.0
    ensures pe <= 16.0 ==> TierMultiplier(tiers, Some(pe)) == 4.0
    ensures pe > 16.0 ==> TierMultiplier(tiers, Some(pe)) == 1.0
  {
    TierMultiplierIsLeastQualifying(tiers, Some(pe));
  }

  /** Multiplier statistics of the weeks 1x, 1x, 1x, 4x. */
  lemma ScenarioCounts(ms: seq<real>)
    requires ms == [1.0, 1.0, 1.0, 4.0]
    ensures Sum(ms) == 7.0 && CountKey(ms, 1) == 3 && CountKey(ms, 4) == 1
  {
    SumStep(ms, 1);
    SumStep(ms, 2);
    SumStep(ms, 3);
    SumStep(ms, 4);
    FullSlice(ms);
    BucketKeyReported(4.0);
    assert BucketKey(1.0) == 1;
    assert ms[..4][..3] == ms[..3] && ms[..3][..2] == ms[..2] && ms[..2][..1] == ms[..1];
    assert CountKey(ms[..1], 1) == 1 && CountKey(ms[..1], 4) == 0;
    assert CountKey(ms[..2], 1) == 2 && CountKey(ms[..2], 4) == 0;
    assert CountKey(ms[..3], 1) == 3 && CountKey(ms[..3], 4) == 0;
  }

  /** Four weeks at a constant price of 100 with PE 25, 25, 25 and 14 under
      a single 4x tier at PE 16 and a base of 100: three 1x weeks and one 4x
      week invest 700 for 7 units, a return of zero. */
  lemma FourWeekScenario(rows: seq<Row>, name: string, tiers: seq<Tier>, rateOf: seq<Cashflow> -> real)
    requires |rows| == 4 && forall i :: 0 <= i < 4 ==> rows[i].price == Some(100.0)
    requires rows[0].pe == Some(25.0) && rows[1].pe == Some(25.0)
    requires rows[2].pe == Some(25.0) && rows[3].pe == Some(14.0)
    requires |tiers| == 1 && tiers[0].threshold == 16.0 && tiers[0].multiplier == 4.0
    ensures ValidPrices(rows)
    ensures var r := SimulateSip(rows, PEStrategy(name, tiers), 100.0, true, rateOf).value;
            && r.totalInvested == 700.0 && r.unitsHeld == 7.0 && r.AbsoluteReturnPct() == 0.0
            && r.weeksAt1x == 3 && r.weeksAt4xPlus == 1
  {
    var ms := Multipliers(rows, PEStrategy(name, tiers), true);
    SingleTierMultiplier(tiers, 25.0);
    SingleTierMultiplier(tiers, 14.0);
    assert ms == [1.0, 1.0, 1.0, 4.0];
    ScenarioCounts(ms);
    var xirrOf := cfs => Xirr(cfs, rateOf);
    SimulateCapital(rows, ms, name, 100.0, xirrOf);
    SimulateUnits(rows, ms, name, 100.0, xirrOf);
    ConstantPriceBreaksEven(rows, ms, 100.0, 100.0, 4);
    SimulateBuckets(rows, ms, name, 100.0, xirrOf);
  }
}
