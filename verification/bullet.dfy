/**
 * `simulate_bullet_deployment` of `strategy.py`: cash accumulates every
 * week and a share of it is deployed when the valuation signal falls to one
 * of three thresholds. The loop is a fold over the rows in date order.
 */
module Bullet {
  import opened Wrappers
  import opened Series
  import opened Sorting
  import opened TierModel

  // Configurations

  /** The three thresholds and deploy percentages the loop reads. */
  datatype DeployRule = DeployRule(
    cheap: real, veryCheap: real, extremelyCheap: real,
    cheapPct: real, veryCheapPct: real, extremelyCheapPct: real)

  /** A PE or PB bullet configuration (the two share one shape), or a combined
      one that carries PE and PB thresholds and a logic string. */
  datatype BulletConfig =
    | SingleBullet(name: string, cheapThreshold: real, veryCheapThreshold: real, extremelyCheapThreshold: real,
                   cheapDeployPct: real, veryCheapDeployPct: real, extremelyCheapDeployPct: real)
    | CombinedBullet(name: string, peCheap: real, peVeryCheap: real, peExtremelyCheap: real,
                     pbCheap: real, pbVeryCheap: real, pbExtremelyCheap: real,
                     cheapDeployPct: real, veryCheapDeployPct: real, extremelyCheapDeployPct: real,
                     logic: string)
  {
    /** The `cheap_threshold` property; a combined configuration answers
        with its PE threshold. */
    function Cheap(): real {
      match this
      case SingleBullet(_, c, _, _, _, _, _) => c
      case CombinedBullet(_, c, _, _, _, _, _, _, _, _, _) => c
    }

    function VeryCheap(): real {
      match this
      case SingleBullet(_, _, v, _, _, _, _) => v
      case CombinedBullet(_, _, v, _, _, _, _, _, _, _, _) => v
    }

    function ExtremelyCheap(): real {
      match this
      case SingleBullet(_, _, _, e, _, _, _) => e
      case CombinedBullet(_, _, _, e, _, _, _, _, _, _, _) => e
    }

    /** Everything the simulation reads from the configuration. */
    function Rule(): DeployRule {
      DeployRule(Cheap(), VeryCheap(), ExtremelyCheap(),
                 cheapDeployPct, veryCheapDeployPct, extremelyCheapDeployPct)
    }
  }

  /** A combined configuration deploys exactly like the single-signal one
      built from its PE thresholds: its PB thresholds and logic are never read. */
  lemma CombinedBulletUsesPeThresholds(c: BulletConfig)
    requires c.CombinedBullet?
    ensures c.Rule() == SingleBullet(c.name, c.peCheap, c.peVeryCheap, c.peExtremelyCheap,
                                     c.cheapDeployPct, c.veryCheapDeployPct, c.extremelyCheapDeployPct).Rule()
  {
  }

  // The deployment decision

  /** The percentage to deploy at signal `v`: the extremely-cheap level is
      checked first, then very cheap, then cheap; `None` when none applies. */
  function DeployPct(rule: DeployRule, v: real): Option<real> {
    if v <= rule.extremelyCheap then Some(rule.extremelyCheapPct)
    else if v <= rule.veryCheap then Some(rule.veryCheapPct)
    else if v <= rule.cheap then Some(rule.cheapPct)
    else None
  }

  /** The rule as a tier list: threshold and deploy percentage per level. */
  function RuleTiers(rule: DeployRule): seq<Tier> {
    [Tier(rule.cheap, rule.cheapPct), Tier(rule.veryCheap, rule.veryCheapPct),
     Tier(rule.extremelyCheap, rule.extremelyCheapPct)]
  }

  /** With the levels strictly ordered (extremely cheap below very cheap
      below cheap), the if-chain is the tier lookup of the SIP strategies:
      nothing applies exactly when the signal is above every threshold, and
      otherwise the level with the smallest threshold at or above it wins. */
  lemma DeployPctIsTierLookup(rule: DeployRule, v: real)
    requires rule.extremelyCheap < rule.veryCheap < rule.cheap
    ensures DeployPct(rule, v).None? <==> forall t :: t in RuleTiers(rule) ==> !AtMost(Some(v), t.threshold)
    ensures DeployPct(rule, v).Some? ==>
              exists t :: LeastQualifying(RuleTiers(rule), Some(v), t) && t.multiplier == DeployPct(rule, v).value
  {
    var tiers := RuleTiers(rule);
    if v <= rule.extremelyCheap {
      assert LeastQualifying(tiers, Some(v), tiers[2]);
    } else if v <= rule.veryCheap {
      assert LeastQualifying(tiers, Some(v), tiers[1]);
    } else if v <= rule.cheap {
      assert LeastQualifying(tiers, Some(v), tiers[0]);
    }
  }

  /** `accumulated_cash * (deployment_pct / 100)`. */
  function DeployAmount(cash: real, pct: real): real {
    cash * (pct / 100.0)
  }

  /** A percentage in [0, 100] deploys between nothing and all of the cash. */
  lemma DeployAmountBounds(cash: real, pct: real)
    requires cash >= 0.0 && 0.0 <= pct <= 100.0
    ensures 0.0 <= DeployAmount(cash, pct) <= cash
  {
    assert 0.0 <= pct / 100.0 <= 1.0;
  }

  /** Units bought for `amount` at `price`. */
  function UnitsFor(amount: real, price: real): real
    requires price > 0.0
  {
    amount / price
  }

  lemma UnitsForPositive(amount: real, price: real)
    requires amount > 0.0 && price > 0.0
    ensures UnitsFor(amount, price) > 0.0
  {
  }

  // The fold

  /** Which column drives the decision (`pe_col`). */
  datatype SignalColumn = PeColumn | PbColumn

  function Signal(row: Row, col: SignalColumn): Option<real> {
    match col
    case PeColumn => row.pe
    case PbColumn => row.pb
  }

  /** A row the loop does not skip: price and signal present, price positive. */
  predicate Processed(row: Row, col: SignalColumn) {
    row.price.Some? && row.price.value > 0.0 && Signal(row, col).Some?
  }

  datatype BulletState = BulletState(
    cash: real,            // accumulated_cash
    accumulated: real,     // total_accumulated
    deployed: real,        // total_deployed
    units: real,           // total_units
    cashflows: seq<Cashflow>,
    deployments: nat)      // len(deployment_records)

  /** One pass of the loop body. */
  function BulletStep(st: BulletState, row: Row, rule: DeployRule, w: real, col: SignalColumn): BulletState {
    if !Processed(row, col) then st
    else
      var cash := st.cash + w;
      var accumulated := st.accumulated + w;
      match DeployPct(rule, Signal(row, col).value)
      case None => st.(cash := cash, accumulated := accumulated)
      case Some(pct) =>
        var amount := DeployAmount(cash, pct);
        if amount > 0.0 then
          BulletState(cash - amount, accumulated, st.deployed + amount,
                      st.units + UnitsFor(amount, row.price.value),
                      st.cashflows + [Cashflow(row.date, -amount)], st.deployments + 1)
        else st.(cash := cash, accumulated := accumulated)
  }

  /** The state after the first `n` rows. */
  function BulletAfter(rows: seq<Row>, rule: DeployRule, w: real, col: SignalColumn, n: nat): BulletState
    requires n <= |rows|
  {
    if n == 0 then BulletState(0.0, 0.0, 0.0, 0.0, [], 0)
    else BulletStep(BulletAfter(rows, rule, w, col, n - 1), rows[n - 1], rule, w, col)
  }

  /** Number of processed rows among the first `n`. */
  function ProcessedCount(rows: seq<Row>, col: SignalColumn, n: nat): nat
    requires n <= |rows|
  {
    if n == 0 then 0
    else ProcessedCount(rows, col, n - 1) + (if Processed(rows[n - 1], col) then 1 else 0)
  }

  /** A skipped row changes nothing, not even the accumulated cash. */
  lemma SkippedRowChangesNothing(rows: seq<Row>, rule: DeployRule, w: real, col: SignalColumn, k: nat)
    requires k < |rows| && !Processed(rows[k], col)
    ensures BulletAfter(rows, rule, w, col, k + 1) == BulletAfter(rows, rule, w, col, k)
    ensures ProcessedCount(rows, col, k + 1) == ProcessedCount(rows, col, k)
  {
  }

  /** Cash conservation: what was accumulated is either still cash or deployed. */
  lemma {:induction false} BulletConservesCash(rows: seq<Row>, rule: DeployRule, w: real, col: SignalColumn, n: nat)
    requires n <= |rows|
    ensures BulletAfter(rows, rule, w, col, n).cash + BulletAfter(rows, rule, w, col, n).deployed
            == BulletAfter(rows, rule, w, col, n).accumulated
  {
    if n > 0 {
      BulletConservesCash(rows, rule, w, col, n - 1);
    }
  }

  /** Only a processed row adds the weekly amount to the accumulated total. */
  lemma BulletStepAccumulates(st: BulletState, row: Row, rule: DeployRule, w: real, col: SignalColumn)
    ensures BulletStep(st, row, rule, w, col).accumulated
            == st.accumulated + (if Processed(row, col) then w else 0.0)
  {
  }

  /** `k` weekly amounts of `w`. */
  function Accrued(w: real, k: nat): real { w * k as real }

  lemma AccrualStep(w: real, a0: real, a1: real, c0: nat, c1: nat)
    requires a0 == Accrued(w, c0)
    requires (c1 == c0 && a1 == a0) || (c1 == c0 + 1 && a1 == a0 + w)
    ensures a1 == Accrued(w, c1)
  {
  }

  lemma {:induction false} BulletAccrues(rows: seq<Row>, rule: DeployRule, w: real,
                                                            col: SignalColumn, n: nat)
    requires n <= |rows|
    ensures BulletAfter(rows, rule, w, col, n).accumulated == Accrued(w, ProcessedCount(rows, col, n))
  {
    if n > 0 {
      BulletAccrues(rows, rule, w, col, n - 1);
      BulletStepAccumulates(BulletAfter(rows, rule, w, col, n - 1), rows[n - 1], rule, w, col);
      AccrualStep(w, BulletAfter(rows, rule, w, col, n - 1).accumulated, BulletAfter(rows, rule, w, col, n).accumulated,
                  ProcessedCount(rows, col, n - 1), ProcessedCount(rows, col, n));
    }
  }

  /** The accumulated total is the weekly amount times the processed rows. */
  lemma BulletAccumulatesPerProcessedRow(rows: seq<Row>, rule: DeployRule, w: real, col: SignalColumn, n: nat)
    requires n <= |rows|
    ensures BulletAfter(rows, rule, w, col, n).accumulated == w * ProcessedCount(rows, col, n) as real
  {
    BulletAccrues(rows, rule, w, col, n);
  }

  /** Percentages within [0, 100] and a non-negative weekly amount never
      overdraw the cash. */
  lemma {:induction false} BulletCashNonNegative(rows: seq<Row>, rule: DeployRule, w: real, col: SignalColumn, n: nat)
    requires n <= |rows| && w >= 0.0
    requires 0.0 <= rule.cheapPct <= 100.0 && 0.0 <= rule.veryCheapPct <= 100.0
    requires 0.0 <= rule.extremelyCheapPct <= 100.0
    ensures BulletAfter(rows, rule, w, col, n).cash >= 0.0
  {
    if n > 0 {
      BulletCashNonNegative(rows, rule, w, col, n - 1);
      var st := BulletAfter(rows, rule, w, col, n - 1);
      var row := rows[n - 1];
      if Processed(row, col) {
        var pct := DeployPct(rule, Signal(row, col).value);
        if pct.Some? {
          DeployAmountBounds(st.cash + w, pct.value);
        }
      }
    }
  }

  /** Row by row, the accumulated and deployed totals and the units never
      decrease (for a non-negative weekly amount), and at most one
      deployment happens per row. */
  lemma BulletMonotone(rows: seq<Row>, rule: DeployRule, w: real, col: SignalColumn, k: nat)
    requires k < |rows| && w >= 0.0
    ensures BulletAfter(rows, rule, w, col, k).accumulated <= BulletAfter(rows, rule, w, col, k + 1).accumulated
    ensures BulletAfter(rows, rule, w, col, k).deployed <= BulletAfter(rows, rule, w, col, k + 1).deployed
    ensures BulletAfter(rows, rule, w, col, k).units <= BulletAfter(rows, rule, w, col, k + 1).units
    ensures BulletAfter(rows, rule, w, col, k + 1).deployments <= BulletAfter(rows, rule, w, col, k).deployments + 1
  {
    var st := BulletAfter(rows, rule, w, col, k);
    var row := rows[k];
    if Processed(row, col) {
      var pct := DeployPct(rule, Signal(row, col).value);
      if pct.Some? && DeployAmount(st.cash + w, pct.value) > 0.0 {
        UnitsForPositive(DeployAmount(st.cash + w, pct.value), row.price.value);
      }
    }
  }

  /** Every deployment is one negative cashflow, and deployments happen only
      on processed rows. Units are held exactly when something was deployed. */
  lemma {:induction false} BulletDeployments(rows: seq<Row>, rule: DeployRule, w: real, col: SignalColumn, n: nat)
    requires n <= |rows|
    ensures var st := BulletAfter(rows, rule, w, col, n);
            && |st.cashflows| == st.deployments
            && (forall i :: 0 <= i < |st.cashflows| ==> st.cashflows[i].amount < 0.0)
            && st.deployments <= ProcessedCount(rows, col, n)
            && st.units >= 0.0
            && (st.units == 0.0 <==> st.deployments == 0)
  {
    if n > 0 {
      BulletDeployments(rows, rule, w, col, n - 1);
      var st := BulletAfter(rows, rule, w, col, n - 1);
      var row := rows[n - 1];
      if Processed(row, col) {
        var pct := DeployPct(rule, Signal(row, col).value);
        if pct.Some? && DeployAmount(st.cash + w, pct.value) > 0.0 {
          UnitsForPositive(DeployAmount(st.cash + w, pct.value), row.price.value);
        }
      }
    }
  }

  // The final valuation

  /** The index of the last processed row among the first `n`. */
  function LastProcessed(rows: seq<Row>, col: SignalColumn, n: nat): (r: Option<nat>)
    requires n <= |rows|
    ensures r.None? <==> ProcessedCount(rows, col, n) == 0
    ensures r.Some? ==> r.value < n && Processed(rows[r.value], col)
                        && forall j :: r.value < j < n ==> !Processed(rows[j], col)
  {
    if n == 0 then None
    else if Processed(rows[n - 1], col) then Some(n - 1)
    else LastProcessed(rows, col, n - 1)
  }

  /** The price the holdings are valued at: that of the last row the loop
      accepted (0 when it accepted none, a case that never reaches the
      valuation). */
  function ValuationPrice(rows: seq<Row>, col: SignalColumn): real {
    match LastProcessed(rows, col, |rows|)
    case Some(i) => rows[i].price.value
    case None => 0.0
  }

  /** The valuation as the source writes it: `data.iloc[-1]`'s price, which
      may belong to a row the loop skipped; `None` stands for NaN. */
  function CurrentValueAsWritten(rows: seq<Row>, rule: DeployRule, w: real, col: SignalColumn): Option<real>
    requires |rows| > 0
  {
    var units := BulletAfter(rows, rule, w, col, |rows|).units;
    match rows[|rows| - 1].price
    case Some(p) => Some(units * p)
    case None => None
  }

  /** A week of cash at PE 10 is fully deployed at price 100, then a final
      row with a bad price -1 is skipped by the loop; valued as written, the
      one unit held is worth -1, while the corrected valuation uses price 100. */
  lemma BadLastPriceCounterexample(rows: seq<Row>, rule: DeployRule)
    requires |rows| == 2
    requires rows[0].price == Some(100.0) && rows[0].pe == Some(10.0)
    requires rows[1].price == Some(-1.0) && rows[1].pe == Some(10.0)
    requires rule.extremelyCheap == 14.0 && rule.extremelyCheapPct == 100.0
    ensures BulletAfter(rows, rule, 100.0, PeColumn, 2).units == 1.0
    ensures CurrentValueAsWritten(rows, rule, 100.0, PeColumn) == Some(-1.0)
    ensures ValuationPrice(rows, PeColumn) == 100.0
  {
    assert DeployPct(rule, 10.0) == Some(100.0);
    assert DeployAmount(100.0, 100.0) == 100.0;
    assert UnitsFor(100.0, 100.0) == 1.0;
    var st0 := BulletAfter(rows, rule, 100.0, PeColumn, 0);
    assert st0 == BulletState(0.0, 0.0, 0.0, 0.0, [], 0);
    assert Processed(rows[0], PeColumn);
    var st1 := BulletAfter(rows, rule, 100.0, PeColumn, 1);
    assert st1 == BulletStep(st0, rows[0], rule, 100.0, PeColumn);
    assert st1.units == 1.0;
    assert !Processed(rows[1], PeColumn);
    assert BulletAfter(rows, rule, 100.0, PeColumn, 2) == st1;
    assert LastProcessed(rows, PeColumn, 2) == Some(0);
  }

  datatype BulletResult = BulletResult(
    strategyName: string,
    totalAccumulated: real,
    totalDeployed: real,
    cashRemaining: real,
    currentValue: real,
    unitsHeld: real,
    xirr: real,
    numDeployments: nat)
  {
    /** Returns are measured against the deployed capital only. */
    function AbsoluteReturn(): real { currentValue - totalDeployed }
    function AbsoluteReturnPct(): real { ReturnPct(AbsoluteReturn(), totalDeployed) }
  }

  /** The result reported when no unit was ever bought. */
  function ZeroResult(name: string): BulletResult {
    BulletResult(name, 0.0, 0.0, 0.0, 0.0, 0.0, 0.0, 0)
  }

  /** The simulation over rows already in date order. `xirrOf` is the rate
      computation, `calculate_xirr`, applied to the cashflows. */
  function BulletWith(rows: seq<Row>, name: string, rule: DeployRule, w: real, col: SignalColumn,
                      xirrOf: seq<Cashflow> -> real): BulletResult
  {
    var st := BulletAfter(rows, rule, w, col, |rows|);
    if |rows| == 0 || st.units == 0.0 then ZeroResult(name)
    else
      var value := st.units * ValuationPrice(rows, col);
      BulletResult(
        name, st.accumulated, st.deployed, st.cash, value, st.units,
        if |st.cashflows| > 0 then xirrOf(st.cashflows + [Cashflow(rows[|rows| - 1].date, value)]) * 100.0 else 0.0,
        st.deployments)
  }

  /** `simulate_bullet_deployment`: sort the rows by date, then simulate.
      The holdings are valued at the last price the loop accepted, the
      corrected form of the source's `data.iloc[-1]` valuation. */
  function SimulateBullet(rows: seq<Row>, config: BulletConfig, w: real, col: SignalColumn,
                          rateOf: seq<Cashflow> -> real): BulletResult
  {
    BulletWith(SortBy(rows, RowDate), config.name, config.Rule(), w, col, cfs => Xirr(cfs, rateOf))
  }

  /** Without a deployment the result is all zeros, even though cash was
      accumulated; with one, the totals are the loop's and the remaining
      cash plus the deployed capital is the accumulated total. */
  lemma BulletResultTotals(rows: seq<Row>, name: string, rule: DeployRule, w: real, col: SignalColumn,
                           xirrOf: seq<Cashflow> -> real)
    ensures var r := BulletWith(rows, name, rule, w, col, xirrOf);
            var st := BulletAfter(rows, rule, w, col, |rows|);
            && r.strategyName == name
            && (st.deployments == 0 ==> r == ZeroResult(name))
            && (st.deployments > 0 ==>
                  && r.totalAccumulated == st.accumulated
                  && r.totalDeployed == st.deployed
                  && r.cashRemaining + r.totalDeployed == r.totalAccumulated
                  && r.unitsHeld > 0.0
                  && r.numDeployments == st.deployments)
  {
    BulletDeployments(rows, rule, w, col, |rows|);
    BulletConservesCash(rows, rule, w, col, |rows|);
  }

  /** The holdings are valued at a price the loop accepted, so the current
      value is never negative; the return is the value less the deployed
      capital, in percent of the deployed capital. */
  lemma BulletValuation(rows: seq<Row>, name: string, rule: DeployRule, w: real, col: SignalColumn,
                        xirrOf: seq<Cashflow> -> real)
    ensures var r := BulletWith(rows, name, rule, w, col, xirrOf);
            && r.currentValue >= 0.0
            && r.AbsoluteReturn() == r.currentValue - r.totalDeployed
            && (r.totalDeployed > 0.0 ==> (r.AbsoluteReturnPct() >= 0.0 <==> r.currentValue >= r.totalDeployed))
  {
    BulletDeployments(rows, rule, w, col, |rows|);
    var r := BulletWith(rows, name, rule, w, col, xirrOf);
    var st := BulletAfter(rows, rule, w, col, |rows|);
    if |rows| > 0 && st.units != 0.0 {
      var p := ValuationPrice(rows, col);
      assert p > 0.0;
      assert st.units * p >= 0.0;
    }
    ReturnPctSign(r.AbsoluteReturn(), r.totalDeployed);
  }

  /** With a deployment, the rate is computed on the deployment outflows
      followed by the current value on the last row's date. */
  lemma BulletXirr(rows: seq<Row>, name: string, rule: DeployRule, w: real, col: SignalColumn,
                   xirrOf: seq<Cashflow> -> real)
    requires BulletAfter(rows, rule, w, col, |rows|).deployments > 0
    ensures var r := BulletWith(rows, name, rule, w, col, xirrOf);
            var st := BulletAfter(rows, rule, w, col, |rows|);
            r.xirr == xirrOf(st.cashflows + [Cashflow(rows[|rows| - 1].date, r.currentValue)]) * 100.0
  {
    BulletDeployments(rows, rule, w, col, |rows|);
  }

  /** The simulation sees the rows in date order, whatever order they were
      given in. */
  lemma SimulateBulletInDateOrder(rows: seq<Row>, config: BulletConfig, w: real, col: SignalColumn,
                                  rateOf: seq<Cashflow> -> real)
    ensures exists sorted ::
              && SortedBy(sorted, RowDate)
              && multiset(sorted) == multiset(rows)
              && SimulateBullet(rows, config, w, col, rateOf)
                 == BulletWith(sorted, config.name, config.Rule(), w, col, cfs => Xirr(cfs, rateOf))
  {
    SortByCorrect(rows, RowDate);
    var sorted := SortBy(rows, RowDate);
    assert SimulateBullet(rows, config, w, col, rateOf)
           == BulletWith(sorted, config.name, config.Rule(), w, col, cfs => Xirr(cfs, rateOf));
  }

  /** A processed row whose signal reaches a level with a percentage in
      (0, 100], while there is cash, deploys that percentage of the cash
      (the week's amount included): no more than the cash, moved from cash
      to the deployed total, buying a positive number of units at the row's
      price, and recorded as one more outflow on the row's date. */
  lemma BulletStepDeploys(st: BulletState, row: Row, rule: DeployRule, w: real, col: SignalColumn)
    requires Processed(row, col) && st.cash + w > 0.0
    requires DeployPct(rule, Signal(row, col).value).Some?
    requires 0.0 < DeployPct(rule, Signal(row, col).value).value <= 100.0
    ensures var pct := DeployPct(rule, Signal(row, col).value).value;
            var next := BulletStep(st, row, rule, w, col);
            var amount := next.deployed - st.deployed;
            && amount * 100.0 == pct * (st.cash + w)
            && 0.0 < amount <= st.cash + w
            && next.cash + next.deployed == st.cash + w + st.deployed
            && next.cash >= 0.0
            && next.units > st.units
            && (next.units - st.units) * row.price.value == amount
            && next.deployments == st.deployments + 1
            && next.cashflows == st.cashflows + [Cashflow(row.date, -amount)]
  {
    var pct := DeployPct(rule, Signal(row, col).value).value;
    var amount := DeployAmount(st.cash + w, pct);
    DeployAmountBounds(st.cash + w, pct);
    assert amount > 0.0 by {
      var f := pct / 100.0;
      assert f > 0.0;
      assert amount == (st.cash + w) * f;
    }
    UnitsForPositive(amount, row.price.value);
  }
}
