/**
 * The aligned weekly time series both simulators replay, the cashflow list
 * they hand to the annualised-return solver, and the solver's guard.
 */
module Series {
  import opened Wrappers
  import Sorting

  /** One week of the aligned series. Dates are day numbers. A `None`
      price or signal is a NaN cell of the data frame. */
  datatype Row = Row(date: int, price: Option<real>, pe: Option<real>, pb: Option<real>)

  /** Negative amounts are investments, positive ones redemptions. */
  datatype Cashflow = Cashflow(date: int, amount: real)

  function CashflowDate(c: Cashflow): real { c.date as real }

  function RowDate(r: Row): real { r.date as real }

  /** `x <= t` for a possibly-NaN reading: every comparison with NaN is false. */
  predicate AtMost(x: Option<real>, t: real) {
    x.Some? && x.value <= t
  }

  function Sum(s: seq<real>): real {
    if |s| == 0 then 0.0 else Sum(s[..|s| - 1]) + s[|s| - 1]
  }

  /**
   * The annualised money-weighted return. The root finding itself (a
   * bracketed search falling back to Newton's method) is the parameter
   * `rateOf`, applied to the cashflows in date order; only the guard for
   * fewer than two cashflows is modelled.
   */
  function Xirr(cashflows: seq<Cashflow>, rateOf: seq<Cashflow> -> real): (r: real)
    ensures |cashflows| < 2 ==> r == 0.0
  {
    if |cashflows| < 2 then 0.0
    else rateOf(Sorting.SortBy(cashflows, CashflowDate))
  }

  /** A return in percent of the capital, or 0 when nothing was invested. */
  function ReturnPct(gain: real, invested: real): real {
    if invested > 0.0 then gain / invested * 100.0 else 0.0
  }

  /** Average price paid per unit, or 0 when no units are held. */
  function AvgPrice(invested: real, units: real): real {
    if units > 0.0 then invested / units else 0.0
  }

  /** The percentage return is zero when nothing was invested, and otherwise
      non-negative exactly when the value covers the capital. */
  lemma ReturnPctSign(gain: real, invested: real)
    ensures invested <= 0.0 ==> ReturnPct(gain, invested) == 0.0
    ensures invested > 0.0 ==> (ReturnPct(gain, invested) >= 0.0 <==> gain >= 0.0)
    ensures invested > 0.0 ==> ReturnPct(gain, invested) * invested == gain * 100.0
  {
    if invested > 0.0 {
      assert gain / invested * invested == gain;
    }
  }

  /** The average buy price times the units held gives back the capital. */
  lemma AvgPriceRecoversCapital(invested: real, units: real)
    ensures units > 0.0 ==> AvgPrice(invested, units) * units == invested
    ensures units <= 0.0 ==> AvgPrice(invested, units) == 0.0
  {
  }
}
