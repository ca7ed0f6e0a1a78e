/**
 * What every report parser shares: validating the extracted holdings and
 * assembling the parse result with its summary totals.
 *
 * A holding is a dictionary from field names to Python values. A missing
 * key reads as `None`, like `dict.get`.
 */
module BaseParser {
  import opened Wrappers

  /** A Python value as stored in a holding dictionary. `bool` is a
      subclass of `int`, so it passes the numeric check. `OtherValue`
      stands for anything else, with its truthiness. Some such values
      (a `Decimal`, a `Fraction`, a numpy scalar) are not `int` or `float`
      but still compare with numbers: `order` is the number they compare
      as, and `None` for values whose comparison raises (a list, a dict). */
  datatype Value =
    | Str(s: string) | Num(x: real) | Bool(b: bool) | NoneValue
    | OtherValue(truthy: bool, order: Option<real>)

  type Record = map<string, Value>

  /** `holding.get(field)`. */
  function Get(h: Record, field: string): Value {
    if field in h then h[field] else NoneValue
  }

  /** Python truthiness. */
  predicate Truthy(v: Value) {
    match v
    case Str(s) => s != ""
    case Num(x) => x != 0.0
    case Bool(b) => b
    case NoneValue => false
    case OtherValue(t, _) => t
  }

  /** `isinstance(value, (int, float))`. */
  predicate IsNumeric(v: Value) {
    v.Num? || v.Bool?
  }

  const NumericFields: seq<string> :=
    ["quantity", "market_value", "portfolio_percentage", "cost_price", "current_price", "gain_loss", "gain_loss_percentage"]

  /** One recorded complaint; `holding` is the 1-based position used in
      the messages. */
  datatype Problem =
    | MissingStockName(holding: nat)
    | NotNumeric(holding: nat, field: string)
    | PercentageOutOfRange(holding: nat, pct: real)

  datatype ValidationError =
    | NoHoldings
    | Invalid(problems: seq<Problem>)
      /** `0 <= pct <= 100` on a string or other non-number raises at once,
          before the collected problems are reported. */
    | ComparisonTypeError(holding: nat)

  // Per-holding checks

  /** The numeric-type problems among `fields`, in order. */
  function TypeProblems(h: Record, fields: seq<string>, holding: nat): (ps: seq<Problem>)
    ensures |ps| <= |fields|
    ensures forall k :: 0 <= k < |ps| ==> ps[k].NotNumeric? && ps[k].holding == holding
  {
    if |fields| == 0 then []
    else
      var v := Get(h, fields[0]);
      (if !v.NoneValue? && !IsNumeric(v) then [NotNumeric(holding, fields[0])] else [])
        + TypeProblems(h, fields[1..], holding)
  }

  /** The percentage comparison raises on a string, or on another value
      that does not compare with numbers. */
  predicate PercentageTypeError(h: Record) {
    var pct := Get(h, "portfolio_percentage");
    pct.Str? || (pct.OtherValue? && pct.order.None?)
  }

  /** The number a percentage compares as, when it compares at all. */
  function PercentageOrder(v: Value): Option<real> {
    match v
    case Num(x) => Some(x)
    case Bool(b) => Some(if b then 1.0 else 0.0)
    case OtherValue(_, n) => n
    case _ => None
  }

  function PercentageProblems(h: Record, holding: nat): seq<Problem> {
    match PercentageOrder(Get(h, "portfolio_percentage"))
    case Some(x) => if 0.0 <= x <= 100.0 then [] else [PercentageOutOfRange(holding, x)]
    case None => []
  }

  /** Everything recorded for the holding at 0-based position `i`. */
  function HoldingProblems(h: Record, i: nat): seq<Problem> {
    (if !Truthy(Get(h, "stock_name")) then [MissingStockName(i + 1)] else [])
      + TypeProblems(h, NumericFields, i + 1)
      + PercentageProblems(h, i + 1)
  }

  /** The field is absent, `None` or a number. */
  predicate TypeOk(h: Record, field: string) {
    Get(h, field).NoneValue? || IsNumeric(Get(h, field))
  }

  /** The requirements on one holding, stated directly. */
  predicate Valid(h: Record) {
    && Truthy(Get(h, "stock_name"))
    && (forall k :: 0 <= k < |NumericFields| ==> TypeOk(h, NumericFields[k]))
    && (Get(h, "portfolio_percentage").Num? ==> 0.0 <= Get(h, "portfolio_percentage").x <= 100.0)
  }

  lemma {:induction false} TypeProblemsEmpty(h: Record, fields: seq<string>, holding: nat)
    ensures TypeProblems(h, fields, holding) == [] <==> forall k :: 0 <= k < |fields| ==> TypeOk(h, fields[k])
  {
    if |fields| > 0 {
      TypeProblemsEmpty(h, fields[1..], holding);
      assert forall k :: 1 <= k < |fields| ==> fields[k] == fields[1..][k - 1];
    }
  }

  /** A holding records no problem exactly when it is valid. */
  lemma HoldingProblemsEmpty(h: Record, i: nat)
    ensures HoldingProblems(h, i) == [] <==> Valid(h)
  {
    TypeProblemsEmpty(h, NumericFields, i + 1);
    assert NumericFields[2] == "portfolio_percentage";
  }

  /** A percentage that compares with numbers without being an `int` or a
      `float` (a `Decimal`, say) does not raise: it is reported as not
      numeric, and also as out of range exactly when it is. */
  lemma ComparableOtherPercentage(h: Record, i: nat, t: bool, x: real)
    requires Get(h, "portfolio_percentage") == OtherValue(t, Some(x))
    ensures !PercentageTypeError(h) && !Valid(h)
    ensures NotNumeric(i + 1, "portfolio_percentage") in HoldingProblems(h, i)
    ensures PercentageOutOfRange(i + 1, x) in HoldingProblems(h, i) <==> !(0.0 <= x <= 100.0)
  {
    var fields := NumericFields;
    assert fields[2] == "portfolio_percentage";
    TypeProblemRecorded(h, fields, 2, i + 1);
    var lead := if !Truthy(Get(h, "stock_name")) then [MissingStockName(i + 1)] else [];
    var tp := TypeProblems(h, fields, i + 1);
    var pp := PercentageProblems(h, i + 1);
    assert HoldingProblems(h, i) == lead + tp + pp;
    assert forall k :: 0 <= k < |lead| ==> lead[k].MissingStockName?;
  }

  /** A field that is neither absent, `None` nor a number is reported. */
  lemma {:induction false} TypeProblemRecorded(h: Record, fields: seq<string>, k: nat, holding: nat)
    requires k < |fields| && !TypeOk(h, fields[k])
    ensures NotNumeric(holding, fields[k]) in TypeProblems(h, fields, holding)
    decreases k
  {
    var v := Get(h, fields[0]);
    var head := if !v.NoneValue? && !IsNumeric(v) then [NotNumeric(holding, fields[0])] else [];
    var rest := TypeProblems(h, fields[1..], holding);
    assert TypeProblems(h, fields, holding) == head + rest;
    if k > 0 {
      assert fields[1..][k - 1] == fields[k];
      TypeProblemRecorded(h, fields[1..], k - 1, holding);
    }
  }

  // The whole list

  /** The problems of holdings `from` onwards, in order. */
  function ProblemsFrom(hs: seq<Record>, from: nat): seq<Problem>
    requires from <= |hs|
    decreases |hs| - from
  {
    if from == |hs| then [] else HoldingProblems(hs[from], from) + ProblemsFrom(hs, from + 1)
  }

  /** The first holding whose percentage comparison raises. */
  function FirstTypeError(hs: seq<Record>, from: nat): (r: Option<nat>)
    requires from <= |hs|
    ensures r.Some? ==> from <= r.value < |hs| && PercentageTypeError(hs[r.value])
                        && forall j :: from <= j < r.value ==> !PercentageTypeError(hs[j])
    ensures r.None? ==> forall j :: from <= j < |hs| ==> !PercentageTypeError(hs[j])
    decreases |hs| - from
  {
    if from == |hs| then None
    else if PercentageTypeError(hs[from]) then Some(from)
    else FirstTypeError(hs, from + 1)
  }

  /** `validate_holdings`: `Success(true)` for `return True`, `Failure` for
      the exception raised. */
  function Validate(hs: seq<Record>): Result<bool, ValidationError> {
    if |hs| == 0 then Failure(NoHoldings)
    else match FirstTypeError(hs, 0)
      case Some(i) => Failure(ComparisonTypeError(i + 1))
      case None =>
        var ps := ProblemsFrom(hs, 0);
        if ps == [] then Success(true) else Failure(Invalid(ps))
  }

  lemma {:induction false} ProblemsFromEmpty(hs: seq<Record>, from: nat)
    requires from <= |hs|
    ensures ProblemsFrom(hs, from) == [] <==> forall j :: from <= j < |hs| ==> Valid(hs[j])
    decreases |hs| - from
  {
    if from < |hs| {
      var first := HoldingProblems(hs[from], from);
      var rest := ProblemsFrom(hs, from + 1);
      assert ProblemsFrom(hs, from) == first + rest;
      HoldingProblemsEmpty(hs[from], from);
      ProblemsFromEmpty(hs, from + 1);
      ConcatEmpty(first, rest);
      AllValidStep(hs, from);
    }
  }

  lemma ConcatEmpty<T>(a: seq<T>, b: seq<T>)
    ensures a + b == [] <==> a == [] && b == []
  {
    if a + b == [] { assert |a + b| == |a| + |b|; }
  }

  lemma AllValidStep(hs: seq<Record>, from: nat)
    requires from < |hs|
    ensures (forall j :: from <= j < |hs| ==> Valid(hs[j]))
            <==> Valid(hs[from]) && forall j :: from + 1 <= j < |hs| ==> Valid(hs[j])
  {
  }

  /** Validation succeeds exactly for a non-empty list of valid holdings,
      and never answers `False`. */
  lemma ValidateAccepts(hs: seq<Record>)
    ensures Validate(hs) != Success(false)
    ensures Validate(hs).Success? <==> |hs| > 0 && forall j :: 0 <= j < |hs| ==> Valid(hs[j])
  {
    ProblemsFromEmpty(hs, 0);
    if |hs| > 0 && FirstTypeError(hs, 0).Some? {
      var i := FirstTypeError(hs, 0).value;
      assert !TypeOk(hs[i], NumericFields[2]);
    }
  }

  /** The numeric-type checks over `fields`, in order. */
  method CheckTypes(h: Record, fields: seq<string>, holding: nat) returns (ps: seq<Problem>)
    ensures ps == TypeProblems(h, fields, holding)
  {
    ps := [];
    var k := 0;
    while k < |fields|
      invariant 0 <= k <= |fields|
      invariant ps + TypeProblems(h, fields[k..], holding) == TypeProblems(h, fields, holding)
    {
      var v := Get(h, fields[k]);
      assert fields[k..][1..] == fields[k + 1..];
      if !v.NoneValue? && !IsNumeric(v) {
        ps := ps + [NotNumeric(holding, fields[k])];
      }
      k := k + 1;
    }
    assert fields[k..] == [];
  }

  /** The checks on one holding (0-based position `i`): `raises` when
      the percentage comparison raises, else the problems recorded. */
  method CheckHolding(h: Record, i: nat) returns (ps: seq<Problem>, raises: bool)
    ensures raises == PercentageTypeError(h)
    ensures !raises ==> ps == HoldingProblems(h, i)
  {
    ps := [];
    if !Truthy(Get(h, "stock_name")) {
      ps := [MissingStockName(i + 1)];
    }
    var typeProblems := CheckTypes(h, NumericFields, i + 1);
    ps := ps + typeProblems;
    raises := false;
    match Get(h, "portfolio_percentage") {
      case NoneValue =>
      case Bool(_) =>
      case Num(x) =>
        if !(0.0 <= x <= 100.0) {
          ps := ps + [PercentageOutOfRange(i + 1, x)];
        }
      case Str(_) =>
        raises := true;
      case OtherValue(_, order) =>
        match order {
          case None =>
            raises := true;
          case Some(x) =>
            if !(0.0 <= x <= 100.0) {
              ps := ps + [PercentageOutOfRange(i + 1, x)];
            }
        }
    }
  }

  /** The loop of `validate_holdings`: problems are collected holding by
      holding, and the percentage comparison may raise part-way. */
  method ValidateHoldings(hs: seq<Record>) returns (r: Result<bool, ValidationError>)
    ensures r == Validate(hs)
  {
    if |hs| == 0 {
      return Failure(NoHoldings);
    }
    var errors: seq<Problem> := [];
    var i := 0;
    while i < |hs|
      invariant 0 <= i <= |hs|
      invariant FirstTypeError(hs, 0) == FirstTypeError(hs, i)
      invariant errors + ProblemsFrom(hs, i) == ProblemsFrom(hs, 0)
    {
      var ps, raises := CheckHolding(hs[i], i);
      if raises {
        return Failure(ComparisonTypeError(i + 1));
      }
      errors := errors + ps;
      i := i + 1;
    }
    assert errors == ProblemsFrom(hs, 0);
    if errors != [] {
      return Failure(Invalid(errors));
    }
    return Success(true);
  }

  // The parse result

  /** `h.get(field, 0) or 0` on a validated field: a number, a boolean
      (`True` adds 1) or nothing. */
  function FieldOrZero(h: Record, field: string): real {
    match Get(h, field)
    case Num(x) => x
    case Bool(b) => if b then 1.0 else 0.0
    case _ => 0.0
  }

  function Total(hs: seq<Record>, field: string): real {
    if |hs| == 0 then 0.0 else Total(hs[..|hs| - 1], field) + FieldOrZero(hs[|hs| - 1], field)
  }

  datatype Summary = Summary(totalStocks: nat, totalValue: real, totalGainLoss: real)

  datatype Parsed<D> = Parsed(provider: string, reportDate: D, holdings: seq<Record>, summary: Summary)

  datatype ParseError = NoReportDate | ValidationFailed(error: ValidationError)

  /** `parse`: the report date (`None` when it could not be found) is
      checked before the holdings; extraction itself is not part of this
      model, so the extracted holdings are an input. */
  function Parse<D>(provider: string, reportDate: Option<D>, holdings: seq<Record>): (r: Result<Parsed<D>, ParseError>)
    ensures reportDate.None? ==> r == Failure(NoReportDate)
    ensures r.Success? <==> reportDate.Some? && |holdings| > 0 && forall j :: 0 <= j < |holdings| ==> Valid(holdings[j])
    ensures r.Success? ==> r.value.holdings == holdings && r.value.reportDate == reportDate.value
                           && r.value.summary.totalStocks == |holdings|
                           && r.value.summary.totalValue == Total(holdings, "market_value")
                           && r.value.summary.totalGainLoss == Total(holdings, "gain_loss")
  {
    ValidateAccepts(holdings);
    if reportDate.None? then Failure(NoReportDate)
    else match Validate(holdings)
      case Failure(e) => Failure(ValidationFailed(e))
      case Success(_) =>
        Success(Parsed(provider, reportDate.value, holdings,
                       Summary(|holdings|, Total(holdings, "market_value"), Total(holdings, "gain_loss"))))
  }

  /** The totals add up over any split of the holdings. */
  lemma {:induction false} TotalSplit(a: seq<Record>, b: seq<Record>, field: string)
    ensures Total(a + b, field) == Total(a, field) + Total(b, field)
    decreases |b|
  {
    if |b| > 0 {
      assert (a + b)[..|a + b| - 1] == a + b[..|b| - 1];
      TotalSplit(a, b[..|b| - 1], field);
    } else {
      assert a + b == a;
    }
  }

  /** A holding without the field (or with `None` there) adds nothing. */
  lemma TotalSkipsMissing(hs: seq<Record>, h: Record, field: string)
    requires Get(h, field).NoneValue?
    ensures Total(hs + [h], field) == Total(hs, field)
  {
    assert (hs + [h])[..|hs|] == hs;
  }
}
