/**
 * The Sameeksha holding-report rules: which rows open the holdings
 * section, which are asset-type or column headers, how a merged holding
 * row ("Name QTY AVG_COST MKT_RATE TOTAL_COST MKT_VALUE %_PORTFOLIO") is
 * split into fields, and the row-by-row state machine that collects the
 * holdings from the extracted tables.
 */
module Sameeksha {
  import opened Wrappers
  import opened Text
  import opened PdfUtils
  import BaseParser
  import Sorting

  // Row classification

  /** The asset-type section headers, in the order they are tried. */
  const AssetTypeHeaders: seq<string> := ["shares", "mutual funds", "futures", "cash / bank", "cash", "other assets"]

  /** `_is_holding_section_start`. */
  predicate IsHoldingSectionStart(text: string) {
    Contains(Lower(text), "holding report")
  }

  /** `_is_asset_type_header`: the title-cased header the whole row
      equals, ignoring case and surrounding whitespace. */
  function AssetTypeHeader(text: string): (r: Option<string>)
    ensures r.Some? ==> |r.value| > 0
  {
    var key := Strip(Lower(text));
    match Sorting.FirstMatchIndex(AssetTypeHeaders, (h: string) => key == h)
    case None => None
    case Some(k) => Some(Title(AssetTypeHeaders[k]))
  }

  /** A header is recognised exactly when the lower-cased, stripped row is
      one of the listed headers, and the answer is that header in title
      case. */
  lemma AssetTypeHeaderExact(text: string)
    ensures AssetTypeHeader(text).None? <==>
              forall k :: 0 <= k < |AssetTypeHeaders| ==> Strip(Lower(text)) != AssetTypeHeaders[k]
    ensures AssetTypeHeader(text).Some? ==>
              exists k :: 0 <= k < |AssetTypeHeaders| && Strip(Lower(text)) == AssetTypeHeaders[k]
                          && AssetTypeHeader(text) == Some(Title(AssetTypeHeaders[k]))
  {
  }

  /** `_is_column_header_row`. */
  predicate IsColumnHeaderRow(text: string) {
    Contains(Lower(text), "security name") && Contains(Lower(text), "quantity")
  }

  // The number tokens of a row: `\d{1,3}(?:,\d{3})*(?:\.\d+)?`, found
  // left to right without overlap as `re.findall` does.

  predicate IsDigit(c: char) {
    '0' <= c <= '9'
  }

  predicate NumberChar(c: char) {
    IsDigit(c) || c == ',' || c == '.'
  }

  /** A matched number: it starts with a digit and holds only digits,
      commas and dots. */
  predicate NumberShaped(t: string) {
    |t| > 0 && IsDigit(t[0]) && forall j :: 0 <= j < |t| ==> NumberChar(t[j])
  }

  /** The number of consecutive digits from `i`. */
  function DigitRun(s: string, i: nat): (k: nat)
    requires i <= |s|
    ensures i + k <= |s|
    ensures i + k < |s| ==> !IsDigit(s[i + k])
    decreases |s| - i
  {
    if i < |s| && IsDigit(s[i]) then 1 + DigitRun(s, i + 1) else 0
  }

  lemma {:induction false} DigitRunDigits(s: string, i: nat)
    requires i <= |s|
    ensures forall j :: i <= j < i + DigitRun(s, i) ==> IsDigit(s[j])
    decreases |s| - i
  {
    if i < |s| && IsDigit(s[i]) {
      DigitRunDigits(s, i + 1);
    }
  }

  /** After the `(?:,\d{3})*` groups that start at `j`. */
  function GroupsEnd(s: string, j: nat): (e: nat)
    requires j <= |s|
    ensures j <= e <= |s|
    decreases |s| - j
  {
    if j + 4 <= |s| && s[j] == ',' && DigitRun(s, j + 1) >= 3 then GroupsEnd(s, j + 4) else j
  }

  lemma {:induction false} GroupsEndChars(s: string, j: nat)
    requires j <= |s|
    ensures forall m :: j <= m < GroupsEnd(s, j) ==> NumberChar(s[m])
    decreases |s| - j
  {
    if j + 4 <= |s| && s[j] == ',' && DigitRun(s, j + 1) >= 3 {
      DigitRunDigits(s, j + 1);
      GroupsEndChars(s, j + 4);
    }
  }

  /** Where the `(?:,\d{3})*` groups may start: after at most three
      leading digits. */
  function GroupsStart(s: string, i: nat): (g: nat)
    requires i <= |s|
    ensures i <= g <= |s|
  {
    var run := DigitRun(s, i);
    i + (if run < 3 then run else 3)
  }

  /** After the optional `(?:\.\d+)?` fraction that may start at `j`. */
  function FractionEnd(s: string, j: nat): (e: nat)
    requires j <= |s|
    ensures j <= e <= |s|
  {
    if j + 1 < |s| && s[j] == '.' && IsDigit(s[j + 1]) then j + 1 + DigitRun(s, j + 1) else j
  }

  /** Where the number starting with the digit at `i` ends. The regex
      takes its optional parts greedily and never has to back off. */
  function NumberEnd(s: string, i: nat): (e: nat)
    requires i < |s| && IsDigit(s[i])
    ensures i < e <= |s|
  {
    FractionEnd(s, GroupsEnd(s, GroupsStart(s, i)))
  }

  lemma NumberEndChars(s: string, i: nat)
    requires i < |s| && IsDigit(s[i])
    ensures forall m :: i <= m < NumberEnd(s, i) ==> NumberChar(s[m])
  {
    DigitRunDigits(s, i);
    var g := GroupsStart(s, i);
    GroupsEndChars(s, g);
    var j := GroupsEnd(s, g);
    if j + 1 < |s| && s[j] == '.' && IsDigit(s[j + 1]) {
      DigitRunDigits(s, j + 1);
    }
  }

  datatype NumberToken = NumberToken(start: nat, text: string)

  /** The numbers found from `from` onwards; `re.search` is the first. */
  function NumberTokens(s: string, from: nat): (ts: seq<NumberToken>)
    requires from <= |s|
    ensures forall k :: 0 <= k < |ts| ==> from <= ts[k].start < |s| && NumberShaped(ts[k].text)
    ensures |ts| > 0 ==> IsDigit(s[ts[0].start]) && forall j :: from <= j < ts[0].start ==> !IsDigit(s[j])
    ensures |ts| == 0 ==> forall j :: from <= j < |s| ==> !IsDigit(s[j])
    decreases |s| - from
  {
    if from == |s| then []
    else if IsDigit(s[from]) then
      var e := NumberEnd(s, from);
      NumberEndChars(s, from);
      assert forall m :: 0 <= m < e - from ==> s[from..e][m] == s[from + m];
      [NumberToken(from, s[from..e])] + NumberTokens(s, e)
    else NumberTokens(s, from + 1)
  }

  // Reading the numbers

  /** Digits and dots only: what a matched number is once its commas go. */
  predicate DigitsAndDots(t: string) {
    forall j :: 0 <= j < |t| ==> IsDigit(t[j]) || t[j] == '.'
  }

  lemma {:induction false} ScrubNumber(t: string)
    requires forall j :: 0 <= j < |t| ==> NumberChar(t[j])
    ensures DigitsAndDots(Scrub(t))
    ensures |t| > 0 && IsDigit(t[0]) ==> |Scrub(t)| > 0 && Scrub(t)[0] == t[0]
  {
    if |t| > 0 {
      ScrubNumber(t[1..]);
    }
  }

  /** A matched number reads as `float` of its digits and dots: commas
      are dropped, and it has no sign or percent sign to act on. */
  lemma TokenValue(t: string, parseFloat: string -> Option<real>)
    requires NumberShaped(t)
    ensures CleanNumeric(Some(t), parseFloat) == parseFloat(Scrub(t)) && DigitsAndDots(Scrub(t))
  {
    ScrubNumber(t);
    var b := Scrub(t);
    CleanNumericIgnoresSeparators(t, parseFloat);
    assert !EndsWith(b, "%") by {
      assert b[|b| - 1] != '%';
    }
    PlainBodyClean(b, parseFloat);
  }

  /** The tokens that `clean_numeric_value` accepts, in order. */
  function ParsedNumbers(ts: seq<NumberToken>, parseFloat: string -> Option<real>): (ns: seq<real>)
    ensures |ns| <= |ts|
  {
    if |ts| == 0 then []
    else
      var rest := ParsedNumbers(ts[..|ts| - 1], parseFloat);
      match CleanNumeric(Some(ts[|ts| - 1].text), parseFloat)
      case None => rest
      case Some(x) => rest + [x]
  }

  /** `float` never reads a string of digits and dots as negative. */
  ghost predicate NonNegativeOnDigits(parseFloat: string -> Option<real>) {
    forall t :: DigitsAndDots(t) && parseFloat(t).Some? ==> parseFloat(t).value >= 0.0
  }

  /** The numbers of a row carry no sign, so with such a `float` none is
      negative. */
  lemma {:induction false} ParsedNumbersNonNegative(ts: seq<NumberToken>, parseFloat: string -> Option<real>)
    requires forall k :: 0 <= k < |ts| ==> NumberShaped(ts[k].text)
    requires NonNegativeOnDigits(parseFloat)
    ensures forall k :: 0 <= k < |ParsedNumbers(ts, parseFloat)| ==> ParsedNumbers(ts, parseFloat)[k] >= 0.0
  {
    if |ts| > 0 {
      ParsedNumbersNonNegative(ts[..|ts| - 1], parseFloat);
      TokenValue(ts[|ts| - 1].text, parseFloat);
    }
  }

  // One holding row

  /** A parsed holding. The two gain fields are absent (`None`) when the
      source does not set them. */
  datatype Holding = Holding(
    stockName: string,
    sector: string,
    quantity: real,
    costPrice: real,
    currentPrice: real,
    marketValue: real,
    portfolioPercentage: real,
    gainLossPercentage: Option<real>,
    gainLoss: Option<real>)

  /** `row_text.replace('\n', ' ')`: no line break is left, and every other
      character stays where it was. */
  function JoinLines(s: string): (r: string)
    ensures |r| == |s|
    ensures forall i :: 0 <= i < |r| ==> r[i] != '\n'
    ensures forall i :: 0 <= i < |s| && s[i] != '\n' ==> r[i] == s[i]
  {
    seq(|s|, i requires 0 <= i < |s| => if s[i] == '\n' then ' ' else s[i])
  }

  /** Replacing line breaks changes no word of the row: the name and the
      numbers are read from the same whitespace-separated words, and a
      second replacement changes nothing. */
  lemma JoinLinesKeepsWords(s: string)
    ensures Words(JoinLines(s)) == Words(s)
    ensures JoinLines(JoinLines(s)) == JoinLines(s)
  {
    assert Respaced(s, JoinLines(s));
    WordsIgnoreWhichSpace(s, JoinLines(s));
  }

  /** The row as `_parse_holding_row` reads it. */
  function RowLine(rowText: string): string {
    Strip(JoinLines(rowText))
  }

  /** The holding built from the numbers: numbers[3] (total cost) is
      skipped, and the gains are set only when the prices allow. */
  function BuildHolding(name: string, asset: string, ns: seq<real>): (h: Holding)
    requires |ns| >= 6
    ensures h.gainLossPercentage.Some? <==> ns[1] > 0.0 && ns[2] != 0.0
    ensures h.gainLossPercentage.Some? ==>
              h.gainLossPercentage.value * h.costPrice == (h.currentPrice - h.costPrice) * 100.0
    ensures h.gainLoss.Some? <==> h.gainLossPercentage.Some? && ns[0] != 0.0
    ensures h.gainLoss.Some? ==> h.gainLoss.value == (h.currentPrice - h.costPrice) * h.quantity
  {
    var qty, cost, current := ns[0], ns[1], ns[2];
    var gains := cost != 0.0 && current != 0.0 && cost > 0.0;
    Holding(name, asset, qty, cost, current, ns[4], ns[5],
            if gains then Some(((current - cost) / cost) * 100.0) else None,
            if gains && qty != 0.0 then Some((current - cost) * qty) else None)
  }

  /** The checks that follow the tokenising: at least six numbers read,
      and the last of them (not necessarily the sixth) at most 100. */
  function HoldingFromNumbers(name: string, asset: string, ns: seq<real>): (r: Option<Holding>)
    ensures r.Some? <==> |ns| >= 6 && ns[|ns| - 1] <= 100.0
    ensures r.Some? ==> r == Some(BuildHolding(name, asset, ns))
  {
    if |ns| < 6 then None
    else if ns[|ns| - 1] > 100.0 then None
    else Some(BuildHolding(name, asset, ns))
  }

  lemma HoldingFromNumbersFields(name: string, asset: string, ns: seq<real>)
    requires HoldingFromNumbers(name, asset, ns).Some?
    ensures var h := HoldingFromNumbers(name, asset, ns).value;
            && |ns| >= 6 && ns[|ns| - 1] <= 100.0
            && h.quantity == ns[0] && h.costPrice == ns[1] && h.currentPrice == ns[2]
            && h.marketValue == ns[4] && h.portfolioPercentage == ns[5]
  {
  }

  /** The name part: everything before the first number, stripped. */
  function NamePart(line: string, ts: seq<NumberToken>): string
    requires |ts| > 0 && ts[0].start <= |line|
  {
    Strip(line[..ts[0].start])
  }

  /** `_parse_holding_row` after the empty-row check, on the row with its
      line breaks joined and stripped. */
  function ParseLine(line: string, asset: string, parseFloat: string -> Option<real>): (r: Option<Holding>)
    ensures r.Some? ==> r.value.sector == asset && |r.value.stockName| > 0 && Collapsed(r.value.stockName)
  {
    if IsColumnHeaderRow(line) || AssetTypeHeader(line).Some? then None
    else
      var ts := NumberTokens(line, 0);
      if |ts| < 6 then None
      else
        var name := NamePart(line, ts);
        if |name| < 2 then None
        else
          NormalizeStockNameShape(name);
          StripStripped(name);
          NormalizeStockNameNonEmpty(name);
          HoldingFromNumbers(NormalizeStockName(name), asset, ParsedNumbers(ts, parseFloat))
  }

  /** `_parse_holding_row`. `parseFloat` is Python's `float`. */
  function ParseHoldingRow(rowText: string, asset: string, parseFloat: string -> Option<real>): (r: Option<Holding>)
    ensures r.Some? ==> r.value.sector == asset && |r.value.stockName| > 0 && Collapsed(r.value.stockName)
  {
    if rowText == "" then None else ParseLine(RowLine(rowText), asset, parseFloat)
  }

  /** The name of a row with at least one number, as read. */
  function RowName(rowText: string): string
    requires |NumberTokens(RowLine(rowText), 0)| > 0
  {
    NormalizeStockName(NamePart(RowLine(rowText), NumberTokens(RowLine(rowText), 0)))
  }

  /** The numbers of a row, as read. */
  function RowNumbers(rowText: string, parseFloat: string -> Option<real>): seq<real> {
    ParsedNumbers(NumberTokens(RowLine(rowText), 0), parseFloat)
  }

  /** An accepted row is the holding built from its numbers, named after
      the normalised text before its first digit. */
  lemma ParseLineAccepted(line: string, asset: string, parseFloat: string -> Option<real>)
    requires ParseLine(line, asset, parseFloat).Some?
    ensures var ts := NumberTokens(line, 0);
            && |ts| >= 6 && |NamePart(line, ts)| >= 2
            && HoldingFromNumbers(NormalizeStockName(NamePart(line, ts)), asset, ParsedNumbers(ts, parseFloat))
               == ParseLine(line, asset, parseFloat)
  {
  }

  /** The converse of `ParseLineAccepted`: a line that is neither kind of
      header, has at least six numbers and a name part of two or more
      characters, and whose numbers pass the checks, yields the holding
      built from them. */
  lemma ParseLineAcceptsWellFormed(line: string, asset: string, parseFloat: string -> Option<real>)
    requires !IsColumnHeaderRow(line) && AssetTypeHeader(line).None?
    requires |NumberTokens(line, 0)| >= 6
    requires |NamePart(line, NumberTokens(line, 0))| >= 2
    requires var ts := NumberTokens(line, 0);
             HoldingFromNumbers(NormalizeStockName(NamePart(line, ts)), asset, ParsedNumbers(ts, parseFloat)).Some?
    ensures var ts := NumberTokens(line, 0);
            ParseLine(line, asset, parseFloat)
            == Some(BuildHolding(NormalizeStockName(NamePart(line, ts)), asset, ParsedNumbers(ts, parseFloat)))
  {
  }

  /** The same for a whole row: a non-empty row whose joined and stripped
      line is well formed yields a holding. */
  lemma ParseHoldingRowAcceptsWellFormed(rowText: string, asset: string, parseFloat: string -> Option<real>)
    requires rowText != ""
    requires !IsColumnHeaderRow(RowLine(rowText)) && AssetTypeHeader(RowLine(rowText)).None?
    requires |NumberTokens(RowLine(rowText), 0)| >= 6
    requires |NamePart(RowLine(rowText), NumberTokens(RowLine(rowText), 0))| >= 2
    requires HoldingFromNumbers(RowName(rowText), asset, RowNumbers(rowText, parseFloat)).Some?
    ensures ParseHoldingRow(rowText, asset, parseFloat)
            == Some(BuildHolding(RowName(rowText), asset, RowNumbers(rowText, parseFloat)))
  {
    var line := RowLine(rowText);
    assert RowNumbers(rowText, parseFloat) == ParsedNumbers(NumberTokens(line, 0), parseFloat);
    ParseLineAcceptsWellFormed(line, asset, parseFloat);
  }

  /** Field mapping: quantity, average cost, market rate, market value and
      portfolio share are numbers 0, 1, 2, 4 and 5 (number 3, the total
      cost, is skipped), and the last number is at most 100. */
  lemma ParseHoldingRowFields(rowText: string, asset: string, parseFloat: string -> Option<real>)
    requires ParseHoldingRow(rowText, asset, parseFloat).Some?
    ensures var h := ParseHoldingRow(rowText, asset, parseFloat).value;
            var ns := RowNumbers(rowText, parseFloat);
            && |ns| >= 6 && ns[|ns| - 1] <= 100.0
            && h.quantity == ns[0] && h.costPrice == ns[1] && h.currentPrice == ns[2]
            && h.marketValue == ns[4] && h.portfolioPercentage == ns[5]
  {
    var line := RowLine(rowText);
    var ts := NumberTokens(line, 0);
    var ns := ParsedNumbers(ts, parseFloat);
    assert RowNumbers(rowText, parseFloat) == ns;
    assert ParseHoldingRow(rowText, asset, parseFloat) == ParseLine(line, asset, parseFloat);
    ParseLineAccepted(line, asset, parseFloat);
    var name := NormalizeStockName(NamePart(line, ts));
    HoldingFromNumbersFields(name, asset, ns);
  }

  /** The name is the normalised text before the first number, which
      holds no digit and is at least two characters long once stripped. */
  lemma ParseHoldingRowName(rowText: string, asset: string, parseFloat: string -> Option<real>)
    requires ParseHoldingRow(rowText, asset, parseFloat).Some?
    ensures var line := RowLine(rowText);
            var ts := NumberTokens(line, 0);
            && |ts| >= 6 && |NamePart(line, ts)| >= 2
            && ParseHoldingRow(rowText, asset, parseFloat).value.stockName == NormalizeStockName(NamePart(line, ts))
            && forall j :: 0 <= j < ts[0].start ==> !IsDigit(line[j])
  {
    ParseLineAccepted(RowLine(rowText), asset, parseFloat);
  }

  /** Header rows, asset-type rows and rows with fewer than six numbers
      never yield a holding. */
  lemma ParseHoldingRowRejects(rowText: string, asset: string, parseFloat: string -> Option<real>)
    requires || IsColumnHeaderRow(RowLine(rowText))
             || AssetTypeHeader(RowLine(rowText)).Some?
             || |NumberTokens(RowLine(rowText), 0)| < 6
             || |RowNumbers(rowText, parseFloat)| < 6
    ensures ParseHoldingRow(rowText, asset, parseFloat).None?
  {
    if ParseHoldingRow(rowText, asset, parseFloat).Some? {
      ParseLineAccepted(RowLine(rowText), asset, parseFloat);
    }
  }

  /** Only the last number is range-checked: with more than six numbers,
      the sixth (the portfolio share) can be anything at all and the row
      is still accepted with exactly that share. */
  lemma PercentageCheckIsOnLastNumber(name: string, asset: string, ns: seq<real>, x: real)
    requires |ns| > 6
    ensures HoldingFromNumbers(name, asset, ns[5 := x]).Some? == HoldingFromNumbers(name, asset, ns).Some?
    ensures HoldingFromNumbers(name, asset, ns[5 := x]).Some? ==>
              HoldingFromNumbers(name, asset, ns[5 := x]).value.portfolioPercentage == x
  {
  }

  // The holding as a dictionary, for validation

  function OptionalNum(v: Option<real>): BaseParser.Value {
    match v
    case None => BaseParser.NoneValue
    case Some(x) => BaseParser.Num(x)
  }

  /** The dictionary `_parse_holding_row` returns; an unset gain field is
      an absent key, which reads as `None`. */
  function HoldingRecord(h: Holding): (r: BaseParser.Record)
    ensures BaseParser.Get(r, "stock_name") == BaseParser.Str(h.stockName)
    ensures BaseParser.Get(r, "portfolio_percentage") == BaseParser.Num(h.portfolioPercentage)
    ensures BaseParser.Get(r, "market_value") == BaseParser.Num(h.marketValue)
    ensures BaseParser.Get(r, "sector") == BaseParser.Str(h.sector)
    ensures BaseParser.Get(r, "quantity") == BaseParser.Num(h.quantity)
    ensures BaseParser.Get(r, "cost_price") == BaseParser.Num(h.costPrice)
    ensures BaseParser.Get(r, "current_price") == BaseParser.Num(h.currentPrice)
    ensures BaseParser.Get(r, "gain_loss_percentage") == OptionalNum(h.gainLossPercentage)
    ensures BaseParser.Get(r, "gain_loss") == OptionalNum(h.gainLoss)
  {
    var base := map[
      "stock_name" := BaseParser.Str(h.stockName),
      "sector" := BaseParser.Str(h.sector),
      "quantity" := BaseParser.Num(h.quantity),
      "cost_price" := BaseParser.Num(h.costPrice),
      "current_price" := BaseParser.Num(h.currentPrice),
      "market_value" := BaseParser.Num(h.marketValue),
      "portfolio_percentage" := BaseParser.Num(h.portfolioPercentage)];
    var withPct := if h.gainLossPercentage.Some? then base["gain_loss_percentage" := BaseParser.Num(h.gainLossPercentage.value)] else base;
    if h.gainLoss.Some? then withPct["gain_loss" := BaseParser.Num(h.gainLoss.value)] else withPct
  }

  /** A parsed holding passes validation exactly when its name is
      non-empty and its portfolio share lies in [0, 100]. */
  lemma HoldingRecordValid(h: Holding)
    ensures BaseParser.Valid(HoldingRecord(h)) <==> h.stockName != "" && 0.0 <= h.portfolioPercentage <= 100.0
  {
    var r := HoldingRecord(h);
    forall k | 0 <= k < |BaseParser.NumericFields|
      ensures BaseParser.TypeOk(r, BaseParser.NumericFields[k])
    {
    }
  }

  /** With exactly six numbers the range check does fall on the portfolio
      share, so a row read by a `float` that never turns digits negative
      yields a holding that validates. */
  lemma SixNumbersValidate(rowText: string, asset: string, parseFloat: string -> Option<real>)
    requires ParseHoldingRow(rowText, asset, parseFloat).Some?
    requires |RowNumbers(rowText, parseFloat)| == 6
    requires NonNegativeOnDigits(parseFloat)
    ensures BaseParser.Valid(HoldingRecord(ParseHoldingRow(rowText, asset, parseFloat).value))
  {
    var h := ParseHoldingRow(rowText, asset, parseFloat).value;
    ParseHoldingRowFields(rowText, asset, parseFloat);
    ParsedNumbersNonNegative(NumberTokens(RowLine(rowText), 0), parseFloat);
    HoldingRecordValid(h);
  }

  // The row state machine of `extract_holdings`

  /** The text of a row: its first cell that is non-empty once stripped,
      stripped; empty when there is none. */
  function FirstCellText(row: seq<Cell>): (r: string)
    ensures r == "" <==> forall i :: 0 <= i < |row| ==> row[i].None? || Strip(row[i].value) == ""
  {
    if |row| == 0 then ""
    else if row[0].Some? && Strip(row[0].value) != "" then Strip(row[0].value)
    else FirstCellText(row[1..])
  }

  /** A cell that contributes no row text: `None`, or blank once stripped. */
  predicate BlankCell(c: Cell) {
    c.None? || Strip(c.value) == ""
  }

  predicate NonBlankCell(c: Cell) {
    !BlankCell(c)
  }

  /** The row text against a reference definition: the stripped cell at
      the first non-blank position, found by the generic first-match
      search, or empty when every cell is blank. */
  lemma {:induction false} FirstCellTextIsFirstMatch(row: seq<Cell>)
    ensures var k := Sorting.FirstMatchIndex(row, NonBlankCell);
            FirstCellText(row) == (if k.None? then "" else Strip(row[k.value].value))
  {
    if |row| > 0 && BlankCell(row[0]) {
      FirstCellTextIsFirstMatch(row[1..]);
    }
  }

  /** The row text is the first non-blank cell, stripped: a non-empty text
      comes from some cell with only blank cells before it, and any such
      cell gives the text. */
  lemma FirstCellTextIsFirst(row: seq<Cell>)
    ensures FirstCellText(row) != "" ==>
              exists i :: 0 <= i < |row| && !BlankCell(row[i]) && Strip(row[i].value) == FirstCellText(row)
                          && forall j :: 0 <= j < i ==> BlankCell(row[j])
    ensures forall i :: 0 <= i < |row| && !BlankCell(row[i]) && (forall j :: 0 <= j < i ==> BlankCell(row[j]))
                        ==> FirstCellText(row) == Strip(row[i].value)
  {
    FirstCellTextIsFirstMatch(row);
    var k := Sorting.FirstMatchIndex(row, NonBlankCell);
    if k.Some? {
      var m := k.value;
      assert !BlankCell(row[m]) && forall j :: 0 <= j < m ==> BlankCell(row[j]);
      forall i | 0 <= i < |row| && !BlankCell(row[i]) && (forall j :: 0 <= j < i ==> BlankCell(row[j]))
        ensures i == m
      {
      }
    } else {
      forall i | 0 <= i < |row| ensures BlankCell(row[i]) {
        assert !NonBlankCell(row[i]);
      }
    }
  }

  /** The row texts of all tables, in order; empty tables and rows
      contribute nothing that is ever used. */
  function RowTexts(tables: seq<seq<seq<Cell>>>): (texts: seq<string>)
  {
    if |tables| == 0 then []
    else seq(|tables[0]|, i requires 0 <= i < |tables[0]| => FirstCellText(tables[0][i])) + RowTexts(tables[1..])
  }

  /** The loop visits the tables one after the other: the texts of two runs
      of tables are the texts of the first run followed by those of the
      second. */
  lemma {:induction false} RowTextsConcat(a: seq<seq<seq<Cell>>>, b: seq<seq<seq<Cell>>>)
    ensures RowTexts(a + b) == RowTexts(a) + RowTexts(b)
    decreases |a|
  {
    if |a| == 0 {
      assert a + b == b;
    } else {
      assert (a + b)[0] == a[0];
      assert (a + b)[1..] == a[1..] + b;
      RowTextsConcat(a[1..], b);
    }
  }

  /** Within one table, the texts are the rows' texts, one per row, in row
      order. */
  lemma RowTextsOfTable(table: seq<seq<Cell>>)
    ensures |RowTexts([table])| == |table|
    ensures forall i :: 0 <= i < |table| ==> RowTexts([table])[i] == FirstCellText(table[i])
  {
    assert [table][1..] == [];
  }

  /** What the loop makes of a row, in the order it asks. */
  datatype RowKind = Blank | SectionStart | AssetHeader(title: string) | ColumnHeader | DataRow

  function Classify(text: string): (k: RowKind)
    ensures k.AssetHeader? ==> |k.title| > 0
  {
    if text == "" then Blank
    else if IsHoldingSectionStart(text) then SectionStart
    else match AssetTypeHeader(text)
      case Some(a) => AssetHeader(a)
      case None => if IsColumnHeaderRow(text) then ColumnHeader else DataRow
  }

  /** A row's text and kind. */
  datatype Row = Row(text: string, kind: RowKind)

  function Classified(texts: seq<string>): (rows: seq<Row>)
    ensures |rows| == |texts|
    ensures forall i :: 0 <= i < |texts| ==> rows[i] == Row(texts[i], Classify(texts[i]))
  {
    seq(|texts|, i requires 0 <= i < |texts| => Row(texts[i], Classify(texts[i])))
  }

  /** Holding-section flag, current asset type, holdings so far. */
  datatype ExtractState = ExtractState(inSection: bool, assetType: string, holdings: seq<Holding>)

  /** A row parser: row text and asset type in, holding or nothing out.
      The loop lemmas hold for any such parser. */
  type RowParser = (string, string) -> Option<Holding>

  /** One row of the loop. */
  function ExtractStep(st: ExtractState, row: Row, parse: RowParser): ExtractState {
    match row.kind
    case Blank => st
    case SectionStart => st.(inSection := true)
    case AssetHeader(a) => if st.inSection then st.(assetType := a) else st
    case ColumnHeader => st
    case DataRow =>
      if !st.inSection then st
      else match parse(row.text, st.assetType)
        case Some(h) => st.(holdings := st.holdings + [h])
        case None => st
  }

  /** The state after the first `n` rows. */
  function ExtractAfter(rows: seq<Row>, parse: RowParser, n: nat): ExtractState
    requires n <= |rows|
  {
    if n == 0 then ExtractState(false, "Shares", [])
    else ExtractStep(ExtractAfter(rows, parse, n - 1), rows[n - 1], parse)
  }

  /** `extract_holdings`, with `_parse_holding_row` as the row parser. */
  function ExtractHoldings(tables: seq<seq<seq<Cell>>>, parseFloat: string -> Option<real>): seq<Holding> {
    var rows := Classified(RowTexts(tables));
    ExtractAfter(rows, (text, asset) => ParseHoldingRow(text, asset, parseFloat), |rows|).holdings
  }

  /** Some row before `n` opens the holdings section. */
  ghost predicate SectionStarted(rows: seq<Row>, n: nat) {
    exists j :: 0 <= j < n && j < |rows| && rows[j].kind == SectionStart
  }

  /** The asset type in force after `n` rows, defined from the rows: the
      title of the last header row inside the section, or "Shares". */
  ghost function LastHeader(rows: seq<Row>, n: nat): string
    requires n <= |rows|
  {
    if n == 0 then "Shares"
    else if SectionStarted(rows, n - 1) && rows[n - 1].kind.AssetHeader? then rows[n - 1].kind.title
    else LastHeader(rows, n - 1)
  }

  lemma SectionStartedStep(rows: seq<Row>, n: nat)
    requires 0 < n <= |rows|
    ensures SectionStarted(rows, n) <==> SectionStarted(rows, n - 1) || rows[n - 1].kind == SectionStart
  {
    if SectionStarted(rows, n) && rows[n - 1].kind != SectionStart {
      var j :| 0 <= j < n && j < |rows| && rows[j].kind == SectionStart;
      assert j < n - 1;
    }
  }

  /** The loop is inside the section exactly when an earlier row opened
      it. */
  lemma {:induction false} ExtractInSection(rows: seq<Row>, parse: RowParser, n: nat)
    requires n <= |rows|
    ensures ExtractAfter(rows, parse, n).inSection <==> SectionStarted(rows, n)
  {
    if n > 0 {
      ExtractInSection(rows, parse, n - 1);
      SectionStartedStep(rows, n);
    }
  }

  /** The asset type in force is the last header seen inside the
      section. */
  lemma {:induction false} ExtractAssetType(rows: seq<Row>, parse: RowParser, n: nat)
    requires n <= |rows|
    ensures ExtractAfter(rows, parse, n).assetType == LastHeader(rows, n)
  {
    if n > 0 {
      ExtractAssetType(rows, parse, n - 1);
      ExtractInSection(rows, parse, n - 1);
    }
  }

  /** Nothing is collected before the section opens. */
  lemma {:induction false} NothingBeforeSection(rows: seq<Row>, parse: RowParser, n: nat)
    requires n <= |rows| && !SectionStarted(rows, n)
    ensures ExtractAfter(rows, parse, n).holdings == []
    ensures ExtractAfter(rows, parse, n).assetType == "Shares"
  {
    if n > 0 {
      SectionStartedStep(rows, n);
      NothingBeforeSection(rows, parse, n - 1);
      ExtractInSection(rows, parse, n - 1);
    }
  }

  /** Holdings are only ever appended: each earlier list is a prefix of
      every later one. */
  lemma {:induction false} HoldingsGrow(rows: seq<Row>, parse: RowParser, m: nat, n: nat)
    requires m <= n <= |rows|
    ensures ExtractAfter(rows, parse, m).holdings <= ExtractAfter(rows, parse, n).holdings
    decreases n - m
  {
    if m < n {
      HoldingsGrow(rows, parse, m, n - 1);
    }
  }

  /** Row `n` emits `h`: a data row inside the section that parses to `h`
      under the asset type then in force. */
  ghost predicate EmittedAt(rows: seq<Row>, parse: RowParser, h: Holding, n: nat)
    requires n < |rows|
  {
    && SectionStarted(rows, n)
    && rows[n].kind == DataRow
    && parse(rows[n].text, LastHeader(rows, n)) == Some(h)
  }

  /** Some row before `n` emits `h`. */
  ghost predicate EmittedBefore(rows: seq<Row>, parse: RowParser, h: Holding, n: nat)
    requires n <= |rows|
  {
    exists m :: 0 <= m < n && EmittedAt(rows, parse, h, m)
  }

  /** A row adds at most one holding, and when it adds one that holding
      comes from that row, under the most recent header. Conversely, a row
      that emits a holding has it appended, and a row that emits none
      leaves the holdings as they were. */
  lemma ExtractStepEmits(rows: seq<Row>, parse: RowParser, n: nat)
    requires n < |rows|
    ensures var before := ExtractAfter(rows, parse, n).holdings;
            var after := ExtractAfter(rows, parse, n + 1).holdings;
            || after == before
            || (|after| == |before| + 1 && after == before + [after[|before|]]
                && EmittedAt(rows, parse, after[|before|], n))
    ensures forall h :: EmittedAt(rows, parse, h, n) ==>
              ExtractAfter(rows, parse, n + 1).holdings == ExtractAfter(rows, parse, n).holdings + [h]
    ensures (forall h :: !EmittedAt(rows, parse, h, n)) ==>
              ExtractAfter(rows, parse, n + 1).holdings == ExtractAfter(rows, parse, n).holdings
  {
    ExtractInSection(rows, parse, n);
    ExtractAssetType(rows, parse, n);
    var st := ExtractAfter(rows, parse, n);
    if SectionStarted(rows, n) && rows[n].kind == DataRow && parse(rows[n].text, st.assetType).Some? {
      assert EmittedAt(rows, parse, parse(rows[n].text, st.assetType).value, n);
    }
  }

  /** What the rows before `n` emit, in row order, defined from the rows
      alone: each data row inside the section contributes the holding it
      parses to under the header then in force. */
  ghost function EmittedUpTo(rows: seq<Row>, parse: RowParser, n: nat): seq<Holding>
    requires n <= |rows|
  {
    if n == 0 then []
    else
      var k := n - 1;
      var emitted := if SectionStarted(rows, k) && rows[k].kind == DataRow
                     then parse(rows[k].text, LastHeader(rows, k)) else None;
      EmittedUpTo(rows, parse, k) + (if emitted.Some? then [emitted.value] else [])
  }

  /** The holdings collected are exactly the holdings the rows emit, in row
      order: none is dropped and none is added. */
  lemma {:induction false} ExtractCollectsEmitted(rows: seq<Row>, parse: RowParser, n: nat)
    requires n <= |rows|
    ensures ExtractAfter(rows, parse, n).holdings == EmittedUpTo(rows, parse, n)
  {
    if n > 0 {
      ExtractCollectsEmitted(rows, parse, n - 1);
      ExtractInSection(rows, parse, n - 1);
      ExtractAssetType(rows, parse, n - 1);
    }
  }

  lemma EmittedBeforeLater(rows: seq<Row>, parse: RowParser, h: Holding, n: nat)
    requires n < |rows| && EmittedBefore(rows, parse, h, n)
    ensures EmittedBefore(rows, parse, h, n + 1)
  {
    var m :| 0 <= m < n && EmittedAt(rows, parse, h, m);
    assert 0 <= m < n + 1 && EmittedAt(rows, parse, h, m);
  }

  /** Every collected holding was emitted by some data row inside the
      section, parsed under the most recent header before that row. */
  lemma {:induction false} ExtractOrigins(rows: seq<Row>, parse: RowParser, n: nat)
    requires n <= |rows|
    ensures var hs := ExtractAfter(rows, parse, n).holdings;
            forall i :: 0 <= i < |hs| ==> EmittedBefore(rows, parse, hs[i], n)
  {
    if n > 0 {
      ExtractOrigins(rows, parse, n - 1);
      ExtractStepEmits(rows, parse, n - 1);
      var before := ExtractAfter(rows, parse, n - 1).holdings;
      var hs := ExtractAfter(rows, parse, n).holdings;
      forall i | 0 <= i < |hs| ensures EmittedBefore(rows, parse, hs[i], n) {
        if i < |before| {
          assert hs[i] == before[i];
          EmittedBeforeLater(rows, parse, before[i], n - 1);
        } else {
          assert 0 <= n - 1 < n && EmittedAt(rows, parse, hs[i], n - 1);
        }
      }
    }
  }

  /** With `_parse_holding_row` as the parser, an emitted holding's sector
      is the header in force at its row. */
  lemma EmittedSector(rows: seq<Row>, parseFloat: string -> Option<real>, h: Holding, n: nat)
    requires n < |rows|
    requires EmittedAt(rows, (text, asset) => ParseHoldingRow(text, asset, parseFloat), h, n)
    ensures h.sector == LastHeader(rows, n)
  {
  }
}
