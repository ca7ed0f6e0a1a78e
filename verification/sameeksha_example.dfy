/**
 * The example row of the Sameeksha parser's documentation, parsed
 * through the general row lemmas.
 */
module SameekshaExample {
  import opened Wrappers
  import opened Text
  import opened PdfUtils
  import opened Sameeksha
  import opened SameekshaRows

  /** The documented row: its name and its six numbers as printed. */
  const CoromandelName := "Coromandel International Ltd"
  const CoromandelNumbers := ["40.00", "2,245.79", "2,382.10", "89,831.57", "95,284.00", "0.19"]

  /** Dropping the one comma of a number. */
  lemma ScrubComma(t: string, a: string, b: string, plain: string)
    requires t == a + "," + b && plain == a + b && DigitsAndDots(a) && DigitsAndDots(b)
    ensures Scrub(t) == plain
  {
    ScrubConcat(a + ",", b);
    ScrubConcat(a, ",");
    DigitsAndDotsScrub(a);
    DigitsAndDotsScrub(b);
    ScrubDropsRemovable(',');
    assert [','] == ",";
  }

  /** Digits and dots survive the scrub. */
  lemma DigitsAndDotsScrub(t: string)
    requires DigitsAndDots(t)
    ensures Scrub(t) == t
  {
    forall i | 0 <= i < |t| ensures !Removable(t[i]) {
      assert IsDigit(t[i]) || t[i] == '.';
    }
    ScrubKeepsClean(t);
  }

  /** `AllWhole` grows by one number at the front. */
  lemma AllWholeCons(t: string, rest: seq<string>)
    requires WholeNumber(t) && AllWhole(rest)
    ensures AllWhole([t] + rest)
  {
    assert ([t] + rest)[1..] == rest;
  }

  // Each number is read whole, and its scrubbed form.

  lemma QuantityWhole()
    ensures WholeNumber("40.00")
  {
  }

  lemma QuantityScrub()
    ensures Scrub("40.00") == "40.00"
  {
  }

  lemma CostPriceWhole()
    ensures WholeNumber("2,245.79")
  {
  }

  lemma CostPriceScrub()
    ensures Scrub("2,245.79") == "2245.79"
  {
    ScrubComma("2,245.79", "2", "245.79", "2245.79");
  }

  lemma CurrentPriceWhole()
    ensures WholeNumber("2,382.10")
  {
  }

  lemma CurrentPriceScrub()
    ensures Scrub("2,382.10") == "2382.10"
  {
    ScrubComma("2,382.10", "2", "382.10", "2382.10");
  }

  lemma TotalCostWhole()
    ensures WholeNumber("89,831.57")
  {
  }

  lemma TotalCostScrub()
    ensures Scrub("89,831.57") == "89831.57"
  {
    ScrubComma("89,831.57", "89", "831.57", "89831.57");
  }

  lemma MarketValueWhole()
    ensures WholeNumber("95,284.00")
  {
  }

  lemma MarketValueScrub()
    ensures Scrub("95,284.00") == "95284.00"
  {
    ScrubComma("95,284.00", "95", "284.00", "95284.00");
  }

  lemma PercentageWhole()
    ensures WholeNumber("0.19")
  {
  }

  lemma PercentageScrub()
    ensures Scrub("0.19") == "0.19"
  {
  }

  /** The pattern reads each of the six numbers whole. */
  lemma CoromandelWhole()
    ensures AllWhole(CoromandelNumbers)
  {
    assert AllWhole([]);
    PercentageWhole();
    AllWholeCons("0.19", []);
    MarketValueWhole();
    AllWholeCons("95,284.00", ["0.19"]);
    TotalCostWhole();
    AllWholeCons("89,831.57", ["95,284.00", "0.19"]);
    CurrentPriceWhole();
    AllWholeCons("2,382.10", ["89,831.57", "95,284.00", "0.19"]);
    CostPriceWhole();
    AllWholeCons("2,245.79", ["2,382.10", "89,831.57", "95,284.00", "0.19"]);
    QuantityWhole();
    AllWholeCons("40.00", ["2,245.79", "2,382.10", "89,831.57", "95,284.00", "0.19"]);
  }

  /** The name is plain and holds no letter q. */
  lemma CoromandelNamePlain()
    ensures PlainName(CoromandelName)
    ensures forall j :: 0 <= j < |CoromandelName| ==> CoromandelName[j] != 'q' && CoromandelName[j] != 'Q'
  {
  }

  /** The values the six numbers stand for. */
  const CoromandelValues: seq<real> := [40.0, 2245.79, 2382.10, 89831.57, 95284.0, 0.19]

  /** Given that `float` reads the six scrubbed numbers as written, each
      number reads as its value. */
  lemma CoromandelReads(parseFloat: string -> Option<real>)
    requires parseFloat("40.00") == Some(40.0) && parseFloat("2245.79") == Some(2245.79)
    requires parseFloat("2382.10") == Some(2382.10) && parseFloat("89831.57") == Some(89831.57)
    requires parseFloat("95284.00") == Some(95284.0) && parseFloat("0.19") == Some(0.19)
    ensures ReadAs(CoromandelNumbers, CoromandelValues, parseFloat)
  {
    assert ReadAs([], [], parseFloat);
    PercentageScrub();
    ReadAsCons("0.19", [], 0.19, [], parseFloat);
    MarketValueScrub();
    ReadAsCons("95,284.00", ["0.19"], 95284.0, [0.19], parseFloat);
    TotalCostScrub();
    ReadAsCons("89,831.57", ["95,284.00", "0.19"], 89831.57, [95284.0, 0.19], parseFloat);
    CurrentPriceScrub();
    ReadAsCons("2,382.10", ["89,831.57", "95,284.00", "0.19"], 2382.10, [89831.57, 95284.0, 0.19], parseFloat);
    CostPriceScrub();
    ReadAsCons("2,245.79", ["2,382.10", "89,831.57", "95,284.00", "0.19"],
               2245.79, [2382.10, 89831.57, 95284.0, 0.19], parseFloat);
    QuantityScrub();
    ReadAsCons("40.00", ["2,245.79", "2,382.10", "89,831.57", "95,284.00", "0.19"],
               40.0, [2245.79, 2382.10, 89831.57, 95284.0, 0.19], parseFloat);
  }

  /** The documented name loses its " Ltd": the suffix check is on the
      upper-case form, so " Ltd" matches " LTD", the first listed suffix. */
  lemma CoromandelNameNormalizes()
    ensures NormalizeStockName(CoromandelName) == "Coromandel International"
  {
    var w := "Coromandel International";
    WordCollapsed("Coromandel");
    WordCollapsed("International");
    JoinCollapsed("Coromandel", "International");
    assert "Coromandel" + " " + "International" == w;
    assert w + " Ltd" == CoromandelName;
    assert Upper(" Ltd") == CompanySuffixes[0];
    assert " Ltd"[1..] == "Ltd";
    NormalizeStripsSuffixAnyCase(w, " Ltd", 0);
  }

  /** The example row of the parser's documentation, "Coromandel
      International Ltd 40.00 2,245.79 2,382.10 89,831.57 95,284.00 0.19",
      parses to 40 shares bought at 2245.79 and now at 2382.10, worth
      95284.00 and 0.19% of the portfolio, under the name "Coromandel
      International", given that `float` reads the
      six numbers as written. */
  lemma CoromandelRowParses(asset: string, parseFloat: string -> Option<real>)
    requires parseFloat("40.00") == Some(40.0) && parseFloat("2245.79") == Some(2245.79)
    requires parseFloat("2382.10") == Some(2382.10) && parseFloat("89831.57") == Some(89831.57)
    requires parseFloat("95284.00") == Some(95284.0) && parseFloat("0.19") == Some(0.19)
    ensures ParseHoldingRow(SpacedRow(CoromandelName, CoromandelNumbers), asset, parseFloat)
            == Some(BuildHolding(NormalizeStockName(CoromandelName), asset, CoromandelValues))
    ensures NormalizeStockName(CoromandelName) == "Coromandel International"
  {
    CoromandelNameNormalizes();
    CoromandelNamePlain();
    CoromandelWhole();
    CoromandelReads(parseFloat);
    SpacedRowNotHeader(CoromandelName, CoromandelNumbers);
    SpacedRowParses(CoromandelName, CoromandelNumbers, CoromandelValues, asset, parseFloat);
  }
}
