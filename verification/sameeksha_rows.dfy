/**
 * Rows the Sameeksha holding parser accepts. A row written as a plain
 * name followed by numbers, each after one space, is tokenized into
 * exactly those numbers, read into their values, and parsed into the
 * holding built from them: the converse of the rejection lemmas, stated
 * for a whole family of rows rather than one.
 */
module SameekshaRows {
  import opened Wrappers
  import opened Text
  import opened PdfUtils
  import opened Sameeksha

  /** From `a`, `s` reads like `u` for `n` characters, and both stop
      there: at their end or at a character no number holds. */
  ghost predicate ReadsAlike(s: string, a: nat, u: string, n: nat) {
    && a + n <= |s| && n <= |u|
    && (forall m :: 0 <= m < n ==> s[a + m] == u[m])
    && (a + n == |s| || !NumberChar(s[a + n]))
    && (n == |u| || !NumberChar(u[n]))
  }

  /** Digit runs at the same place agree. */
  lemma {:induction false} DigitRunAlike(s: string, a: nat, u: string, n: nat, k: nat)
    requires ReadsAlike(s, a, u, n) && k <= n
    ensures DigitRun(s, a + k) == DigitRun(u, k) && k + DigitRun(u, k) <= n
    decreases n - k
  {
    if k < n && IsDigit(u[k]) {
      DigitRunAlike(s, a, u, n, k + 1);
    }
  }

  /** The comma groups end at the same place. */
  lemma {:induction false} GroupsEndAlike(s: string, a: nat, u: string, n: nat, j: nat)
    requires ReadsAlike(s, a, u, n) && j <= n
    ensures GroupsEnd(s, a + j) == a + GroupsEnd(u, j) && GroupsEnd(u, j) <= n
    decreases n - j
  {
    if j < n && u[j] == ',' {
      DigitRunAlike(s, a, u, n, j + 1);
      if DigitRun(u, j + 1) >= 3 {
        GroupsEndAlike(s, a, u, n, j + 4);
      }
    }
  }

  /** The comma groups start at the same place. */
  lemma GroupsStartAlike(s: string, a: nat, u: string, n: nat, i: nat)
    requires ReadsAlike(s, a, u, n) && i <= n
    ensures GroupsStart(s, a + i) == a + GroupsStart(u, i) && GroupsStart(u, i) <= n
  {
    DigitRunAlike(s, a, u, n, i);
  }

  /** The fraction ends at the same place. */
  lemma FractionEndAlike(s: string, a: nat, u: string, n: nat, j: nat)
    requires ReadsAlike(s, a, u, n) && j <= n
    ensures FractionEnd(s, a + j) == a + FractionEnd(u, j) && FractionEnd(u, j) <= n
  {
    if j + 1 < n {
      DigitRunAlike(s, a, u, n, j + 1);
    }
  }

  /** The number pattern's match at a digit depends only on the
      characters up to the stop: it ends at the same place in `s` as in
      `u`. */
  lemma NumberEndAlike(s: string, a: nat, u: string, n: nat, i: nat)
    requires ReadsAlike(s, a, u, n) && i < n && IsDigit(u[i])
    ensures IsDigit(s[a + i]) && NumberEnd(s, a + i) == a + NumberEnd(u, i) && NumberEnd(u, i) <= n
  {
    GroupsStartAlike(s, a, u, n, i);
    var g := GroupsStart(u, i);
    GroupsEndAlike(s, a, u, n, g);
    FractionEndAlike(s, a, u, n, GroupsEnd(u, g));
  }

  /** A number the pattern reads whole: the match that starts at its
      first digit takes all of it. */
  predicate WholeNumber(t: string) {
    |t| > 0 && IsDigit(t[0]) && NumberEnd(t, 0) == |t|
  }

  /** The numbers as a row prints them after the name, each after one
      space. */
  function Spaced(nums: seq<string>): (r: string)
    ensures |r| > 0 ==> r[0] == ' '
  {
    if |nums| == 0 then "" else " " + nums[0] + Spaced(nums[1..])
  }

  /** The tokenizer passes over non-digits. */
  lemma {:induction false} SkipNonDigits(s: string, from: nat, to: nat)
    requires from <= to <= |s|
    requires forall j :: from <= j < to ==> !IsDigit(s[j])
    ensures NumberTokens(s, from) == NumberTokens(s, to)
    decreases |s| - from
  {
    if from < to {
      SkipNonDigits(s, from + 1, to);
    }
  }

  /** The pieces of a spaced suffix. */
  lemma SpacedParts(s: string, from: nat, t: string, rest: string)
    requires from <= |s| && s[from..] == " " + t + rest
    ensures from + 1 + |t| + |rest| == |s| && s[from] == ' '
    ensures forall m :: 0 <= m < |t| ==> s[from + 1 + m] == t[m]
    ensures s[from + 1..from + 1 + |t|] == t && s[from + 1 + |t|..] == rest
  {
    assert s[from..][0] == ' ';
    forall m | 0 <= m < |t|
      ensures s[from + 1 + m] == t[m]
    {
      assert s[from..][1 + m] == t[m];
    }
    assert s[from + 1 + |t|..] == s[from..][1 + |t|..];
  }

  /** A whole number followed by a stop is read whole inside a row too. */
  lemma WholeNumberAt(s: string, a: nat, t: string)
    requires ReadsAlike(s, a, t, |t|) && WholeNumber(t)
    ensures a < |s| && IsDigit(s[a]) && NumberEnd(s, a) == a + |t| && s[a..a + |t|] == t
  {
    NumberEndAlike(s, a, t, |t|, 0);
    assert a + 0 == a;
  }

  /** One number after one non-digit: the tokens from the non-digit are
      that number and then the tokens after it. */
  lemma TokenAfter(s: string, from: nat)
    requires from + 1 < |s| && !IsDigit(s[from]) && IsDigit(s[from + 1])
    ensures NumberTokens(s, from)
            == [NumberToken(from + 1, s[from + 1..NumberEnd(s, from + 1)])] + NumberTokens(s, NumberEnd(s, from + 1))
  {
  }

  /** `Spaced(nums)` written out position by position from `from`. */
  predicate SpacedFrom(s: string, from: nat, nums: seq<string>)
    decreases |nums|
  {
    from <= |s| &&
    if |nums| == 0 then from == |s|
    else
      && from + 1 + |nums[0]| <= |s| && s[from] == ' '
      && (forall m :: 0 <= m < |nums[0]| ==> s[from + 1 + m] == nums[0][m])
      && SpacedFrom(s, from + 1 + |nums[0]|, nums[1..])
  }

  /** A suffix equal to `Spaced(nums)` is a spaced stretch. */
  lemma {:induction false} SpacedFromOfSpaced(s: string, from: nat, nums: seq<string>)
    requires from <= |s| && s[from..] == Spaced(nums)
    ensures SpacedFrom(s, from, nums)
    decreases |nums|
  {
    if |nums| == 0 {
      assert |s[from..]| == 0;
    } else {
      SpacedParts(s, from, nums[0], Spaced(nums[1..]));
      SpacedFromOfSpaced(s, from + 1 + |nums[0]|, nums[1..]);
    }
  }

  /** Every text is one whole number. */
  predicate AllWhole(nums: seq<string>)
    decreases |nums|
  {
    |nums| == 0 || (WholeNumber(nums[0]) && AllWhole(nums[1..]))
  }

  /** The tokens a spaced suffix should yield: each number, starting
      after its space. */
  function SpacedTokens(from: nat, nums: seq<string>): seq<NumberToken>
    decreases |nums|
  {
    if |nums| == 0 then [] else [NumberToken(from + 1, nums[0])] + SpacedTokens(from + 1 + |nums[0]|, nums[1..])
  }

  /** A whole number read after one non-digit. */
  lemma WholeTokenStep(s: string, from: nat, t: string)
    requires from < |s| && !IsDigit(s[from]) && WholeNumber(t) && ReadsAlike(s, from + 1, t, |t|)
    ensures from + 1 + |t| <= |s|
    ensures NumberTokens(s, from) == [NumberToken(from + 1, t)] + NumberTokens(s, from + 1 + |t|)
  {
    var a := from + 1;
    WholeNumberAt(s, a, t);
    TokenAfter(s, from);
  }

  /** A spaced stretch starts with a non-digit and its first number,
      and goes on with the rest. */
  lemma SpacedFromHead(s: string, from: nat, nums: seq<string>)
    requires SpacedFrom(s, from, nums) && |nums| > 0
    ensures from < |s| && !IsDigit(s[from]) && ReadsAlike(s, from + 1, nums[0], |nums[0]|)
    ensures SpacedFrom(s, from + 1 + |nums[0]|, nums[1..])
  {
    var e := from + 1 + |nums[0]|;
    if e < |s| {
      assert SpacedFrom(s, e, nums[1..]);
    }
  }

  /** The first number of a spaced stretch is its first token. */
  lemma SpacedFromStep(s: string, from: nat, nums: seq<string>)
    requires SpacedFrom(s, from, nums) && |nums| > 0 && WholeNumber(nums[0])
    ensures from + 1 + |nums[0]| <= |s| && SpacedFrom(s, from + 1 + |nums[0]|, nums[1..])
    ensures NumberTokens(s, from)
            == [NumberToken(from + 1, nums[0])] + NumberTokens(s, from + 1 + |nums[0]|)
  {
    SpacedFromHead(s, from, nums);
    WholeTokenStep(s, from, nums[0]);
  }

  /** On a spaced stretch of whole numbers the tokenizer finds exactly
      those numbers, each right after its space. */
  lemma {:induction false} TokensOfSpacedFrom(s: string, from: nat, nums: seq<string>)
    requires SpacedFrom(s, from, nums) && AllWhole(nums)
    ensures NumberTokens(s, from) == SpacedTokens(from, nums)
    decreases |nums|
  {
    if |nums| == 0 {
      assert NumberTokens(s, from) == [];
    } else {
      SpacedFromStep(s, from, nums);
      TokensOfSpacedFrom(s, from + 1 + |nums[0]|, nums[1..]);
    }
  }

  /** The expected tokens hold the numbers, in order. */
  lemma {:induction false} SpacedTokensTexts(from: nat, nums: seq<string>)
    ensures |SpacedTokens(from, nums)| == |nums|
    ensures forall k :: 0 <= k < |nums| ==> SpacedTokens(from, nums)[k].text == nums[k]
    ensures |nums| > 0 ==> SpacedTokens(from, nums)[0].start == from + 1
    decreases |nums|
  {
    if |nums| > 0 {
      SpacedTokensTexts(from + 1 + |nums[0]|, nums[1..]);
    }
  }

  // Whole rows

  /** A number read whole holds only number characters. */
  lemma WholeNumberShaped(t: string)
    requires WholeNumber(t)
    ensures NumberShaped(t)
  {
    NumberEndChars(t, 0);
  }

  /** `AllWhole` holds of each number. */
  lemma {:induction false} AllWholeAt(nums: seq<string>, k: nat)
    requires AllWhole(nums) && k < |nums|
    ensures WholeNumber(nums[k])
    decreases k
  {
    if k > 0 {
      AllWholeAt(nums[1..], k - 1);
    }
  }

  /** A row: a name, then each number after one space. */
  function SpacedRow(name: string, nums: seq<string>): string {
    name + Spaced(nums)
  }

  /** A name without digits or line breaks, trimmed, of at least two
      characters. */
  predicate PlainName(name: string) {
    && |name| >= 2 && !IsSpace(name[0]) && !IsSpace(name[|name| - 1])
    && forall j :: 0 <= j < |name| ==> !IsDigit(name[j]) && name[j] != '\n'
  }

  /** A spaced stretch holds only spaces and number characters, and
      ends in a number character. */
  lemma {:induction false} SpacedChars(nums: seq<string>)
    requires AllWhole(nums)
    ensures forall m :: 0 <= m < |Spaced(nums)| ==> Spaced(nums)[m] == ' ' || NumberChar(Spaced(nums)[m])
    ensures |nums| > 0 ==> |Spaced(nums)| > 0 && NumberChar(Spaced(nums)[|Spaced(nums)| - 1])
    decreases |nums|
  {
    if |nums| > 0 {
      var t, rest := nums[0], Spaced(nums[1..]);
      WholeNumberShaped(t);
      SpacedChars(nums[1..]);
      var r := Spaced(nums);
      assert r == " " + t + rest;
      forall m | 0 <= m < |r| ensures r[m] == ' ' || NumberChar(r[m]) {
        if m == 0 {
        } else if m <= |t| {
          assert r[m] == t[m - 1];
        } else {
          assert r[m] == rest[m - 1 - |t|];
        }
      }
      if |rest| > 0 {
        assert r[|r| - 1] == rest[|rest| - 1];
      } else {
        assert r[|r| - 1] == t[|t| - 1];
      }
    }
  }

  /** Such a row is read as it stands: it has no line break to join and
      no surrounding whitespace to strip. */
  lemma SpacedRowLine(name: string, nums: seq<string>)
    requires PlainName(name) && AllWhole(nums) && |nums| > 0
    ensures RowLine(SpacedRow(name, nums)) == SpacedRow(name, nums)
  {
    var r := SpacedRow(name, nums);
    SpacedChars(nums);
    forall i | 0 <= i < |r| ensures r[i] != '\n' {
      if i >= |name| {
        assert r[i] == Spaced(nums)[i - |name|];
      }
    }
    assert JoinLines(r) == r;
    assert r[|r| - 1] == Spaced(nums)[|Spaced(nums)| - 1];
    StripStripped(r);
  }

  /** A row without the letter q is not a column header row: it cannot
      contain "quantity". */
  lemma NoQNotColumnHeader(s: string)
    requires forall i :: 0 <= i < |s| ==> s[i] != 'q' && s[i] != 'Q'
    ensures !IsColumnHeaderRow(s)
  {
    var low := Lower(s);
    forall i | 0 <= i && i + 8 <= |low| ensures !OccursAt(low, "quantity", i) {
      assert low[i..i + 8][0] == low[i] != 'q';
    }
  }

  /** A trimmed row longer than every asset-type header is none of them. */
  lemma LongNotAssetHeader(s: string)
    requires |s| > 12 && !IsSpace(s[0]) && !IsSpace(s[|s| - 1])
    ensures AssetTypeHeader(s).None?
  {
    var low := Lower(s);
    assert !IsSpace(low[0]) && !IsSpace(low[|low| - 1]);
    StripStripped(low);
    AssetTypeHeaderExact(s);
  }

  /** The numbers of such a row are exactly its spaced numbers. */
  lemma SpacedRowTokens(name: string, nums: seq<string>)
    requires PlainName(name) && AllWhole(nums)
    ensures NumberTokens(SpacedRow(name, nums), 0) == SpacedTokens(|name|, nums)
  {
    var r := SpacedRow(name, nums);
    assert r[|name|..] == Spaced(nums);
    assert forall j :: 0 <= j < |name| ==> r[j] == name[j];
    SkipNonDigits(r, 0, |name|);
    SpacedFromOfSpaced(r, |name|, nums);
    TokensOfSpacedFrom(r, |name|, nums);
  }

  /** A trimmed name followed by a space strips back to itself. */
  lemma StripPadded(name: string)
    requires |name| > 0 && !IsSpace(name[0]) && !IsSpace(name[|name| - 1])
    ensures Strip(name + " ") == name
  {
    var s := name + " ";
    assert s[0] == name[0] && s[|name| - 1] == name[|name| - 1];
    assert LeadingSpaces(s) == 0;
    assert StripEnd(s) == |name|;
    assert s[..|name|] == name;
  }

  /** A last token that reads adds its value at the end. */
  lemma ParsedNumbersSnoc(ts: seq<NumberToken>, parseFloat: string -> Option<real>, v: real)
    requires |ts| > 0 && CleanNumeric(Some(ts[|ts| - 1].text), parseFloat) == Some(v)
    ensures ParsedNumbers(ts, parseFloat) == ParsedNumbers(ts[..|ts| - 1], parseFloat) + [v]
  {
  }

  /** Every token reads as the value at the same place, stated from the
      back as `ParsedNumbers` reads them. */
  ghost predicate TokensReadAs(ts: seq<NumberToken>, parseFloat: string -> Option<real>, values: seq<real>)
    decreases |ts|
  {
    && |values| == |ts|
    && (|ts| == 0 ||
        (CleanNumeric(Some(ts[|ts| - 1].text), parseFloat) == Some(values[|ts| - 1])
         && TokensReadAs(ts[..|ts| - 1], parseFloat, values[..|ts| - 1])))
  }

  /** A non-empty sequence is its front and then its last element. */
  lemma LastSplit(xs: seq<real>)
    requires |xs| > 0
    ensures xs == xs[..|xs| - 1] + [xs[|xs| - 1]]
  {
  }

  /** The last token's value completes the values of the others. */
  lemma ParsedNumbersStep(ts: seq<NumberToken>, parseFloat: string -> Option<real>, values: seq<real>)
    requires |ts| > 0 && |values| == |ts|
    requires CleanNumeric(Some(ts[|ts| - 1].text), parseFloat) == Some(values[|ts| - 1])
    requires ParsedNumbers(ts[..|ts| - 1], parseFloat) == values[..|ts| - 1]
    ensures ParsedNumbers(ts, parseFloat) == values
  {
    ParsedNumbersSnoc(ts, parseFloat, values[|ts| - 1]);
    LastSplit(values);
  }

  /** When every token reads, the numbers are the tokens' values, in order. */
  lemma {:induction false} ParsedNumbersAll(ts: seq<NumberToken>, parseFloat: string -> Option<real>, values: seq<real>)
    requires TokensReadAs(ts, parseFloat, values)
    ensures ParsedNumbers(ts, parseFloat) == values
    decreases |ts|
  {
    if |ts| > 0 {
      var n := |ts| - 1;
      ParsedNumbersAll(ts[..n], parseFloat, values[..n]);
      ParsedNumbersStep(ts, parseFloat, values);
    }
  }

  /** Tokens that each read as the value at the same place satisfy
      `TokensReadAs`. */
  lemma {:induction false} TokensReadAsAll(ts: seq<NumberToken>, parseFloat: string -> Option<real>, values: seq<real>)
    requires |values| == |ts|
    requires forall k :: 0 <= k < |ts| ==> CleanNumeric(Some(ts[k].text), parseFloat) == Some(values[k])
    ensures TokensReadAs(ts, parseFloat, values)
    decreases |ts|
  {
    if |ts| > 0 {
      var n := |ts| - 1;
      TokensReadAsAll(ts[..n], parseFloat, values[..n]);
    }
  }

  /** Each number, its commas dropped, reads as the value at the same
      place. */
  ghost predicate ReadAs(nums: seq<string>, values: seq<real>, parseFloat: string -> Option<real>)
    decreases |nums|
  {
    && |nums| == |values|
    && (|nums| == 0 ||
        (parseFloat(Scrub(nums[0])) == Some(values[0]) && ReadAs(nums[1..], values[1..], parseFloat)))
  }

  /** `ReadAs` holds at each position. */
  lemma {:induction false} ReadAsAt(nums: seq<string>, values: seq<real>, parseFloat: string -> Option<real>, k: nat)
    requires ReadAs(nums, values, parseFloat) && k < |nums|
    ensures parseFloat(Scrub(nums[k])) == Some(values[k])
    decreases k
  {
    if k > 0 {
      ReadAsAt(nums[1..], values[1..], parseFloat, k - 1);
    }
  }

  /** `ReadAs` grows by one number at the front. */
  lemma ReadAsCons(t: string, rest: seq<string>, v: real, vs: seq<real>, parseFloat: string -> Option<real>)
    requires parseFloat(Scrub(t)) == Some(v) && ReadAs(rest, vs, parseFloat)
    ensures ReadAs([t] + rest, [v] + vs, parseFloat)
  {
    assert ([t] + rest)[1..] == rest && ([v] + vs)[1..] == vs;
  }

  /** The numbers such a row yields are its numbers with the commas
      dropped, read by `float`. */
  lemma SpacedRowNumbers(name: string, nums: seq<string>, values: seq<real>, parseFloat: string -> Option<real>)
    requires PlainName(name) && AllWhole(nums) && |nums| > 0 && ReadAs(nums, values, parseFloat)
    ensures RowNumbers(SpacedRow(name, nums), parseFloat) == values
  {
    var r := SpacedRow(name, nums);
    SpacedRowLine(name, nums);
    SpacedRowTokens(name, nums);
    var ts := SpacedTokens(|name|, nums);
    SpacedTokensTexts(|name|, nums);
    forall k | 0 <= k < |ts| ensures CleanNumeric(Some(ts[k].text), parseFloat) == Some(values[k]) {
      AllWholeAt(nums, k);
      WholeNumberShaped(nums[k]);
      TokenValue(nums[k], parseFloat);
      ReadAsAt(nums, values, parseFloat, k);
    }
    TokensReadAsAll(ts, parseFloat, values);
    ParsedNumbersAll(ts, parseFloat, values);
  }

  /** The row's first number starts right after the name. */
  lemma SpacedRowPrefix(name: string, nums: seq<string>)
    requires |nums| > 0
    ensures |name| < |SpacedRow(name, nums)| && SpacedRow(name, nums)[..|name| + 1] == name + " "
  {
    var r := SpacedRow(name, nums);
    assert r[|name|] == Spaced(nums)[0];
  }

  /** The name such a row yields is the name it starts with. */
  lemma SpacedRowName(name: string, nums: seq<string>)
    requires PlainName(name) && AllWhole(nums) && |nums| > 0
    ensures var line := RowLine(SpacedRow(name, nums));
            var ts := NumberTokens(line, 0);
            |ts| == |nums| && NamePart(line, ts) == name
  {
    var r := SpacedRow(name, nums);
    SpacedRowLine(name, nums);
    SpacedRowTokens(name, nums);
    SpacedTokensTexts(|name|, nums);
    SpacedRowPrefix(name, nums);
    StripPadded(name);
  }

  /** The converse of `ParseHoldingRowRejects` on rows of this shape: a
      trimmed name without digits, then six or more numbers that `float`
      reads, the last of them at most 100, make a holding named after the
      normalised name and built from those values. */
  lemma SpacedRowParses(name: string, nums: seq<string>, values: seq<real>, asset: string,
                        parseFloat: string -> Option<real>)
    requires PlainName(name) && AllWhole(nums) && |nums| >= 6 && ReadAs(nums, values, parseFloat)
    requires values[|values| - 1] <= 100.0
    requires !IsColumnHeaderRow(SpacedRow(name, nums)) && AssetTypeHeader(SpacedRow(name, nums)).None?
    ensures ParseHoldingRow(SpacedRow(name, nums), asset, parseFloat)
            == Some(BuildHolding(NormalizeStockName(name), asset, values))
  {
    var r := SpacedRow(name, nums);
    SpacedRowLine(name, nums);
    SpacedRowName(name, nums);
    SpacedRowNumbers(name, nums, values, parseFloat);
    assert RowName(r) == NormalizeStockName(name);
    ParseHoldingRowAcceptsWellFormed(r, asset, parseFloat);
  }

  /** Each number takes its space and at least one character. */
  lemma {:induction false} SpacedLength(nums: seq<string>)
    requires AllWhole(nums)
    ensures |Spaced(nums)| >= 2 * |nums|
    decreases |nums|
  {
    if |nums| > 0 {
      SpacedLength(nums[1..]);
    }
  }

  /** Such a row holds no letter q when its name does not. */
  lemma SpacedRowNoQ(name: string, nums: seq<string>)
    requires AllWhole(nums)
    requires forall j :: 0 <= j < |name| ==> name[j] != 'q' && name[j] != 'Q'
    ensures var r := SpacedRow(name, nums);
            forall i :: 0 <= i < |r| ==> r[i] != 'q' && r[i] != 'Q'
  {
    var r := SpacedRow(name, nums);
    var sp := Spaced(nums);
    SpacedChars(nums);
    forall i | 0 <= i < |r| ensures r[i] != 'q' && r[i] != 'Q' {
      if i >= |name| {
        assert r[i] == sp[i - |name|];
      }
    }
  }

  /** Such a row of six or more numbers is longer than any asset-type
      header and trimmed. */
  lemma SpacedRowTrimmed(name: string, nums: seq<string>)
    requires PlainName(name) && AllWhole(nums) && |nums| >= 6
    ensures var r := SpacedRow(name, nums);
            |r| > 12 && !IsSpace(r[0]) && !IsSpace(r[|r| - 1])
  {
    var r := SpacedRow(name, nums);
    var sp := Spaced(nums);
    SpacedChars(nums);
    SpacedLength(nums);
    assert r[|r| - 1] == sp[|sp| - 1];
  }

  /** Such a row of six or more numbers whose name has no letter q is no
      header row. */
  lemma SpacedRowNotHeader(name: string, nums: seq<string>)
    requires PlainName(name) && AllWhole(nums) && |nums| >= 6
    requires forall j :: 0 <= j < |name| ==> name[j] != 'q' && name[j] != 'Q'
    ensures !IsColumnHeaderRow(SpacedRow(name, nums)) && AssetTypeHeader(SpacedRow(name, nums)).None?
  {
    SpacedRowNoQ(name, nums);
    NoQNotColumnHeader(SpacedRow(name, nums));
    SpacedRowTrimmed(name, nums);
    LongNotAssetHeader(SpacedRow(name, nums));
  }
}
