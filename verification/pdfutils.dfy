/**
 * The text helpers of `pms/utils/pdf_utils.py` that work on text and table
 * cells already extracted from a report: numeric cleaning, stock-name
 * normalisation, section slicing and header-row search. Python's `float`
 * and the header regular expression are parameters.
 */
module PdfUtils {
  import opened Wrappers
  import opened Text
  import Sorting

  // Numeric cleaning

  /** Characters the cleaning pattern `[₹$€£,\s]` deletes. */
  predicate Removable(c: char) {
    c == '₹' || c == '$' || c == '€' || c == '£' || c == ',' || IsSpace(c)
  }

  /** Deletes every removable character. */
  function Scrub(s: string): (r: string)
    ensures |r| <= |s|
    ensures forall i :: 0 <= i < |r| ==> !Removable(r[i])
  {
    if |s| == 0 then ""
    else (if Removable(s[0]) then "" else [s[0]]) + Scrub(s[1..])
  }

  lemma {:induction false} ScrubConcat(a: string, b: string)
    ensures Scrub(a + b) == Scrub(a) + Scrub(b)
  {
    if |a| > 0 {
      ScrubConcat(a[1..], b);
      assert (a + b)[0] == a[0];
      assert (a + b)[1..] == a[1..] + b;
    } else {
      assert a + b == b;
    }
  }

  /** A removable character on its own is deleted. With `ScrubConcat` and
      `ScrubKeepsClean` this fixes `Scrub` on every string: the removable
      characters go and every other character stays, in order. */
  lemma ScrubDropsRemovable(c: char)
    requires Removable(c)
    ensures Scrub([c]) == ""
  {
  }

  lemma {:induction false} ScrubKeepsClean(s: string)
    requires forall i :: 0 <= i < |s| ==> !Removable(s[i])
    ensures Scrub(s) == s
  {
    if |s| > 0 {
      ScrubKeepsClean(s[1..]);
    }
  }

  lemma {:induction false} ScrubAllSpace(s: string)
    requires forall i :: 0 <= i < |s| ==> IsSpace(s[i])
    ensures Scrub(s) == ""
  {
    if |s| > 0 {
      ScrubAllSpace(s[1..]);
    }
  }

  /** Whitespace around a text makes no difference to the deletion. */
  lemma ScrubAroundSpaces(p: string, m: string, q: string)
    requires forall k :: 0 <= k < |p| ==> IsSpace(p[k])
    requires forall k :: 0 <= k < |q| ==> IsSpace(q[k])
    ensures Scrub(p + m + q) == Scrub(m)
  {
    ScrubConcat(p + m, q);
    ScrubConcat(p, m);
    ScrubAllSpace(p);
    ScrubAllSpace(q);
  }

  /** A text is its leading whitespace, its stripped form and its
      trailing whitespace. */
  lemma StripParts(s: string)
    ensures var i, j := LeadingSpaces(s), StripEnd(s);
            && s == s[..i] + Strip(s) + s[j..]
            && (forall k :: 0 <= k < |s[..i]| ==> IsSpace(s[..i][k]))
            && (forall k :: 0 <= k < |s[j..]| ==> IsSpace(s[j..][k]))
  {
    var i, j := LeadingSpaces(s), StripEnd(s);
    assert s == s[..i] + s[i..j] + s[j..];
    assert forall k :: 0 <= k < |s[..i]| ==> s[..i][k] == s[k];
    assert forall k :: 0 <= k < |s[j..]| ==> s[j..][k] == s[j + k];
  }

  /** Stripping first makes no difference to the deletion. */
  lemma ScrubStrip(s: string)
    ensures Scrub(Strip(s)) == Scrub(s)
  {
    StripParts(s);
    ScrubAroundSpaces(s[..LeadingSpaces(s)], Strip(s), s[StripEnd(s)..]);
  }

  /** A sign given by surrounding parentheses or a leading '-'. */
  datatype Signed = Signed(negative: bool, body: string)

  function SplitSign(cleaned: string): Signed {
    // a lone "(" neither ends with ")" nor is long enough to unwrap
    if |cleaned| >= 2 && StartsWith(cleaned, "(") && EndsWith(cleaned, ")") then Signed(true, cleaned[1..|cleaned| - 1])
    else if StartsWith(cleaned, "-") then Signed(true, cleaned[1..])
    else Signed(false, cleaned)
  }

  /** Drops one trailing '%' without scaling. */
  function DropPercent(s: string): string {
    if EndsWith(s, "%") then s[..|s| - 1] else s
  }

  /** `value.strip()` with the removable characters deleted. */
  function Cleaned(value: string): string {
    Scrub(Strip(value))
  }

  /** Sign, percent sign and `float` applied to the cleaned text. */
  function ParseCleaned(cleaned: string, parseFloat: string -> Option<real>): Option<real> {
    var sign := SplitSign(cleaned);
    match parseFloat(DropPercent(sign.body))
    case None => None
    case Some(x) => Some(if sign.negative then -x else x)
  }

  /** `clean_numeric_value`: `None` stands for a value that is not a string;
      `parseFloat` is Python's `float`, `None` when it raises. */
  function CleanNumeric(value: Option<string>, parseFloat: string -> Option<real>): (r: Option<real>)
    ensures value.None? || value == Some("") ==> r.None?
  {
    if value.None? || value.value == "" then None
    else ParseCleaned(Cleaned(value.value), parseFloat)
  }

  function Negate(r: Option<real>): Option<real> {
    match r
    case None => None
    case Some(x) => Some(-x)
  }

  /** Text with no removable character is already clean. */
  lemma CleanedClean(w: string)
    requires forall i :: 0 <= i < |w| ==> !Removable(w[i])
    ensures Cleaned(w) == w
  {
    StripStripped(w);
    ScrubKeepsClean(w);
  }

  /** Currency symbols, commas and whitespace never change the result,
      wherever they stand (as long as something else is left). */
  lemma CleanNumericIgnoresSeparators(v: string, parseFloat: string -> Option<real>)
    requires |Scrub(v)| > 0
    ensures CleanNumeric(Some(v), parseFloat) == CleanNumeric(Some(Scrub(v)), parseFloat)
  {
    ScrubStrip(v);
    CleanedClean(Scrub(v));
  }

  /** A clean number body without a sign of its own. */
  predicate PlainBody(b: string) {
    && |b| > 0
    && (forall i :: 0 <= i < |b| ==> !Removable(b[i]))
    && b[0] != '(' && b[0] != '-'
  }

  lemma PlainBodyClean(b: string, parseFloat: string -> Option<real>)
    requires PlainBody(b)
    ensures CleanNumeric(Some(b), parseFloat) == parseFloat(DropPercent(b))
  {
    CleanedClean(b);
    assert SplitSign(b) == Signed(false, b);
  }

  predicate IsClean(s: string) {
    forall i :: 0 <= i < |s| ==> !Removable(s[i])
  }

  lemma CleanConcat(a: string, b: string)
    requires IsClean(a) && IsClean(b)
    ensures IsClean(a + b)
  {
    forall i | 0 <= i < |a + b| ensures !Removable((a + b)[i]) {
      if i >= |a| { assert (a + b)[i] == b[i - |a|]; }
    }
  }

  lemma ParseParenthesised(b: string, parseFloat: string -> Option<real>)
    requires |b| > 0 && b[0] != '(' && b[0] != '-'
    ensures ParseCleaned("(" + b + ")", parseFloat) == Negate(ParseCleaned(b, parseFloat))
  {
    var p := "(" + b + ")";
    assert p[..1] == "(" && p[|p| - 1..] == ")" && p[1..|p| - 1] == b;
    assert SplitSign(p) == Signed(true, b);
    assert SplitSign(b) == Signed(false, b);
  }

  lemma ParseMinus(b: string, parseFloat: string -> Option<real>)
    requires |b| > 0 && b[0] != '(' && b[0] != '-'
    ensures ParseCleaned("-" + b, parseFloat) == Negate(ParseCleaned(b, parseFloat))
  {
    var m := "-" + b;
    assert m[..1] == "-" && m[1..] == b;
    assert SplitSign(m) == Signed(true, b);
    assert SplitSign(b) == Signed(false, b);
  }

  /** Parentheses negate the value of the body. */
  lemma CleanNumericParenthesised(b: string, parseFloat: string -> Option<real>)
    requires PlainBody(b)
    ensures CleanNumeric(Some("(" + b + ")"), parseFloat) == Negate(CleanNumeric(Some(b), parseFloat))
  {
    assert IsClean("(") && IsClean(")");
    CleanConcat("(", b);
    CleanConcat("(" + b, ")");
    CleanedClean("(" + b + ")");
    CleanedClean(b);
    ParseParenthesised(b, parseFloat);
  }

  /** So does a leading minus. */
  lemma CleanNumericMinus(b: string, parseFloat: string -> Option<real>)
    requires PlainBody(b)
    ensures CleanNumeric(Some("-" + b), parseFloat) == Negate(CleanNumeric(Some(b), parseFloat))
  {
    assert IsClean("-");
    CleanConcat("-", b);
    CleanedClean("-" + b);
    CleanedClean(b);
    ParseMinus(b, parseFloat);
  }

  /** A trailing percent sign is dropped: "12.5%" reads as 12.5, not 0.125. */
  lemma CleanNumericPercent(b: string, parseFloat: string -> Option<real>)
    requires PlainBody(b) && !EndsWith(b, "%")
    ensures CleanNumeric(Some(b + "%"), parseFloat) == CleanNumeric(Some(b), parseFloat)
  {
    var p := b + "%";
    forall i | 0 <= i < |p| ensures !Removable(p[i]) {
      if i < |b| { assert p[i] == b[i]; }
    }
    assert p[0] == b[0];
    PlainBodyClean(b, parseFloat);
    PlainBodyClean(p, parseFloat);
    assert p[|p| - 1..] == "%" && p[..|p| - 1] == b;
    assert DropPercent(p) == b;
  }

  // Stock-name normalisation

  /** The suffixes removed, in the order they are tried. */
  const CompanySuffixes: seq<string> := [" LTD", " LIMITED", " PVT", " PRIVATE", " INC", " CORP"]

  /** The first suffix (by position in the list) that `upper` ends with. */
  function FirstSuffix(upper: string): (k: Option<nat>)
    ensures k.Some? ==> k.value < |CompanySuffixes| && EndsWith(upper, CompanySuffixes[k.value])
                        && forall j :: 0 <= j < k.value ==> !EndsWith(upper, CompanySuffixes[j])
    ensures k.None? ==> forall j :: 0 <= j < |CompanySuffixes| ==> !EndsWith(upper, CompanySuffixes[j])
  {
    Sorting.FirstMatchIndex(CompanySuffixes, (suffix: string) => EndsWith(upper, suffix))
  }

  /** `normalize_stock_name`. */
  function NormalizeStockName(name: string): string {
    if name == "" then ""
    else
      var c := Collapse(name);
      match FirstSuffix(Upper(c))
      case None => Strip(c)
      case Some(k) => Strip(c[..|c| - |CompanySuffixes[k]|])
  }

  /** A space followed by at least one upper-case ASCII letter. */
  predicate SuffixShaped(x: string) {
    |x| > 1 && x[0] == ' ' && forall i :: 1 <= i < |x| ==> 'A' <= x[i] <= 'Z'
  }

  lemma SuffixShape(k: nat)
    requires k < |CompanySuffixes|
    ensures SuffixShaped(CompanySuffixes[k])
  {
  }

  /** A shaped suffix is a space and a word, and upper-casing keeps it. */
  lemma ShapedSuffixParts(x: string)
    requires SuffixShaped(x)
    ensures x == " " + x[1..] && IsWord(x[1..]) && Upper(x) == x
  {
    assert forall i :: 0 <= i < |x| - 1 ==> x[1..][i] == x[i + 1];
  }

  /** The name comes back collapsed (single spaces, none at the ends) and
      with at most one suffix removed: the first listed one its upper-case
      form ends with, cut off exactly; with no such suffix it is only
      collapsed. */
  lemma NormalizeStockNameShape(name: string)
    ensures Collapsed(NormalizeStockName(name))
    ensures var n := NormalizeStockName(name);
            |n| > 0 ==> !IsSpace(n[|n| - 1])
    ensures var c := Collapse(name);
            match FirstSuffix(Upper(c))
            case None => NormalizeStockName(name) == c
            case Some(k) => NormalizeStockName(name) == c[..|c| - |CompanySuffixes[k]|]
  {
    var c := Collapse(name);
    CollapseCollapsed(name);
    if name == "" {
      assert Words("") == [];
    } else {
      match FirstSuffix(Upper(c)) {
        case None =>
          StripStripped(c);
        case Some(k) =>
          var m := |c| - |CompanySuffixes[k]|;
          SuffixShape(k);
          assert Upper(c)[m] == ' ';
          CollapsedCut(c, m);
      }
    }
    var n := NormalizeStockName(name);
    if |n| > 0 {
      CollapsedLast(n);
    }
  }

  /** A name with any non-whitespace character normalises to a non-empty
      name: a suffix is only cut after a space, never the whole name. */
  lemma NormalizeStockNameNonEmpty(name: string)
    requires LeadingSpaces(name) < |name|
    ensures |NormalizeStockName(name)| > 0
  {
    var c := Collapse(name);
    assert |Words(name)| > 0;
    JoinSpacedCollapsed(Words(name));
    NormalizeStockNameShape(name);
    match FirstSuffix(Upper(c)) {
      case None =>
      case Some(k) =>
        var m := |c| - |CompanySuffixes[k]|;
        SuffixShape(k);
        assert Upper(c)[m] == ' ';
        assert m != 0;
    }
  }

  /** The first matching suffix is `k` when `k` matches and no earlier one
      does. */
  lemma FirstSuffixIs(upper: string, k: nat)
    requires k < |CompanySuffixes| && EndsWith(upper, CompanySuffixes[k])
    requires forall j :: 0 <= j < k ==> !EndsWith(upper, CompanySuffixes[j])
    ensures FirstSuffix(upper) == Some(k)
  {
  }

  lemma WordCollapsed(w: string)
    requires IsWord(w)
    ensures Collapsed(w)
  {
    forall i: nat | i < |w| ensures SpaceOkAt(w, i) {
      assert !IsSpace(w[i]);
    }
  }

  /** A collapsed name with a shaped suffix appended is still collapsed,
      and its upper-case form ends with the suffix. */
  lemma SuffixedCollapsed(w: string, suffix: string)
    requires Collapsed(w) && |w| > 0 && SuffixShaped(suffix)
    ensures Collapse(w + suffix) == w + suffix
    ensures EndsWith(Upper(w + suffix), suffix)
  {
    var n := w + suffix;
    ShapedSuffixParts(suffix);
    WordCollapsed(suffix[1..]);
    JoinCollapsed(w, suffix[1..]);
    assert n == w + " " + suffix[1..];
    CollapseOfCollapsed(n);
    var u := Upper(n);
    assert u[|w|..] == suffix by {
      assert forall i :: 0 <= i < |suffix| ==> u[|w| + i] == UpperChar(suffix[i]) == Upper(suffix)[i];
    }
  }

  /** Appending one suffix to a collapsed name, when no earlier-listed
      suffix also matches, is undone exactly by normalisation. */
  lemma NormalizeStripsSuffix(w: string, k: nat)
    requires Collapsed(w) && |w| > 0 && k < |CompanySuffixes|
    requires forall j :: 0 <= j < k ==> !EndsWith(Upper(w + CompanySuffixes[k]), CompanySuffixes[j])
    ensures NormalizeStockName(w + CompanySuffixes[k]) == w
  {
    var suffix := CompanySuffixes[k];
    var n := w + suffix;
    SuffixShape(k);
    SuffixedCollapsed(w, suffix);
    FirstSuffixIs(Upper(n), k);
    assert n[..|n| - |suffix|] == w;
    CollapsedLast(w);
    StripStripped(w);
  }

  /** A collapsed name followed by a space and a word is its own
      collapse. */
  lemma SpacedWordCollapsed(w: string, x: string)
    requires Collapsed(w) && |w| > 0 && |x| > 1 && x[0] == ' ' && IsWord(x[1..])
    ensures Collapse(w + x) == w + x
  {
    WordCollapsed(x[1..]);
    JoinCollapsed(w, x[1..]);
    assert w + x == w + " " + x[1..];
    CollapseOfCollapsed(w + x);
  }

  /** Upper-casing a concatenation ends with the upper-cased tail. */
  lemma UpperEndsWith(w: string, x: string)
    ensures EndsWith(Upper(w + x), Upper(x))
  {
    var u := Upper(w + x);
    assert forall i :: 0 <= i < |x| ==> u[|w| + i] == UpperChar(x[i]) == Upper(x)[i];
    assert u[|w|..] == Upper(x);
  }

  /** The same when the appended suffix is written in any case: the match
      is on the upper-case form, and the cut takes as many characters as
      the listed suffix has. */
  lemma NormalizeStripsSuffixAnyCase(w: string, x: string, k: nat)
    requires Collapsed(w) && |w| > 0 && k < |CompanySuffixes|
    requires |x| > 1 && x[0] == ' ' && IsWord(x[1..]) && Upper(x) == CompanySuffixes[k]
    requires forall j :: 0 <= j < k ==> !EndsWith(Upper(w + x), CompanySuffixes[j])
    ensures NormalizeStockName(w + x) == w
  {
    var n := w + x;
    SpacedWordCollapsed(w, x);
    UpperEndsWith(w, x);
    FirstSuffixIs(Upper(n), k);
    assert n[..|n| - |x|] == w;
    CollapsedLast(w);
    StripStripped(w);
  }

  /** Only one suffix goes per call, so normalising twice can cut more:
      a name ending in " PVT LTD" (suffixes 2 and 0) loses " LTD" the
      first time and " PVT" the second. */
  lemma NormalizeStockNameNotIdempotent(w: string)
    requires Collapsed(w) && |w| > 0
    ensures var v := w + CompanySuffixes[2];
            && NormalizeStockName(v + CompanySuffixes[0]) == v
            && NormalizeStockName(v) == w
  {
    var v := w + CompanySuffixes[2];
    SuffixShape(2);
    SuffixedCollapsed(w, CompanySuffixes[2]);
    CollapseCollapsed(v);
    NormalizeStripsSuffix(v, 0);
    PvtEndsInT(w);
    NormalizeStripsSuffix(w, 2);
  }

  lemma PvtEndsInT(w: string)
    ensures forall j :: 0 <= j < 2 ==> !EndsWith(Upper(w + CompanySuffixes[2]), CompanySuffixes[j])
  {
    var v := w + CompanySuffixes[2];
    var u := Upper(v);
    assert u[|u| - 1] == UpperChar(v[|v| - 1]) == 'T';
  }

  // Section slicing

  /** First occurrence of `sub` at or after `from`, exact case first and
      only then ignoring case. */
  function FindEitherCase(text: string, sub: string, from: nat): (r: Option<nat>)
    ensures r.Some? ==> r.value + |sub| <= |text|
  {
    match Find(text, sub, from)
    case Some(i) => Some(i)
    case None => Find(Lower(text), Lower(sub), from)
  }

  /** Where a section starting at `a` ends: at the end marker, or at the end
      of the text when there is none (an empty end marker counts as none). */
  function SectionEnd(text: string, a: nat, endMarker: Option<string>): (b: nat)
    requires a <= |text|
    ensures a <= b <= |text|
  {
    if endMarker.Some? && endMarker.value != "" then
      match FindEitherCase(text, endMarker.value, a)
      case Some(b) => b
      case None => |text|
    else |text|
  }

  /** `find_section_in_text`. */
  function FindSection(text: string, marker: string, endMarker: Option<string>): Option<string> {
    match FindEitherCase(text, marker, 0)
    case None => None
    case Some(start) =>
      var a := start + |marker|;
      Some(text[a..SectionEnd(text, a, endMarker)])
  }

  /** Occurrence ignoring (ASCII) case. */
  predicate OccursAnyCase(text: string, sub: string, i: nat) {
    OccursAt(Lower(text), Lower(sub), i)
  }

  /** What `FindEitherCase` finds: the first exact occurrence if there is
      one, else the first occurrence ignoring case; nothing exactly when
      there is no occurrence even ignoring case. */
  lemma FindEitherCaseIsFirst(text: string, sub: string, from: nat)
    ensures var r := FindEitherCase(text, sub, from);
            && (r.None? <==> forall i: nat :: from <= i ==> !OccursAnyCase(text, sub, i))
            && (r.Some? ==> OccursAnyCase(text, sub, r.value) && from <= r.value)
            && ((exists i: nat :: from <= i && OccursAt(text, sub, i)) ==>
                  r.Some? && OccursAt(text, sub, r.value)
                  && forall i: nat :: from <= i < r.value ==> !OccursAt(text, sub, i))
            && ((forall i: nat :: from <= i ==> !OccursAt(text, sub, i)) ==>
                  r == Find(Lower(text), Lower(sub), from))
  {
    match Find(text, sub, from) {
      case Some(i) =>
        LowerKeepsOccurrence(text, sub, i);
        assert OccursAnyCase(text, sub, i);
      case None =>
        match Find(Lower(text), Lower(sub), from) {
          case Some(j) => assert OccursAnyCase(text, sub, j);
          case None =>
        }
    }
  }

  /** The search succeeds exactly when the text has the marker ignoring case. */
  lemma FindSectionAbsent(text: string, marker: string, endMarker: Option<string>)
    ensures FindSection(text, marker, endMarker).None? <==> forall i: nat :: !OccursAnyCase(text, marker, i)
  {
    FindEitherCaseIsFirst(text, marker, 0);
  }

  /** A found section is the text right after the first occurrence of the
      marker (the first exact one, else the first ignoring case, as
      `FindEitherCaseIsFirst` states), up to the first end marker after it
      (found the same way) or to the end of the text when there is none. */
  lemma FindSectionSlice(text: string, marker: string, endMarker: Option<string>)
    requires FindSection(text, marker, endMarker).Some?
    ensures exists a: nat, b: nat ::
              && |marker| <= a <= b <= |text|
              && OccursAnyCase(text, marker, a - |marker|)
              && a - |marker| == FindEitherCase(text, marker, 0).value
              && FindSection(text, marker, endMarker) == Some(text[a..b])
              && (b < |text| ==> endMarker.Some? && OccursAnyCase(text, endMarker.value, b))
              && ((|| endMarker.None? || endMarker == Some("")
                   || (forall i: nat :: a <= i ==> !OccursAnyCase(text, endMarker.value, i)))
                  ==> b == |text|)
  {
    var start := FindEitherCase(text, marker, 0).value;
    FindEitherCaseIsFirst(text, marker, 0);
    var a := start + |marker|;
    SectionEndIsMarker(text, a, endMarker);
    var b := SectionEnd(text, a, endMarker);
    assert a - |marker| == start;
    assert FindSection(text, marker, endMarker) == Some(text[a..b]);
  }

  /** The section ends at the first occurrence of the end marker at or
      after `a` (exact case first, then ignoring case), or at the end of
      the text when there is no end marker after `a`. */
  lemma SectionEndIsMarker(text: string, a: nat, endMarker: Option<string>)
    requires a <= |text|
    ensures var b := SectionEnd(text, a, endMarker);
            && (b < |text| ==> endMarker.Some? && OccursAnyCase(text, endMarker.value, b))
            && (b < |text| ==> FindEitherCase(text, endMarker.value, a) == Some(b))
            && ((|| endMarker.None? || endMarker == Some("")
                 || (forall i: nat :: a <= i ==> !OccursAnyCase(text, endMarker.value, i)))
                ==> b == |text|)
  {
    if endMarker.Some? && endMarker.value != "" {
      FindEitherCaseIsFirst(text, endMarker.value, a);
    }
  }

  // Header-row search

  /** A table cell; `None` and the empty string are both skipped. */
  type Cell = Option<string>

  /** The non-empty cells of a row, joined by single spaces. */
  function RowText(row: seq<Cell>): string {
    JoinSpaced(NonEmptyCells(row))
  }

  function NonEmptyCells(row: seq<Cell>): seq<string> {
    if |row| == 0 then []
    else (if row[0].Some? && row[0].value != "" then [row[0].value] else []) + NonEmptyCells(row[1..])
  }

  datatype TableSplit = TableSplit(header: seq<Cell>, data: seq<seq<Cell>>)

  /** The position of the header among the first three rows of `table`. */
  function HeaderRow(table: seq<seq<Cell>>, matches: string -> bool): Option<nat> {
    Sorting.FirstMatchIndex(if |table| <= 3 then table else table[..3], (row: seq<Cell>) => matches(RowText(row)))
  }

  /** `extract_table_after_header`: `matches` is the search of the
      case-insensitive header pattern; `None` is `(None, None)`. */
  function ExtractTableAfterHeader(tables: seq<seq<seq<Cell>>>, matches: string -> bool): Option<TableSplit> {
    if |tables| == 0 then None
    else
      match HeaderRow(tables[0], matches)
      case Some(i) => Some(TableSplit(tables[0][i], tables[0][i + 1..]))
      case None => ExtractTableAfterHeader(tables[1..], matches)
  }

  /** Row `i` of table `t` is a header candidate. */
  predicate IsHeaderAt(tables: seq<seq<seq<Cell>>>, matches: string -> bool, t: nat, i: nat) {
    t < |tables| && i < 3 && i < |tables[t]| && matches(RowText(tables[t][i]))
  }

  lemma HeaderRowIsFirst(table: seq<seq<Cell>>, matches: string -> bool)
    ensures HeaderRow(table, matches).None? <==> forall i: nat :: !IsHeaderAt([table], matches, 0, i)
    ensures HeaderRow(table, matches).Some? ==>
              var i := HeaderRow(table, matches).value;
              IsHeaderAt([table], matches, 0, i) && forall j: nat :: j < i ==> !IsHeaderAt([table], matches, 0, j)
  {
    var first := if |table| <= 3 then table else table[..3];
    var p := (row: seq<Cell>) => matches(RowText(row));
    forall j: nat | j < |first| ensures first[j] == table[j] && (p(first[j]) <==> IsHeaderAt([table], matches, 0, j)) { }
  }

  /** Moving past a table without a header shifts the table positions by one. */
  lemma HeaderAtShift(tables: seq<seq<seq<Cell>>>, matches: string -> bool, t: nat, i: nat)
    requires |tables| > 0
    ensures IsHeaderAt(tables, matches, t + 1, i) <==> IsHeaderAt(tables[1..], matches, t, i)
  {
  }

  /** Row `i` of table `t` is the first header candidate, in table order
      and then row order. */
  ghost predicate FirstHeaderAt(tables: seq<seq<seq<Cell>>>, matches: string -> bool, t: nat, i: nat) {
    && IsHeaderAt(tables, matches, t, i)
    && (forall u: nat, j: nat :: u < t ==> !IsHeaderAt(tables, matches, u, j))
    && (forall j: nat :: j < i ==> !IsHeaderAt(tables, matches, t, j))
  }

  /** Nothing is found exactly when no table has a header candidate among
      its first three rows. */
  lemma {:induction false} ExtractTableAfterHeaderNone(tables: seq<seq<seq<Cell>>>, matches: string -> bool)
    ensures ExtractTableAfterHeader(tables, matches).None? <==>
              forall t: nat, i: nat :: !IsHeaderAt(tables, matches, t, i)
  {
    if |tables| > 0 {
      HeaderRowIsFirst(tables[0], matches);
      forall i: nat ensures IsHeaderAt(tables, matches, 0, i) <==> IsHeaderAt([tables[0]], matches, 0, i) { }
      if HeaderRow(tables[0], matches).None? {
        ExtractTableAfterHeaderNone(tables[1..], matches);
        if forall t: nat, i: nat :: !IsHeaderAt(tables[1..], matches, t, i) {
          forall t: nat, i: nat ensures !IsHeaderAt(tables, matches, t, i) {
            if t > 0 { HeaderAtShift(tables, matches, t - 1, i); }
          }
        } else {
          var t: nat, i: nat :| IsHeaderAt(tables[1..], matches, t, i);
          HeaderAtShift(tables, matches, t, i);
        }
      } else {
        assert IsHeaderAt(tables, matches, 0, HeaderRow(tables[0], matches).value);
      }
    }
  }

  /** What is found is the first header candidate and the rows after it
      in its own table. */
  lemma {:induction false} ExtractTableAfterHeaderFirst(tables: seq<seq<seq<Cell>>>, matches: string -> bool)
    requires ExtractTableAfterHeader(tables, matches).Some?
    ensures exists t: nat, i: nat ::
              && FirstHeaderAt(tables, matches, t, i)
              && ExtractTableAfterHeader(tables, matches) == Some(TableSplit(tables[t][i], tables[t][i + 1..]))
  {
    HeaderRowIsFirst(tables[0], matches);
    forall i: nat ensures IsHeaderAt(tables, matches, 0, i) <==> IsHeaderAt([tables[0]], matches, 0, i) { }
    match HeaderRow(tables[0], matches) {
      case Some(i) =>
        assert FirstHeaderAt(tables, matches, 0, i);
      case None =>
        ExtractTableAfterHeaderFirst(tables[1..], matches);
        var t: nat, i: nat :| && FirstHeaderAt(tables[1..], matches, t, i)
                              && ExtractTableAfterHeader(tables[1..], matches) == Some(TableSplit(tables[1..][t][i], tables[1..][t][i + 1..]));
        HeaderAtShift(tables, matches, t, i);
        forall u: nat, j: nat | u < t + 1 ensures !IsHeaderAt(tables, matches, u, j) {
          if u > 0 { HeaderAtShift(tables, matches, u - 1, j); }
        }
        var t1 := t + 1;
        forall j: nat | j < i ensures !IsHeaderAt(tables, matches, t1, j) {
          HeaderAtShift(tables, matches, t, j);
        }
        assert FirstHeaderAt(tables, matches, t1, i);
    }
  }

  /** Only the first three rows of a table are looked at. */
  lemma HeaderBeyondThirdRowIgnored(table: seq<seq<Cell>>, matches: string -> bool)
    requires |table| > 3
    requires forall j :: 0 <= j < 3 ==> !matches(RowText(table[j]))
    ensures ExtractTableAfterHeader([table], matches).None?
  {
    ExtractTableAfterHeaderNone([table], matches);
  }
}
