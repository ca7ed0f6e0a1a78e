/**
 * The Python string operations the report utilities are built from:
 * `isspace`, `strip`, `split()`/`' '.join`, `find`, `in`, `endswith`,
 * `lower`/`upper` and `title`. Case mapping covers ASCII letters only.
 */
module Text {
  import opened Wrappers

  /** Python's `str.isspace` (also what `\s` and `split()` use). */
  predicate IsSpace(c: char) {
    || c == ' ' || ('\t' <= c <= '\r') || ('\U{1c}' <= c <= '\U{1f}')
    || c == '\U{85}' || c == '\U{a0}' || c == '\U{1680}' || ('\U{2000}' <= c <= '\U{200a}')
    || c == '\U{2028}' || c == '\U{2029}' || c == '\U{202f}' || c == '\U{205f}' || c == '\U{3000}'
  }

  // Stripping

  /** Number of leading whitespace characters. */
  function LeadingSpaces(s: string): (k: nat)
    ensures k <= |s|
    ensures forall i :: 0 <= i < k ==> IsSpace(s[i])
    ensures k < |s| ==> !IsSpace(s[k])
  {
    if |s| == 0 || !IsSpace(s[0]) then 0 else 1 + LeadingSpaces(s[1..])
  }

  /** Number of trailing whitespace characters. */
  function TrailingSpaces(s: string): (k: nat)
    ensures k <= |s|
    ensures forall i :: |s| - k <= i < |s| ==> IsSpace(s[i])
    ensures k < |s| ==> !IsSpace(s[|s| - k - 1])
  {
    if |s| == 0 || !IsSpace(s[|s| - 1]) then 0 else 1 + TrailingSpaces(s[..|s| - 1])
  }

  /** Where the stripped text ends: before the trailing whitespace, or at
      the end when the text is all whitespace. */
  function StripEnd(s: string): (j: nat)
    ensures LeadingSpaces(s) <= j <= |s|
    ensures forall k :: j <= k < |s| ==> IsSpace(s[k])
    ensures j > LeadingSpaces(s) ==> !IsSpace(s[j - 1])
  {
    var t := s[LeadingSpaces(s)..];
    LeadingSpaces(s) + |t| - TrailingSpaces(t)
  }

  /** `s.strip()`: the middle of `s` between leading and trailing whitespace. */
  function Strip(s: string): (r: string)
    ensures r == s[LeadingSpaces(s)..StripEnd(s)]
    ensures |r| > 0 ==> !IsSpace(r[0]) && !IsSpace(r[|r| - 1])
  {
    s[LeadingSpaces(s)..StripEnd(s)]
  }

  /** A string without surrounding whitespace is its own strip. */
  lemma StripStripped(s: string)
    requires |s| == 0 || (!IsSpace(s[0]) && !IsSpace(s[|s| - 1]))
    ensures Strip(s) == s
  {
    if |s| > 0 {
      assert LeadingSpaces(s) == 0;
      assert TrailingSpaces(s) == 0;
    }
  }

  // Splitting on whitespace and joining with single spaces

  /** Length of the leading run of non-whitespace characters. */
  function WordLength(s: string): (k: nat)
    ensures k <= |s|
    ensures forall i :: 0 <= i < k ==> !IsSpace(s[i])
    ensures k < |s| ==> IsSpace(s[k])
  {
    if |s| == 0 || IsSpace(s[0]) then 0 else 1 + WordLength(s[1..])
  }

  predicate IsWord(w: string) {
    |w| > 0 && forall i :: 0 <= i < |w| ==> !IsSpace(w[i])
  }

  /** `s.split()`: the maximal runs of non-whitespace characters. */
  function Words(s: string): (ws: seq<string>)
    ensures forall i :: 0 <= i < |ws| ==> IsWord(ws[i])
    decreases |s|
  {
    var t := s[LeadingSpaces(s)..];
    if |t| == 0 then []
    else
      var k := WordLength(t);
      [t[..k]] + Words(t[k..])
  }

  /** `' '.join(ws)`. */
  function JoinSpaced(ws: seq<string>): string {
    if |ws| == 0 then ""
    else if |ws| == 1 then ws[0]
    else ws[0] + " " + JoinSpaced(ws[1..])
  }

  /** `' '.join(s.split())`. */
  function Collapse(s: string): string {
    JoinSpaced(Words(s))
  }

  /** If position `i` holds whitespace, it is a plain space followed by a
      non-whitespace character. */
  predicate SpaceOkAt(s: string, i: nat)
    requires i < |s|
  {
    IsSpace(s[i]) ==> s[i] == ' ' && i + 1 < |s| && !IsSpace(s[i + 1])
  }

  /** Every whitespace character is a plain space and is followed by a
      non-whitespace character. */
  ghost predicate SingleSpaced(s: string) {
    forall i: nat :: i < |s| ==> SpaceOkAt(s, i)
  }

  /** Single spaces only, and none at either end. */
  ghost predicate Collapsed(s: string) {
    SingleSpaced(s) && (|s| > 0 ==> !IsSpace(s[0]))
  }

  lemma {:induction false} JoinSpacedCollapsed(ws: seq<string>)
    requires forall i :: 0 <= i < |ws| ==> IsWord(ws[i])
    ensures Collapsed(JoinSpaced(ws))
    ensures |ws| > 0 ==> |JoinSpaced(ws)| > 0
  {
    if |ws| > 1 {
      JoinSpacedCollapsed(ws[1..]);
      var rest := JoinSpaced(ws[1..]);
      var r := JoinSpaced(ws);
      assert r == ws[0] + [' '] + rest;
      forall i: nat | i < |r| ensures SpaceOkAt(r, i) {
        if i > |ws[0]| {
          assert r[i] == rest[i - |ws[0]| - 1];
          assert SpaceOkAt(rest, i - |ws[0]| - 1);
          if i + 1 < |r| { assert r[i + 1] == rest[i - |ws[0]|]; }
        } else if i < |ws[0]| {
          assert r[i] == ws[0][i];
        }
      }
    }
  }

  /** Collapsing leaves single spaces between words and none at the ends. */
  lemma CollapseCollapsed(s: string)
    ensures Collapsed(Collapse(s))
    ensures |Collapse(s)| > 0 ==> !IsSpace(Collapse(s)[|Collapse(s)| - 1])
  {
    JoinSpacedCollapsed(Words(s));
    var c := Collapse(s);
    if |c| > 0 {
      assert SpaceOkAt(c, |c| - 1);
    }
  }

  /** Joining two collapsed, non-empty strings with one space keeps the
      result collapsed. */
  lemma JoinCollapsed(a: string, b: string)
    requires Collapsed(a) && |a| > 0 && Collapsed(b) && |b| > 0
    ensures Collapsed(a + " " + b)
  {
    var r := a + " " + b;
    assert SpaceOkAt(a, |a| - 1);
    forall i: nat | i < |r| ensures SpaceOkAt(r, i) {
      if i < |a| {
        assert r[i] == a[i];
        assert SpaceOkAt(a, i);
        if i + 1 < |a| { assert r[i + 1] == a[i + 1]; }
      } else if i > |a| {
        assert r[i] == b[i - |a| - 1];
        assert SpaceOkAt(b, i - |a| - 1);
        if i + 1 < |r| { assert r[i + 1] == b[i - |a|]; }
      } else {
        assert r[i + 1] == b[0];
      }
    }
  }

  /** A collapsed string does not end in whitespace. */
  lemma CollapsedLast(s: string)
    requires Collapsed(s) && |s| > 0
    ensures !IsSpace(s[|s| - 1])
  {
    assert SpaceOkAt(s, |s| - 1);
  }

  /** Cutting a collapsed string just before one of its spaces leaves a
      collapsed string that is its own strip. */
  lemma CollapsedCut(s: string, m: nat)
    requires Collapsed(s) && m < |s| && s[m] == ' '
    ensures Collapsed(s[..m]) && Strip(s[..m]) == s[..m]
  {
    var p := s[..m];
    if m > 0 {
      assert SpaceOkAt(s, m - 1);
      assert p[m - 1] == s[m - 1] && p[0] == s[0];
    }
    StripStripped(p);
    assert s[0..m] == p;
    SliceSingleSpaced(s, 0, m);
  }

  /** A slice of a single-spaced string that does not end in a space is
      single-spaced. */
  lemma SliceSingleSpaced(s: string, i: nat, j: nat)
    requires SingleSpaced(s) && i <= j <= |s|
    requires j > i ==> !IsSpace(s[j - 1])
    ensures SingleSpaced(s[i..j])
  {
    var r := s[i..j];
    forall k: nat | k < |r| ensures SpaceOkAt(r, k) {
      assert r[k] == s[i + k];
      assert SpaceOkAt(s, i + k);
      if IsSpace(r[k]) {
        assert k != |r| - 1;
        assert r[k + 1] == s[i + k + 1];
      }
    }
  }

  /** Cutting a single-spaced string and stripping it leaves it collapsed. */
  lemma StripPrefixCollapsed(s: string, m: nat)
    requires SingleSpaced(s) && m <= |s|
    ensures Collapsed(Strip(s[..m]))
  {
    var p := s[..m];
    var lo, hi := LeadingSpaces(p), StripEnd(p);
    assert hi <= |p| == m;
    assert p[lo..hi] == s[lo..hi] by {
      forall k | 0 <= k < hi - lo ensures p[lo..hi][k] == s[lo..hi][k] {
        assert p[lo + k] == s[lo + k];
      }
    }
    SliceSingleSpaced(s, lo, hi);
  }

  /** After one leading space, the words are those of the rest. */
  lemma WordsAfterSpace(x: string)
    requires |x| > 1 && IsSpace(x[0]) && !IsSpace(x[1])
    ensures Words(x) == Words(x[1..])
  {
    assert LeadingSpaces(x[1..]) == 0;
    assert LeadingSpaces(x) == 1 by {
      assert LeadingSpaces(x) == 1 + LeadingSpaces(x[1..]);
    }
    assert x[1..][0..] == x[1..];
  }

  /** A non-empty run without whitespace is a single word. */
  lemma WordsOfWord(s: string)
    requires IsWord(s)
    ensures Words(s) == [s]
  {
    assert LeadingSpaces(s) == 0 && s[0..] == s;
    assert WordLength(s) == |s|;
    assert s[|s|..] == "" && s[..|s|] == s;
    assert Words("") == [] by {
      assert LeadingSpaces("") == 0;
    }
  }

  lemma WordsSplitAtSpace(s: string, k: nat)
    requires |s| > 0 && !IsSpace(s[0])
    requires k == WordLength(s) && k + 1 < |s| && !IsSpace(s[k + 1])
    ensures Words(s) == [s[..k]] + Words(s[k + 1..])
  {
    assert LeadingSpaces(s) == 0 && s[0..] == s;
    WordsAfterSpace(s[k..]);
    assert s[k..][1..] == s[k + 1..];
  }

  lemma CollapsedTail(s: string, k: nat)
    requires Collapsed(s) && k < |s| && s[k] == ' '
    ensures k + 1 < |s| && Collapsed(s[k + 1..])
  {
    var rest := s[k + 1..];
    assert SpaceOkAt(s, k);
    forall i: nat | i < |rest| ensures SpaceOkAt(rest, i) {
      assert rest[i] == s[k + 1 + i];
      assert SpaceOkAt(s, k + 1 + i);
      if k + 2 + i < |s| { assert rest[i + 1] == s[k + 2 + i]; }
    }
  }

  lemma JoinSpacedCons(w: string, ws: seq<string>)
    requires |ws| > 0
    ensures JoinSpaced([w] + ws) == w + " " + JoinSpaced(ws)
  {
    assert ([w] + ws)[1..] == ws;
  }

  /** The words of a collapsed string that contains a space: the first
      word, then the words of what follows the space. */
  lemma CollapsedWords(s: string) returns (k: nat)
    requires Collapsed(s) && |s| > 0 && WordLength(s) < |s|
    ensures k == WordLength(s) && k + 1 < |s|
    ensures Collapsed(s[k + 1..]) && |s[k + 1..]| < |s|
    ensures Words(s) == [s[..k]] + Words(s[k + 1..])
    ensures s[k] == ' '
  {
    k := WordLength(s);
    assert SpaceOkAt(s, k);
    CollapsedTail(s, k);
    WordsSplitAtSpace(s, k);
  }

  lemma SplitAtSpace(s: string, k: nat)
    requires k < |s| && s[k] == ' '
    ensures s == s[..k] + " " + s[k + 1..]
  {
  }

  /** The word run of `x` is determined by the first whitespace character. */
  lemma WordLengthIs(x: string, k: nat)
    requires k <= |x| && forall i :: 0 <= i < k ==> !IsSpace(x[i])
    requires k < |x| ==> IsSpace(x[k])
    ensures WordLength(x) == k
  {
  }

  /** A leading whitespace character does not change the words. */
  lemma WordsDropSpace(x: string)
    requires |x| > 0 && IsSpace(x[0])
    ensures Words(x) == Words(x[1..])
  {
    assert LeadingSpaces(x) == 1 + LeadingSpaces(x[1..]);
    assert x[LeadingSpaces(x)..] == x[1..][LeadingSpaces(x[1..])..];
  }

  /** A string starting with a non-whitespace character: its first word,
      then the words of the rest. */
  lemma WordsStep(x: string)
    requires |x| > 0 && !IsSpace(x[0])
    ensures Words(x) == [x[..WordLength(x)]] + Words(x[WordLength(x)..])
  {
    assert LeadingSpaces(x) == 0;
    assert x[0..] == x;
  }

  lemma WordsOfEmpty()
    ensures Words("") == []
  {
    assert LeadingSpaces("") == 0;
  }

  // Sequence identities, kept apart from the word lemmas: stated next to
  // `Words` terms they make the solver unfold `Words` without end.

  lemma ConcatSlices(a: string, t: string, k: nat)
    requires k <= |a|
    ensures (a + t)[..k] == a[..k] && (a + t)[k..] == a[k..] + t
    ensures (a + t)[..|a|] == a && (a + t)[|a|..] == t
  {
  }

  lemma DropConcat(a: string, t: string)
    requires |a| > 0
    ensures (a + t)[1..] == a[1..] + t
  {
  }

  lemma EmptyConcat(a: string, t: string)
    requires |a| == 0
    ensures a + t == t
  {
  }

  lemma ConsSpace(a: string, c: char, b: string)
    ensures a + [c] + b == a + ([c] + b) && ([c] + b)[0] == c && ([c] + b)[1..] == b
  {
  }

  lemma SplitAround(s: string, k: nat)
    requires k < |s|
    ensures s == s[..k] + ([s[k]] + s[k + 1..])
  {
  }

  /** A word run that stops inside `a` stops at the same place in `a`
      followed by anything. */
  lemma WordLengthExtend(a: string, t: string)
    requires WordLength(a) < |a|
    ensures WordLength(a + t) == WordLength(a)
  {
    var x := a + t;
    assert forall i :: 0 <= i <= WordLength(a) ==> x[i] == a[i];
    WordLengthIs(x, WordLength(a));
  }

  /** A word followed by whitespace is a run of its own length. */
  lemma WordLengthOfWordThen(a: string, t: string)
    requires IsWord(a) && |t| > 0 && IsSpace(t[0])
    ensures WordLength(a + t) == |a|
  {
    var x := a + t;
    assert forall i :: 0 <= i < |a| ==> x[i] == a[i];
    assert x[|a|] == t[0];
    WordLengthIs(x, |a|);
  }

  /** Drops a leading whitespace character given as `x`'s tail `y`. */
  lemma WordsShift(x: string, y: string)
    requires |x| > 0 && IsSpace(x[0]) && x[1..] == y
    ensures Words(x) == Words(y)
  {
    WordsDropSpace(x);
  }

  lemma WordsStepExtend(a: string, t: string, ka: nat)
    requires |a| > 0 && !IsSpace(a[0]) && ka == WordLength(a) && ka < |a|
    ensures Words(a + t) == [a[..ka]] + Words(a[ka..] + t)
  {
    WordLengthExtend(a, t);
    ConcatSlices(a, t, ka);
    WordsStep(a + t);
  }

  /** The case of `WordsBeforeSpace` where `a` is empty. */
  lemma EmptyBeforeSpace(a: string, t: string)
    requires |a| == 0 && |t| > 0 && IsSpace(t[0])
    ensures Words(a + t) == Words(a) + Words(t[1..])
  {
    EmptyConcat(a, t);
    WordsDropSpace(t);
    WordsOfEmpty();
  }

  /** The case of `WordsBeforeSpace` where `a` starts with whitespace. */
  lemma LeadingSpaceBeforeSpace(a: string, t: string)
    requires |a| > 0 && IsSpace(a[0]) && |t| > 0 && IsSpace(t[0])
    requires Words(a[1..] + t) == Words(a[1..]) + Words(t[1..])
    ensures Words(a + t) == Words(a) + Words(t[1..])
  {
    DropConcat(a, t);
    WordsShift(a + t, a[1..] + t);
    WordsDropSpace(a);
  }

  /** The case of `WordsBeforeSpace` where `a` starts with a word that ends
      inside `a`. */
  lemma WordInsideBeforeSpace(a: string, t: string, ka: nat)
    requires |a| > 0 && !IsSpace(a[0]) && ka == WordLength(a) && ka < |a| && |t| > 0 && IsSpace(t[0])
    requires Words(a[ka..] + t) == Words(a[ka..]) + Words(t[1..])
    ensures Words(a + t) == Words(a) + Words(t[1..])
  {
    WordsStepExtend(a, t, ka);
    WordsStep(a);
    ConsAppend(a[..ka], Words(a + t), Words(a), Words(a[ka..] + t), Words(a[ka..]), Words(t[1..]));
  }

  /** Reassociation, stated over plain values so that no `Words` term is
      unfolded while proving it. */
  lemma ConsAppend(h: string, wx: seq<string>, wa: seq<string>, wxRest: seq<string>, waRest: seq<string>,
                   wt: seq<string>)
    requires wx == [h] + wxRest && wa == [h] + waRest && wxRest == waRest + wt
    ensures wx == wa + wt
  {
  }

  /** Cutting at any whitespace character splits the words. */
  lemma WordsAtSpace(s: string, k: nat)
    requires k < |s| && IsSpace(s[k])
    ensures Words(s) == Words(s[..k]) + Words(s[k + 1..])
  {
    SplitAround(s, k);
    ConsSpace(s[..k], s[k], s[k + 1..]);
    WordsBeforeSpace(s[..k], [s[k]] + s[k + 1..]);
  }

  /** The case of `WordsBeforeSpace` where `a` is a single word. */
  lemma WordBeforeSpace(a: string, t: string)
    requires IsWord(a) && |t| > 0 && IsSpace(t[0])
    ensures Words(a + t) == Words(a) + Words(t[1..])
  {
    WordLengthOfWordThen(a, t);
    ConcatSlices(a, t, |a|);
    WordsStep(a + t);
    WordsDropSpace(t);
    WordsOfWord(a);
  }

  /** The words of `a` followed by text that starts with whitespace are the
      words of `a`, then the words after that whitespace character. */
  lemma {:induction false} WordsBeforeSpace(a: string, t: string)
    requires |t| > 0 && IsSpace(t[0])
    ensures Words(a + t) == Words(a) + Words(t[1..])
    decreases |a|
  {
    if |a| == 0 {
      EmptyBeforeSpace(a, t);
    } else if IsSpace(a[0]) {
      WordsBeforeSpace(a[1..], t);
      LeadingSpaceBeforeSpace(a, t);
    } else if WordLength(a) < |a| {
      WordsBeforeSpace(a[WordLength(a)..], t);
      WordInsideBeforeSpace(a, t, WordLength(a));
    } else {
      WordBeforeSpace(a, t);
    }
  }

  /** `split()` cuts at every whitespace character: the words of `a`, a
      whitespace character, then `b` are the words of `a` followed by those
      of `b`. With `WordsOfWord` and `WordsOfBlank` this pins down the words
      of any string. */
  lemma WordsAroundSpace(a: string, c: char, b: string)
    requires IsSpace(c)
    ensures Words(a + [c] + b) == Words(a) + Words(b)
  {
    ConsSpace(a, c, b);
    WordsBeforeSpace(a, [c] + b);
  }

  /** A string of whitespace only has no words. */
  lemma {:induction false} WordsOfBlank(s: string)
    requires forall i :: 0 <= i < |s| ==> IsSpace(s[i])
    ensures Words(s) == []
    decreases |s|
  {
    if |s| == 0 {
      assert LeadingSpaces(s) == 0;
    } else {
      WordsDropSpace(s);
      WordsOfBlank(s[1..]);
    }
  }

  /** The words of words joined by single spaces are those words: `split()`
      undoes `' '.join`. */
  lemma {:induction false} WordsOfJoin(ws: seq<string>)
    requires forall i :: 0 <= i < |ws| ==> IsWord(ws[i])
    ensures Words(JoinSpaced(ws)) == ws
  {
    if |ws| == 0 {
      assert LeadingSpaces("") == 0;
    } else if |ws| == 1 {
      WordsOfWord(ws[0]);
    } else {
      WordsOfJoin(ws[1..]);
      WordsOfWord(ws[0]);
      assert JoinSpaced(ws) == ws[0] + [' '] + JoinSpaced(ws[1..]);
      WordsAroundSpace(ws[0], ' ', JoinSpaced(ws[1..]));
      assert ws == [ws[0]] + ws[1..];
    }
  }

  /** Collapsing keeps the words, in order: `' '.join(s.split())` has
      exactly the words of `s`. */
  lemma CollapseKeepsWords(s: string)
    ensures Words(Collapse(s)) == Words(s)
  {
    WordsOfJoin(Words(s));
  }

  /** Replacing whitespace characters by other whitespace characters does
      not change the words. */
  lemma {:induction false} WordsIgnoreWhichSpace(s: string, t: string)
    requires Respaced(s, t)
    ensures Words(s) == Words(t)
    decreases |s|
  {
    if exists k :: 0 <= k < |s| && IsSpace(s[k]) {
      var k :| 0 <= k < |s| && IsSpace(s[k]);
      RespacedSlices(s, t, k);
      WordsAtSpace(s, k);
      WordsAtSpace(t, k);
      WordsIgnoreWhichSpace(s[..k], t[..k]);
      WordsIgnoreWhichSpace(s[k + 1..], t[k + 1..]);
    } else {
      RespacedWithoutSpace(s, t);
    }
  }

  /** `t` is `s` with some whitespace characters replaced by whitespace. */
  predicate Respaced(s: string, t: string) {
    |s| == |t| && forall i :: 0 <= i < |s| ==> s[i] == t[i] || (IsSpace(s[i]) && IsSpace(t[i]))
  }

  lemma RespacedSlices(s: string, t: string, k: nat)
    requires Respaced(s, t) && k < |s|
    ensures IsSpace(s[k]) ==> IsSpace(t[k])
    ensures Respaced(s[..k], t[..k]) && Respaced(s[k + 1..], t[k + 1..])
  {
    assert forall i :: 0 <= i < k ==> s[..k][i] == s[i] && t[..k][i] == t[i];
    assert forall j :: k + 1 <= j < |s| ==> s[k + 1..][j - k - 1] == s[j] && t[k + 1..][j - k - 1] == t[j];
  }

  lemma RespacedWithoutSpace(s: string, t: string)
    requires Respaced(s, t) && forall k :: 0 <= k < |s| ==> !IsSpace(s[k])
    ensures s == t
  {
  }

  /** A collapsed string is its own collapse. */
  lemma {:induction false} CollapseOfCollapsed(s: string)
    requires Collapsed(s)
    ensures Collapse(s) == s
    decreases |s|
  {
    if |s| > 0 {
      if WordLength(s) < |s| {
        var k := CollapsedWords(s);
        var rest := s[k + 1..];
        SplitAtSpace(s, k);
        CollapseOfCollapsed(rest);
        JoinSpacedCons(s[..k], Words(rest));
      } else {
        WordsOfWord(s);
      }
    }
  }

  // Searching

  predicate OccursAt(s: string, sub: string, i: nat) {
    i + |sub| <= |s| && s[i..i + |sub|] == sub
  }

  /** `s.find(sub, from)`: the first occurrence at or after `from`. */
  function Find(s: string, sub: string, from: nat): (r: Option<nat>)
    ensures r.Some? ==> from <= r.value && OccursAt(s, sub, r.value)
                        && forall i :: from <= i < r.value ==> !OccursAt(s, sub, i)
    ensures r.None? ==> forall i :: from <= i ==> !OccursAt(s, sub, i)
    decreases |s| - from
  {
    if from + |sub| > |s| then None
    else if OccursAt(s, sub, from) then Some(from)
    else Find(s, sub, from + 1)
  }

  /** `sub in s`. */
  predicate Contains(s: string, sub: string) {
    Find(s, sub, 0).Some?
  }

  lemma ContainsAt(s: string, sub: string, i: nat)
    requires OccursAt(s, sub, i)
    ensures Contains(s, sub)
  {
  }

  predicate EndsWith(s: string, suffix: string) {
    |suffix| <= |s| && s[|s| - |suffix|..] == suffix
  }

  predicate StartsWith(s: string, prefix: string) {
    |prefix| <= |s| && s[..|prefix|] == prefix
  }

  // Case mapping (ASCII letters)

  function LowerChar(c: char): char {
    if 'A' <= c <= 'Z' then (c as int + 32) as char else c
  }

  function UpperChar(c: char): char {
    if 'a' <= c <= 'z' then (c as int - 32) as char else c
  }

  predicate IsCased(c: char) {
    ('a' <= c <= 'z') || ('A' <= c <= 'Z')
  }

  /** `s.lower()`: no upper-case letter is left, every other character is
      kept, and each position still holds the same letter up to case. */
  function Lower(s: string): (r: string)
    ensures |r| == |s|
    ensures forall i :: 0 <= i < |r| ==> !('A' <= r[i] <= 'Z')
    ensures forall i :: 0 <= i < |s| && !('A' <= s[i] <= 'Z') ==> r[i] == s[i]
    ensures forall i :: 0 <= i < |s| ==> UpperChar(r[i]) == UpperChar(s[i])
  {
    seq(|s|, i requires 0 <= i < |s| => LowerChar(s[i]))
  }

  /** `s.upper()`: no lower-case letter is left, every other character is
      kept, and each position still holds the same letter up to case. */
  function Upper(s: string): (r: string)
    ensures |r| == |s|
    ensures forall i :: 0 <= i < |r| ==> !('a' <= r[i] <= 'z')
    ensures forall i :: 0 <= i < |s| && !('a' <= s[i] <= 'z') ==> r[i] == s[i]
    ensures forall i :: 0 <= i < |s| ==> LowerChar(r[i]) == LowerChar(s[i])
  {
    seq(|s|, i requires 0 <= i < |s| => UpperChar(s[i]))
  }

  /** Case mapping is idempotent, and each direction forgets the other:
      upper-casing after lower-casing is just upper-casing, and the other
      way round. Two strings agree ignoring case exactly when their
      lower-cased (equivalently, upper-cased) forms agree. */
  lemma CaseRoundTrip(s: string, t: string)
    ensures Lower(Lower(s)) == Lower(s) && Upper(Upper(s)) == Upper(s)
    ensures Upper(Lower(s)) == Upper(s) && Lower(Upper(s)) == Lower(s)
    ensures Lower(s) == Lower(t) <==> Upper(s) == Upper(t)
  {
    if Lower(s) == Lower(t) {
      assert |s| == |t|;
      forall i | 0 <= i < |s| ensures Upper(s)[i] == Upper(t)[i] {
        assert Lower(s)[i] == Lower(t)[i];
      }
    }
    if Upper(s) == Upper(t) {
      assert |s| == |t|;
      forall i | 0 <= i < |s| ensures Lower(s)[i] == Lower(t)[i] {
        assert Upper(s)[i] == Upper(t)[i];
      }
    }
  }

  /** An exact occurrence is also an occurrence after lower-casing both sides. */
  lemma LowerKeepsOccurrence(s: string, sub: string, i: nat)
    requires OccursAt(s, sub, i)
    ensures OccursAt(Lower(s), Lower(sub), i)
  {
    assert Lower(s)[i..i + |sub|] == Lower(sub) by {
      forall k | 0 <= k < |sub| ensures Lower(s)[i..i + |sub|][k] == Lower(sub)[k] {
        assert s[i + k] == sub[k];
      }
    }
  }

  /** `s.title()`: a letter is upper-cased when it follows a non-letter and
      lower-cased otherwise. */
  function TitleAfter(s: string, prevCased: bool): (r: string)
    ensures |r| == |s|
  {
    if |s| == 0 then ""
    else
      var c := if !IsCased(s[0]) then s[0] else if prevCased then LowerChar(s[0]) else UpperChar(s[0]);
      [c] + TitleAfter(s[1..], IsCased(s[0]))
  }

  function Title(s: string): string {
    TitleAfter(s, false)
  }
}
