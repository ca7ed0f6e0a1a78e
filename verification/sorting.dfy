/**
 * Stable sorting by a real-valued key and first-match search: the two
 * list operations the tier lookups are made of (Python's `sorted(..., key=...)`
 * followed by a `for` loop that returns at the first qualifying element).
 */
module Sorting {
  import opened Wrappers

  ghost predicate SortedBy<T>(s: seq<T>, key: T -> real) {
    forall i, j :: 0 <= i < j < |s| ==> key(s[i]) <= key(s[j])
  }

  /** Inserts `x` before the first element whose key is not smaller,
      so that `x` stays ahead of the elements with an equal key. */
  function Insert<T>(x: T, s: seq<T>, key: T -> real): seq<T> {
    if |s| == 0 || key(x) <= key(s[0]) then [x] + s
    else [s[0]] + Insert(x, s[1..], key)
  }

  /** Insertion adds exactly `x` to the elements. */
  lemma {:induction false} InsertPermutes<T>(x: T, s: seq<T>, key: T -> real)
    ensures multiset(Insert(x, s, key)) == multiset(s) + multiset{x}
  {
    if |s| > 0 && key(x) > key(s[0]) {
      InsertPermutes(x, s[1..], key);
      assert s == [s[0]] + s[1..];
    }
  }

  /** Insertion into a sorted list keeps it sorted. */
  lemma {:induction false} InsertSorted<T>(x: T, s: seq<T>, key: T -> real)
    requires SortedBy(s, key)
    ensures SortedBy(Insert(x, s, key), key)
  {
    if |s| > 0 && key(x) > key(s[0]) {
      var rest := Insert(x, s[1..], key);
      InsertSorted(x, s[1..], key);
      InsertPermutes(x, s[1..], key);
      assert s == [s[0]] + s[1..];
      forall k | 0 <= k < |rest| ensures key(s[0]) <= key(rest[k]) {
        assert rest[k] in multiset(rest);
        if rest[k] != x {
          assert rest[k] in multiset(s[1..]);
          var m :| 0 <= m < |s[1..]| && s[1..][m] == rest[k];
          assert s[m + 1] == rest[k];
        }
      }
    }
  }

  /** Insertion sort; stable like Python's `sorted`. */
  function SortBy<T>(s: seq<T>, key: T -> real): seq<T> {
    if |s| == 0 then [] else Insert(s[0], SortBy(s[1..], key), key)
  }

  /** Sorting yields a list ordered by key with the same elements. */
  lemma {:induction false} SortByCorrect<T>(s: seq<T>, key: T -> real)
    ensures SortedBy(SortBy(s, key), key)
    ensures multiset(SortBy(s, key)) == multiset(s)
    ensures |SortBy(s, key)| == |s|
  {
    if |s| > 0 {
      SortByCorrect(s[1..], key);
      InsertSorted(s[0], SortBy(s[1..], key), key);
      InsertPermutes(s[0], SortBy(s[1..], key), key);
      assert s == [s[0]] + s[1..];
      assert |multiset(SortBy(s, key))| == |multiset(s)|;
    }
  }

  /** The position of the first element of `s` that satisfies `p`. */
  function FirstMatchIndex<T>(s: seq<T>, p: T -> bool): (r: Option<nat>)
    ensures r.None? <==> forall i :: 0 <= i < |s| ==> !p(s[i])
    ensures r.Some? ==> r.value < |s| && p(s[r.value])
                        && forall j :: 0 <= j < r.value ==> !p(s[j])
  {
    if |s| == 0 then None
    else if p(s[0]) then Some(0)
    else
      match FirstMatchIndex(s[1..], p)
      case None => None
      case Some(i) => Some(i + 1)
  }

  /** The first element of `s` (in list order) that satisfies `p`. */
  function FirstMatch<T>(s: seq<T>, p: T -> bool): (r: Option<T>)
    ensures r.None? <==> forall i :: 0 <= i < |s| ==> !p(s[i])
    ensures r.Some? ==> exists i :: 0 <= i < |s| && s[i] == r.value && p(s[i])
                                    && forall j :: 0 <= j < i ==> !p(s[j])
  {
    match FirstMatchIndex(s, p)
    case None => None
    case Some(i) => Some(s[i])
  }

  lemma SameElements<T>(s: seq<T>, t: seq<T>)
    requires multiset(s) == multiset(t)
    ensures forall x :: x in s <==> x in t
  {
    forall x ensures x in s <==> x in t {
      assert x in s <==> x in multiset(s);
      assert x in t <==> x in multiset(t);
    }
  }

  /** In a list sorted by `key`, the first match has the smallest key
      among the matching elements. */
  lemma FirstMatchInSortedIsLeast<T>(sorted: seq<T>, key: T -> real, p: T -> bool)
    requires SortedBy(sorted, key)
    ensures FirstMatch(sorted, p).None? <==> forall x :: x in sorted ==> !p(x)
    ensures FirstMatch(sorted, p).Some? ==>
              var t := FirstMatch(sorted, p).value;
              t in sorted && p(t) && forall x :: x in sorted && p(x) ==> key(t) <= key(x)
  {
    var r := FirstMatchIndex(sorted, p);
    if r.Some? {
      var i := r.value;
      forall x | x in sorted && p(x) ensures key(sorted[i]) <= key(x) {
        var k :| 0 <= k < |sorted| && sorted[k] == x;
        assert i <= k;
      }
    } else {
      forall x | x in sorted ensures !p(x) {
        var k :| 0 <= k < |sorted| && sorted[k] == x;
      }
    }
  }

  /** The element that `FirstMatch` finds in a sorted copy is one of the
      matching elements of the original list with the smallest key, and
      there is none exactly when nothing matches. */
  lemma {:induction false} FirstMatchOfSortedIsLeast<T>(s: seq<T>, key: T -> real, p: T -> bool)
    ensures FirstMatch(SortBy(s, key), p).None? <==> forall x :: x in s ==> !p(x)
    ensures FirstMatch(SortBy(s, key), p).Some? ==>
              var t := FirstMatch(SortBy(s, key), p).value;
              t in s && p(t) && forall x :: x in s && p(x) ==> key(t) <= key(x)
  {
    var sorted := SortBy(s, key);
    SortByCorrect(s, key);
    SameElements(s, sorted);
    FirstMatchInSortedIsLeast(sorted, key, p);
  }

  ghost predicate KeysUnique<T>(s: seq<T>, key: T -> real) {
    forall i, j :: 0 <= i < |s| && 0 <= j < |s| && i != j ==> key(s[i]) != key(s[j])
  }

  /** When no two elements share a key, sorting makes the first match
      independent of the order the list was given in. */
  lemma {:induction false} FirstMatchOrderIndependent<T>(s1: seq<T>, s2: seq<T>, key: T -> real, p: T -> bool)
    requires multiset(s1) == multiset(s2)
    requires KeysUnique(s1, key)
    ensures FirstMatch(SortBy(s1, key), p) == FirstMatch(SortBy(s2, key), p)
  {
    FirstMatchOfSortedIsLeast(s1, key, p);
    FirstMatchOfSortedIsLeast(s2, key, p);
    SameElements(s1, s2);
    var r1 := FirstMatch(SortBy(s1, key), p);
    var r2 := FirstMatch(SortBy(s2, key), p);
    if r1.Some? && r2.Some? {
      var a := r1.value;
      var b := r2.value;
      assert key(a) == key(b);
      var i :| 0 <= i < |s1| && s1[i] == a;
      var j :| 0 <= j < |s1| && s1[j] == b;
      assert i == j;
    }
  }
}
