/** Orders and sorting shared by the dispatch, metrics and codec models.

    Go compares strings bytewise (`<`) and sorts with `sort.Slice` and `sort.Float64s`. The library
    sorts are modelled by one in-place sort that takes the comparison the caller passes. */
module Ordering {

  /** Go's `a < b` on strings. */
  predicate LexLess(a: string, b: string)
  {
    if b == "" then false
    else if a == "" then true
    else if a[0] != b[0] then a[0] < b[0]
    else LexLess(a[1..], b[1..])
  }

  lemma {:induction false} LexTotal(a: string, b: string)
    ensures a != b ==> LexLess(a, b) || LexLess(b, a)
    ensures !(LexLess(a, b) && LexLess(b, a))
    ensures !LexLess(a, a)
    decreases |a|
  {
    if a != "" {
      LexTotal(a[1..], a[1..]);
      if b != "" && a[0] == b[0] {
        assert a == [a[0]] + a[1..] && b == [b[0]] + b[1..];
        LexTotal(a[1..], b[1..]);
      }
    }
  }

  lemma {:induction false} LexTransitive(a: string, b: string, c: string)
    requires LexLess(a, b) && LexLess(b, c)
    ensures LexLess(a, c)
  {
    if a != "" && a[0] == b[0] == c[0] {
      LexTransitive(a[1..], b[1..], c[1..]);
    }
  }

  /** The two agree up to position `k`, where `a` ends or has the smaller character. */
  predicate FirstDifference(a: string, b: string, k: nat)
  {
    k <= |a| && k < |b| && a[..k] == b[..k] && (k == |a| || a[k] < b[k])
  }

  lemma DifferenceLater(a: string, b: string, k: nat)
    requires FirstDifference(a, b, k) && k > 0
    ensures a != "" && b != "" && a[0] == b[0]
  {
    assert a[0] == a[..k][0] && b[0] == b[..k][0];
  }

  lemma {:induction false} LexLessIff(a: string, b: string)
    ensures LexLess(a, b) <==> exists k: nat :: FirstDifference(a, b, k)
  {
    if a == "" || b == "" || a[0] != b[0] {
      if LexLess(a, b) {
        assert FirstDifference(a, b, 0);
      }
      forall k: nat | FirstDifference(a, b, k) ensures LexLess(a, b) {
        if k > 0 {
          DifferenceLater(a, b, k);
        }
      }
    } else {
      LexLessIff(a[1..], b[1..]);
      forall k: nat ensures FirstDifference(a, b, k + 1) <==> FirstDifference(a[1..], b[1..], k) {
        if k < |a| && k < |b| {
          assert a[..k + 1] == [a[0]] + a[1..][..k] && b[..k + 1] == [b[0]] + b[1..][..k];
          assert a[1..][..k] == a[..k + 1][1..] && b[1..][..k] == b[..k + 1][1..];
        }
      }
      forall k: nat | FirstDifference(a, b, k) ensures LexLess(a, b) {
        if k == 0 {
          assert false;
        }
        assert FirstDifference(a[1..], b[1..], k - 1);
      }
      if k: nat :| FirstDifference(a[1..], b[1..], k) {
        assert FirstDifference(a, b, k + 1);
      }
    }
  }

  /** `before` is a strict total order: what both library sorts are given here. */
  ghost predicate StrictTotal<T(!new)>(before: (T, T) -> bool)
  {
    && (forall x :: !before(x, x))
    && (forall x, y :: x != y ==> before(x, y) || before(y, x))
    && (forall x, y, z :: before(x, y) && before(y, z) ==> before(x, z))
  }

  ghost predicate Sorted<T(!new)>(before: (T, T) -> bool, s: seq<T>)
  {
    forall i, j | 0 <= i < j < |s| :: before(s[i], s[j]) || s[i] == s[j]
  }

  function Insert<T(==)>(before: (T, T) -> bool, x: T, s: seq<T>): (r: seq<T>)
    ensures |r| == |s| + 1
  {
    if s == [] then [x]
    else if before(s[0], x) then [s[0]] + Insert(before, x, s[1..])
    else [x] + s
  }

  function SortBy<T(==)>(before: (T, T) -> bool, s: seq<T>): (r: seq<T>)
    ensures |r| == |s|
  {
    if s == [] then [] else Insert(before, s[0], SortBy(before, s[1..]))
  }

  lemma {:induction false} InsertKeeps<T>(before: (T, T) -> bool, x: T, s: seq<T>)
    ensures multiset(Insert(before, x, s)) == multiset(s) + multiset{x}
  {
    if s != [] && before(s[0], x) {
      InsertKeeps(before, x, s[1..]);
      assert s == [s[0]] + s[1..];
    }
  }

  /** `y` comes no later than anything in `s`. */
  ghost predicate Leads<T(!new)>(before: (T, T) -> bool, y: T, s: seq<T>)
  {
    forall j | 0 <= j < |s| :: before(y, s[j]) || y == s[j]
  }

  lemma SortedCons<T(!new)>(before: (T, T) -> bool, y: T, s: seq<T>)
    requires Sorted(before, s) && Leads(before, y, s)
    ensures Sorted(before, [y] + s)
  {
  }

  lemma LeadsInsert<T(!new)>(before: (T, T) -> bool, y: T, x: T, s: seq<T>)
    requires Leads(before, y, s) && before(y, x)
    ensures Leads(before, y, Insert(before, x, s))
  {
    var r := Insert(before, x, s);
    InsertKeeps(before, x, s);
    forall j | 0 <= j < |r| ensures before(y, r[j]) || y == r[j] {
      assert r[j] in multiset(r);
      assert r[j] in multiset(s) || r[j] == x;
    }
  }

  lemma {:induction false} InsertSorted<T(!new)>(before: (T, T) -> bool, x: T, s: seq<T>)
    requires StrictTotal(before) && Sorted(before, s)
    ensures Sorted(before, Insert(before, x, s))
  {
    if s != [] && before(s[0], x) {
      InsertSorted(before, x, s[1..]);
      LeadsInsert(before, s[0], x, s[1..]);
      SortedCons(before, s[0], Insert(before, x, s[1..]));
    } else if s != [] {
      assert forall j | 0 < j < |s| :: before(s[0], s[j]) || s[0] == s[j];
      SortedCons(before, x, s);
    }
  }

  /** The sort is a sorted permutation of its input. */
  lemma {:induction false} SortBySorts<T(!new)>(before: (T, T) -> bool, s: seq<T>)
    requires StrictTotal(before)
    ensures Sorted(before, SortBy(before, s))
    ensures multiset(SortBy(before, s)) == multiset(s)
  {
    if s != [] {
      SortBySorts(before, s[1..]);
      InsertSorted(before, s[0], SortBy(before, s[1..]));
      InsertKeeps(before, s[0], SortBy(before, s[1..]));
      assert s == [s[0]] + s[1..];
    }
  }

  /** Stand-in for `sort.Slice` / `sort.Float64s`: sorts the array in place. */
  method SortInPlace<T(!new,==)>(a: array<T>, before: (T, T) -> bool)
    requires StrictTotal(before)
    modifies a
    ensures Sorted(before, a[..])
    ensures multiset(a[..]) == multiset(old(a[..]))
  {
    var sorted := SortBy(before, a[..]);
    SortBySorts(before, a[..]);
    forall i | 0 <= i < a.Length {
      a[i] := sorted[i];
    }
    assert a[..] == sorted;
  }
}
