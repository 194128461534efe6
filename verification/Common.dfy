/** Result types and the few facts about finite sequences that several components use. */
module Common {

  datatype Option<+T> = None | Some(value: T)

  datatype Result<+T, +E> = Ok(value: T) | Err(error: E)

  /** The rows of s that satisfy p, in their order: a WHERE clause. */
  function Filter<T>(s: seq<T>, p: T -> bool): (r: seq<T>)
    ensures |r| <= |s|
  {
    if s == [] then []
    else
      var rest := Filter(s[..|s| - 1], p);
      if p(s[|s| - 1]) then rest + [s[|s| - 1]] else rest
  }

  lemma {:induction false} FilterMember<T>(s: seq<T>, p: T -> bool, x: T)
    ensures x in Filter(s, p) <==> x in s && p(x)
  {
    if s != [] {
      FilterMember(s[..|s| - 1], p, x);
      assert s == s[..|s| - 1] + [s[|s| - 1]];
    }
  }

  lemma FilterAppend<T>(s: seq<T>, x: T, p: T -> bool)
    ensures Filter(s + [x], p) == if p(x) then Filter(s, p) + [x] else Filter(s, p)
  {
    assert (s + [x])[..|s|] == s;
  }

  /** The sum of f over s: an SQL SUM, or a COUNT when f is 0 or 1. */
  function Sum<T>(s: seq<T>, f: T -> nat): nat {
    if s == [] then 0 else Sum(s[..|s| - 1], f) + f(s[|s| - 1])
  }

  lemma SumAppend<T>(s: seq<T>, x: T, f: T -> nat)
    ensures Sum(s + [x], f) == Sum(s, f) + f(x)
  {
    assert (s + [x])[..|s|] == s;
  }

  lemma {:induction false} SumUpdate<T>(s: seq<T>, i: nat, x: T, f: T -> nat)
    requires i < |s|
    ensures Sum(s[i := x], f) + f(s[i]) == Sum(s, f) + f(x)
  {
    var last := |s| - 1;
    if i == last {
      assert s[i := x][..last] == s[..last];
    } else {
      SumUpdate(s[..last], i, x, f);
      assert s[i := x][..last] == s[..last][i := x];
    }
  }

  /** A sum of zeros and ones counts the places that hold a one. */
  lemma {:induction false} SumCounts<T>(s: seq<T>, f: T -> nat, places: set<int>)
    requires forall i :: 0 <= i < |s| ==> f(s[i]) <= 1
    requires forall i :: i in places <==> 0 <= i < |s| && f(s[i]) == 1
    ensures Sum(s, f) == |places|
  {
    if s == [] {
      assert forall i :: i !in places;
      assert places == {};
    } else {
      var last := |s| - 1;
      SumCounts(s[..last], f, places - {last});
      if f(s[last]) == 1 {
        assert places == places - {last} + {last};
      } else {
        assert places == places - {last};
      }
    }
  }

  /** No element of s occurs twice. */
  predicate Distinct<T(==)>(s: seq<T>) {
    forall i, j :: 0 <= i < j < |s| ==> s[i] != s[j]
  }

  function Elements<T>(s: seq<T>): set<T> {
    set x | x in s
  }

  lemma {:induction false} DistinctSize<T>(s: seq<T>)
    requires Distinct(s)
    ensures |Elements(s)| == |s|
  {
    if s != [] {
      var s0, x := s[..|s| - 1], s[|s| - 1];
      DistinctSize(s0);
      assert Elements(s) == Elements(s0) + {x};
    }
  }

  lemma {:induction false} SubsetSize<T>(a: set<T>, b: set<T>)
    requires a <= b
    ensures |a| <= |b|
  {
    if a != {} {
      var x :| x in a;
      SubsetSize(a - {x}, b - {x});
    }
  }

  ghost predicate SortedBy<T(!new)>(s: seq<T>, less: (T, T) -> bool) {
    forall i, j :: 0 <= i < j < |s| ==> less(s[i], s[j])
  }

  lemma TailMember<T>(s: seq<T>, x: T)
    requires s != [] && forall i :: 0 < i < |s| ==> s[i] != s[0]
    ensures x in s[1..] <==> x in s && x != s[0]
  {
    assert s == [s[0]] + s[1..];
    if x in s[1..] {
      var i :| 0 <= i < |s[1..]| && s[1..][i] == x;
      assert s[i + 1] == x;
    }
  }

  /** A strict order leaves only one way to list the same elements. */
  lemma {:induction false} SortedUnique<T(!new)>(a: seq<T>, b: seq<T>, less: (T, T) -> bool)
    requires forall x, y :: less(x, y) ==> !less(y, x)
    requires SortedBy(a, less) && SortedBy(b, less)
    requires forall x :: x in a <==> x in b
    ensures a == b
  {
    assert a != [] ==> a[0] in a;
    assert b != [] ==> b[0] in b;
    if a != [] {
      var i :| 0 <= i < |b| && b[i] == a[0];
      var j :| 0 <= j < |a| && a[j] == b[0];
      assert a[0] == b[0];
      forall k | 0 < k < |a| ensures a[k] != a[0] { assert less(a[0], a[k]); }
      forall k | 0 < k < |b| ensures b[k] != b[0] { assert less(b[0], b[k]); }
      forall x ensures x in a[1..] <==> x in b[1..] {
        TailMember(a, x);
        TailMember(b, x);
      }
      SortedUnique(a[1..], b[1..], less);
    }
  }

  function Min(a: int, b: int): int {
    if a < b then a else b
  }

  /** n times k, by repeated addition; nothing for a negative n. */
  function Times(n: int, k: nat): nat {
    if n <= 0 then 0 else Times(n - 1, k) + k
  }

  lemma {:induction false} TimesIsProduct(n: nat, k: nat)
    ensures Times(n, k) == n * k
  {
    if n != 0 { TimesIsProduct(n - 1, k); }
  }

  lemma {:induction false} TimesOne(n: nat)
    ensures Times(n, 1) == n
  {
    if n != 0 { TimesOne(n - 1); }
  }

  lemma TimesTwo(k: nat)
    ensures Times(1, k) == k && Times(2, k) == k + k
  {
    assert Times(1, k) == Times(0, k) + k;
    assert Times(2, k) == Times(1, k) + k;
  }

  lemma {:induction false} TimesMonotone(m: int, n: int, k: nat)
    requires m <= n
    ensures Times(m, k) <= Times(n, k)
    decreases n - m
  {
    if m < n { TimesMonotone(m, n - 1, k); }
  }

  lemma {:induction false} TimesGrows(n: int, k: nat, l: nat)
    requires k <= l
    ensures Times(n, k) <= Times(n, l)
    decreases n
  {
    if 0 < n { TimesGrows(n - 1, k, l); }
  }

  /** A smaller multiple leaves room for one more. */
  lemma TimesStrict(m: nat, n: nat, k: nat, rest: nat)
    requires 1 <= k && Times(m, k) + rest <= Times(n, k)
    ensures m <= n && (rest != 0 ==> m < n)
  {
    if n < m {
      TimesMonotone(n + 1, m, k);
    }
  }

  lemma {:induction false} TimesDivides(size: nat, k: nat) returns (n: nat, rest: nat)
    requires 1 <= k
    ensures size == Times(n, k) + rest && rest < k
  {
    n, rest := 0, size;
    if k <= size {
      n, rest := TimesDivides(size - k, k);
      n := n + 1;
    }
  }
}
