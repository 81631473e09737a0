/** Sums of real measures over sequences, and their independence of order. */
module Sums {

  function Sum<T(!new)>(f: T -> real, s: seq<T>): real {
    if s == [] then 0.0 else f(s[0]) + Sum(f, s[1..])
  }

  lemma {:induction false} SumConcat<T(!new)>(f: T -> real, s: seq<T>, t: seq<T>)
    ensures Sum(f, s + t) == Sum(f, s) + Sum(f, t)
  {
    if s == [] {
      assert s + t == t;
    } else {
      assert (s + t)[1..] == s[1..] + t;
      SumConcat(f, s[1..], t);
    }
  }

  lemma SumAppend<T(!new)>(f: T -> real, s: seq<T>, x: T)
    ensures Sum(f, s + [x]) == Sum(f, s) + f(x)
  {
    SumConcat(f, s, [x]);
  }

  function Without<T>(s: seq<T>, i: nat): seq<T>
    requires i < |s|
  {
    s[..i] + s[i + 1..]
  }

  lemma WithoutCounts<T>(s: seq<T>, i: nat)
    requires i < |s|
    ensures multiset(Without(s, i)) == multiset(s) - multiset{s[i]}
  {
    assert s == s[..i] + [s[i]] + s[i + 1..];
  }

  lemma SumWithout<T(!new)>(f: T -> real, s: seq<T>, i: nat)
    requires i < |s|
    ensures Sum(f, s) == Sum(f, Without(s, i)) + f(s[i])
  {
    SumConcat(f, s[..i], [s[i]] + s[i + 1..]);
    SumConcat(f, s[..i], s[i + 1..]);
    assert s == s[..i] + ([s[i]] + s[i + 1..]);
  }

  lemma {:induction false} SumPermutation<T(!new)>(f: T -> real, s: seq<T>, t: seq<T>)
    requires multiset(s) == multiset(t)
    ensures Sum(f, s) == Sum(f, t)
    decreases |s|
  {
    if s == [] {
      assert |multiset(t)| == 0;
    } else {
      assert s[0] in multiset(t);
      var i :| 0 <= i < |t| && t[i] == s[0];
      WithoutCounts(t, i);
      WithoutCounts(s, 0);
      assert Without(s, 0) == s[1..];
      SumPermutation(f, s[1..], Without(t, i));
      SumWithout(f, t, i);
    }
  }

  /** An element that occurs at two places counts twice; one that occurs at a single place counts once. */
  lemma CountTwice<T>(s: seq<T>, i: nat, j: nat)
    requires i < j < |s| && s[i] == s[j]
    ensures multiset(s)[s[i]] >= 2
  {
    WithoutCounts(s, i);
    assert Without(s, i)[j - 1] == s[j];
    assert s[j] in multiset(Without(s, i));
  }

  lemma CountOnce<T>(s: seq<T>, i: nat)
    requires i < |s| && forall j :: 0 <= j < |s| && j != i ==> s[j] != s[i]
    ensures multiset(s)[s[i]] == 1
  {
    WithoutCounts(s, i);
    assert s[i] !in Without(s, i);
    assert s[i] !in multiset(Without(s, i));
    assert multiset(s) == multiset(Without(s, i)) + multiset{s[i]};
  }

  lemma SumNonnegative<T(!new)>(f: T -> real, s: seq<T>)
    requires forall x :: x in s ==> f(x) >= 0.0
    ensures Sum(f, s) >= 0.0
  {
    if s != [] {
      assert s[0] in s && forall x :: x in s[1..] ==> x in s;
      SumNonnegative(f, s[1..]);
    }
  }

  // ---- Sums over a part of a sequence -----------------------------------------------

  function Filter<T(!new)>(s: seq<T>, p: T -> bool): (r: seq<T>)
    ensures forall x :: x in r <==> x in s && p(x)
    ensures |r| <= |s|
  {
    if s == [] then [] else (if p(s[0]) then [s[0]] else []) + Filter(s[1..], p)
  }

  lemma {:induction false} FilterNone<T(!new)>(s: seq<T>, p: T -> bool)
    requires forall x :: x in s ==> !p(x)
    ensures Filter(s, p) == []
  {
    if s != [] {
      assert s[0] in s;
      FilterNone(s[1..], p);
    }
  }

  lemma {:induction false} FilterConcat<T(!new)>(s: seq<T>, t: seq<T>, p: T -> bool)
    ensures Filter(s + t, p) == Filter(s, p) + Filter(t, p)
  {
    if s == [] {
      assert s + t == t;
    } else {
      assert (s + t)[1..] == s[1..] + t;
      FilterConcat(s[1..], t, p);
    }
  }

  lemma {:induction false} SumSplit<T(!new)>(f: T -> real, s: seq<T>, p: T -> bool, q: T -> bool)
    requires forall x :: x in s ==> (q(x) <==> !p(x))
    ensures Sum(f, s) == Sum(f, Filter(s, p)) + Sum(f, Filter(s, q))
  {
    if s != [] {
      SumSplit(f, s[1..], p, q);
      SumConcat(f, if p(s[0]) then [s[0]] else [], Filter(s[1..], p));
      SumConcat(f, if q(s[0]) then [s[0]] else [], Filter(s[1..], q));
      assert q(s[0]) <==> !p(s[0]);
    }
  }

  lemma {:induction false} FilterTwice<T(!new)>(s: seq<T>, p: T -> bool, q: T -> bool, both: T -> bool)
    requires forall x :: x in s ==> (both(x) <==> p(x) && q(x))
    ensures Filter(Filter(s, p), q) == Filter(s, both)
  {
    if s != [] {
      assert both(s[0]) <==> p(s[0]) && q(s[0]);
      FilterTwice(s[1..], p, q, both);
      FilterConcat(if p(s[0]) then [s[0]] else [], Filter(s[1..], p), q);
      assert Filter([s[0]], q) == if q(s[0]) then [s[0]] else [];
    }
  }

  /** Element by element equal measures have equal sums. */
  lemma {:induction false} SumMap<S(!new), T(!new)>(f: S -> real, s: seq<S>, g: T -> real, t: seq<T>)
    requires |s| == |t| && forall i :: 0 <= i < |s| ==> f(s[i]) == g(t[i])
    ensures Sum(f, s) == Sum(g, t)
  {
    if s != [] {
      assert forall i :: 0 <= i < |s[1..]| ==> s[1..][i] == s[i + 1] && t[1..][i] == t[i + 1];
      SumMap(f, s[1..], g, t[1..]);
    }
  }

  lemma {:induction false} SumFiltered<T(!new)>(f: T -> real, s: seq<T>, p: T -> bool, g: T -> real)
    requires forall x :: x in s ==> g(x) == if p(x) then f(x) else 0.0
    ensures Sum(f, Filter(s, p)) == Sum(g, s)
  {
    if s != [] {
      assert s[0] in s;
      SumFiltered(f, s[1..], p, g);
      SumConcat(f, if p(s[0]) then [s[0]] else [], Filter(s[1..], p));
      assert Sum(f, [s[0]]) == f(s[0]);
    }
  }

  /** Two sequences without repetition that hold the same elements are permutations of each other. */
  lemma SameElementsPermute<T(!new)>(s: seq<T>, t: seq<T>)
    requires forall i, j :: 0 <= i < j < |s| ==> s[i] != s[j]
    requires forall i, j :: 0 <= i < j < |t| ==> t[i] != t[j]
    requires forall x :: x in s <==> x in t
    ensures multiset(s) == multiset(t)
  {
    forall x ensures multiset(s)[x] == multiset(t)[x] {
      SingleCount(s, x);
      SingleCount(t, x);
    }
  }

  lemma SingleCount<T(!new)>(s: seq<T>, x: T)
    requires forall i, j :: 0 <= i < j < |s| ==> s[i] != s[j]
    ensures multiset(s)[x] == if x in s then 1 else 0
  {
    if x in s {
      var i :| 0 <= i < |s| && s[i] == x;
      CountOnce(s, i);
    }
  }
}
