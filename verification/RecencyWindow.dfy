/**
 * A bounded recency window: what an OrderedDict used as an LRU set holds after
 * a history of touches, and an order-free account of which keys are in it.
 */
module RecencyWindow {

  predicate Distinct<K(!new, ==)>(s: seq<K>) {
    forall i, j :: 0 <= i < j < |s| ==> s[i] != s[j]
  }

  function Remove<K(!new, ==)>(s: seq<K>, k: K): (r: seq<K>)
    ensures forall x :: x in r <==> x in s && x != k
    ensures |r| <= |s| && (k !in s ==> r == s)
  {
    if s == [] then []
    else if s[0] == k then Remove(s[1..], k)
    else [s[0]] + Remove(s[1..], k)
  }

  /** `move_to_end`, or an insertion at the end. */
  function Touch<K(!new, ==)>(s: seq<K>, k: K): seq<K> {
    Remove(s, k) + [k]
  }

  function Last<K>(s: seq<K>, n: nat): seq<K> {
    if |s| <= n then s else s[|s| - n..]
  }

  /** Touch a key, then drop the oldest keys beyond the capacity. */
  function Remember<K(!new, ==)>(s: seq<K>, k: K, capacity: nat): seq<K> {
    Last(Touch(s, k), capacity)
  }

  /** The window after a history of touches, oldest key first. */
  function Window<K(!new, ==)>(touches: seq<K>, capacity: nat): seq<K> {
    if touches == [] then []
    else Remember(Window(touches[..|touches| - 1], capacity), touches[|touches| - 1], capacity)
  }

  /** All keys ever touched, ordered by their last touch. */
  function Recency<K(!new, ==)>(touches: seq<K>): seq<K> {
    if touches == [] then [] else Touch(Recency(touches[..|touches| - 1]), touches[|touches| - 1])
  }

  /** The distinct keys touched after the last touch of a key; all of them if it never was. */
  function Since<K(!new, ==)>(touches: seq<K>, k: K): set<K> {
    if touches == [] then {}
    else if touches[|touches| - 1] == k then {}
    else Since(touches[..|touches| - 1], k) + {touches[|touches| - 1]}
  }

  lemma {:induction false} RemoveConcat<K(!new)>(s: seq<K>, t: seq<K>, k: K)
    ensures Remove(s + t, k) == Remove(s, k) + Remove(t, k)
  {
    if s == [] {
      assert s + t == t;
    } else {
      assert (s + t)[1..] == s[1..] + t;
      RemoveConcat(s[1..], t, k);
    }
  }

  lemma {:induction false} RemoveKeepsDistinct<K(!new)>(s: seq<K>, k: K)
    requires Distinct(s)
    ensures Distinct(Remove(s, k)) && |Remove(s, k)| == if k in s then |s| - 1 else |s|
  {
    if s != [] {
      RemoveKeepsDistinct(s[1..], k);
      assert s[0] !in s[1..];
    }
  }

  lemma {:induction false} RecencyIsDistinct<K(!new)>(touches: seq<K>)
    ensures Distinct(Recency(touches))
    ensures forall k :: k in Recency(touches) <==> k in touches
  {
    if touches != [] {
      var n := |touches| - 1;
      RecencyIsDistinct(touches[..n]);
      RemoveKeepsDistinct(Recency(touches[..n]), touches[n]);
      assert touches == touches[..n] + [touches[n]];
    }
  }

  /** The window is the most recent part of the recency order. */
  lemma {:induction false} WindowIsRecent<K(!new)>(touches: seq<K>, capacity: nat)
    requires capacity > 0
    ensures Window(touches, capacity) == Last(Recency(touches), capacity)
  {
    if touches != [] {
      var n := |touches| - 1;
      WindowIsRecent(touches[..n], capacity);
      RecencyIsDistinct(touches[..n]);
      TouchLast(Recency(touches[..n]), touches[n], capacity);
    }
  }

  lemma TouchLast<K(!new)>(s: seq<K>, k: K, capacity: nat)
    requires Distinct(s) && capacity > 0
    ensures Last(Touch(Last(s, capacity), k), capacity) == Last(Touch(s, k), capacity)
  {
    if |s| > capacity {
      var cut := |s| - capacity;
      assert s == s[..cut] + s[cut..];
      TouchSuffix(s[..cut], s[cut..], k, capacity);
    }
  }

  lemma TouchSuffix<K(!new)>(stale: seq<K>, recent: seq<K>, k: K, capacity: nat)
    requires Distinct(recent) && |recent| == capacity
    requires k in recent ==> k !in stale
    ensures Last(Touch(recent, k), capacity) == Last(Touch(stale + recent, k), capacity)
  {
    RemoveConcat(stale, recent, k);
    RemoveKeepsDistinct(recent, k);
    assert Touch(stale + recent, k) == Remove(stale, k) + Touch(recent, k);
    LastOfConcat(Remove(stale, k), Touch(recent, k), capacity);
  }

  lemma LastOfConcat<K(!new)>(s: seq<K>, t: seq<K>, n: nat)
    requires |t| >= n
    ensures Last(s + t, n) == Last(t, n)
  {
  }

  function Elements<K(!new, ==)>(s: seq<K>): set<K> {
    set x | x in s
  }

  /** Behind a key in the recency order stand exactly the keys touched since. */
  lemma {:induction false} BehindIsSince<K(!new)>(touches: seq<K>, i: nat)
    requires i < |Recency(touches)|
    ensures Elements(Recency(touches)[i + 1..]) == Since(touches, Recency(touches)[i])
  {
    var n := |touches| - 1;
    var earlier, all := Recency(touches[..n]), Recency(touches);
    RecencyIsDistinct(touches);
    RecencyIsDistinct(touches[..n]);
    if i < |all| - 1 {
      var j := StillBehind(earlier, touches[n], i);
      BehindIsSince(touches[..n], j);
      DifferentFromLast(all, i);
    }
  }

  lemma DifferentFromLast<K(!new)>(s: seq<K>, i: nat)
    requires Distinct(s) && i < |s| - 1
    ensures s[i] != s[|s| - 1]
  {
  }

  /** A touch keeps the keys behind another key and adds the touched one. */
  lemma StillBehind<K(!new)>(earlier: seq<K>, k: K, i: nat) returns (j: nat)
    requires Distinct(earlier) && i < |Touch(earlier, k)| - 1
    ensures j < |earlier| && earlier[j] == Touch(earlier, k)[i]
    ensures Elements(Touch(earlier, k)[i + 1..]) == Elements(earlier[j + 1..]) + {k}
  {
    var x := Remove(earlier, k)[i];
    assert x in Remove(earlier, k);
    j :| 0 <= j < |earlier| && earlier[j] == x;
    RemoveKeepsDistinct(earlier, k);
    var front, back := Remove(earlier[..j], k), Remove(earlier[j + 1..], k);
    RemoveAround(earlier, k, j);
    SamePlace(Remove(earlier, k), front, x, back, i);
    TailAfter(front, x, back, k);
    ElementsAdd(back, k);
    ElementsWithout(earlier[j + 1..], k);
  }

  lemma {:induction false} RemoveAround<K(!new)>(s: seq<K>, k: K, j: nat)
    requires j < |s| && s[j] != k
    ensures Remove(s, k) == Remove(s[..j], k) + [s[j]] + Remove(s[j + 1..], k)
  {
    if j > 0 {
      RemoveAround(s[1..], k, j - 1);
      assert s[1..][..j - 1] == s[..j][1..];
      assert s[1..][j..] == s[j + 1..];
    }
  }

  lemma ElementsWithout<K(!new)>(s: seq<K>, k: K)
    ensures Elements(Remove(s, k)) == Elements(s) - {k}
  {
  }

  lemma TailAfter<K(!new)>(front: seq<K>, x: K, back: seq<K>, k: K)
    ensures (front + [x] + back + [k])[|front| + 1..] == back + [k]
  {
  }

  lemma SamePlace<K(!new)>(s: seq<K>, front: seq<K>, x: K, back: seq<K>, i: nat)
    requires Distinct(s) && s == front + [x] + back && i < |s| && s[i] == x
    ensures i == |front|
  {
    assert s[|front|] == x;
  }

  lemma ElementsAdd<K(!new)>(s: seq<K>, k: K)
    ensures Elements(s + [k]) == Elements(s) + {k}
  {
  }

  lemma {:induction false} DistinctCardinality<K(!new)>(s: seq<K>)
    requires Distinct(s)
    ensures |Elements(s)| == |s|
  {
    if s != [] {
      DistinctCardinality(s[1..]);
      assert s[0] !in s[1..];
      assert Elements(s) == Elements(s[1..]) + {s[0]};
    }
  }

  lemma InLast<K(!new)>(s: seq<K>, i: nat, n: nat)
    requires Distinct(s) && i < |s|
    ensures s[i] in Last(s, n) <==> i + n >= |s|
    ensures Distinct(Last(s, n)) && |Last(s, n)| <= n
  {
    var w := Last(s, n);
    var cut := |s| - |w|;
    assert forall m :: 0 <= m < |w| ==> w[m] == s[m + cut];
    if i >= cut {
      assert w[i - cut] == s[i];
    }
  }

  /** A key is in the window exactly when fewer than `capacity` other keys have been touched since its last touch. */
  lemma WindowMembership<K(!new)>(touches: seq<K>, capacity: nat, k: K)
    requires capacity > 0
    ensures k in Window(touches, capacity) <==> k in touches && |Since(touches, k)| < capacity
  {
    var r := Recency(touches);
    WindowIsRecent(touches, capacity);
    RecencyIsDistinct(touches);
    if k in touches {
      var i :| 0 <= i < |r| && r[i] == k;
      BehindIsSince(touches, i);
      DistinctCardinality(r[i + 1..]);
      InLast(r, i, capacity);
    }
  }

  lemma WindowIsBounded<K(!new)>(touches: seq<K>, capacity: nat)
    requires capacity > 0
    ensures Distinct(Window(touches, capacity)) && |Window(touches, capacity)| <= capacity
  {
    WindowIsRecent(touches, capacity);
    RecencyIsDistinct(touches);
  }
}
