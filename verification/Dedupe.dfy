/**
 * `_dedupe_and_find_conflicts` of tx_trade/orders/live_reconciliation.py: the
 * first observation of every payload, and the identities reused with another payload.
 */
module Dedupe {

  /** The observations that show a payload for the first time, in order of arrival. */
  function FirstSeen<T(!new, ==)>(values: seq<T>, payload: T -> T): seq<T> {
    if values == [] then []
    else
      var n := |values| - 1;
      var earlier := FirstSeen(values[..n], payload);
      if Has(earlier, payload, payload(values[n])) then earlier else earlier + [values[n]]
  }

  /** Some observation of the sequence carries the payload. */
  predicate Has<T(!new, ==)>(values: seq<T>, payload: T -> T, material: T) {
    exists u :: u in values && payload(u) == material
  }

  function Conflicts<T(!new, ==), I(!new, ==)>(values: seq<T>, identities: T -> seq<I>, payload: T -> T): set<I> {
    set a, i | a in values && i in identities(a) && Reused(values, identities, payload, i, payload(a)) :: i
  }

  /** Some observation carries the identity with a payload other than the given one. */
  predicate Reused<T(!new, ==), I(!new, ==)>(values: seq<T>, identities: T -> seq<I>, payload: T -> T, identity: I, material: T) {
    exists b :: b in values && identity in identities(b) && payload(b) != material
  }

  /** Deduplication keeps one observation for each payload seen, and nothing else. */
  lemma {:induction false} FirstSeenCovers<T(!new)>(values: seq<T>, payload: T -> T)
    ensures forall u :: u in FirstSeen(values, payload) ==> u in values
    ensures forall v :: v in values ==> Has(FirstSeen(values, payload), payload, payload(v))
  {
    if values != [] {
      var n := |values| - 1;
      FirstSeenCovers(values[..n], payload);
      var all, earlier := FirstSeen(values, payload), FirstSeen(values[..n], payload);
      forall v | v in values ensures Has(all, payload, payload(v)) {
        if v in values[..n] {
          HasStill(earlier, payload, payload(v), values[n]);
        } else {
          HasLast(earlier, payload, v);
        }
      }
    }
  }

  lemma HasStill<T(!new)>(earlier: seq<T>, payload: T -> T, material: T, more: T)
    requires Has(earlier, payload, material)
    ensures Has(earlier + [more], payload, material)
  {
    var u :| u in earlier && payload(u) == material;
    assert u in earlier + [more];
  }

  lemma HasLast<T(!new)>(earlier: seq<T>, payload: T -> T, last: T)
    ensures Has(earlier + [last], payload, payload(last))
  {
    assert last in earlier + [last];
  }

  lemma {:induction false} FirstSeenDistinct<T(!new)>(values: seq<T>, payload: T -> T)
    ensures forall i, j :: 0 <= i < j < |FirstSeen(values, payload)| ==>
              payload(FirstSeen(values, payload)[i]) != payload(FirstSeen(values, payload)[j])
  {
    if values != [] {
      FirstSeenDistinct(values[..|values| - 1], payload);
    }
  }

  /** The value occurs where no earlier one shows its payload. */
  ghost predicate First<T(!new)>(values: seq<T>, payload: T -> T, u: T) {
    exists i :: 0 <= i < |values| && values[i] == u && forall j :: 0 <= j < i ==> payload(values[j]) != payload(u)
  }

  /** Of the observations that show one payload, deduplication keeps the first. */
  lemma {:induction false} FirstSeenIsFirst<T(!new)>(values: seq<T>, payload: T -> T, u: T)
    ensures u in FirstSeen(values, payload) <==> First(values, payload, u)
  {
    if values != [] {
      var n := |values| - 1;
      var earlier, last := values[..n], values[n];
      FirstSeenIsFirst(earlier, payload, u);
      FirstSeenCovers(earlier, payload);
      assert forall i :: 0 <= i < n ==> values[i] == earlier[i];
      if First(values, payload, u) {
        var i :| 0 <= i < |values| && values[i] == u && forall j :: 0 <= j < i ==> payload(values[j]) != payload(u);
        if i < n {
          assert First(earlier, payload, u);
        } else {
          NoneAgrees(earlier, payload, u);
        }
      }
      if First(earlier, payload, u) {
        var i :| 0 <= i < n && earlier[i] == u && forall j :: 0 <= j < i ==> payload(earlier[j]) != payload(u);
        assert values[i] == u;
      } else if u in FirstSeen(values, payload) {
        assert u == last && !Has(FirstSeen(earlier, payload), payload, payload(last));
        forall j | 0 <= j < n ensures payload(values[j]) != payload(u) {
          assert earlier[j] in earlier;
        }
      }
    }
  }

  lemma NoneAgrees<T(!new)>(values: seq<T>, payload: T -> T, u: T)
    requires forall j :: 0 <= j < |values| ==> payload(values[j]) != payload(u)
    ensures !Has(FirstSeen(values, payload), payload, payload(u))
  {
    FirstSeenCovers(values, payload);
  }

  /** A value touches a conflict exactly when one of its identities is used for something else. */
  lemma TouchedExactly<T(!new), I(!new)>(values: seq<T>, identities: T -> seq<I>, payload: T -> T, b: T)
    requires b in values
    ensures (exists i :: i in identities(b) && i in Conflicts(values, identities, payload))
            <==> exists c, i :: c in values && i in identities(b) && i in identities(c) && payload(c) != payload(b)
  {
    if i :| i in identities(b) && i in Conflicts(values, identities, payload) {
      var a :| a in values && i in identities(a) && Reused(values, identities, payload, i, payload(a));
      var c :| c in values && i in identities(c) && payload(c) != payload(a);
      assert payload(a) != payload(b) || payload(c) != payload(b);
    }
    if c, i :| c in values && i in identities(b) && i in identities(c) && payload(c) != payload(b) {
      assert Reused(values, identities, payload, i, payload(b));
      assert i in Conflicts(values, identities, payload);
    }
  }

  method DedupeAndFindConflicts<T(!new, ==), I(!new, ==)>(values: seq<T>, identities: T -> seq<I>, payload: T -> T)
    returns (unique: seq<T>, conflicts: set<I>)
    ensures unique == FirstSeen(values, payload)
    ensures conflicts == Conflicts(values, identities, payload)
  {
    var byIdentity: map<I, set<T>> := map[];
    var seen: set<T> := {};
    unique := [];
    for k := 0 to |values|
      invariant unique == FirstSeen(values[..k], payload)
      invariant seen == set u | u in unique :: payload(u)
      invariant Collected(byIdentity, values[..k], identities, payload)
    {
      var value := values[k];
      var material := payload(value);
      assert values[..k + 1] == values[..k] + [value];
      assert Has(unique, payload, material) <==> material in seen;
      if material !in seen {
        unique, seen := unique + [value], seen + {material};
      }
      byIdentity := Collect(byIdentity, value, identities, payload, values[..k]);
    }
    assert values[..|values|] == values;
    conflicts := set i | i in byIdentity && Several(byIdentity[i]);
    ConflictsAreReused(byIdentity, values, identities, payload);
  }

  predicate Several<T(==)>(payloads: set<T>) {
    exists a, b :: a in payloads && b in payloads && a != b
  }

  /** The payload sets gathered for each identity over the values seen so far. */
  ghost predicate Collected<T(!new), I(!new)>(byIdentity: map<I, set<T>>, values: seq<T>, identities: T -> seq<I>, payload: T -> T) {
    && (forall v, i :: v in values && i in identities(v) ==> i in byIdentity && payload(v) in byIdentity[i])
    && (forall i, m :: i in byIdentity && m in byIdentity[i] ==>
          exists v :: v in values && i in identities(v) && payload(v) == m)
  }

  method Collect<T(!new, ==), I(!new, ==)>(byIdentity: map<I, set<T>>, value: T, identities: T -> seq<I>, payload: T -> T,
                                  ghost values: seq<T>)
    returns (next: map<I, set<T>>)
    requires Collected(byIdentity, values, identities, payload)
    ensures Collected(next, values + [value], identities, payload)
  {
    var ids := identities(value);
    next := byIdentity;
    for j := 0 to |ids|
      invariant forall i :: i in next <==> i in byIdentity || i in ids[..j]
      invariant forall i :: i in next ==>
        next[i] == (if i in byIdentity then byIdentity[i] else {}) + (if i in ids[..j] then {payload(value)} else {})
    {
      var i := ids[j];
      assert ids[..j + 1] == ids[..j] + [i];
      next := next[i := (if i in next then next[i] else {}) + {payload(value)}];
    }
    assert ids[..|ids|] == ids;
    CollectedWithOneMore(byIdentity, next, value, identities, payload, values);
  }

  lemma CollectedWithOneMore<T(!new), I(!new)>(before: map<I, set<T>>, next: map<I, set<T>>, value: T, identities: T -> seq<I>,
                                       payload: T -> T, values: seq<T>)
    requires Collected(before, values, identities, payload)
    requires forall i :: i in next <==> i in before || i in identities(value)
    requires forall i :: i in next ==>
      next[i] == (if i in before then before[i] else {}) + (if i in identities(value) then {payload(value)} else {})
    ensures Collected(next, values + [value], identities, payload)
  {
    var all := values + [value];
    forall i, m | i in next && m in next[i]
      ensures exists v :: v in all && i in identities(v) && payload(v) == m
    {
      if i in before && m in before[i] {
        var v :| v in values && i in identities(v) && payload(v) == m;
        assert v in all;
      } else {
        assert value in all;
      }
    }
  }

  lemma ConflictsAreReused<T(!new), I(!new)>(byIdentity: map<I, set<T>>, values: seq<T>, identities: T -> seq<I>, payload: T -> T)
    requires Collected(byIdentity, values, identities, payload)
    ensures (set i | i in byIdentity && Several(byIdentity[i])) == Conflicts(values, identities, payload)
  {
    forall i
      ensures i in byIdentity && Several(byIdentity[i]) <==> i in Conflicts(values, identities, payload)
    {
      if i in byIdentity && Several(byIdentity[i]) {
        var m, n :| m in byIdentity[i] && n in byIdentity[i] && m != n;
        var a :| a in values && i in identities(a) && payload(a) == m;
        var b :| b in values && i in identities(b) && payload(b) == n;
        assert Reused(values, identities, payload, i, payload(a));
      }
      if i in Conflicts(values, identities, payload) {
        var a :| a in values && i in identities(a) && Reused(values, identities, payload, i, payload(a));
        var b :| b in values && i in identities(b) && payload(b) != payload(a);
        assert payload(a) in byIdentity[i] && payload(b) in byIdentity[i];
      }
    }
  }

  // ---- Consistent evidence -----------------------------------------------------------

  /** No identity is ever used with two payloads. */
  ghost predicate Consistent<T(!new), I(!new)>(values: seq<T>, identities: T -> seq<I>, payload: T -> T) {
    forall a, b, i :: a in values && b in values && i in identities(a) && i in identities(b) ==> payload(a) == payload(b)
  }

  lemma ConflictFree<T(!new), I(!new)>(values: seq<T>, identities: T -> seq<I>, payload: T -> T)
    ensures Conflicts(values, identities, payload) == {} <==> Consistent(values, identities, payload)
  {
    if !Consistent(values, identities, payload) {
      var a, b, i :| a in values && b in values && i in identities(a) && i in identities(b) && payload(a) != payload(b);
      assert Reused(values, identities, payload, i, payload(a));
      assert i in Conflicts(values, identities, payload);
    }
    if Conflicts(values, identities, payload) != {} {
      var i :| i in Conflicts(values, identities, payload);
      var a :| a in values && i in identities(a) && Reused(values, identities, payload, i, payload(a));
      var b :| b in values && i in identities(b) && payload(b) != payload(a);
      assert !Consistent(values, identities, payload);
    }
  }

  /** Each payload shown on one side is shown on the other. */
  ghost predicate SamePayloads<T(!new)>(a: seq<T>, b: seq<T>, payload: T -> T) {
    && (forall v :: v in a ==> Has(b, payload, payload(v)))
    && (forall v :: v in b ==> Has(a, payload, payload(v)))
  }

  lemma FirstSeenSamePayloads<T(!new)>(a: seq<T>, b: seq<T>, payload: T -> T)
    requires SamePayloads(a, b, payload)
    ensures SamePayloads(FirstSeen(a, payload), FirstSeen(b, payload), payload)
  {
    FirstSeenReached(a, b, payload);
    FirstSeenReached(b, a, payload);
  }

  lemma FirstSeenReached<T(!new)>(a: seq<T>, b: seq<T>, payload: T -> T)
    requires forall v :: v in a ==> Has(b, payload, payload(v))
    ensures forall u :: u in FirstSeen(a, payload) ==> Has(FirstSeen(b, payload), payload, payload(u))
  {
    FirstSeenCovers(a, payload);
    FirstSeenCovers(b, payload);
    forall u | u in FirstSeen(a, payload) ensures Has(FirstSeen(b, payload), payload, payload(u)) {
      var w :| w in b && payload(w) == payload(u);
    }
  }

  /** A redelivery: a payload already shown, under its own identities and fresh ones. */
  ghost predicate Echo<T(!new), I(!new)>(values: seq<T>, again: T, identities: T -> seq<I>, payload: T -> T) {
    exists u :: u in values && payload(u) == payload(again) && OwnOrFresh(values, u, again, identities)
  }

  ghost predicate OwnOrFresh<T(!new), I(!new)>(values: seq<T>, u: T, again: T, identities: T -> seq<I>) {
    forall i :: i in identities(again) ==> i in identities(u) || forall v :: v in values ==> i !in identities(v)
  }

  /** Any number of redeliveries, one after the other. */
  ghost predicate Echoes<T(!new), I(!new)>(values: seq<T>, more: seq<T>, identities: T -> seq<I>, payload: T -> T)
    decreases |more|
  {
    more == [] ||
    (Echo(values, more[0], identities, payload) && Echoes(values + [more[0]], more[1..], identities, payload))
  }

  /** Redeliveries change neither the payloads shown nor whether identities are consistent. */
  lemma {:induction false} EchoesAddNothing<T(!new), I(!new)>(values: seq<T>, more: seq<T>, identities: T -> seq<I>, payload: T -> T)
    requires Echoes(values, more, identities, payload)
    ensures SamePayloads(values, values + more, payload)
    ensures Consistent(values, identities, payload) <==> Consistent(values + more, identities, payload)
    decreases |more|
  {
    if more == [] {
      assert values + more == values;
      SamePayloadsReflexive(values, payload);
    } else {
      var one := values + [more[0]];
      assert one + more[1..] == values + more;
      EchoesAddNothing(one, more[1..], identities, payload);
      EchoAddsNothing(values, more[0], identities, payload);
      SamePayloadsTransitive(values, one, values + more, payload);
    }
  }

  lemma SamePayloadsReflexive<T(!new)>(values: seq<T>, payload: T -> T)
    ensures SamePayloads(values, values, payload)
  {
  }

  lemma SamePayloadsTransitive<T(!new)>(a: seq<T>, b: seq<T>, c: seq<T>, payload: T -> T)
    requires SamePayloads(a, b, payload) && SamePayloads(b, c, payload)
    ensures SamePayloads(a, c, payload)
  {
    forall v | v in a ensures Has(c, payload, payload(v)) {
      var w :| w in b && payload(w) == payload(v);
    }
    forall v | v in c ensures Has(a, payload, payload(v)) {
      var w :| w in b && payload(w) == payload(v);
    }
  }

  lemma EchoAddsNothing<T(!new), I(!new)>(values: seq<T>, again: T, identities: T -> seq<I>, payload: T -> T)
    requires Echo(values, again, identities, payload)
    ensures SamePayloads(values, values + [again], payload)
    ensures Consistent(values, identities, payload) <==> Consistent(values + [again], identities, payload)
  {
    var all := values + [again];
    var u :| u in values && payload(u) == payload(again) && OwnOrFresh(values, u, again, identities);
    forall v | v in values ensures Has(all, payload, payload(v)) {
      assert v in all;
    }
    forall v | v in all ensures Has(values, payload, payload(v)) {
      assert v in values || v == again;
    }
    if !Consistent(values, identities, payload) {
      var a, b, i :| a in values && b in values && i in identities(a) && i in identities(b) && payload(a) != payload(b);
      assert a in all && b in all;
    }
  }

  /** Only which observations there are matters, not their order or number. */
  lemma PermutedEvidence<T(!new), I(!new)>(a: seq<T>, b: seq<T>, identities: T -> seq<I>, payload: T -> T)
    requires multiset(a) == multiset(b)
    ensures SamePayloads(a, b, payload)
    ensures Consistent(a, identities, payload) <==> Consistent(b, identities, payload)
  {
    forall v ensures v in a <==> v in b {
      assert v in a <==> v in multiset(a);
    }
  }
}
