/** Finding keys that more than one contributor claims, reporting all of them in order. */
module Claims {

  import opened Wrappers

  datatype Claim<K, C> = Claim(key: K, claimant: C)

  datatype Conflict<K, C> = Conflict(key: K, claimants: seq<C>)

  /** Everyone who claims a key, in the order of the claims. */
  function Claimants<K(==), C>(claims: seq<Claim<K, C>>, key: K): seq<C> {
    if claims == [] then []
    else
      var front := Claimants(claims[..|claims| - 1], key);
      var last := claims[|claims| - 1];
      if last.key == key then front + [last.claimant] else front
  }

  predicate AllDifferent<K(==), C>(claims: seq<Claim<K, C>>) {
    forall i, j :: 0 <= i < j < |claims| ==> claims[i].key != claims[j].key
  }

  lemma {:induction false} ClaimantsCount<K, C>(claims: seq<Claim<K, C>>, key: K)
    ensures Claimants(claims, key) == [] <==> forall i :: 0 <= i < |claims| ==> claims[i].key != key
    ensures |Claimants(claims, key)| <= 1 <==>
              forall i, j :: 0 <= i < j < |claims| ==> claims[i].key != key || claims[j].key != key
  {
    if claims != [] {
      var front, last := claims[..|claims| - 1], |claims| - 1;
      ClaimantsCount(front, key);
      assert forall i :: 0 <= i < last ==> front[i] == claims[i];
    }
  }

  ghost predicate Claimed<K, C>(claims: seq<Claim<K, C>>, key: K) {
    exists i :: 0 <= i < |claims| && claims[i].key == key
  }

  lemma ClaimedConcat<K, C>(a: seq<Claim<K, C>>, b: seq<Claim<K, C>>, key: K)
    ensures Claimed(a + b, key) <==> Claimed(a, key) || Claimed(b, key)
  {
    if Claimed(a, key) {
      var i :| 0 <= i < |a| && a[i].key == key;
      assert (a + b)[i].key == key;
    }
    if Claimed(b, key) {
      var j :| 0 <= j < |b| && b[j].key == key;
      assert (a + b)[|a| + j].key == key;
    }
  }

  lemma AllDifferentConcat<K(!new), C>(a: seq<Claim<K, C>>, b: seq<Claim<K, C>>)
    ensures AllDifferent(a + b) <==>
              AllDifferent(a) && AllDifferent(b) && forall key :: Claimed(a, key) ==> !Claimed(b, key)
  {
    assert forall i :: 0 <= i < |a| ==> (a + b)[i] == a[i];
    assert forall j :: 0 <= j < |b| ==> (a + b)[|a| + j] == b[j];
    if AllDifferent(a + b) {
      forall key | Claimed(a, key) ensures !Claimed(b, key) {
        var i :| 0 <= i < |a| && a[i].key == key;
        forall j | 0 <= j < |b| ensures b[j].key != key {
          assert (a + b)[i] == a[i] && (a + b)[|a| + j] == b[j];
        }
      }
    } else if AllDifferent(a) && AllDifferent(b) {
      var i, j :| 0 <= i < j < |a + b| && (a + b)[i].key == (a + b)[j].key;
      assert a[i].key == (a + b)[i].key && b[j - |a|].key == (a + b)[j].key;
      assert Claimed(a, a[i].key) && Claimed(b, a[i].key);
    }
  }

  /** The conflict at the first claim, from a position on, whose key is claimed again or was. */
  function FirstConflictFrom<K(==), C>(claims: seq<Claim<K, C>>, i: nat): Option<Conflict<K, C>>
    requires i <= |claims|
    decreases |claims| - i
  {
    if i == |claims| then None
    else
      var claimants := Claimants(claims, claims[i].key);
      if |claimants| > 1 then Some(Conflict(claims[i].key, claimants)) else FirstConflictFrom(claims, i + 1)
  }

  function FirstConflict<K(==), C>(claims: seq<Claim<K, C>>): Option<Conflict<K, C>> {
    FirstConflictFrom(claims, 0)
  }

  predicate Single<K(==), C>(claims: seq<Claim<K, C>>, i: nat)
    requires i < |claims|
  {
    |Claimants(claims, claims[i].key)| <= 1
  }

  lemma {:induction false} ConflictAt<K, C>(claims: seq<Claim<K, C>>, from: nat, at: nat)
    requires from <= at <= |claims|
    requires forall j :: from <= j < at ==> Single(claims, j)
    requires at < |claims| ==> !Single(claims, at)
    ensures FirstConflictFrom(claims, from)
         == if at == |claims| then None else Some(Conflict(claims[at].key, Claimants(claims, claims[at].key)))
    decreases at - from
  {
    if from < at {
      assert Single(claims, from);
      ConflictAt(claims, from + 1, at);
    }
  }

  /** There is a conflict exactly when some key is claimed twice; the one reported names all its
    * claimants in order and belongs to the earliest claim that has any rival. */
  lemma {:induction false} FirstConflictIsEarliest<K, C>(claims: seq<Claim<K, C>>, from: nat)
    requires from <= |claims| && forall j :: 0 <= j < from ==> Single(claims, j)
    ensures FirstConflictFrom(claims, from).None? <==> AllDifferent(claims)
    ensures FirstConflictFrom(claims, from).Some? ==>
      var Conflict(key, claimants) := FirstConflictFrom(claims, from).value;
      && claimants == Claimants(claims, key) && |claimants| > 1
      && exists i :: 0 <= i < |claims| && claims[i].key == key && forall j :: 0 <= j < i ==> Single(claims, j)
    decreases |claims| - from
  {
    if from < |claims| {
      ClaimantsCount(claims, claims[from].key);
      if Single(claims, from) {
        FirstConflictIsEarliest(claims, from + 1);
      }
    } else {
      forall i, j | 0 <= i < j < |claims| ensures claims[i].key != claims[j].key {
        assert Single(claims, i);
        ClaimantsCount(claims, claims[i].key);
      }
    }
  }

  /** The first item whose list names a key. */
  function FirstOwner<T, K(==)>(items: seq<T>, lists: T -> seq<K>, key: K): (owner: Option<nat>)
    ensures owner.Some? ==> owner.value < |items| && key in lists(items[owner.value])
    ensures owner.Some? ==> forall i :: 0 <= i < owner.value ==> key !in lists(items[i])
    ensures owner.None? ==> forall i :: 0 <= i < |items| ==> key !in lists(items[i])
  {
    if items == [] then None
    else
      var front := FirstOwner(items[..|items| - 1], lists, key);
      if front.Some? then front
      else if key in lists(items[|items| - 1]) then Some(|items| - 1)
      else None
  }

  // ---------- by first claim ----------

  /** `order` lists the keys of the first `n` claims by their first occurrence, found at the
    * positions `at`. */
  ghost predicate Ordered<K, C>(claims: seq<Claim<K, C>>, n: nat, order: seq<K>, at: seq<nat>)
    requires n <= |claims|
  {
    && |at| == |order|
    && (forall i :: 0 <= i < |order| ==> at[i] < n && claims[at[i]].key == order[i])
    && (forall i, j :: 0 <= i < |order| && 0 <= j < at[i] ==> claims[j].key in order[..i])
    && (forall j :: 0 <= j < n ==> claims[j].key in order)
  }

  ghost predicate Collected<K(!new), C>(claims: seq<Claim<K, C>>, claimed: map<K, seq<C>>) {
    forall key ::
      && (key in claimed <==> Claimants(claims, key) != [])
      && (key in claimed ==> claimed[key] == Claimants(claims, key))
  }

  function Recorded<K(==), C>(claimed: map<K, seq<C>>, claim: Claim<K, C>): map<K, seq<C>> {
    claimed[claim.key := (if claim.key in claimed then claimed[claim.key] else []) + [claim.claimant]]
  }

  lemma CollectedOneMore<K(!new), C>(claims: seq<Claim<K, C>>, n: nat, claimed: map<K, seq<C>>)
    requires n < |claims| && Collected(claims[..n], claimed)
    ensures Collected(claims[..n + 1], Recorded(claimed, claims[n]))
  {
    assert claims[..n + 1][..n] == claims[..n];
    if claims[n].key !in claimed {
      ConcatNothing(claims[n].claimant);
    }
  }

  lemma ConcatNothing<C>(claimant: C)
    ensures [] + [claimant] == [claimant]
  {
  }

  lemma OrderedOneMore<K, C>(claims: seq<Claim<K, C>>, n: nat, order: seq<K>, at: seq<nat>)
    requires n < |claims| && Ordered(claims, n, order, at)
    ensures claims[n].key in order ==> Ordered(claims, n + 1, order, at)
    ensures claims[n].key !in order ==> Ordered(claims, n + 1, order + [claims[n].key], at + [n])
  {
    if claims[n].key !in order {
      var order', at' := order + [claims[n].key], at + [n];
      forall i, j | 0 <= i < |order'| && 0 <= j < at'[i] ensures claims[j].key in order'[..i] {
        assert order'[..i] == order[..i];
      }
    }
  }

  /** Groups the claims by key and remembers the keys in the order they first appear. */
  method Collect<K(==, !new), C>(claims: seq<Claim<K, C>>)
    returns (claimed: map<K, seq<C>>, order: seq<K>, ghost at: seq<nat>)
    ensures Ordered(claims, |claims|, order, at) && Collected(claims, claimed)
  {
    claimed, order, at := map[], [], [];
    for n := 0 to |claims|
      invariant Ordered(claims, n, order, at)
      invariant Collected(claims[..n], claimed)
      invariant forall key :: key in claimed <==> key in order
    {
      OrderedOneMore(claims, n, order, at);
      CollectedOneMore(claims, n, claimed);
      if claims[n].key !in claimed {
        at := at + [n];
        order := order + [claims[n].key];
      }
      claimed := Recorded(claimed, claims[n]);
    }
    assert claims[..|claims|] == claims;
  }

  lemma ConflictInOrder<K, C>(claims: seq<Claim<K, C>>, order: seq<K>, at: seq<nat>, i: nat)
    requires Ordered(claims, |claims|, order, at) && i <= |order|
    requires forall k :: 0 <= k < i ==> |Claimants(claims, order[k])| <= 1
    ensures i < |order| && |Claimants(claims, order[i])| > 1 ==>
              FirstConflict(claims) == Some(Conflict(order[i], Claimants(claims, order[i])))
    ensures i == |order| ==> FirstConflict(claims) == None
  {
    if i == |order| {
      SinglesBefore(claims, order, |claims|);
      ConflictAt(claims, 0, |claims|);
    } else if |Claimants(claims, order[i])| > 1 {
      SinglesBefore(claims, order[..i], at[i]);
      ConflictAt(claims, 0, at[i]);
    }
  }

  /** The position of the first key with more than one claimant, or the end. */
  method FirstShared<K(==), C>(claimed: map<K, seq<C>>, order: seq<K>) returns (i: nat)
    requires forall k :: 0 <= k < |order| ==> order[k] in claimed
    ensures i <= |order| && forall k :: 0 <= k < i ==> |claimed[order[k]]| <= 1
    ensures i < |order| ==> |claimed[order[i]]| > 1
  {
    for n := 0 to |order|
      invariant forall k :: 0 <= k < n ==> |claimed[order[k]]| <= 1
    {
      if |claimed[order[n]]| > 1 {
        return n;
      }
    }
    i := |order|;
  }

  method FindConflict<K(==, !new), C>(claims: seq<Claim<K, C>>) returns (conflict: Option<Conflict<K, C>>)
    ensures conflict == FirstConflict(claims)
  {
    var claimed, order, at := Collect(claims);
    ClaimedInOrder(claims, claimed, order, at);
    var i := FirstShared(claimed, order);
    ConflictInOrder(claims, order, at, i);
    conflict := if i < |order| then Some(Conflict(order[i], claimed[order[i]])) else None;
  }

  lemma ClaimedInOrder<K(!new), C>(
    claims: seq<Claim<K, C>>, claimed: map<K, seq<C>>, order: seq<K>, at: seq<nat>)
    requires Ordered(claims, |claims|, order, at) && Collected(claims, claimed)
    ensures forall i :: 0 <= i < |order| ==> order[i] in claimed && claimed[order[i]] == Claimants(claims, order[i])
  {
    forall i | 0 <= i < |order| ensures order[i] in claimed && claimed[order[i]] == Claimants(claims, order[i]) {
      ClaimantsCount(claims, order[i]);
    }
  }

  lemma SinglesBefore<K, C>(claims: seq<Claim<K, C>>, keys: seq<K>, at: nat)
    requires at <= |claims| && forall j :: 0 <= j < at ==> claims[j].key in keys
    requires forall k :: 0 <= k < |keys| ==> |Claimants(claims, keys[k])| <= 1
    ensures forall j :: 0 <= j < at ==> Single(claims, j)
  {
  }

  // ---------- by smallest key ----------

  ghost predicate TotalOrder<K(!new)>(less: (K, K) -> bool) {
    && (forall a :: !less(a, a))
    && (forall a, b :: less(a, b) || less(b, a) || a == b)
    && (forall a, b, c :: less(a, b) && less(b, c) ==> less(a, c))
  }

  /** The report names all claimants of the smallest key that has rivals. */
  ghost predicate IsSmallestConflict<K(!new), C>(
    claims: seq<Claim<K, C>>, less: (K, K) -> bool, conflict: Option<Conflict<K, C>>)
  {
    match conflict
    case None => AllDifferent(claims)
    case Some(Conflict(key, claimants)) =>
      && claimants == Claimants(claims, key) && |claimants| > 1
      && forall rival :: |Claimants(claims, rival)| > 1 ==> rival == key || less(key, rival)
  }

  lemma SmallestExists<K(!new)>(keys: set<K>, less: (K, K) -> bool) returns (least: K)
    requires keys != {} && TotalOrder(less)
    ensures least in keys && forall key :: key in keys ==> key == least || less(least, key)
    decreases keys
  {
    var first :| first in keys;
    var others := keys - {first};
    least := first;
    if others != {} {
      var next := SmallestExists(others, less);
      if !less(first, next) {
        least := next;
      }
    }
    forall key | key in keys ensures key == least || less(least, key) {
      assert key == first || key in others;
    }
  }

  /** Collects the claims and walks the keys in ascending order. */
  method FindSmallestConflict<K(==, !new), C>(claims: seq<Claim<K, C>>, less: (K, K) -> bool)
    returns (conflict: Option<Conflict<K, C>>)
    requires TotalOrder(less)
    ensures IsSmallestConflict(claims, less, conflict)
  {
    var claimed: map<K, seq<C>> := map[];
    for n := 0 to |claims|
      invariant Collected(claims[..n], claimed)
    {
      CollectedOneMore(claims, n, claimed);
      claimed := Recorded(claimed, claims[n]);
    }
    assert claims[..|claims|] == claims;
    var remaining := claimed.Keys;
    while remaining != {}
      invariant remaining <= claimed.Keys
      invariant forall key :: key in claimed && key !in remaining ==> |claimed[key]| <= 1
    {
      ghost var witness' := SmallestExists(remaining, less);
      var key :| key in remaining && forall other :: other in remaining ==> other == key || less(key, other);
      if |claimed[key]| > 1 {
        return Some(Conflict(key, claimed[key]));
      }
      remaining := remaining - {key};
    }
    forall i, j | 0 <= i < j < |claims| ensures claims[i].key != claims[j].key {
      ClaimantsCount(claims, claims[i].key);
      assert claims[i].key in claimed;
    }
    conflict := None;
  }

}
