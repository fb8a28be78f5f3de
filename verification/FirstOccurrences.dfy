/** The first item of every key, in order: how the program drops repeats. */
module FirstOccurrences {

  /** The key of items that are compared whole. */
  function Itself<T>(item: T): T {
    item
  }

  /** The items whose key is not among `seen` and not that of an earlier item. */
  function Unseen<T, K(==)>(items: seq<T>, key: T -> K, seen: set<K>): seq<T> {
    if items == [] then []
    else if key(items[0]) in seen then Unseen(items[1..], key, seen)
    else [items[0]] + Unseen(items[1..], key, seen + {key(items[0])})
  }

  /** Keeps an item exactly when its key enters the growing set of seen keys. */
  method UniqueBy<T, K(==)>(items: seq<T>, key: T -> K) returns (kept: seq<T>)
    ensures kept == Unseen(items, key, {})
  {
    kept := [];
    var seen: set<K> := {};
    for i := 0 to |items|
      invariant kept + Unseen(items[i..], key, seen) == Unseen(items, key, {})
    {
      assert items[i..][1..] == items[i + 1..];
      if key(items[i]) !in seen {
        seen := seen + {key(items[i])};
        kept := kept + [items[i]];
      }
    }
  }

  ghost predicate Carried<T, K>(value: K, items: seq<T>, key: T -> K) {
    exists n :: 0 <= n < |items| && key(items[n]) == value
  }

  /** Some position holds `item`, and no earlier position carries its key. */
  ghost predicate IsFirst<T, K>(item: T, items: seq<T>, key: T -> K) {
    exists n :: 0 <= n < |items| && items[n] == item && !Carried(key(item), items[..n], key)
  }

  lemma Later<T, K>(value: K, items: seq<T>, key: T -> K)
    requires items != []
    ensures Carried(value, items, key) <==> key(items[0]) == value || Carried(value, items[1..], key)
  {
    if Carried(value, items, key) && key(items[0]) != value {
      var n :| 0 <= n < |items| && key(items[n]) == value;
      assert key(items[1..][n - 1]) == value;
    }
    if Carried(value, items[1..], key) {
      var n :| 0 <= n < |items[1..]| && key(items[1..][n]) == value;
      assert key(items[n + 1]) == value;
    }
  }

  /** The kept items carry exactly the keys outside `seen`. */
  lemma {:induction false} UnseenCovers<T, K>(items: seq<T>, key: T -> K, seen: set<K>, value: K)
    ensures Carried(value, Unseen(items, key, seen), key) <==> Carried(value, items, key) && value !in seen
  {
    if items != [] {
      var head := key(items[0]);
      Later(value, items, key);
      if head in seen {
        UnseenCovers(items[1..], key, seen, value);
      } else {
        UnseenCovers(items[1..], key, seen + {head}, value);
        var kept := Unseen(items, key, seen);
        assert kept[1..] == Unseen(items[1..], key, seen + {head});
        Later(value, kept, key);
      }
    }
  }

  ghost predicate Distinct<T, K>(items: seq<T>, key: T -> K) {
    forall i, j :: 0 <= i < j < |items| ==> key(items[i]) != key(items[j])
  }

  lemma DistinctOneMore<T, K>(item: T, items: seq<T>, key: T -> K)
    requires Distinct(items, key) && !Carried(key(item), items, key)
    ensures Distinct([item] + items, key)
  {
  }

  /** No two kept items carry the same key. */
  lemma {:induction false} UnseenIsDistinct<T, K>(items: seq<T>, key: T -> K, seen: set<K>)
    ensures Distinct(Unseen(items, key, seen), key)
  {
    if items != [] {
      var head := key(items[0]);
      if head in seen {
        UnseenIsDistinct(items[1..], key, seen);
      } else {
        UnseenIsDistinct(items[1..], key, seen + {head});
        UnseenCovers(items[1..], key, seen + {head}, head);
        DistinctOneMore(items[0], Unseen(items[1..], key, seen + {head}), key);
      }
    }
  }

  /** Each kept item is the first that carries its key. */
  lemma {:induction false} UnseenAreFirsts<T, K>(items: seq<T>, key: T -> K, seen: set<K>, i: nat)
    requires i < |Unseen(items, key, seen)|
    ensures IsFirst(Unseen(items, key, seen)[i], items, key)
  {
    var head := key(items[0]);
    var kept := Unseen(items, key, seen);
    if head !in seen && i == 0 {
      assert items[0] == kept[i] && items[..0] == [];
    } else {
      var seen' := seen + {head};
      var k := if head in seen then i else i - 1;
      assert head in seen ==> seen' == seen;
      var later := Unseen(items[1..], key, seen');
      assert kept[i] == later[k];
      UnseenAreFirsts(items[1..], key, seen', k);
      assert Carried(key(later[k]), later, key);
      UnseenCovers(items[1..], key, seen', key(later[k]));
      FirstLater(kept[i], items, key);
    }
  }

  lemma FirstLater<T, K>(item: T, items: seq<T>, key: T -> K)
    requires items != [] && IsFirst(item, items[1..], key) && key(items[0]) != key(item)
    ensures IsFirst(item, items, key)
  {
    var n :| 0 <= n < |items[1..]| && items[1..][n] == item && !Carried(key(item), items[1..][..n], key);
    assert items[n + 1] == item;
    assert items[..n + 1][1..] == items[1..][..n];
    Later(key(item), items[..n + 1], key);
  }

}
