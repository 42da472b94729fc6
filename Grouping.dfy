/** Grouping a list into buckets by a key, as both question pages do with
    `questions.reduce((acc, q) => { ...; acc[key].push(q); return acc }, {})`:
    the first item with a key creates its bucket, and every item is pushed
    onto the bucket of its key. */
module Grouping {

  /** The bucket of questions whose subject name is unknown or missing. */
  const UnknownMatiere: string := "Matière Inconnue"

  /** The items with key `k`, in their original order. */
  function Bucket<K(==), Q>(items: seq<Q>, key: Q -> K, k: K): (r: seq<Q>)
    ensures |r| <= |items|
  {
    if items == [] then []
    else
      var last := items[|items| - 1];
      Bucket(items[..|items| - 1], key, k) + (if key(last) == k then [last] else [])
  }

  /** The keys that occur. */
  function KeysOf<K(==), Q>(items: seq<Q>, key: Q -> K): set<K>
  {
    set i | 0 <= i < |items| :: key(items[i])
  }

  /** The reduce, as a loop over the items that updates the accumulator. */
  method GroupBy<K(==), Q>(items: seq<Q>, key: Q -> K) returns (groups: map<K, seq<Q>>)
    ensures groups.Keys == KeysOf(items, key)
    ensures forall k :: k in groups ==> groups[k] == Bucket(items, key, k)
  {
    groups := map[];
    var i := 0;
    while i < |items|
      invariant 0 <= i <= |items|
      invariant groups.Keys == KeysOf(items[..i], key)
      invariant forall k :: k in groups ==> groups[k] == Bucket(items[..i], key, k)
    {
      var item := items[i];
      var k := key(item);
      BucketStep(items, key, i);
      if k !in groups {
        groups := groups[k := []];
      }
      assert groups[k] == Bucket(items[..i], key, k);
      groups := groups[k := groups[k] + [item]];
      assert forall k' :: k' in groups ==> groups[k'] == Bucket(items[..i + 1], key, k');
      i := i + 1;
    }
    assert items[..i] == items;
  }

  /** The buckets and keys of one more item. */
  lemma {:induction false} BucketStep<K, Q>(items: seq<Q>, key: Q -> K, i: nat)
    requires i < |items|
    ensures forall k :: Bucket(items[..i + 1], key, k)
                        == Bucket(items[..i], key, k) + (if key(items[i]) == k then [items[i]] else [])
    ensures KeysOf(items[..i + 1], key) == KeysOf(items[..i], key) + {key(items[i])}
    ensures key(items[i]) !in KeysOf(items[..i], key) ==> Bucket(items[..i], key, key(items[i])) == []
  {
    var b := Bucket(items[..i], key, key(items[i]));
    if b != [] {
      BucketMembers(items[..i], key, key(items[i]), b[0]);
      var j :| 0 <= j < i && items[..i][j] == b[0];
    }
    assert items[..i + 1][..i] == items[..i];
    var before := KeysOf(items[..i], key);
    var after := KeysOf(items[..i + 1], key);
    forall k | k in after ensures k in before + {key(items[i])} {
      var j :| 0 <= j < i + 1 && items[..i + 1][j] == items[j] && key(items[j]) == k;
      if j < i {
        assert items[..i][j] == items[j];
      }
    }
    forall k | k in before ensures k in after {
      var j :| 0 <= j < i && key(items[..i][j]) == k;
      assert items[..i + 1][j] == items[..i][j];
    }
    assert items[..i + 1][i] == items[i];
  }

  /** Each item lands in exactly one bucket: the bucket of its own key. */
  lemma {:induction false} BucketMembers<K, Q>(items: seq<Q>, key: Q -> K, k: K, x: Q)
    ensures x in Bucket(items, key, k) <==> x in items && key(x) == k
  {
    if items != [] {
      var init := items[..|items| - 1];
      BucketMembers(init, key, k, x);
      assert items == init + [items[|items| - 1]];
    }
  }

  // ---------------------------------------------------------------------
  // The bucket sizes add up to the number of items

  /** The total size of the buckets of the keys `ks`. */
  function SumSizes<K(==), Q>(items: seq<Q>, key: Q -> K, ks: seq<K>): nat
  {
    if ks == [] then 0
    else SumSizes(items, key, ks[..|ks| - 1]) + |Bucket(items, key, ks[|ks| - 1])|
  }

  /** The number of items whose key is in `s`. */
  function CountIn<K(==), Q>(items: seq<Q>, key: Q -> K, s: set<K>): nat
  {
    if items == [] then 0
    else CountIn(items[..|items| - 1], key, s) + (if key(items[|items| - 1]) in s then 1 else 0)
  }

  lemma {:induction false} CountInAddKey<K, Q>(items: seq<Q>, key: Q -> K, s: set<K>, k: K)
    requires k !in s
    ensures CountIn(items, key, s + {k}) == CountIn(items, key, s) + |Bucket(items, key, k)|
  {
    if items != [] {
      CountInAddKey(items[..|items| - 1], key, s, k);
    }
  }

  lemma {:induction false} SumSizesIsCount<K, Q>(items: seq<Q>, key: Q -> K, ks: seq<K>)
    requires forall a, b :: 0 <= a < b < |ks| ==> ks[a] != ks[b]
    ensures SumSizes(items, key, ks) == CountIn(items, key, set k | k in ks)
  {
    if ks == [] {
      assert (set k | k in ks) == {};
      CountInNone(items, key);
    } else {
      var init := ks[..|ks| - 1];
      var last := ks[|ks| - 1];
      SumSizesIsCount(items, key, init);
      assert last !in init by {
        forall a | 0 <= a < |init| ensures init[a] != last {
          assert init[a] == ks[a];
        }
      }
      CountInAddKey(items, key, (set k | k in init), last);
      assert (set k | k in ks) == (set k | k in init) + {last} by {
        assert ks == init + [last];
      }
    }
  }

  lemma {:induction false} CountInNone<K, Q>(items: seq<Q>, key: Q -> K)
    ensures CountIn(items, key, {}) == 0
  {
    if items != [] {
      CountInNone(items[..|items| - 1], key);
    }
  }

  lemma {:induction false} CountInAll<K, Q>(items: seq<Q>, key: Q -> K, s: set<K>)
    requires KeysOf(items, key) <= s
    ensures CountIn(items, key, s) == |items|
  {
    if items != [] {
      var n := |items| - 1;
      assert KeysOf(items[..n], key) <= s by {
        forall k | k in KeysOf(items[..n], key) ensures k in s {
          var j :| 0 <= j < n && key(items[..n][j]) == k;
          assert items[..n][j] == items[j];
        }
      }
      CountInAll(items[..n], key, s);
      assert key(items[n]) in KeysOf(items, key);
    }
  }

  /** Listing each key once, the bucket sizes add up to the number of
      items: no item is lost or counted twice. */
  lemma {:induction false} BucketSizesSum<K, Q>(items: seq<Q>, key: Q -> K, ks: seq<K>)
    requires forall a, b :: 0 <= a < b < |ks| ==> ks[a] != ks[b]
    requires (set k | k in ks) == KeysOf(items, key)
    ensures SumSizes(items, key, ks) == |items|
  {
    SumSizesIsCount(items, key, ks);
    CountInAll(items, key, (set k | k in ks));
  }
}
