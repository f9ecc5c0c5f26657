/** Sequence and map helpers that stand for the dictionaries of the program:
    a Python dict remembers its keys in first-insertion order, and the per-junction
    dictionaries of read names are sets whose sizes are reported. */
module Collections {

  predicate Distinct<T(==)>(xs: seq<T>)
  {
    forall i, j :: 0 <= i < j < |xs| ==> xs[i] != xs[j]
  }

  /** The key order of a dict into which xs[0], xs[1], ... are assigned in turn:
      assigning an existing key again leaves it where it first went. */
  function Dedup<T(==,!new)>(xs: seq<T>): (r: seq<T>)
    ensures Distinct(r)
    ensures forall x :: x in r <==> x in xs
  {
    if |xs| == 0 then []
    else
      var p := Dedup(xs[..|xs| - 1]);
      var x := xs[|xs| - 1];
      assert forall y :: y in xs <==> y in xs[..|xs| - 1] || y == x by {
        assert xs == xs[..|xs| - 1] + [x];
      }
      if x in p then p else p + [x]
  }

  /** One more assignment: a new key goes to the end, a known key stays where it is. */
  lemma DedupSnoc<T(!new)>(xs: seq<T>, x: T)
    ensures Dedup(xs + [x]) == if x in Dedup(xs) then Dedup(xs) else Dedup(xs) + [x]
  {
    assert (xs + [x])[..|xs|] == xs;
  }

  /** Keys already placed never move: the order after a prefix of the assignments is a
      prefix of the final order. */
  lemma {:induction false} DedupPrefix<T(!new)>(xs: seq<T>, k: nat)
    requires k <= |xs|
    ensures Dedup(xs[..k]) <= Dedup(xs)
    decreases |xs|
  {
    if k < |xs| {
      var init := xs[..|xs| - 1];
      DedupPrefix(init, k);
      assert init[..k] == xs[..k];
    } else {
      assert xs[..k] == xs;
    }
  }

  /** A subset is no larger than its superset. */
  lemma SubsetSize<T>(a: set<T>, b: set<T>)
    requires a <= b
    ensures |a| <= |b|
  {
    assert b == a + (b - a);
  }

  /** The union of the sets that m holds under the given keys. */
  function UnionOf<K(==), V(==)>(keys: seq<K>, m: map<K, set<V>>): set<V>
    requires forall k :: k in keys ==> k in m
  {
    if |keys| == 0 then {} else m[keys[0]] + UnionOf(keys[1..], m)
  }

  /** An element of the union comes from the set filed under one of the keys. */
  lemma {:induction false} UnionMembers<K(!new), V(!new)>(keys: seq<K>, m: map<K, set<V>>, v: V)
    requires forall k :: k in keys ==> k in m
    requires v in UnionOf(keys, m)
    ensures exists k :: k in keys && v in m[k]
  {
    if v !in m[keys[0]] {
      UnionMembers(keys[1..], m, v);
      var k :| k in keys[1..] && v in m[k];
      assert k in keys;
    }
  }

  /** The set filed under one of the keys is part of the union. */
  lemma {:induction false} UnionIncludes<K(!new), V(!new)>(keys: seq<K>, m: map<K, set<V>>, k: K, v: V)
    requires forall k :: k in keys ==> k in m
    requires k in keys && v in m[k]
    ensures v in UnionOf(keys, m)
  {
    if keys[0] != k {
      assert k in keys[1..];
      UnionIncludes(keys[1..], m, k, v);
    }
  }

  /** The sum of the sizes of the sets that m holds under the given keys. */
  function SumSizes<K(==), V>(keys: seq<K>, m: map<K, set<V>>): nat
    requires forall k :: k in keys ==> k in m
  {
    if |keys| == 0 then 0 else |m[keys[0]]| + SumSizes(keys[1..], m)
  }

  /** Dropping the head of a sequence without duplicates leaves one without duplicates and
      without that head. */
  lemma DistinctTail<T>(xs: seq<T>)
    requires |xs| > 0 && Distinct(xs)
    ensures Distinct(xs[1..]) && xs[0] !in xs[1..]
  {
    var rest := xs[1..];
    forall i | 0 <= i < |rest| ensures rest[i] != xs[0] {
      assert rest[i] == xs[i + 1];
    }
  }

  /** The set filed under a key that is not among the given keys shares nothing with their union. */
  lemma UnionAvoids<K(!new), V(!new)>(key: K, keys: seq<K>, m: map<K, set<V>>, owner: map<V, K>)
    requires key in m && key !in keys
    requires forall k :: k in keys ==> k in m
    requires forall k, v :: k in m && v in m[k] ==> v in owner && owner[v] == k
    ensures m[key] !! UnionOf(keys, m)
  {
    forall v | v in UnionOf(keys, m) ensures v !in m[key] {
      UnionMembers(keys, m, v);
      var k :| k in keys && v in m[k];
      assert owner[v] == k != key;
    }
  }

  /** When every element of every set carries an owner naming the one key it is filed under,
      the sets are pairwise disjoint and their sizes add up to the size of their union. */
  lemma {:induction false} SumSizesOfPartition<K(!new), V(!new)>(keys: seq<K>, m: map<K, set<V>>, owner: map<V, K>)
    requires Distinct(keys)
    requires forall k :: k in keys ==> k in m
    requires forall k, v :: k in m && v in m[k] ==> v in owner && owner[v] == k
    ensures SumSizes(keys, m) == |UnionOf(keys, m)|
    decreases |keys|
  {
    if |keys| > 0 {
      var first, rest := keys[0], keys[1..];
      DistinctTail(keys);
      assert forall k :: k in rest ==> k in keys;
      SumSizesOfPartition(rest, m, owner);
      UnionAvoids(first, rest, m, owner);
    }
  }

  /** What a sequence gains over a prefix is what it gains over a longer prefix after what that
      longer prefix gains. */
  lemma GainSplit<T>(a: seq<T>, b: seq<T>, c: seq<T>)
    requires a <= b && b <= c
    ensures c[|a|..] == b[|a|..] + c[|b|..]
  {
    assert c == b + c[|b|..];
  }
}
