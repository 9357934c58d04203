/**
 * The counting idiom `xs.reduce((acc, x) => { acc[x] = (acc[x] || 0) + 1;
 * return acc; }, {})` followed by `Object.keys` and `Object.values`.
 * The object is modelled as a list of (key, count) entries in the order
 * the keys were first inserted; a key already present is incremented in
 * place, a new key is appended with count 1.
 */
module Tally {

  type Entries<K> = seq<(K, nat)>

  /** `Object.keys`: the keys in entry order. */
  function Keys<K>(t: Entries<K>): (ks: seq<K>)
    ensures |ks| == |t|
    ensures forall i :: 0 <= i < |t| ==> ks[i] == t[i].0
  {
    if t == [] then [] else [t[0].0] + Keys(t[1..])
  }

  /** `Object.values`: the counts in entry order. */
  function Values<K>(t: Entries<K>): (vs: seq<nat>)
    ensures |vs| == |t|
    ensures forall i :: 0 <= i < |t| ==> vs[i] == t[i].1
  {
    if t == [] then [] else [t[0].1] + Values(t[1..])
  }

  function Sum(vs: seq<nat>): nat {
    if vs == [] then 0 else vs[0] + Sum(vs[1..])
  }

  /** Pairwise distinct elements. */
  predicate Distinct<K(==)>(ks: seq<K>) {
    forall i, j :: 0 <= i < j < |ks| ==> ks[i] != ks[j]
  }

  /** `acc[k] || 0`: the count stored under `k`, or 0 when there is none. */
  function Lookup<K(==)>(t: Entries<K>, k: K): nat {
    if t == [] then 0 else if t[0].0 == k then t[0].1 else Lookup(t[1..], k)
  }

  /** `acc[k] = (acc[k] || 0) + 1`. */
  function Bump<K(==)>(t: Entries<K>, k: K): Entries<K> {
    if t == [] then [(k, 1)]
    else if t[0].0 == k then [(k, t[0].1 + 1)] + t[1..]
    else [t[0]] + Bump(t[1..], k)
  }

  /** The `reduce`, from the left, starting from `{}`. */
  function Count<K(==)>(xs: seq<K>): Entries<K> {
    if xs == [] then [] else Bump(Count(xs[..|xs| - 1]), xs[|xs| - 1])
  }

  // ---------------------------------------------------------------------
  // One step

  /** Bumping keeps the existing keys in place and appends a new key at the end. */
  lemma {:induction false} BumpKeys<K>(t: Entries<K>, k: K)
    ensures Keys(Bump(t, k)) == if k in Keys(t) then Keys(t) else Keys(t) + [k]
  {
    if t != [] && t[0].0 != k {
      BumpKeys(t[1..], k);
      assert Keys(t) == [t[0].0] + Keys(t[1..]);
    }
  }

  /** Bumping adds one to the count of `k` and leaves every other count alone. */
  lemma {:induction false} BumpLookup<K>(t: Entries<K>, k: K, j: K)
    ensures Lookup(Bump(t, k), j) == Lookup(t, j) + if j == k then 1 else 0
  {
    if t != [] && t[0].0 != k {
      BumpLookup(t[1..], k, j);
    }
  }

  /** Bumping adds exactly one to the total. */
  lemma {:induction false} BumpSum<K>(t: Entries<K>, k: K)
    ensures Sum(Values(Bump(t, k))) == Sum(Values(t)) + 1
  {
    if t != [] {
      if t[0].0 == k {
        assert Values(Bump(t, k))[1..] == Values(t[1..]);
      } else {
        BumpSum(t[1..], k);
        assert Values(Bump(t, k))[1..] == Values(Bump(t[1..], k));
      }
    }
  }

  /** Bumping keeps every count positive. */
  lemma {:induction false} BumpPositive<K>(t: Entries<K>, k: K)
    requires forall i :: 0 <= i < |t| ==> t[i].1 > 0
    ensures forall i :: 0 <= i < |Bump(t, k)| ==> Bump(t, k)[i].1 > 0
  {
    if t != [] && t[0].0 != k {
      BumpPositive(t[1..], k);
    }
  }

  /** In a list with distinct keys, the lookup of the i-th key is the i-th count. */
  lemma {:induction false} LookupAt<K>(t: Entries<K>, i: nat)
    requires Distinct(Keys(t))
    requires i < |t|
    ensures Lookup(t, t[i].0) == t[i].1
  {
    if i > 0 {
      assert Keys(t)[0] != Keys(t)[i];
      assert Distinct(Keys(t[1..])) by {
        forall a, b | 0 <= a < b < |t| - 1 ensures Keys(t[1..])[a] != Keys(t[1..])[b] {
          assert Keys(t)[a + 1] != Keys(t)[b + 1];
        }
      }
      LookupAt(t[1..], i - 1);
    }
  }

  // ---------------------------------------------------------------------
  // The whole count

  /** The keys are pairwise distinct, so `Object.keys` has no repeats. */
  lemma {:induction false} CountKeysDistinct<K>(xs: seq<K>)
    ensures Distinct(Keys(Count(xs)))
  {
    if xs != [] {
      var init, x := xs[..|xs| - 1], xs[|xs| - 1];
      CountKeysDistinct(init);
      BumpKeys(Count(init), x);
    }
  }

  /** A key is present exactly when it is one of the counted elements. */
  lemma {:induction false} CountKeysAreElements<K>(xs: seq<K>, k: K)
    ensures k in Keys(Count(xs)) <==> k in xs
  {
    if xs != [] {
      var init, x := xs[..|xs| - 1], xs[|xs| - 1];
      CountKeysAreElements(init, k);
      BumpKeys(Count(init), x);
      assert xs == init + [x];
    }
  }

  /** The count stored under `k` is the number of occurrences of `k`. */
  lemma {:induction false} CountLookup<K>(xs: seq<K>, k: K)
    ensures Lookup(Count(xs), k) == multiset(xs)[k]
  {
    if xs != [] {
      var init, x := xs[..|xs| - 1], xs[|xs| - 1];
      CountLookup(init, k);
      BumpLookup(Count(init), x, k);
      assert xs == init + [x];
    }
  }

  /** The counts add up to the number of elements counted. */
  lemma {:induction false} CountSum<K>(xs: seq<K>)
    ensures Sum(Values(Count(xs))) == |xs|
  {
    if xs != [] {
      CountSum(xs[..|xs| - 1]);
      BumpSum(Count(xs[..|xs| - 1]), xs[|xs| - 1]);
    }
  }

  /** No key is stored with count 0. */
  lemma {:induction false} CountPositive<K>(xs: seq<K>)
    ensures forall i :: 0 <= i < |Count(xs)| ==> Count(xs)[i].1 > 0
  {
    if xs != [] {
      CountPositive(xs[..|xs| - 1]);
      BumpPositive(Count(xs[..|xs| - 1]), xs[|xs| - 1]);
    }
  }

  /** A distinct list has as many elements as the set of its elements. */
  lemma {:induction false} DistinctCardinality<K>(ks: seq<K>)
    requires Distinct(ks)
    ensures |set k | k in ks| == |ks|
  {
    if ks != [] {
      var rest := ks[1..];
      assert Distinct(rest) by {
        forall a, b | 0 <= a < b < |rest| ensures rest[a] != rest[b] {
          assert ks[a + 1] != ks[b + 1];
        }
      }
      DistinctCardinality(rest);
      assert ks[0] !in rest by {
        forall j | 0 <= j < |rest| ensures rest[j] != ks[0] {
          assert ks[j + 1] != ks[0];
        }
      }
      assert (set k | k in ks) == (set k | k in rest) + {ks[0]};
    }
  }

  /**
   * Everything a chart needs from a count: one entry per distinct element,
   * keys and counts of equal length and paired by index, each count the
   * number of occurrences of its key, and the counts adding up to the
   * number of elements.
   */
  lemma CountSpec<K>(xs: seq<K>)
    ensures |Keys(Count(xs))| == |Values(Count(xs))|
    ensures Distinct(Keys(Count(xs)))
    ensures forall k :: k in Keys(Count(xs)) <==> k in xs
    ensures |Keys(Count(xs))| == |set x | x in xs|
    ensures forall i :: 0 <= i < |Count(xs)| ==>
              Values(Count(xs))[i] == multiset(xs)[Keys(Count(xs))[i]] > 0
    ensures Sum(Values(Count(xs))) == |xs|
  {
    var t := Count(xs);
    CountKeysDistinct(xs);
    forall k ensures k in Keys(t) <==> k in xs {
      CountKeysAreElements(xs, k);
    }
    DistinctCardinality(Keys(t));
    assert (set k | k in Keys(t)) == (set x | x in xs);
    forall i | 0 <= i < |t| ensures Values(t)[i] == multiset(xs)[Keys(t)[i]] > 0 {
      LookupAt(t, i);
      CountLookup(xs, t[i].0);
      assert t[i].0 in Keys(t);
    }
    CountSum(xs);
  }
}
