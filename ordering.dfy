/**
 * Newest-first ordering of the fetched records:
 * `recordsCache.sort((a, b) => new Date(b.Timestamp) - new Date(a.Timestamp))`.
 * `Array.prototype.sort` is stable, so records with equal timestamps keep
 * the order in which they were fetched; together with the order by
 * timestamp this fixes the result completely.
 */
module Ordering {
  import opened Records

  /** Non-increasing by timestamp: the newest record first. */
  predicate NewestFirst(s: seq<Record>) {
    forall i, j :: 0 <= i < j < |s| ==> s[i].Timestamp >= s[j].Timestamp
  }

  /** The records of `s` with timestamp `t`, in their order in `s`. */
  function At(s: seq<Record>, t: int): seq<Record> {
    if s == [] then [] else (if s[0].Timestamp == t then [s[0]] else []) + At(s[1..], t)
  }

  /**
   * `a` reorders `b` stably: for every timestamp, the records with that
   * timestamp are the same and in the same relative order.
   */
  ghost predicate StableReordering(a: seq<Record>, b: seq<Record>) {
    forall t :: At(a, t) == At(b, t)
  }

  /** Puts `x` after every record at least as new as `x`. */
  function Insert(x: Record, s: seq<Record>): seq<Record> {
    if s == [] then [x]
    else if s[0].Timestamp >= x.Timestamp then [s[0]] + Insert(x, s[1..])
    else [x] + s
  }

  /** The reference ordering: stable insertion sort, newest first. */
  function SortNewestFirst(s: seq<Record>): seq<Record> {
    if s == [] then [] else Insert(s[|s| - 1], SortNewestFirst(s[..|s| - 1]))
  }

  // ---------------------------------------------------------------------
  // Properties of the timestamp classes

  lemma {:induction false} AtConcat(a: seq<Record>, b: seq<Record>, t: int)
    ensures At(a + b, t) == At(a, t) + At(b, t)
  {
    if a == [] {
      assert a + b == b;
    } else {
      var h := if a[0].Timestamp == t then [a[0]] else [];
      var ab := a + b;
      assert ab[0] == a[0] && ab[1..] == a[1..] + b;
      calc {
        At(ab, t);
        h + At(a[1..] + b, t);
        { AtConcat(a[1..], b, t); }
        h + (At(a[1..], t) + At(b, t));
        (h + At(a[1..], t)) + At(b, t);
        At(a, t) + At(b, t);
      }
    }
  }

  lemma {:induction false} AtMembers(s: seq<Record>, t: int, x: Record)
    ensures x in At(s, t) <==> x in s && x.Timestamp == t
  {
    if s != [] {
      AtMembers(s[1..], t, x);
      assert s == [s[0]] + s[1..];
    }
  }

  /** Each record occurs in its timestamp class as often as in the sequence. */
  lemma {:induction false} AtMultiplicity(s: seq<Record>, x: Record)
    ensures multiset(At(s, x.Timestamp))[x] == multiset(s)[x]
  {
    if s != [] {
      AtMultiplicity(s[1..], x);
      assert s == [s[0]] + s[1..];
    }
  }

  /** A stable reordering is a permutation. */
  lemma StableReorderingIsPermutation(a: seq<Record>, b: seq<Record>)
    requires StableReordering(a, b)
    ensures multiset(a) == multiset(b)
  {
    forall x ensures multiset(a)[x] == multiset(b)[x] {
      AtMultiplicity(a, x);
      AtMultiplicity(b, x);
      assert At(a, x.Timestamp) == At(b, x.Timestamp);
    }
  }

  /** Swapping two neighbours with different timestamps is a stable reordering. */
  lemma SwapNeighbours(s: seq<Record>, j: nat, s': seq<Record>)
    requires 0 < j < |s|
    requires s[j - 1].Timestamp != s[j].Timestamp
    requires s' == s[j - 1 := s[j]][j := s[j - 1]]
    ensures StableReordering(s', s)
  {
    var pre, post := s[..j - 1], s[j + 1..];
    assert s == pre + [s[j - 1], s[j]] + post;
    assert s' == pre + [s[j], s[j - 1]] + post;
    forall t ensures At(s', t) == At(s, t) {
      AtConcat(pre + [s[j - 1], s[j]], post, t);
      AtConcat(pre, [s[j - 1], s[j]], t);
      AtConcat(pre + [s[j], s[j - 1]], post, t);
      AtConcat(pre, [s[j], s[j - 1]], t);
      assert [s[j - 1], s[j]][1..] == [s[j]];
      assert [s[j], s[j - 1]][1..] == [s[j - 1]];
    }
  }

  // ---------------------------------------------------------------------
  // The reference ordering

  lemma {:induction false} InsertNewestFirst(x: Record, s: seq<Record>)
    requires NewestFirst(s)
    ensures NewestFirst(Insert(x, s))
    ensures |Insert(x, s)| == |s| + 1
    ensures forall y :: y in Insert(x, s) <==> y == x || y in s
  {
    if s != [] && s[0].Timestamp >= x.Timestamp {
      var r := Insert(x, s[1..]);
      InsertNewestFirst(x, s[1..]);
      assert s == [s[0]] + s[1..];
      forall k | 0 <= k < |r| ensures s[0].Timestamp >= r[k].Timestamp {
        assert r[k] in r;
        if r[k] != x {
          var m :| 0 <= m < |s[1..]| && s[1..][m] == r[k];
          assert s[1 + m] == r[k];
        }
      }
    }
  }

  lemma {:induction false} OlderThanAll(s: seq<Record>, t: int)
    requires forall i :: 0 <= i < |s| ==> s[i].Timestamp < t
    ensures At(s, t) == []
  {
    if s != [] {
      OlderThanAll(s[1..], t);
    }
  }

  lemma {:induction false} InsertAt(x: Record, s: seq<Record>, t: int)
    requires NewestFirst(s)
    ensures At(Insert(x, s), t) == At(s, t) + At([x], t)
  {
    assert [x][1..] == [];
    if s == [] {
    } else if s[0].Timestamp >= x.Timestamp {
      InsertAt(x, s[1..], t);
    } else {
      assert At([x] + s, t) == At([x], t) + At(s, t) by {
        AtConcat([x], s, t);
      }
      if x.Timestamp == t {
        OlderThanAll(s, t);
      }
    }
  }

  /** The reference ordering is newest first and keeps ties in fetch order. */
  lemma {:induction false} SortNewestFirstSpec(s: seq<Record>)
    ensures NewestFirst(SortNewestFirst(s))
    ensures StableReordering(SortNewestFirst(s), s)
  {
    if s != [] {
      var init, last := s[..|s| - 1], s[|s| - 1];
      SortNewestFirstSpec(init);
      InsertNewestFirst(last, SortNewestFirst(init));
      assert s == init + [last];
      forall t ensures At(SortNewestFirst(s), t) == At(s, t) {
        InsertAt(last, SortNewestFirst(init), t);
        AtConcat(init, [last], t);
      }
    }
  }

  /** A non-empty timestamp class names a record of the sequence. */
  lemma AtNonEmpty(s: seq<Record>, t: int)
    requires At(s, t) != []
    ensures exists i :: 0 <= i < |s| && s[i].Timestamp == t
  {
    AtMembers(s, t, At(s, t)[0]);
  }

  /**
   * Being newest first and a stable reordering of the same sequence
   * determines the order completely.
   */
  lemma {:induction false} NewestFirstStableUnique(a: seq<Record>, b: seq<Record>)
    requires NewestFirst(a) && NewestFirst(b)
    requires StableReordering(a, b)
    ensures a == b
  {
    StableReorderingIsPermutation(a, b);
    assert |a| == |multiset(a)| == |multiset(b)| == |b|;
    if a == [] || b == [] {
    } else {
      var ta, tb := a[0].Timestamp, b[0].Timestamp;
      assert At(a, ta) != [];
      AtNonEmpty(b, ta);
      assert At(b, tb) != [];
      AtNonEmpty(a, tb);
      assert ta == tb;
      assert a[0] == At(a, ta)[0] == At(b, ta)[0] == b[0];
      forall t ensures At(a[1..], t) == At(b[1..], t) {
        assert At(a, t) == (if ta == t then [a[0]] else []) + At(a[1..], t);
        assert At(b, t) == (if ta == t then [a[0]] else []) + At(b[1..], t);
        assert At(a, t) == At(b, t);
        var h := if ta == t then [a[0]] else [];
        assert (h + At(a[1..], t))[|h|..] == At(a[1..], t);
        assert (h + At(b[1..], t))[|h|..] == At(b[1..], t);
      }
      NewestFirstStableUnique(a[1..], b[1..]);
      assert a == [a[0]] + a[1..] && b == [b[0]] + b[1..];
    }
  }

  /** What the finished loop establishes determines everything else. */
  lemma SortedResult(s: seq<Record>, s0: seq<Record>)
    requires NewestFirst(s) && StableReordering(s, s0)
    ensures multiset(s) == multiset(s0)
    ensures s == SortNewestFirst(s0)
  {
    StableReorderingIsPermutation(s, s0);
    SortNewestFirstSpec(s0);
    NewestFirstStableUnique(s, SortNewestFirst(s0));
  }

  /**
   * `recordsCache.sort(...)` on the fetched array: afterwards the array is
   * newest first, a stable reordering and so a permutation of what it held,
   * and equal to the reference ordering of it.
   */
  method SortInPlace(a: array<Record>)
    modifies a
    ensures NewestFirst(a[..])
    ensures StableReordering(a[..], old(a[..]))
    ensures multiset(a[..]) == multiset(old(a[..]))
    ensures a[..] == SortNewestFirst(old(a[..]))
  {
    var i := 0;
    while i < a.Length
      invariant 0 <= i <= a.Length
      invariant NewestFirst(a[..i])
      invariant StableReordering(a[..], old(a[..]))
    {
      SinkNewest(a, i);
      i := i + 1;
    }
    assert a[..] == a[..a.Length];
    SortedResult(a[..], old(a[..]));
  }

  /**
   * Midway through sinking `s[i]`: it now sits at `j`, is strictly newer
   * than everything it passed, and the rest of `s[..i + 1]` is newest first.
   */
  ghost predicate Sinking(s: seq<Record>, i: nat, j: nat) {
    j <= i < |s| &&
    (forall k, l :: 0 <= k < l <= i && k != j && l != j ==> s[k].Timestamp >= s[l].Timestamp) &&
    (forall l :: j < l <= i ==> s[j].Timestamp > s[l].Timestamp)
  }

  lemma SinkStart(s: seq<Record>, i: nat)
    requires i < |s| && NewestFirst(s[..i])
    ensures Sinking(s, i, i)
  {
    forall k, l | 0 <= k < l < i ensures s[k].Timestamp >= s[l].Timestamp {
      assert s[k] == s[..i][k] && s[l] == s[..i][l];
    }
  }

  lemma SinkStep(s: seq<Record>, i: nat, j: nat, s': seq<Record>)
    requires Sinking(s, i, j) && 0 < j
    requires s[j - 1].Timestamp < s[j].Timestamp
    requires s' == s[j - 1 := s[j]][j := s[j - 1]]
    ensures Sinking(s', i, j - 1)
  {
  }

  lemma SinkDone(s: seq<Record>, i: nat, j: nat)
    requires Sinking(s, i, j)
    requires j == 0 || s[j - 1].Timestamp >= s[j].Timestamp
    ensures NewestFirst(s[..i + 1])
  {
    forall k, l | 0 <= k < l <= i ensures s[k].Timestamp >= s[l].Timestamp {
      if k != j && l != j {
      } else if l == j {
        assert s[k].Timestamp >= s[j - 1].Timestamp;
      }
    }
  }

  /**
   * One pass of the insertion: moves `a[i]` towards the front past every
   * strictly older neighbour, so that `a[..i + 1]` becomes newest first.
   */
  method SinkNewest(a: array<Record>, i: nat)
    requires i < a.Length
    requires NewestFirst(a[..i])
    modifies a
    ensures NewestFirst(a[..i + 1])
    ensures forall t :: At(a[..], t) == At(old(a[..]), t)
  {
    var j: nat := i;
    SinkStart(a[..], i);
    while j > 0 && a[j - 1].Timestamp < a[j].Timestamp
      invariant Sinking(a[..], i, j)
      invariant forall t :: At(a[..], t) == At(old(a[..]), t)
    {
      ghost var before := a[..];
      a[j - 1], a[j] := a[j], a[j - 1];
      SwapNeighbours(before, j, a[..]);
      SinkStep(before, i, j, a[..]);
      j := j - 1;
    }
    SinkDone(a[..], i, j);
  }
}
