/**
 * The string operations of ECMAScript that the page relies on:
 * `String.prototype.trim`, `split` on a one-character separator,
 * `Array.prototype.join`, and the first-match search behind `includes`
 * and `replace`. Strings are sequences of Unicode scalar values.
 */
module Text {
  import opened Wrappers

  /**
   * The code points `trim` strips: the WhiteSpace and LineTerminator
   * productions of ECMAScript (sections 12.2 and 12.3 of ECMA-262), with
   * the Zs category as of Unicode 15. U+0009 to U+000D are tab, line feed,
   * vertical tab, form feed and carriage return.
   */
  predicate IsJsSpace(c: char) {
    var n := c as int;
    || (0x09 <= n <= 0x0D) || n == 0x20 || n == 0xA0 || n == 0x1680
    || (0x2000 <= n <= 0x200A) || n == 0x2028 || n == 0x2029 || n == 0x202F
    || n == 0x205F || n == 0x3000 || n == 0xFEFF
  }

  predicate AllSpace(s: string) {
    forall i :: 0 <= i < |s| ==> IsJsSpace(s[i])
  }

  /** A string that `trim` leaves alone: no space at either end. */
  predicate Trimmed(s: string) {
    s == [] || (!IsJsSpace(s[0]) && !IsJsSpace(s[|s| - 1]))
  }

  /** The first index at or after `i` that does not hold a space. */
  function SkipSpaces(s: string, i: nat): (k: nat)
    requires i <= |s|
    ensures i <= k <= |s|
    ensures forall m :: i <= m < k ==> IsJsSpace(s[m])
    ensures k < |s| ==> !IsJsSpace(s[k])
    decreases |s| - i
  {
    if i < |s| && IsJsSpace(s[i]) then SkipSpaces(s, i + 1) else i
  }

  /** The last end index at or before `j`, not below `lo`, not preceded by a space. */
  function SkipSpacesBack(s: string, lo: nat, j: nat): (k: nat)
    requires lo <= j <= |s|
    ensures lo <= k <= j
    ensures forall m :: k <= m < j ==> IsJsSpace(s[m])
    ensures lo < k ==> !IsJsSpace(s[k - 1])
  {
    if lo < j && IsJsSpace(s[j - 1]) then SkipSpacesBack(s, lo, j - 1) else j
  }

  /** The number of leading spaces `trim` removes. */
  function LeadingSpaces(s: string): nat
    ensures LeadingSpaces(s) <= |s|
  {
    SkipSpaces(s, 0)
  }

  /** Where what `trim` keeps ends. */
  function TrimmedEnd(s: string): nat
    ensures LeadingSpaces(s) <= TrimmedEnd(s) <= |s|
  {
    SkipSpacesBack(s, LeadingSpaces(s), |s|)
  }

  /**
   * `trim`: the string less its leading and trailing spaces. What is kept
   * is a slice with nothing but spaces on either side of it, and it has no
   * space at either end.
   */
  function Trim(s: string): (r: string)
    ensures |r| <= |s|
  {
    s[LeadingSpaces(s)..TrimmedEnd(s)]
  }

  lemma TrimSlice(s: string)
    ensures var i, j := LeadingSpaces(s), TrimmedEnd(s);
      && Trim(s) == s[i..j]
      && (forall k :: 0 <= k < i ==> IsJsSpace(s[k]))
      && (forall k :: j <= k < |s| ==> IsJsSpace(s[k]))
      && Trimmed(Trim(s))
  {
    var i, j := LeadingSpaces(s), TrimmedEnd(s);
    if i < j {
      assert Trim(s)[0] == s[i];
      assert Trim(s)[j - i - 1] == s[j - 1];
    }
  }

  /** Applying `trim` to every piece, as `.map(a => a.trim())` does. */
  function TrimAll(pieces: seq<string>): (r: seq<string>)
    ensures |r| == |pieces|
  {
    if pieces == [] then [] else [Trim(pieces[0])] + TrimAll(pieces[1..])
  }

  lemma {:induction false} TrimAllAt(pieces: seq<string>, i: nat)
    requires i < |pieces|
    ensures TrimAll(pieces)[i] == Trim(pieces[i])
  {
    if i > 0 {
      TrimAllAt(pieces[1..], i - 1);
    }
  }

  /** The pieces that are truthy, as `.filter(a => a)` keeps them. */
  function NonEmpty(pieces: seq<string>): (r: seq<string>)
    ensures |r| <= |pieces|
    ensures forall p :: p in r <==> p in pieces && p != []
    ensures forall p :: multiset(r)[p] == if p == [] then 0 else multiset(pieces)[p]
  {
    if pieces == [] then []
    else
      assert pieces == [pieces[0]] + pieces[1..];
      if pieces[0] == [] then NonEmpty(pieces[1..])
      else [pieces[0]] + NonEmpty(pieces[1..])
  }

  /** The number of times `c` occurs in `s`. */
  function Count(s: string, c: char): nat {
    if s == [] then 0 else (if s[0] == c then 1 else 0) + Count(s[1..], c)
  }

  /**
   * `s.split(sep)` for a one-character separator: the maximal runs
   * between separators, including empty ones, so there is always exactly
   * one more piece than there are separators.
   */
  function Split(s: string, sep: char): (pieces: seq<string>)
    ensures |pieces| == Count(s, sep) + 1
    ensures forall p :: p in pieces ==> sep !in p
  {
    if s == [] then [[]]
    else
      assert s == [s[0]] + s[1..];
      var rest := Split(s[1..], sep);
      if s[0] == sep then [[]] + rest
      else [[s[0]] + rest[0]] + rest[1..]
  }

  /** `pieces.join(sep)`: the pieces with `sep` between neighbours. */
  function Join(pieces: seq<string>, sep: string): string {
    if pieces == [] then []
    else if |pieces| == 1 then pieces[0]
    else pieces[0] + sep + Join(pieces[1..], sep)
  }

  /** `pat` occurs in `s` starting at index `i`. */
  predicate OccursAt(s: string, pat: string, i: nat) {
    i + |pat| <= |s| && s[i..i + |pat|] == pat
  }

  function IndexOfFrom(s: string, pat: string, from: nat): (r: Option<nat>)
    requires from <= |s|
    ensures r.Some? ==> from <= r.value <= |s| && OccursAt(s, pat, r.value)
    ensures r.Some? ==> forall j :: from <= j < r.value ==> !OccursAt(s, pat, j)
    ensures r.None? ==> forall j :: from <= j ==> !OccursAt(s, pat, j)
    decreases |s| - from
  {
    if OccursAt(s, pat, from) then Some(from)
    else if from == |s| then None
    else IndexOfFrom(s, pat, from + 1)
  }

  /** `s.indexOf(pat)`: the first index at which `pat` occurs, if any. */
  function IndexOf(s: string, pat: string): Option<nat> {
    IndexOfFrom(s, pat, 0)
  }

  /** `s.includes(pat)`. */
  predicate Includes(s: string, pat: string) {
    IndexOf(s, pat).Some?
  }

  // ---------------------------------------------------------------------
  // Properties of trim

  /** Trimming a string that has no space at either end changes nothing. */
  lemma TrimOfTrimmed(s: string)
    requires Trimmed(s)
    ensures Trim(s) == s
  {
    if s != [] {
      assert LeadingSpaces(s) == 0;
      assert TrimmedEnd(s) == |s|;
    }
  }

  /** `trim` is idempotent. */
  lemma TrimIdempotent(s: string)
    ensures Trim(Trim(s)) == Trim(s)
  {
    TrimSlice(s);
    TrimOfTrimmed(Trim(s));
  }

  /** `trim` yields `""` exactly for the strings made only of spaces. */
  lemma TrimEmptyIffAllSpace(s: string)
    ensures Trim(s) == [] <==> AllSpace(s)
  {
    TrimSlice(s);
    if AllSpace(s) {
      assert LeadingSpaces(s) == |s|;
    }
  }

  /** A leading space never matters to `trim`. */
  lemma TrimSpacePrefix(c: char, s: string)
    requires IsJsSpace(c)
    ensures Trim([c] + s) == Trim(s)
  {
    var t := [c] + s;
    var i := LeadingSpaces(s);
    var j := TrimmedEnd(s);
    assert LeadingSpaces(t) == i + 1 by {
      assert t[0] == c;
      assert SkipSpaces(t, 0) == SkipSpaces(t, 1);
      SkipShift(c, s, 0);
    }
    assert TrimmedEnd(t) == j + 1 by {
      BackShift(c, s, i, |s|);
    }
    assert t[i + 1..j + 1] == s[i..j];
  }

  lemma {:induction false} SkipShift(c: char, s: string, i: nat)
    requires i <= |s|
    ensures SkipSpaces([c] + s, i + 1) == SkipSpaces(s, i) + 1
    decreases |s| - i
  {
    assert i < |s| ==> ([c] + s)[i + 1] == s[i];
    if i < |s| && IsJsSpace(s[i]) {
      SkipShift(c, s, i + 1);
    }
  }

  lemma {:induction false} BackShift(c: char, s: string, lo: nat, j: nat)
    requires lo <= j <= |s|
    ensures SkipSpacesBack([c] + s, lo + 1, j + 1) == SkipSpacesBack(s, lo, j) + 1
  {
    assert 0 < j ==> ([c] + s)[j] == s[j - 1];
    if lo < j && IsJsSpace(s[j - 1]) {
      BackShift(c, s, lo, j - 1);
    }
  }

  // ---------------------------------------------------------------------
  // Properties of split and join

  /** Splitting a string with no separator in it yields the string itself. */
  lemma {:induction false} SplitNoSeparator(s: string, sep: char)
    requires sep !in s
    ensures Split(s, sep) == [s]
  {
    if s != [] {
      SplitNoSeparator(s[1..], sep);
      assert [s[0]] + s[1..] == s;
    }
  }

  /** A separator after a separator-free prefix ends the first piece. */
  lemma {:induction false} SplitAtSeparator(a: string, sep: char, b: string)
    requires sep !in a
    ensures Split(a + [sep] + b, sep) == [a] + Split(b, sep)
  {
    if a == [] {
      assert [] + [sep] + b == [sep] + b;
      assert ([sep] + b)[1..] == b;
    } else {
      var s := a + [sep] + b;
      assert s[1..] == a[1..] + [sep] + b;
      SplitAtSeparator(a[1..], sep, b);
      assert [a[0]] + a[1..] == a;
    }
  }

  /** Joining the pieces of a split with the separator restores the string. */
  lemma {:induction false} JoinSplit(s: string, sep: char)
    ensures Join(Split(s, sep), [sep]) == s
  {
    if s != [] {
      var tail := s[1..];
      var rest := Split(tail, sep);
      JoinSplit(tail, sep);
      assert s == [s[0]] + tail;
      var ps := Split(s, sep);
      if s[0] == sep {
        assert ps == [[]] + rest;
        JoinCons([], rest, [sep]);
      } else {
        var first := [s[0]] + rest[0];
        assert ps == [first] + rest[1..];
        if |rest| == 1 {
          assert Join(ps, [sep]) == first;
        } else {
          JoinCons(first, rest[1..], [sep]);
          JoinCons(rest[0], rest[1..], [sep]);
          assert [rest[0]] + rest[1..] == rest;
        }
      }
    }
  }

  /** Joining a piece in front of a non-empty list. */
  lemma JoinCons(p: string, ps: seq<string>, sep: string)
    requires ps != []
    ensures Join([p] + ps, sep) == p + sep + Join(ps, sep)
  {
    assert ([p] + ps)[1..] == ps;
  }

  /** Splitting what was joined with the separator restores the pieces. */
  lemma {:induction false} SplitJoin(pieces: seq<string>, sep: char)
    requires pieces != []
    requires forall p :: p in pieces ==> sep !in p
    ensures Split(Join(pieces, [sep]), sep) == pieces
  {
    if |pieces| == 1 {
      SplitNoSeparator(pieces[0], sep);
    } else {
      var rest := pieces[1..];
      assert sep !in pieces[0] by {
        assert pieces[0] in pieces;
      }
      assert forall p :: p in rest ==> sep !in p by {
        assert forall p :: p in rest ==> p in pieces;
      }
      SplitJoin(rest, sep);
      JoinCons(pieces[0], rest, [sep]);
      assert [pieces[0]] + rest == pieces;
      SplitAtSeparator(pieces[0], sep, Join(rest, [sep]));
    }
  }

  // ---------------------------------------------------------------------
  // Properties of the first-match search

  /** `includes` holds exactly when the pattern occurs somewhere. */
  lemma IncludesIffOccurs(s: string, pat: string)
    ensures Includes(s, pat) <==> exists i: nat :: OccursAt(s, pat, i)
  {
  }

  /** The first occurrence is the one that no earlier occurrence precedes. */
  lemma IndexOfFirst(s: string, pat: string, i: nat)
    requires OccursAt(s, pat, i)
    requires forall j: nat :: j < i ==> !OccursAt(s, pat, j)
    ensures IndexOf(s, pat) == Some(i)
  {
  }
}
