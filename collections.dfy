/** Sequence helpers shared by several screens and view models: Kotlin's
    `mapNotNull`, `maxOrNull()` and the "max existing id + 1" rule used for
    every sequential identifier in the database. */
module Collections {
  import opened Wrappers

  /** `mapNotNull { it }`: the values that are present, in order. */
  function Present(xs: seq<Option<int>>): (r: seq<int>)
    ensures forall v :: v in r <==> Some(v) in xs
    ensures |r| <= |xs|
  {
    if xs == [] then []
    else (if xs[0].Some? then [xs[0].value] else []) + Present(xs[1..])
  }

  /** Kotlin's `maxOrNull()`. */
  function MaxOrNull(xs: seq<int>): (r: Option<int>)
    ensures r.None? <==> xs == []
    ensures r.Some? ==> r.value in xs && forall v :: v in xs ==> v <= r.value
  {
    if xs == [] then None
    else
      assert forall v :: v in xs ==> v == xs[0] || v in xs[1..];
      match MaxOrNull(xs[1..])
      case None => Some(xs[0])
      case Some(m) => Some(if xs[0] < m then m else xs[0])
  }

  /** `ids.mapNotNull { it }.maxOrNull() ?: 0` followed by `+ 1`: the next
      sequential identifier after every identifier already present. */
  function NextId(ids: seq<Option<int>>): (r: int)
    ensures forall v :: Some(v) in ids ==> v < r
    ensures (forall i :: 0 <= i < |ids| ==> ids[i].None?) ==> r == 1
    ensures (exists v :: Some(v) in ids) ==> Some(r - 1) in ids
  {
    var present := Present(ids);
    if present == [] then 1
    else
      MaxOrNull(present).value + 1
  }

  /** `a` is `b` with some elements removed, the rest kept in order. */
  predicate IsSubsequence<T(==)>(a: seq<T>, b: seq<T>)
    decreases |b|
  {
    if a == [] then true
    else if b == [] then false
    else if a[0] == b[0] then IsSubsequence(a[1..], b[1..])
    else IsSubsequence(a, b[1..])
  }

  lemma {:induction false} SubsequenceCons<T>(a: seq<T>, b: seq<T>, x: T)
    requires IsSubsequence(a, b)
    ensures IsSubsequence(a, [x] + b)
    decreases |a| + |b|, 1
  {
    var xb := [x] + b;
    assert xb[1..] == b;
    if a != [] && a[0] == x {
      SubsequenceTail(a, b);
    }
  }

  /** Every sequence is a subsequence of itself. */
  lemma {:induction false} SubsequenceReflexive<T>(a: seq<T>)
    ensures IsSubsequence(a, a)
  {
    if a != [] {
      SubsequenceReflexive(a[1..]);
    }
  }

  lemma {:induction false} SubsequenceTail<T>(a: seq<T>, b: seq<T>)
    requires a != [] && IsSubsequence(a, b)
    ensures IsSubsequence(a[1..], b)
    decreases |a| + |b|, 0
  {
    if a[0] == b[0] {
      SubsequenceCons(a[1..], b[1..], b[0]);
      assert [b[0]] + b[1..] == b;
    } else {
      SubsequenceTail(a, b[1..]);
      SubsequenceCons(a[1..], b[1..], b[0]);
      assert [b[0]] + b[1..] == b;
    }
  }

  /** No value occurs twice. */
  predicate NoDuplicates<T(==)>(s: seq<T>) {
    forall i, j | 0 <= i < j < |s| :: s[i] != s[j]
  }

  /** A duplicate-free sequence holds each value at most once. */
  lemma {:induction false} CountAtMostOne<T>(s: seq<T>, a: T)
    requires NoDuplicates(s)
    ensures multiset(s)[a] <= 1
  {
    if s != [] {
      CountAtMostOne(s[1..], a);
      assert s == [s[0]] + s[1..];
      if s[0] == a {
        assert a !in s[1..] by {
          forall m | 0 <= m < |s[1..]| ensures s[1..][m] != a {
            assert s[m + 1] != s[0];
          }
        }
      }
    }
  }

  /** A value at two positions occurs at least twice. */
  lemma {:induction false} TwoPositionsCount<T>(s: seq<T>, i: int, j: int)
    requires 0 <= i < j < |s| && s[i] == s[j]
    ensures multiset(s)[s[i]] >= 2
  {
    assert s == s[..j] + s[j..];
    assert s[i] in s[..j];
    assert s[j..] == [s[j]] + s[j + 1..];
  }

  /** A permutation of a duplicate-free sequence is duplicate-free. */
  lemma PermutationKeepsNoDuplicates<T>(s: seq<T>, t: seq<T>)
    requires NoDuplicates(s) && multiset(t) == multiset(s)
    ensures NoDuplicates(t)
  {
    forall i, j | 0 <= i < j < |t| ensures t[i] != t[j] {
      if t[i] == t[j] {
        TwoPositionsCount(t, i, j);
        CountAtMostOne(s, t[i]);
      }
    }
  }

  /** The position of the first occurrence of `x` in `xs`. */
  function FirstIndex<T(==)>(xs: seq<T>, x: T): (k: nat)
    requires x in xs
    ensures k < |xs| && xs[k] == x && x !in xs[..k]
  {
    if xs[0] == x then 0
    else
      var k := 1 + FirstIndex(xs[1..], x);
      assert xs[..k] == [xs[0]] + xs[1..][..k - 1];
      k
  }

  /** A value's first occurrence in a prefix is its first occurrence in
      the whole sequence. */
  lemma FirstIndexPrefix<T>(xs: seq<T>, m: nat, y: T)
    requires m <= |xs| && y in xs[..m]
    ensures FirstIndex(xs, y) == FirstIndex(xs[..m], y)
  {
    var k := FirstIndex(xs[..m], y);
    assert xs[..m][..k] == xs[..k] && xs[k] == y;
  }

  /** Kotlin's `distinct()`: each value once, at its first appearance. */
  function Distinct<T(==,!new)>(xs: seq<T>): (r: seq<T>)
    ensures NoDuplicates(r)
    ensures forall x :: x in r <==> x in xs
    ensures forall i, j | 0 <= i < j < |r| :: FirstIndex(xs, r[i]) < FirstIndex(xs, r[j])
  {
    if xs == [] then []
    else
      var init := xs[..|xs| - 1];
      var d := Distinct(init);
      var x := xs[|xs| - 1];
      assert forall y :: y in xs <==> y in init || y == x by {
        assert xs == init + [x];
      }
      assert forall i | 0 <= i < |d| :: FirstIndex(xs, d[i]) == FirstIndex(init, d[i]) by {
        forall i | 0 <= i < |d| ensures FirstIndex(xs, d[i]) == FirstIndex(init, d[i]) {
          FirstIndexPrefix(xs, |xs| - 1, d[i]);
        }
      }
      if x in d then d
      else
        assert FirstIndex(xs, x) == |xs| - 1 by {
          assert x !in xs[..|xs| - 1];
        }
        d + [x]
  }
}
