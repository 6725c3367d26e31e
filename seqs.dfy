/** Generic sequence operations shared by the filters of the pipeline.
    Filter and Map are defined from the back of the sequence, the same way
    the program's `for ... append` loops grow their result lists. */
module Seqs {

  /** The elements of `s` that satisfy `f`, in their original order. */
  function Filter<T(!new)>(s: seq<T>, f: T -> bool): (r: seq<T>)
    ensures |r| <= |s|
    ensures forall x :: x in r <==> x in s && f(x)
    ensures forall i :: 0 <= i < |r| ==> f(r[i])
  {
    if s == [] then []
    else
      assert s == s[..|s| - 1] + [s[|s| - 1]];
      Filter(s[..|s| - 1], f) + (if f(s[|s| - 1]) then [s[|s| - 1]] else [])
  }

  /** `g` applied to every element of `s`. */
  function Map<T, U>(s: seq<T>, g: T -> U): (r: seq<U>)
    ensures |r| == |s|
    ensures forall i :: 0 <= i < |s| ==> r[i] == g(s[i])
  {
    if s == [] then [] else Map(s[..|s| - 1], g) + [g(s[|s| - 1])]
  }

  lemma AppendAssociative<T>(a: seq<T>, b: seq<T>, c: seq<T>)
    ensures (a + b) + c == a + (b + c)
  {
  }

  lemma LastOfAppend<T>(a: seq<T>, b: seq<T>)
    requires b != []
    ensures |a + b| > 0 && (a + b)[|a + b| - 1] == b[|b| - 1]
    ensures |a + b| > |a| && (a + b)[|a|..] == b
  {
  }

  /** The concatenation of a sequence of sequences, in order. */
  function Concat<T>(ss: seq<seq<T>>): seq<T>
  {
    if ss == [] then [] else Concat(ss[..|ss| - 1]) + ss[|ss| - 1]
  }

  lemma {:induction false} ConcatAppend<T>(a: seq<seq<T>>, b: seq<seq<T>>)
    ensures Concat(a + b) == Concat(a) + Concat(b)
  {
    if b == [] {
      assert a + b == a;
    } else {
      assert (a + b)[..|a + b| - 1] == a + b[..|b| - 1];
      ConcatAppend(a, b[..|b| - 1]);
    }
  }

  lemma MapAppend<T, U>(a: seq<T>, b: seq<T>, g: T -> U)
    ensures Map(a + b, g) == Map(a, g) + Map(b, g)
  {
  }

  /** Taking one element out of a sequence takes its image out of the mapped multiset. */
  lemma MapSplit<T, U>(s: seq<T>, k: int, g: T -> U)
    requires 0 <= k < |s|
    ensures multiset(Map(s, g)) == multiset(Map(s[..k] + s[k + 1..], g)) + multiset{g(s[k])}
  {
    var left, right := s[..k], s[k + 1..];
    MapMiddle(s, k, g);
    MapAppend(left, right, g);
    MultisetMiddle(Map(left, g), g(s[k]), Map(right, g));
  }

  lemma MapMiddle<T, U>(s: seq<T>, k: int, g: T -> U)
    requires 0 <= k < |s|
    ensures Map(s, g) == Map(s[..k], g) + [g(s[k])] + Map(s[k + 1..], g)
  {
    var left, right := s[..k + 1], s[k + 1..];
    assert s == left + right;
    MapAppend(left, right, g);
    assert left[..k] == s[..k];
  }

  lemma MultisetMiddle<U>(a: seq<U>, v: U, b: seq<U>)
    ensures multiset(a + [v] + b) == multiset(a + b) + multiset{v}
  {
  }

  /** Taking one element out of a sequence takes it out of the multiset. */
  lemma MultisetSplit<T>(s: seq<T>, k: int)
    requires 0 <= k < |s|
    ensures multiset(s) == multiset(s[..k] + s[k + 1..]) + multiset{s[k]}
  {
    assert s == s[..k] + [s[k]] + s[k + 1..];
  }

  /** Mapping preserves multiset equality. */
  lemma {:induction false} MultisetMap<T, U>(a: seq<T>, b: seq<T>, g: T -> U)
    requires multiset(a) == multiset(b)
    ensures multiset(Map(a, g)) == multiset(Map(b, g))
    decreases |a|
  {
    if a == [] {
      assert |b| == |multiset(b)| == 0;
    } else {
      var n := |a| - 1;
      var x := a[n];
      assert x in multiset(b);
      var k :| 0 <= k < |b| && b[k] == x;
      var init, rest := a[..n] + a[n + 1..], b[..k] + b[k + 1..];
      MultisetSplit(a, n);
      MultisetSplit(b, k);
      assert multiset(init) + multiset{x} == multiset(rest) + multiset{x};
      assert multiset(init) == multiset(rest) by {
        forall y
          ensures multiset(init)[y] == multiset(rest)[y]
        {
          assert (multiset(init) + multiset{x})[y] == (multiset(rest) + multiset{x})[y];
        }
      }
      MultisetMap(init, rest, g);
      MapSplit(a, n, g);
      MapSplit(b, k, g);
    }
  }

  /** Each element paired with its image. */
  function Tag<T, U>(f: T -> U): T -> (T, U)
  {
    (x: T) => (x, f(x))
  }

  /** A pair in a permutation of tagged elements is an element with its image. */
  lemma TaggedMember<T, U>(xs: seq<T>, ys: seq<U>, zs: seq<T>, f: T -> U, i: int)
    requires |xs| == |ys| && 0 <= i < |xs|
    requires multiset(Zip(xs, ys)) == multiset(Map(zs, Tag(f)))
    ensures ys[i] == f(xs[i]) && xs[i] in zs
  {
    var tagged := Map(zs, Tag(f));
    assert Zip(xs, ys)[i] in multiset(Zip(xs, ys));
    assert (xs[i], ys[i]) in tagged;
    var k :| 0 <= k < |tagged| && tagged[k] == (xs[i], ys[i]);
    assert zs[k] in zs;
  }

  lemma UntagTagged<T, U>(xs: seq<T>, f: T -> U)
    ensures Map(Map(xs, Tag(f)), (p: (T, U)) => p.0) == xs
  {
  }

  /** Pairs that are a permutation of some elements tagged with their images
      pair each element with its own image, and hold the same elements. */
  lemma TaggedPermutation<T, U>(xs: seq<T>, ys: seq<U>, zs: seq<T>, f: T -> U)
    requires |xs| == |ys|
    requires multiset(Zip(xs, ys)) == multiset(Map(zs, Tag(f)))
    ensures multiset(xs) == multiset(zs)
    ensures forall i :: 0 <= i < |xs| ==> ys[i] == f(xs[i]) && xs[i] in zs
  {
    forall i | 0 <= i < |xs|
      ensures ys[i] == f(xs[i]) && xs[i] in zs
    {
      TaggedMember(xs, ys, zs, f, i);
    }
    assert Zip(xs, ys) == Map(xs, Tag(f));
    UntagTagged(xs, f);
    UntagTagged(zs, f);
    MultisetMap(Map(xs, Tag(f)), Map(zs, Tag(f)), (p: (T, U)) => p.0);
  }

  /** Mapping and concatenating a non-empty sequence ends with its last element's image. */
  lemma ConcatMapLast<T, U>(s: seq<T>, g: T -> seq<U>)
    requires s != []
    ensures Concat(Map(s, g)) == Concat(Map(s[..|s| - 1], g)) + g(s[|s| - 1])
  {
    assert Map(s, g)[..|s| - 1] == Map(s[..|s| - 1], g);
  }

  /** Python's `zip`: pairs up the two sequences, stopping at the shorter one. */
  function Zip<A, B>(a: seq<A>, b: seq<B>): (r: seq<(A, B)>)
    ensures |r| == if |a| <= |b| then |a| else |b|
    ensures forall i :: 0 <= i < |r| ==> r[i] == (a[i], b[i])
  {
    if a == [] || b == [] then [] else [(a[0], b[0])] + Zip(a[1..], b[1..])
  }

  /** `a` can be obtained from `b` by deleting elements (order kept). */
  predicate IsSubsequence<T(==)>(a: seq<T>, b: seq<T>)
  {
    if b == [] then a == []
    else
      (a != [] && a[|a| - 1] == b[|b| - 1] && IsSubsequence(a[..|a| - 1], b[..|b| - 1]))
      || IsSubsequence(a, b[..|b| - 1])
  }

  lemma {:induction false} FilterIsSubsequence<T(!new)>(s: seq<T>, f: T -> bool)
    ensures IsSubsequence(Filter(s, f), s)
  {
    if s != [] {
      var init, last := s[..|s| - 1], s[|s| - 1];
      FilterIsSubsequence(init, f);
      var r := Filter(s, f);
      if f(last) {
        assert r[..|r| - 1] == Filter(init, f) && r[|r| - 1] == last;
      } else {
        assert r == Filter(init, f);
      }
    }
  }

  lemma {:induction false} FilterAppend<T(!new)>(a: seq<T>, b: seq<T>, f: T -> bool)
    ensures Filter(a + b, f) == Filter(a, f) + Filter(b, f)
  {
    if b == [] {
      assert a + b == a;
    } else {
      assert (a + b)[..|a + b| - 1] == a + b[..|b| - 1];
      FilterAppend(a, b[..|b| - 1], f);
    }
  }

  /** Filtering twice with the same condition changes nothing. */
  lemma {:induction false} FilterIdempotent<T(!new)>(s: seq<T>, f: T -> bool)
    ensures Filter(Filter(s, f), f) == Filter(s, f)
  {
    if s != [] {
      var init, last := s[..|s| - 1], s[|s| - 1];
      FilterIdempotent(init, f);
      FilterAppend(Filter(init, f), if f(last) then [last] else [], f);
    }
  }

  /** Each element occurs in the filtered sequence exactly as often as in
      the input when it passes, and not at all otherwise. */
  lemma {:induction false} FilterMultiplicity<T(!new)>(s: seq<T>, f: T -> bool, x: T)
    ensures multiset(Filter(s, f))[x] == if f(x) then multiset(s)[x] else 0
  {
    if s != [] {
      var init, last := s[..|s| - 1], s[|s| - 1];
      FilterMultiplicity(init, f, x);
      assert s == init + [last];
    }
  }

  /** Two conditions that agree on the elements of `s` filter it alike. */
  lemma {:induction false} FilterCongruent<T(!new)>(s: seq<T>, f: T -> bool, g: T -> bool)
    requires forall x :: x in s ==> f(x) == g(x)
    ensures Filter(s, f) == Filter(s, g)
  {
    if s != [] {
      FilterCongruent(s[..|s| - 1], f, g);
    }
  }

  /** A filter whose condition fails on every element yields nothing. */
  lemma {:induction false} FilterAll<T(!new)>(s: seq<T>, f: T -> bool)
    requires forall x :: x in s ==> f(x)
    ensures Filter(s, f) == s
  {
    if s != [] {
      FilterAll(s[..|s| - 1], f);
      assert s == s[..|s| - 1] + [s[|s| - 1]];
    }
  }

  lemma FilterNone<T(!new)>(s: seq<T>, f: T -> bool)
    requires forall x :: x in s ==> !f(x)
    ensures Filter(s, f) == []
  {
  }
}
