/**
 * The three array combinators the lookup widget is built from: `Array.prototype.map`,
 * `Array.prototype.filter` and a flattening map (the per-character string rewrites).
 */
module Seqs {

  function Map<T, U>(f: T -> U, s: seq<T>): seq<U>
  {
    seq(|s|, i requires 0 <= i < |s| => f(s[i]))
  }

  lemma SplitAt<T>(s: seq<T>, n: int)
    requires 0 <= n <= |s|
    ensures s == s[..n] + s[n..]
  {
  }

  lemma ConcatAssoc<T>(a: seq<T>, b: seq<T>, c: seq<T>)
    ensures a + (b + c) == a + b + c
  {
  }

  lemma MiddleSlice<T>(a: seq<T>, b: seq<T>, c: seq<T>)
    ensures (a + b + c)[|a|..|a| + |b|] == b
  {
  }

  lemma SliceOfSlice<T>(s: seq<T>, i: int, j: int, a: int, b: int)
    requires 0 <= i <= j <= |s| && 0 <= a <= b <= j - i
    ensures s[i..j][a..b] == s[i + a..i + b]
  {
    forall n | 0 <= n < b - a ensures s[i..j][a..b][n] == s[i + a + n] {
      assert s[i..j][a..b][n] == s[i..j][a + n];
    }
  }

  lemma MapAppend<T, U>(f: T -> U, a: seq<T>, b: seq<T>)
    ensures Map(f, a + b) == Map(f, a) + Map(f, b)
  {
    assert forall i :: 0 <= i < |a| + |b| ==> Map(f, a + b)[i] == (Map(f, a) + Map(f, b))[i];
  }

  /** `s.filter(f)`: the elements satisfying `f`, in their original order. */
  function Filter<T>(f: T -> bool, s: seq<T>): (r: seq<T>)
    ensures |r| <= |s|
    ensures forall i :: 0 <= i < |r| ==> f(r[i])
  {
    if s == [] then [] else (if f(s[0]) then [s[0]] else []) + Filter(f, s[1..])
  }

  /** An element is kept exactly when it is in `s` and satisfies `f`. */
  lemma {:induction false} FilterMembership<T>(f: T -> bool, s: seq<T>, x: T)
    ensures x in Filter(f, s) <==> x in s && f(x)
  {
    if s != [] {
      FilterMembership(f, s[1..], x);
      assert x in s <==> x == s[0] || x in s[1..];
    }
  }

  /** The kept images of `s` are exactly the images of its elements whose image is kept. */
  lemma MapFilterMembership<T, U>(f: T -> U, keep: U -> bool, s: seq<T>, y: U)
    ensures y in Filter(keep, Map(f, s)) <==> exists i :: 0 <= i < |s| && keep(f(s[i])) && y == f(s[i])
  {
    FilterMembership(keep, Map(f, s), y);
    if exists i :: 0 <= i < |s| && keep(f(s[i])) && y == f(s[i]) {
      var i :| 0 <= i < |s| && keep(f(s[i])) && y == f(s[i]);
      assert Map(f, s)[i] == y;
    }
  }

  /** Filtering commutes with concatenation, so the relative order of the kept elements is preserved. */
  lemma {:induction false} FilterAppend<T>(f: T -> bool, a: seq<T>, b: seq<T>)
    ensures Filter(f, a + b) == Filter(f, a) + Filter(f, b)
  {
    if a == [] {
      assert a + b == b;
    } else {
      assert (a + b)[0] == a[0];
      assert (a + b)[1..] == a[1..] + b;
      FilterAppend(f, a[1..], b);
    }
  }

  /** A one-element sequence is kept or dropped whole. */
  lemma FilterSingle<T>(f: T -> bool, x: T)
    ensures Filter(f, [x]) == if f(x) then [x] else []
  {
    assert [x][1..] == [];
  }

  /** Filtering a sequence whose every element satisfies `f` gives the sequence back. */
  lemma {:induction false} FilterAll<T>(f: T -> bool, s: seq<T>)
    requires forall i :: 0 <= i < |s| ==> f(s[i])
    ensures Filter(f, s) == s
  {
    if s != [] {
      FilterAll(f, s[1..]);
    }
  }

  /** Concatenation of `f(x)` over the elements `x` of `s`. */
  function FlatMap<T, U>(f: T -> seq<U>, s: seq<T>): seq<U>
  {
    if s == [] then [] else f(s[0]) + FlatMap(f, s[1..])
  }

  lemma {:induction false} FlatMapAppend<T, U>(f: T -> seq<U>, a: seq<T>, b: seq<T>)
    ensures FlatMap(f, a + b) == FlatMap(f, a) + FlatMap(f, b)
  {
    if a == [] {
      assert a + b == b;
    } else {
      assert (a + b)[0] == a[0];
      assert (a + b)[1..] == a[1..] + b;
      FlatMapAppend(f, a[1..], b);
    }
  }

  /** A flattening map that sends every element to itself alone is the identity. */
  lemma {:induction false} FlatMapIdentity<T>(f: T -> seq<T>, s: seq<T>)
    requires forall i :: 0 <= i < |s| ==> f(s[i]) == [s[i]]
    ensures FlatMap(f, s) == s
  {
    if s != [] {
      FlatMapIdentity(f, s[1..]);
    }
  }

  /** A property every image element has is had by every element of the flattened result. */
  lemma {:induction false} FlatMapKeeps<T, U>(f: T -> seq<U>, p: U -> bool, s: seq<T>)
    requires forall i, j :: 0 <= i < |s| && 0 <= j < |f(s[i])| ==> p(f(s[i])[j])
    ensures forall j :: 0 <= j < |FlatMap(f, s)| ==> p(FlatMap(f, s)[j])
  {
    if s != [] {
      FlatMapKeeps(f, p, s[1..]);
      var h, t := f(s[0]), FlatMap(f, s[1..]);
      assert FlatMap(f, s) == h + t;
      forall j | 0 <= j < |h + t| ensures p((h + t)[j]) {
        if j >= |h| {
          assert (h + t)[j] == t[j - |h|];
        }
      }
    }
  }
}
