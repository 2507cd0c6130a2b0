/** Generic sequence helpers: first match, filtering and subsequences. */
module Seqs {
  import opened Wrappers

  /** Index of the first element satisfying `p`, or `|xs|` when there is none. */
  function FirstWhere<T>(xs: seq<T>, p: T -> bool): (i: nat)
    ensures i <= |xs|
    ensures i < |xs| ==> p(xs[i])
    ensures forall j | 0 <= j < i :: !p(xs[j])
  {
    if xs == [] then 0
    else if p(xs[0]) then 0
    else 1 + FirstWhere(xs[1..], p)
  }

  /** One step of `FirstWhere`, for callers whose predicate is expensive to unfold. */
  lemma FirstWhereCons<T>(xs: seq<T>, p: T -> bool)
    requires xs != []
    ensures FirstWhere(xs, p) == if p(xs[0]) then 0 else 1 + FirstWhere(xs[1..], p)
  {
  }

  lemma TakeCons<T>(xs: seq<T>, n: nat)
    requires n < |xs|
    ensures xs[..1 + n] == [xs[0]] + xs[1..][..n]
  {
  }

  /** The elements of `xs` satisfying `p`, in their original order. */
  function Filter<T>(xs: seq<T>, p: T -> bool): (r: seq<T>)
    ensures |r| <= |xs|
    ensures forall x | x in r :: p(x) && x in xs
    ensures forall x | x in xs && p(x) :: x in r
  {
    if xs == [] then []
    else (if p(xs[0]) then [xs[0]] else []) + Filter(xs[1..], p)
  }

  /** One step of `Filter`, for callers whose predicate is expensive to unfold. */
  lemma FilterCons<T>(xs: seq<T>, p: T -> bool)
    requires xs != []
    ensures Filter(xs, p) == (if p(xs[0]) then [xs[0]] else []) + Filter(xs[1..], p)
  {
  }

  lemma FilterAppend<T>(xs: seq<T>, ys: seq<T>, p: T -> bool)
    ensures Filter(xs + ys, p) == Filter(xs, p) + Filter(ys, p)
  {
    if xs == [] {
      assert xs + ys == ys;
    } else {
      assert (xs + ys)[1..] == xs[1..] + ys;
      FilterAppend(xs[1..], ys, p);
    }
  }

  /** `a` can be obtained from `b` by deleting elements. */
  predicate IsSubseq<T(==)>(a: seq<T>, b: seq<T>)
    decreases |b|
  {
    if a == [] then true
    else if b == [] then false
    else if a[0] == b[0] then IsSubseq(a[1..], b[1..])
    else IsSubseq(a, b[1..])
  }

  lemma FilterIsSubseq<T>(xs: seq<T>, p: T -> bool)
    ensures IsSubseq(Filter(xs, p), xs)
  {
    if xs != [] {
      FilterIsSubseq(xs[1..], p);
      if p(xs[0]) {
        assert Filter(xs, p) == [xs[0]] + Filter(xs[1..], p);
        assert ([xs[0]] + Filter(xs[1..], p))[1..] == Filter(xs[1..], p);
      } else {
        assert Filter(xs, p) == Filter(xs[1..], p);
        SubseqDropHead(Filter(xs[1..], p), xs);
      }
    }
  }

  /** A subsequence of the tail is a subsequence of the whole. */
  lemma SubseqDropHead<T>(a: seq<T>, b: seq<T>)
    requires b != []
    requires IsSubseq(a, b[1..])
    ensures IsSubseq(a, b)
    decreases |a| + |b|
  {
    if a != [] && a[0] == b[0] {
      SubseqTail(a, b[1..]);
    }
  }

  /** Dropping the head of a subsequence keeps it a subsequence. */
  lemma SubseqTail<T>(a: seq<T>, t: seq<T>)
    requires a != []
    requires IsSubseq(a, t)
    ensures IsSubseq(a[1..], t)
    decreases |a| + |t|
  {
    if a[0] == t[0] {
      if a[1..] != [] {
        SubseqDropHead(a[1..], t);
      }
    } else {
      SubseqTail(a, t[1..]);
      if a[1..] != [] {
        SubseqDropHead(a[1..], t);
      }
    }
  }

  /** A property of every element of the whole holds of every element of a subsequence. */
  lemma {:induction false} SubseqAll<T>(a: seq<T>, b: seq<T>, p: T -> bool)
    requires IsSubseq(a, b)
    requires forall k | 0 <= k < |b| :: p(b[k])
    ensures forall k | 0 <= k < |a| :: p(a[k])
    decreases |b|
  {
    if a != [] {
      assert forall k | 0 <= k < |b[1..]| :: p(b[1..][k]) by {
        forall k | 0 <= k < |b[1..]|
          ensures p(b[1..][k])
        {
          assert b[1..][k] == b[k + 1];
        }
      }
      if a[0] == b[0] {
        SubseqAll(a[1..], b[1..], p);
        forall k | 0 <= k < |a|
          ensures p(a[k])
        {
          if k > 0 {
            assert a[k] == a[1..][k - 1];
          }
        }
      } else {
        SubseqAll(a, b[1..], p);
      }
    }
  }

  /** Elements of a subsequence are elements of the whole. */
  lemma SubseqMember<T>(a: seq<T>, b: seq<T>, x: T)
    requires IsSubseq(a, b)
    requires x in a
    ensures x in b
    decreases |b|
  {
    if a[0] == b[0] {
      if x != a[0] {
        assert x in a[1..];
        SubseqMember(a[1..], b[1..], x);
      }
    } else {
      SubseqMember(a, b[1..], x);
    }
  }

  /** The values `f` yields on the elements of `xs`, in order, skipping
      the elements it yields nothing for. */
  function Somes<T, U>(xs: seq<T>, f: T -> Option<U>): seq<U> {
    if xs == [] then []
    else (match f(xs[0]) case Some(u) => [u] case None => []) + Somes(xs[1..], f)
  }

  /** Every value `Somes` keeps is the value of some element. */
  lemma {:induction false} SomesFrom<T, U>(xs: seq<T>, f: T -> Option<U>)
    ensures |Somes(xs, f)| <= |xs|
    ensures forall k | 0 <= k < |Somes(xs, f)| :: exists j | 0 <= j < |xs| :: f(xs[j]) == Some(Somes(xs, f)[k])
  {
    if xs != [] {
      SomesFrom(xs[1..], f);
      var head := match f(xs[0]) case Some(u) => [u] case None => [];
      var rest := Somes(xs[1..], f);
      var r := Somes(xs, f);
      assert r == head + rest;
      forall k | 0 <= k < |r|
        ensures exists j | 0 <= j < |xs| :: f(xs[j]) == Some(r[k])
      {
        if k < |head| {
          assert f(xs[0]) == Some(r[k]);
        } else {
          assert r[k] == rest[k - |head|];
          var j :| 0 <= j < |xs[1..]| && f(xs[1..][j]) == Some(rest[k - |head|]);
          assert xs[1..][j] == xs[j + 1];
        }
      }
    }
  }

  /** A property of every value `f` yields holds of every value `Somes` keeps. */
  lemma SomesAll<T, U>(xs: seq<T>, f: T -> Option<U>, p: U -> bool)
    requires forall j | 0 <= j < |xs| :: f(xs[j]).Some? ==> p(f(xs[j]).value)
    ensures forall k | 0 <= k < |Somes(xs, f)| :: p(Somes(xs, f)[k])
  {
    SomesFrom(xs, f);
    forall k | 0 <= k < |Somes(xs, f)|
      ensures p(Somes(xs, f)[k])
    {
      var j :| 0 <= j < |xs| && f(xs[j]) == Some(Somes(xs, f)[k]);
    }
  }

  /** `Somes` is the elements `p` accepts, each mapped through `f`, when
      `p` accepts exactly the elements `f` yields a value for. */
  lemma {:induction false} SomesIsFilter<T, U>(xs: seq<T>, f: T -> Option<U>, p: T -> bool)
    requires forall k | 0 <= k < |xs| :: p(xs[k]) <==> f(xs[k]).Some?
    ensures |Somes(xs, f)| == |Filter(xs, p)|
    ensures forall k | 0 <= k < |Somes(xs, f)| :: f(Filter(xs, p)[k]) == Some(Somes(xs, f)[k])
  {
    if xs != [] {
      assert forall k | 0 <= k < |xs[1..]| :: p(xs[1..][k]) <==> f(xs[1..][k]).Some? by {
        forall k | 0 <= k < |xs[1..]| ensures p(xs[1..][k]) <==> f(xs[1..][k]).Some? {
          assert xs[1..][k] == xs[k + 1];
        }
      }
      SomesIsFilter(xs[1..], f, p);
      assert p(xs[0]) <==> f(xs[0]).Some?;
      var r := Somes(xs, f);
      var q := Filter(xs, p);
      var h := if p(xs[0]) then 1 else 0;
      assert r[h..] == Somes(xs[1..], f);
      assert q[h..] == Filter(xs[1..], p);
      forall k | 0 <= k < |r|
        ensures f(q[k]) == Some(r[k])
      {
        if k >= h {
          assert r[k] == r[h..][k - h];
          assert q[k] == q[h..][k - h];
        }
      }
    }
  }

  lemma {:induction false} SomesAppend<T, U>(xs: seq<T>, ys: seq<T>, f: T -> Option<U>)
    ensures Somes(xs + ys, f) == Somes(xs, f) + Somes(ys, f)
  {
    if xs == [] {
      assert xs + ys == ys;
    } else {
      assert (xs + ys)[0] == xs[0];
      assert (xs + ys)[1..] == xs[1..] + ys;
      SomesAppend(xs[1..], ys, f);
    }
  }

  function Map<T, U>(xs: seq<T>, f: T -> U): (r: seq<U>)
    ensures |r| == |xs|
    ensures forall k | 0 <= k < |xs| :: r[k] == f(xs[k])
  {
    if xs == [] then [] else [f(xs[0])] + Map(xs[1..], f)
  }

  lemma MapAppend<T, U>(xs: seq<T>, ys: seq<T>, f: T -> U)
    ensures Map(xs + ys, f) == Map(xs, f) + Map(ys, f)
  {
  }

  /** `Somes` keeps a sequence whose every element `f` maps to itself. */
  lemma {:induction false} SomesOfFixed<T>(xs: seq<T>, f: T -> Option<T>)
    requires forall k | 0 <= k < |xs| :: f(xs[k]) == Some(xs[k])
    ensures Somes(xs, f) == xs
  {
    if xs != [] {
      assert f(xs[0]) == Some(xs[0]);
      assert forall k | 0 <= k < |xs[1..]| :: f(xs[1..][k]) == Some(xs[1..][k]) by {
        forall k | 0 <= k < |xs[1..]| ensures f(xs[1..][k]) == Some(xs[1..][k]) {
          assert xs[1..][k] == xs[k + 1];
        }
      }
      SomesOfFixed(xs[1..], f);
      assert [xs[0]] + xs[1..] == xs;
    }
  }
}
