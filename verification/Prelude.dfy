/** Small vocabulary shared by every model: optional values, results, finite sums. */
module Prelude {

  datatype Option<+T> = None | Some(value: T)

  datatype Result<+T, +E> = Ok(value: T) | Err(error: E)

  function Max(a: int, b: int): int {
    if a >= b then a else b
  }

  function Min(a: int, b: int): int {
    if a <= b then a else b
  }

  ghost predicate Distinct<T>(xs: seq<T>) {
    forall i, j :: 0 <= i < j < |xs| ==> xs[i] != xs[j]
  }

  function Elements<T>(xs: seq<T>): set<T> {
    set x | x in xs
  }

  /** A duplicate-free list is exactly as long as its set of elements. */
  lemma {:induction false} DistinctLength<T>(xs: seq<T>)
    ensures |Elements(xs)| <= |xs|
    ensures Distinct(xs) ==> |Elements(xs)| == |xs|
  {
    if xs == [] {
      assert Elements(xs) == {};
    } else {
      var n := |xs| - 1;
      DistinctLength(xs[..n]);
      assert xs == xs[..n] + [xs[n]];
      assert Elements(xs) == Elements(xs[..n]) + {xs[n]};
    }
  }

  /** Pigeonhole: a duplicate-free list drawn from a finite set is no longer than the set. */
  lemma DistinctFits<T>(xs: seq<T>, s: set<T>)
    requires Distinct(xs) && forall x :: x in xs ==> x in s
    ensures |xs| <= |s|
  {
    DistinctLength(xs);
    SubsetSize(Elements(xs), s);
  }

  lemma {:induction false} SubsetSize<T>(a: set<T>, b: set<T>)
    requires a <= b
    ensures |a| <= |b|
    ensures |a| == |b| ==> a == b
  {
    if a != {} {
      var x :| x in a;
      SubsetSize(a - {x}, b - {x});
    }
  }

  /** Sum of `f` over a finite set. */
  ghost function Total<T(!new)>(s: set<T>, f: T -> int): int {
    if s == {} then 0
    else
      var x :| x in s;
      f(x) + Total(s - {x}, f)
  }

  /** Any element may be summed first. */
  lemma {:induction false} TotalSplit<T(!new)>(s: set<T>, f: T -> int, x: T)
    requires x in s
    ensures Total(s, f) == f(x) + Total(s - {x}, f)
  {
    var y :| y in s && Total(s, f) == f(y) + Total(s - {y}, f);
    if y != x {
      TotalSplit(s - {y}, f, x);
      TotalSplit(s - {x}, f, y);
      assert s - {y} - {x} == s - {x} - {y};
    }
  }

  lemma {:induction false} TotalAgrees<T(!new)>(s: set<T>, f: T -> int, g: T -> int)
    requires forall x :: x in s ==> f(x) == g(x)
    ensures Total(s, f) == Total(s, g)
  {
    if s != {} {
      var x :| x in s;
      TotalSplit(s, f, x);
      TotalSplit(s, g, x);
      TotalAgrees(s - {x}, f, g);
    }
  }

  lemma {:induction false} TotalUnion<T(!new)>(a: set<T>, b: set<T>, f: T -> int)
    requires a !! b
    ensures Total(a + b, f) == Total(a, f) + Total(b, f)
  {
    if a == {} {
      assert a + b == b;
    } else {
      var x :| x in a;
      TotalSplit(a, f, x);
      TotalSplit(a + b, f, x);
      assert a + b - {x} == a - {x} + b;
      TotalUnion(a - {x}, b, f);
    }
  }

  lemma ElementsPush<T>(xs: seq<T>, x: T)
    ensures Elements(xs + [x]) == Elements(xs) + {x}
  {
  }

  /** The list without repetitions, each element where it first occurs. */
  function Dedup<T(==)>(xs: seq<T>): (ys: seq<T>)
    ensures Distinct(ys) && Elements(ys) == Elements(xs)
  {
    if xs == [] then []
    else
      var n := |xs| - 1;
      var before := Dedup(xs[..n]);
      assert xs == xs[..n] + [xs[n]];
      ElementsPush(xs[..n], xs[n]);
      ElementsPush(before, xs[n]);
      if xs[n] in before then before else before + [xs[n]]
  }
}
