/** Finite sums of real-valued functions over finite sets, and the algebra the
    probability arguments need. */
module Sums {

  /** An arbitrary but fixed element of a non-empty set. */
  ghost function Pick<T>(s: set<T>): (x: T)
    requires s != {}
    ensures x in s
  {
    var x :| x in s; x
  }

  /** The sum of `f` over the elements of `s`. */
  ghost function SumOf<T>(s: set<T>, f: T -> real): real
    decreases |s|
  {
    if s == {} then 0.0 else f(Pick(s)) + SumOf(s - {Pick(s)}, f)
  }

  /** A finite map of reals seen as a total function, zero outside its keys. */
  function At<T>(m: map<T, real>): (f: T -> real)
    ensures forall x | x in m :: f(x) == m[x]
  {
    x => if x in m then m[x] else 0.0
  }

  /** The total mass of a map of reals. */
  ghost function Mass<T>(m: map<T, real>): real
  {
    SumOf(m.Keys, At(m))
  }

  lemma MulDistrib(c: real, a: real, b: real, t: real)
    requires t == a + b
    ensures c * t == c * a + c * b && t * c == a * c + b * c
  {
  }

  lemma ScaleStep(c: real, a: real, b: real, t: real, a': real, b': real, t': real)
    requires t == a + b && t' == a' + b' && a' == c * a && b' == c * b
    ensures t' == c * t
  {
    MulDistrib(c, a, b, t);
  }

  /** Any element can be taken out of a sum first, whichever one the definition picks. */
  lemma {:induction false} SumRemove<T>(s: set<T>, f: T -> real, y: T)
    requires y in s
    ensures SumOf(s, f) == f(y) + SumOf(s - {y}, f)
    decreases |s|
  {
    var x := Pick(s);
    if y != x {
      SumRemove(s - {x}, f, y);
      SumRemove(s - {y}, f, x);
      assert s - {x} - {y} == s - {y} - {x};
    }
  }

  lemma SumInsert<T>(s: set<T>, f: T -> real, y: T)
    requires y !in s
    ensures SumOf(s + {y}, f) == f(y) + SumOf(s, f)
  {
    SumRemove(s + {y}, f, y);
    assert s + {y} - {y} == s;
  }

  /** Sums depend only on the values on the summed set. */
  lemma {:induction false} SumCongruent<T>(s: set<T>, f: T -> real, g: T -> real)
    requires forall x | x in s :: f(x) == g(x)
    ensures SumOf(s, f) == SumOf(s, g)
    decreases |s|
  {
    if s != {} {
      SumCongruent(s - {Pick(s)}, f, g);
    }
  }

  lemma {:induction false} SumAdd<T>(s: set<T>, f: T -> real, g: T -> real, h: T -> real)
    requires forall x | x in s :: h(x) == f(x) + g(x)
    ensures SumOf(s, h) == SumOf(s, f) + SumOf(s, g)
    decreases |s|
  {
    if s != {} {
      SumAdd(s - {Pick(s)}, f, g, h);
    }
  }

  lemma {:induction false} SumScaleL<T>(s: set<T>, f: T -> real, c: real)
    ensures SumOf(s, x => c * f(x)) == c * SumOf(s, f)
    decreases |s|
  {
    if s == {} {
      assert c * SumOf(s, f) == 0.0;
    } else {
      var x := Pick(s);
      var rest := s - {x};
      SumScaleL(rest, f, c);
      ScaleStep(c, f(x), SumOf(rest, f), SumOf(s, f), c * f(x), SumOf(rest, x => c * f(x)), SumOf(s, x => c * f(x)));
    }
  }

  lemma SumScale<T>(s: set<T>, f: T -> real, g: T -> real, c: real)
    requires forall x | x in s :: g(x) == c * f(x)
    ensures SumOf(s, g) == c * SumOf(s, f)
  {
    SumCongruent(s, g, x => c * f(x));
    SumScaleL(s, f, c);
  }

  /** `n` copies of `c` added up. Defined by repeated addition, so that contracts
      about sums of constants stay linear; `CopiesIsProduct` gives the product. */
  function Copies(n: nat, c: real): real
  {
    if n == 0 then 0.0 else Copies(n - 1, c) + c
  }

  /** One more copy. */
  lemma CopiesSucc(n: nat, c: real)
    ensures Copies(n + 1, c) == Copies(n, c) + c
  {
  }

  /** `n` copies of `c` add up to `n * c`. */
  lemma {:induction false} CopiesIsProduct(n: nat, c: real)
    ensures Copies(n, c) == n as real * c
  {
    if n > 0 {
      CopiesIsProduct(n - 1, c);
      MulDistrib(c, (n - 1) as real, 1.0, n as real);
    }
  }

  /** Copies of zero add up to zero. */
  lemma {:induction false} CopiesZero(n: nat)
    ensures Copies(n, 0.0) == 0.0
  {
    if n > 0 {
      CopiesZero(n - 1);
    }
  }

  /** Copies of a non-negative value are non-negative, and positive when there
      is at least one copy of a positive value. */
  lemma {:induction false} CopiesSign(n: nat, c: real)
    requires 0.0 <= c
    ensures 0.0 <= Copies(n, c)
    ensures 0.0 < c && 0 < n ==> 0.0 < Copies(n, c)
  {
    if n > 0 {
      CopiesSign(n - 1, c);
    }
  }

  lemma {:induction false} SumConst<T>(s: set<T>, f: T -> real, c: real)
    requires forall x | x in s :: f(x) == c
    ensures SumOf(s, f) == Copies(|s|, c)
    decreases |s|
  {
    if s != {} {
      var x := Pick(s);
      var rest := s - {x};
      SumConst(rest, f, c);
      calc {
        SumOf(s, f);
        f(x) + SumOf(rest, f);
        c + Copies(|rest|, c);
        Copies(|s|, c);
      }
    }
  }

  /** `f` scaled by `c`. */
  function Scaled<T>(f: T -> real, c: real): T -> real
  {
    x => c * f(x)
  }

  /** The constant function `k`. */
  function Constant<T>(k: real): T -> real
  {
    x => k
  }

  /** On `s`, `h` is the affine image `c * f(x) + k` of `f`. */
  ghost predicate IsAffine<T>(s: set<T>, f: T -> real, h: T -> real, c: real, k: real)
  {
    forall x | x in s :: h(x) == c * f(x) + k
  }

  /** Summing an affine image of `f`. */
  lemma SumAffine<T>(s: set<T>, f: T -> real, h: T -> real, c: real, k: real)
    requires IsAffine(s, f, h, c, k)
    ensures SumOf(s, h) == c * SumOf(s, f) + Copies(|s|, k)
  {
    SumAdd(s, Scaled(f, c), Constant(k), h);
    SumScale(s, f, Scaled(f, c), c);
    SumConst(s, Constant(k), k);
  }

  /** Removing a subset removes its elements from the count. */
  lemma CardDiff<T>(s: set<T>, t: set<T>)
    requires t <= s
    ensures |s - t| == |s| - |t|
  {
    assert s == t + (s - t);
  }

  lemma {:induction false} SumSplit<T>(s: set<T>, t: set<T>, f: T -> real)
    requires t <= s
    ensures SumOf(s, f) == SumOf(t, f) + SumOf(s - t, f)
    decreases |t|
  {
    if t != {} {
      var y := Pick(t);
      SumSplit(s - {y}, t - {y}, f);
      SumRemove(s, f, y);
      SumRemove(t, f, y);
      assert s - {y} - (t - {y}) == s - t;
    } else {
      assert s - t == s;
    }
  }

  /** A function that is zero on the set except at one element sums to its value there. */
  lemma SumPoint<T>(s: set<T>, f: T -> real, y: T)
    requires y in s
    requires forall x | x in s && x != y :: f(x) == 0.0
    ensures SumOf(s, f) == f(y)
  {
    SumRemove(s, f, y);
    SumConst(s - {y}, f, 0.0);
    CopiesZero(|s - {y}|);
  }

  lemma {:induction false} SumNonneg<T>(s: set<T>, f: T -> real)
    requires forall x | x in s :: 0.0 <= f(x)
    ensures 0.0 <= SumOf(s, f)
    decreases |s|
  {
    if s != {} {
      SumNonneg(s - {Pick(s)}, f);
    }
  }

  /** With non-negative terms, no single term exceeds the sum. */
  lemma SumBound<T>(s: set<T>, f: T -> real, y: T)
    requires forall x | x in s :: 0.0 <= f(x)
    requires y in s
    ensures f(y) <= SumOf(s, f)
  {
    SumRemove(s, f, y);
    SumNonneg(s - {y}, f);
  }

  /** In a map of non-negative reals, no entry exceeds the total mass. */
  lemma MassBound<T>(m: map<T, real>)
    requires forall k | k in m :: 0.0 <= m[k]
    ensures forall k | k in m :: m[k] <= Mass(m)
  {
    forall k | k in m
      ensures m[k] <= Mass(m)
    {
      SumBound(m.Keys, At(m), k);
    }
  }

  /** Moving one element out of the elements still to visit adds its term to
      the sum over the elements visited. */
  lemma SumMove<T>(all: set<T>, todo: set<T>, f: T -> real, x: T)
    requires todo <= all && x in todo
    ensures SumOf(all - (todo - {x}), f) == SumOf(all - todo, f) + f(x)
  {
    assert all - (todo - {x}) == (all - todo) + {x};
    SumInsert(all - todo, f, x);
  }

  /** Once nothing is left to visit, the sum covers the whole set. */
  lemma SumAll<T>(all: set<T>, f: T -> real)
    ensures SumOf(all - {}, f) == SumOf(all, f)
  {
    assert all - {} == all;
  }

  /** Row `x` of a two-argument function. */
  function Row<T, U>(f: (T, U) -> real, x: T): U -> real
  {
    y => f(x, y)
  }

  /** Column `y` of a two-argument function. */
  function Column<T, U>(f: (T, U) -> real, y: U): T -> real
  {
    x => f(x, y)
  }

  /** Each row summed over `q`. */
  ghost function RowSums<T, U>(q: set<U>, f: (T, U) -> real): T -> real
  {
    x => SumOf(q, Row(f, x))
  }

  /** Each column summed over `p`. */
  ghost function ColumnSums<T, U>(p: set<T>, f: (T, U) -> real): U -> real
  {
    y => SumOf(p, Column(f, y))
  }

  /** Exchanging the order of a double sum. */
  lemma {:induction false} SumSwap<T, U>(p: set<T>, q: set<U>, f: (T, U) -> real)
    ensures SumOf(p, RowSums(q, f)) == SumOf(q, ColumnSums(p, f))
    decreases |p|
  {
    if p == {} {
      SumConst(q, ColumnSums(p, f), 0.0);
      CopiesZero(|q|);
    } else {
      var z := Pick(p);
      var rest := p - {z};
      SumRemove(p, RowSums(q, f), z);
      SumSwap(rest, q, f);
      forall y | y in q
        ensures ColumnSums(p, f)(y) == Row(f, z)(y) + ColumnSums(rest, f)(y)
      {
        SumRemove(p, Column(f, y), z);
      }
      SumAdd(q, Row(f, z), ColumnSums(rest, f), ColumnSums(p, f));
    }
  }
}
