/**
 * The Euclidean norm of a vector (src/utils.py): a loop that accumulates the
 * sum of squares, followed by a square root. The square root is kept abstract:
 * it is a parameter, and only where a result about it is needed is it required
 * to be a non-negative square root.
 */
module Utils {

  function Abs(x: real): (r: real)
    ensures 0.0 <= r && (r == x || r == -x)
  {
    if x < 0.0 then -x else x
  }

  function Square(x: real): (r: real)
    ensures 0.0 <= r
  {
    x * x
  }

  /** The sum of the squares of the elements of s, accumulated from the front. */
  function SumSquares(s: seq<real>): (r: real)
    ensures 0.0 <= r
  {
    if s == [] then 0.0 else SumSquares(s[..|s| - 1]) + Square(s[|s| - 1])
  }

  /** sqrt returns the non-negative square root of every non-negative argument. */
  ghost predicate IsSqrt(sqrt: real -> real)
  {
    forall x :: 0.0 <= x ==> 0.0 <= sqrt(x) && sqrt(x) * sqrt(x) == x
  }

  /** euclidean_norm: the loop adds array[i] ** 2 to a running total, then takes its square root. */
  method EuclideanNorm(a: seq<real>, sqrt: real -> real) returns (r: real)
    requires IsSqrt(sqrt)
    ensures r == sqrt(SumSquares(a))
    ensures 0.0 <= r && r * r == SumSquares(a)
  {
    var norm := 0.0;
    for i := 0 to |a|
      invariant norm == SumSquares(a[..i])
    {
      assert a[..i + 1][..i] == a[..i];
      norm := norm + Square(a[i]);
    }
    assert a[..|a|] == a;
    r := sqrt(norm);
  }

  lemma {:induction false} SumSquaresAppend(s: seq<real>, t: seq<real>)
    ensures SumSquares(s + t) == SumSquares(s) + SumSquares(t)
    decreases |t|
  {
    if t == [] {
      assert s + t == s;
    } else {
      var t' := t[..|t| - 1];
      assert (s + t)[..|s + t| - 1] == s + t';
      SumSquaresAppend(s, t');
    }
  }

  /** The accumulator never decreases from one step of the loop to a later one. */
  lemma SumSquaresPrefixMonotone(s: seq<real>, i: nat, j: nat)
    requires i <= j <= |s|
    ensures SumSquares(s[..i]) <= SumSquares(s[..j])
  {
    assert s[..j] == s[..i] + s[i..j];
    SumSquaresAppend(s[..i], s[i..j]);
  }

  /** Taking element k out of t removes exactly its square from the sum. */
  lemma {:induction false} SumSquaresRemove(t: seq<real>, k: nat)
    requires k < |t|
    ensures SumSquares(t) == SumSquares(t[..k] + t[k + 1..]) + Square(t[k])
  {
    var x := t[k];
    assert t == (t[..k] + [x]) + t[k + 1..];
    SumSquaresAppend(t[..k] + [x], t[k + 1..]);
    SumSquaresAppend(t[..k], [x]);
    SumSquaresAppend(t[..k], t[k + 1..]);
    assert SumSquares([x]) == Square(x) by { assert [x][..0] == []; }
  }

  /** Removing the last element of s and a matching element of t keeps the two multisets equal. */
  lemma MultisetRemove(s: seq<real>, t: seq<real>, k: nat)
    requires multiset(s) == multiset(t) && |s| > 0 && k < |t| && t[k] == s[|s| - 1]
    ensures multiset(s[..|s| - 1]) == multiset(t[..k] + t[k + 1..])
  {
    var x := t[k];
    assert s == s[..|s| - 1] + [x];
    assert t == t[..k] + [x] + t[k + 1..];
    assert multiset(s[..|s| - 1]) == multiset(s) - multiset{x};
    assert multiset(t[..k] + t[k + 1..]) == multiset(t) - multiset{x};
  }

  lemma {:induction false} SumSquaresPermutation(s: seq<real>, t: seq<real>)
    requires multiset(s) == multiset(t)
    ensures SumSquares(s) == SumSquares(t)
    decreases |s|
  {
    if s == [] {
      assert |t| == |multiset(t)| == 0;
    } else {
      var x := s[|s| - 1];
      var s' := s[..|s| - 1];
      assert s == s' + [x];
      assert x in multiset(t);
      var k :| 0 <= k < |t| && t[k] == x;
      var t' := t[..k] + t[k + 1..];
      MultisetRemove(s, t, k);
      SumSquaresPermutation(s', t');
      SumSquaresRemove(t, k);
    }
  }

  /** A non-negative square root is unique. */
  lemma SqrtUnique(r1: real, r2: real)
    requires 0.0 <= r1 && 0.0 <= r2 && r1 * r1 == r2 * r2
    ensures r1 == r2
  {
    assert (r1 - r2) * (r1 + r2) == 0.0;
    if r1 + r2 != 0.0 {
      assert r1 - r2 == 0.0;
    }
  }

  /** The norm does not depend on the order of the elements. */
  lemma NormPermutation(s: seq<real>, t: seq<real>, sqrt: real -> real)
    requires multiset(s) == multiset(t)
    ensures sqrt(SumSquares(s)) == sqrt(SumSquares(t))
  {
    SumSquaresPermutation(s, t);
  }

  /** The norm of a one-element vector is the absolute value of that element. */
  lemma NormSingleton(x: real, sqrt: real -> real)
    requires IsSqrt(sqrt)
    ensures sqrt(SumSquares([x])) == Abs(x)
  {
    assert [x][..0] == [];
    assert SumSquares([x]) == x * x;
    assert Abs(x) * Abs(x) == x * x;
    SqrtUnique(sqrt(x * x), Abs(x));
  }

  /** The norm of the empty vector is the square root of zero, that is, zero. */
  lemma NormEmpty(sqrt: real -> real)
    requires IsSqrt(sqrt)
    ensures sqrt(SumSquares([])) == 0.0
  {
    SqrtUnique(sqrt(0.0), 0.0);
  }
}
