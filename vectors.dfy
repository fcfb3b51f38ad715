/**
 * One- and two-dimensional arrays of reals, standing in for the `f64` arrays of the
 * ndarray crate that `src/cfr.rs` computes with. A matrix is a sequence of rows; in the
 * CFR nodes the rows are actions and the columns information sets or states.
 */
module Vectors {
  type Vector = seq<real>
  type Matrix = seq<seq<real>>

  predicate IsMatrix(m: Matrix, rows: nat, cols: nat)
  {
    |m| == rows && forall a :: 0 <= a < rows ==> |m[a]| == cols
  }

  /** ndarray's `sum()`, adding from the front. */
  function Sum(v: Vector): real
    decreases |v|
  {
    if |v| == 0 then 0.0 else Sum(v[..|v| - 1]) + v[|v| - 1]
  }

  predicate NonNegative(v: Vector)
  {
    forall i :: 0 <= i < |v| ==> 0.0 <= v[i]
  }

  /** A probability distribution: non-negative entries summing to one. */
  predicate Distribution(v: Vector)
  {
    NonNegative(v) && Sum(v) == 1.0
  }

  function Column(m: Matrix, k: nat): (c: Vector)
    requires forall a :: 0 <= a < |m| ==> k < |m[a]|
    ensures |c| == |m|
  {
    seq(|m|, a requires 0 <= a < |m| => m[a][k])
  }

  /** Element-wise product `u * v` of two vectors of one length. */
  function Times(u: Vector, v: Vector): (r: Vector)
    requires |u| == |v|
    ensures |r| == |u|
  {
    seq(|u|, i requires 0 <= i < |u| => u[i] * v[i])
  }

  /** Element-wise sum `u + v` of two vectors of one length. */
  function Plus(u: Vector, v: Vector): (r: Vector)
    requires |u| == |v|
    ensures |r| == |u|
  {
    seq(|u|, i requires 0 <= i < |u| => u[i] + v[i])
  }

  /** Element-wise difference `u - v` of two vectors of one length. */
  function Minus(u: Vector, v: Vector): (r: Vector)
    requires |u| == |v|
    ensures |r| == |u|
  {
    seq(|u|, i requires 0 <= i < |u| => u[i] - v[i])
  }

  /** `v + e`: a scalar added to every entry. */
  function Shift(v: Vector, e: real): (r: Vector)
    ensures |r| == |v|
  {
    seq(|v|, i requires 0 <= i < |v| => v[i] + e)
  }

  /** `v / d`: every entry divided by one non-zero scalar. */
  function Divide(v: Vector, d: real): (r: Vector)
    requires d != 0.0
    ensures |r| == |v|
  {
    seq(|v|, i requires 0 <= i < |v| => v[i] / d)
  }

  /** `c * v`: every entry multiplied by one scalar. */
  function Scale(c: real, v: Vector): (r: Vector)
    ensures |r| == |v|
  {
    seq(|v|, i requires 0 <= i < |v| => c * v[i])
  }

  /** `Array::from_elem(n, x)`. */
  function Constant(n: nat, x: real): (r: Vector)
    ensures |r| == n
  {
    seq(n, i requires 0 <= i < n => x)
  }

  /** `Array::zeros((rows, cols))`. */
  function Zeros(rows: nat, cols: nat): (m: Matrix)
    ensures |m| == rows && forall a :: 0 <= a < rows ==> m[a] == Constant(cols, 0.0)
    ensures IsMatrix(m, rows, cols)
  {
    seq(rows, a requires 0 <= a < rows => Constant(cols, 0.0))
  }

  /** `m.slice_mut(s![.., k]).assign(c)`: column k replaced by c. */
  function WithColumn(m: Matrix, k: nat, c: Vector): (r: Matrix)
    requires |c| == |m| && forall a :: 0 <= a < |m| ==> k < |m[a]|
    ensures |r| == |m| && forall a :: 0 <= a < |m| ==> |r[a]| == |m[a]|
  {
    seq(|m|, a requires 0 <= a < |m| => m[a][k := c[a]])
  }

  lemma {:induction false} SumNonNegative(v: Vector)
    requires NonNegative(v)
    ensures 0.0 <= Sum(v)
    decreases |v|
  {
    if |v| > 0 {
      SumNonNegative(v[..|v| - 1]);
    }
  }

  /** A non-negative vector sums to zero exactly when every entry is zero. */
  lemma {:induction false} SumZero(v: Vector)
    requires NonNegative(v)
    ensures Sum(v) == 0.0 <==> forall i :: 0 <= i < |v| ==> v[i] == 0.0
    decreases |v|
  {
    if |v| > 0 {
      var w := v[..|v| - 1];
      SumZero(w);
      SumNonNegative(w);
      if Sum(v) == 0.0 {
        forall i | 0 <= i < |v|
          ensures v[i] == 0.0
        {
          if i < |v| - 1 {
            assert v[i] == w[i];
          }
        }
      }
      if forall i :: 0 <= i < |v| ==> v[i] == 0.0 {
        assert forall i :: 0 <= i < |w| ==> w[i] == 0.0;
      }
    }
  }

  lemma {:induction false} SumShift(v: Vector, e: real)
    ensures Sum(Shift(v, e)) == Sum(v) + |v| as real * e
    decreases |v|
  {
    if |v| > 0 {
      var n := |v| - 1;
      assert Shift(v, e)[..n] == Shift(v[..n], e);
      SumShift(v[..n], e);
    }
  }

  lemma {:induction false} SumDivide(v: Vector, d: real)
    requires d != 0.0
    ensures Sum(Divide(v, d)) == Sum(v) / d
    decreases |v|
  {
    if |v| > 0 {
      var n := |v| - 1;
      assert Divide(v, d)[..n] == Divide(v[..n], d);
      SumDivide(v[..n], d);
    }
  }

  lemma {:induction false} SumConstant(n: nat, x: real)
    ensures Sum(Constant(n, x)) == n as real * x
    decreases n
  {
    if n > 0 {
      assert Constant(n, x)[..n - 1] == Constant(n - 1, x);
      SumConstant(n - 1, x);
    }
  }

  lemma {:induction false} SumPlus(u: Vector, v: Vector)
    requires |u| == |v|
    ensures Sum(Plus(u, v)) == Sum(u) + Sum(v)
    decreases |u|
  {
    if |u| > 0 {
      var n := |u| - 1;
      assert Plus(u, v)[..n] == Plus(u[..n], v[..n]);
      SumPlus(u[..n], v[..n]);
    }
  }

  lemma {:induction false} SumMinus(u: Vector, v: Vector)
    requires |u| == |v|
    ensures Sum(Minus(u, v)) == Sum(u) - Sum(v)
    decreases |u|
  {
    if |u| > 0 {
      var n := |u| - 1;
      assert Minus(u, v)[..n] == Minus(u[..n], v[..n]);
      SumMinus(u[..n], v[..n]);
    }
  }

  lemma {:induction false} SumScale(c: real, v: Vector)
    ensures Sum(Scale(c, v)) == c * Sum(v)
    decreases |v|
  {
    if |v| > 0 {
      var n := |v| - 1;
      assert forall i :: 0 <= i < n ==> Scale(c, v)[i] == Scale(c, v[..n])[i];
      assert Scale(c, v)[..n] == Scale(c, v[..n]);
      SumScale(c, v[..n]);
    }
  }

  lemma TimesPrefix(u: Vector, v: Vector, n: nat)
    requires |u| == |v| && n <= |u|
    ensures Times(u, v)[..n] == Times(u[..n], v[..n])
  {
    assert forall i :: 0 <= i < n ==> Times(u, v)[i] == Times(u[..n], v[..n])[i];
  }

  lemma ScaleBetween(lo: real, x: real, hi: real, w: real)
    requires 0.0 <= w && lo <= x <= hi
    ensures lo * w <= x * w <= hi * w
  {
    assert 0.0 <= (x - lo) * w;
    assert 0.0 <= (hi - x) * w;
  }

  /** A weighted sum between lo and hi times its total weight. */
  predicate WeightedBetween(lo: real, hi: real, total: real, sum: real)
  {
    lo * total <= sum <= hi * total
  }

  /** One step of a weighted-sum bound: the new total and sum are passed in as they are named. */
  lemma BoundsStep(lo: real, hi: real, total: real, sum: real, x: real, w: real, total': real, sum': real)
    requires WeightedBetween(lo, hi, total, sum)
    requires lo * w <= x * w <= hi * w
    requires total' == total + w && sum' == sum + x * w
    ensures WeightedBetween(lo, hi, total', sum')
  {
  }

  lemma BoundsZero(lo: real, hi: real, total: real, sum: real)
    requires total == 0.0 && sum == 0.0
    ensures WeightedBetween(lo, hi, total, sum)
  {
  }

  /**
   * A weighted sum of values in [lo, hi] with non-negative weights lies between lo and hi
   * times the total weight.
   */
  lemma {:induction false} SumBetween(x: Vector, w: Vector, lo: real, hi: real)
    requires |x| == |w| && NonNegative(w)
    requires forall i :: 0 <= i < |x| ==> lo <= x[i] <= hi
    ensures WeightedBetween(lo, hi, Sum(w), Sum(Times(x, w)))
    decreases |x|
  {
    if |x| == 0 {
      BoundsZero(lo, hi, Sum(w), Sum(Times(x, w)));
    } else {
      var n := |x| - 1;
      SumBetween(x[..n], w[..n], lo, hi);
      SumBetweenStep(x, w, lo, hi);
    }
  }

  /** The inductive step of SumBetween: the bound extends from a prefix to one more entry. */
  lemma SumBetweenStep(x: Vector, w: Vector, lo: real, hi: real)
    requires |x| == |w| && 0 < |x| && 0.0 <= w[|x| - 1] && lo <= x[|x| - 1] <= hi
    requires WeightedBetween(lo, hi, Sum(w[..|x| - 1]), Sum(Times(x[..|x| - 1], w[..|x| - 1])))
    ensures WeightedBetween(lo, hi, Sum(w), Sum(Times(x, w)))
  {
    var n := |x| - 1;
    var t := Times(x, w);
    TimesPrefix(x, w, n);
    ScaleBetween(lo, x[n], hi, w[n]);
    assert Sum(t) == Sum(t[..n]) + x[n] * w[n];
    BoundsStep(lo, hi, Sum(w[..n]), Sum(t[..n]), x[n], w[n], Sum(w), Sum(t));
  }
}
