/**
 * Combinatorics helpers of `src/utils.rs`: factorial, the binomial coefficient
 * computed as a falling product over a factorial, and the recursive enumeration
 * of the k-element subsequences of a list.
 *
 * Rust's `usize` arithmetic is modelled on unbounded naturals (see README).
 */
module Utils {

  /** `(lo..hi).product()`: the product lo * (lo+1) * ... * (hi-1), 1 for an empty range. */
  function RangeProduct(lo: nat, hi: nat): (r: nat)
    ensures lo >= 1 ==> r >= 1
    decreases hi
  {
    if hi <= lo then 1 else RangeProduct(lo, hi - 1) * (hi - 1)
  }

  /** `factorial(x)`, written as `(1..x + 1).product()`. */
  function Factorial(x: nat): (r: nat)
    ensures r >= 1
  {
    RangeProduct(1, x + 1)
  }

  /**
   * `choose(n, k)`: when k <= n - k, the falling product (n-k+1) * ... * n divided by k!;
   * otherwise the call is swapped to choose(n, n - k), after which k <= n - k holds.
   * The source subtracts in `usize`, so k > n is an arithmetic overflow there.
   */
  function Choose(n: nat, k: nat): nat
    requires k <= n
    decreases if k <= n - k then 0 else 1
  {
    if k <= n - k then RangeProduct(n - k + 1, n + 1) / Factorial(k) else Choose(n, n - k)
  }

  /** Reference definition of the binomial coefficient by Pascal's rule. */
  function Binomial(n: nat, k: nat): nat
  {
    if k == 0 then 1 else if n == 0 then 0 else Binomial(n - 1, k - 1) + Binomial(n - 1, k)
  }

  lemma FactorialRecurrence(x: nat)
    ensures Factorial(0) == 1
    ensures x >= 1 ==> Factorial(x) == x * Factorial(x - 1)
  {
  }

  lemma {:induction false} RangeProductSplit(lo: nat, mid: nat, hi: nat)
    requires lo <= mid <= hi
    ensures RangeProduct(lo, mid) * RangeProduct(mid, hi) == RangeProduct(lo, hi)
    decreases hi
  {
    if hi > mid {
      RangeProductSplit(lo, mid, hi - 1);
      var a, b, c := RangeProduct(lo, mid), RangeProduct(mid, hi - 1), hi - 1;
      assert RangeProduct(mid, hi) == b * c;
      assert RangeProduct(lo, hi) == (a * b) * c;
      MulAssoc(a, b, c);
    }
  }

  lemma MulAssoc(a: nat, b: nat, c: nat)
    ensures a * (b * c) == (a * b) * c
  {
  }

  lemma {:induction false} BinomialAbove(n: nat, k: nat)
    requires k > n
    ensures Binomial(n, k) == 0
  {
    if n > 0 {
      BinomialAbove(n - 1, k - 1);
      BinomialAbove(n - 1, k);
    }
  }

  lemma {:induction false} BinomialOne(n: nat)
    ensures Binomial(n, 1) == n
  {
    if n > 0 {
      BinomialOne(n - 1);
    }
  }

  /** The reference coefficient satisfies Binomial(n, k) * k! * (n-k)! == n!. */
  lemma {:induction false} BinomialFactorials(n: nat, k: nat)
    requires k <= n
    ensures Binomial(n, k) * (Factorial(k) * Factorial(n - k)) == Factorial(n)
  {
    if k == 0 {
    } else if k == n {
      BinomialAbove(n - 1, n);
      BinomialDiagonal(n - 1);
      assert Binomial(n, k) == 1;
    } else {
      BinomialFactorials(n - 1, k - 1);
      BinomialFactorials(n - 1, k);
      var a, b := Binomial(n - 1, k - 1), Binomial(n - 1, k);
      var fk1, fnk1 := Factorial(k - 1), Factorial(n - 1 - k);
      assert Factorial(k) == k * fk1;
      assert Factorial(n - k) == (n - k) * fnk1;
      assert Factorial(n) == n * Factorial(n - 1);
      PascalStep(n, k, a, b, fk1, fnk1, Factorial(n - 1));
    }
  }

  /** The arithmetic step of BinomialFactorials: k * (n-1)! + (n-k) * (n-1)! == n * (n-1)!. */
  lemma PascalStep(n: nat, k: nat, a: nat, b: nat, fk1: nat, fnk1: nat, f: nat)
    requires 0 < k < n
    requires a * (fk1 * ((n - k) * fnk1)) == f
    requires b * ((k * fk1) * fnk1) == f
    ensures (a + b) * ((k * fk1) * ((n - k) * fnk1)) == n * f
  {
    var x := (k * fk1) * ((n - k) * fnk1);
    assert a * x == k * (a * (fk1 * ((n - k) * fnk1)));
    assert b * x == (n - k) * (b * ((k * fk1) * fnk1));
    assert (a + b) * x == a * x + b * x;
  }

  lemma {:induction false} BinomialDiagonal(n: nat)
    ensures Binomial(n, n) == 1
  {
    if n > 0 {
      BinomialDiagonal(n - 1);
      BinomialAbove(n - 1, n);
    }
  }

  lemma MulCancel(x: nat, y: nat, c: nat)
    requires c > 0 && x * c == y * c
    ensures x == y
  {
  }

  lemma MulAtLeast(m: nat, d: nat)
    requires m >= 1
    ensures m * d >= d
  {
  }

  /** Division by d > 0 of q * d + r with r < d gives q. */
  lemma DivUnique(a: nat, d: nat, q: nat, r: nat)
    requires d > 0 && r < d && a == q * d + r
    ensures a / d == q
  {
    var q', r' := a / d, a % d;
    assert a == q' * d + r';
    if q > q' {
      MulAtLeast(q - q', d);
      assert false;
    } else if q < q' {
      MulAtLeast(q' - q, d);
      assert false;
    }
  }

  lemma DivOfMultiple(q: nat, d: nat)
    requires d > 0
    ensures (q * d) / d == q
  {
    DivUnique(q * d, d, q, 0);
  }

  /** `choose` computes the binomial coefficient: it agrees with Pascal's rule for every k <= n. */
  lemma {:induction false} ChooseIsBinomial(n: nat, k: nat)
    requires k <= n
    ensures Choose(n, k) == Binomial(n, k)
    decreases if k <= n - k then 0 else 1
  {
    if k <= n - k {
      FallingProductIsBinomial(n, k);
    } else {
      ChooseIsBinomial(n, n - k);
      BinomialSymmetric(n, k);
    }
  }

  /** The falling product (n-k+1) * ... * n divided by k! is the binomial coefficient. */
  lemma FallingProductIsBinomial(n: nat, k: nat)
    requires k <= n
    ensures RangeProduct(n - k + 1, n + 1) / Factorial(k) == Binomial(n, k)
  {
    RangeProductSplit(1, n - k + 1, n + 1);
    BinomialFactorials(n, k);
    CancelFactors(Binomial(n, k), Factorial(k), Factorial(n - k), RangeProduct(n - k + 1, n + 1), Factorial(n));
  }

  /** From c * (a * b) == f and b * p == f with a, b positive: p / a == c. */
  lemma CancelFactors(c: nat, a: nat, b: nat, p: nat, f: nat)
    requires a >= 1 && b >= 1 && c * (a * b) == f && b * p == f
    ensures p / a == c
  {
    assert (c * a) * b == p * b;
    MulCancel(c * a, p, b);
    DivOfMultiple(c, a);
  }

  lemma BinomialSymmetric(n: nat, k: nat)
    requires k <= n
    ensures Binomial(n, k) == Binomial(n, n - k)
  {
    BinomialFactorials(n, k);
    BinomialFactorials(n, n - k);
    assert n - (n - k) == k;
    SwapCancel(Binomial(n, k), Binomial(n, n - k), Factorial(k), Factorial(n - k), Factorial(n));
  }

  /** From x * (a * b) == f and y * (b * a) == f with a, b positive: x == y. */
  lemma SwapCancel(x: nat, y: nat, a: nat, b: nat, f: nat)
    requires a >= 1 && b >= 1 && x * (a * b) == f && y * (b * a) == f
    ensures x == y
  {
    assert b * a == a * b;
    MulCancel(x, y, a * b);
  }

  /** For k <= n, choose(n, k) == n! / (k! * (n-k)!). */
  lemma ChooseFactorialFormula(n: nat, k: nat)
    requires k <= n
    ensures Choose(n, k) == Factorial(n) / (Factorial(k) * Factorial(n - k))
  {
    ChooseIsBinomial(n, k);
    BinomialFactorials(n, k);
    DivOfMultiple(Binomial(n, k), Factorial(k) * Factorial(n - k));
  }

  /** For k <= n, choose(n, k) == choose(n, n - k). */
  lemma ChooseSymmetric(n: nat, k: nat)
    requires k <= n
    ensures Choose(n, k) == Choose(n, n - k)
  {
    ChooseIsBinomial(n, k);
    ChooseIsBinomial(n, n - k);
    BinomialSymmetric(n, k);
  }

  // ---------------------------------------------------------------------------
  // enumerate_combos
  // ---------------------------------------------------------------------------

  /** The base case k == 1: the one-element lists [x] for each x of items, in order. */
  function Singletons<T>(items: seq<T>): seq<seq<T>>
  {
    seq(|items|, i requires 0 <= i < |items| => [items[i]])
  }

  /** [x] + c for every c of cs, in order (the inner `map` of the `flat_map`). */
  function PrependAll<T>(x: T, cs: seq<seq<T>>): seq<seq<T>>
  {
    seq(|cs|, j requires 0 <= j < |cs| => [x] + cs[j])
  }

  /**
   * `enumerate_combos(items, k)`. For k >= 2 the prefixes are items[0 .. |items| - k + 1],
   * and prefix i is put in front of every combination of k - 1 items from items[i + 1 ..].
   * The source's slice `items[0..items.len() - k + 1]` panics for k == 0 and for
   * k > |items| + 1, which the precondition excludes. For k == |items| + 1 the subtraction
   * `items.len() - k` underflows: a debug build panics, while a release build wraps, the
   * `+ 1` wraps back to 0 and the result is empty. The model returns that empty result.
   */
  function EnumerateCombos<T>(items: seq<T>, k: nat): seq<seq<T>>
    requires 1 <= k <= |items| + 1
    decreases k, 1, 0
  {
    if k == 1 then Singletons(items) else CombosFrom(items, k, 0)
  }

  /** The concatenation, over prefix positions i, i + 1, ..., |items| - k, of the `flat_map` blocks. */
  function CombosFrom<T>(items: seq<T>, k: nat, i: nat): seq<seq<T>>
    requires 2 <= k <= |items| + 1 && i <= |items| - k + 1
    decreases k, 0, |items| - i
  {
    if i == |items| - k + 1 then []
    else PrependAll(items[i], EnumerateCombos(items[i + 1..], k - 1)) + CombosFrom(items, k, i + 1)
  }

  /** The number of combinations produced is the binomial coefficient (Pascal's rule at every step). */
  lemma {:induction false} CombosCount<T>(items: seq<T>, k: nat)
    requires 1 <= k <= |items| + 1
    ensures |EnumerateCombos(items, k)| == Binomial(|items|, k)
    decreases k, 1, 0
  {
    if k == 1 {
      BinomialOne(|items|);
    } else {
      CombosFromCount(items, k, 0);
    }
  }

  lemma {:induction false} CombosFromCount<T>(items: seq<T>, k: nat, i: nat)
    requires 2 <= k <= |items| + 1 && i <= |items| - k + 1
    ensures |CombosFrom(items, k, i)| == Binomial(|items| - i, k)
    decreases k, 0, |items| - i
  {
    if i == |items| - k + 1 {
      BinomialAbove(k - 1, k);
    } else {
      CombosCount(items[i + 1..], k - 1);
      CombosFromCount(items, k, i + 1);
    }
  }

  /** `enumerate_combos(items, k).len() == choose(items.len(), k)` for 1 <= k <= |items|. */
  lemma EnumerateCombosCount<T>(items: seq<T>, k: nat)
    requires 1 <= k <= |items|
    ensures |EnumerateCombos(items, k)| == Choose(|items|, k)
  {
    CombosCount(items, k);
    ChooseIsBinomial(|items|, k);
  }

  /** With k == 1 the result is the singletons of items, in their original order. */
  lemma CombosOfOne<T>(items: seq<T>)
    ensures |EnumerateCombos(items, 1)| == |items|
    ensures forall i :: 0 <= i < |items| ==> EnumerateCombos(items, 1)[i] == [items[i]]
  {
  }

  /** c is an order-preserving subsequence of s. */
  predicate IsSubsequence<T(==)>(c: seq<T>, s: seq<T>)
    decreases |s|
  {
    if c == [] then true
    else if s == [] then false
    else (c[0] == s[0] && IsSubsequence(c[1..], s[1..])) || IsSubsequence(c, s[1..])
  }

  lemma {:induction false} SubsequenceCons<T>(s: seq<T>, i: nat, c: seq<T>)
    requires i < |s| && IsSubsequence(c, s[i + 1..])
    ensures IsSubsequence([s[i]] + c, s)
    decreases i
  {
    if i == 0 {
      assert ([s[0]] + c)[1..] == c;
    } else {
      assert s[1..][i - 1] == s[i] && s[1..][i..] == s[i + 1..];
      SubsequenceCons(s[1..], i - 1, c);
    }
  }

  /** Every combination has exactly k elements and is an order-preserving subsequence of items. */
  lemma {:induction false} CombosAreSubsequences<T>(items: seq<T>, k: nat)
    requires 1 <= k <= |items| + 1
    ensures forall j :: 0 <= j < |EnumerateCombos(items, k)| ==>
      |EnumerateCombos(items, k)[j]| == k && IsSubsequence(EnumerateCombos(items, k)[j], items)
    decreases k, 1, 0
  {
    var cs := EnumerateCombos(items, k);
    if k == 1 {
      forall j | 0 <= j < |cs| ensures |cs[j]| == 1 && IsSubsequence(cs[j], items) {
        assert cs[j] == [items[j]] + [];
        SubsequenceCons(items, j, []);
      }
    } else {
      CombosFromAreSubsequences(items, k, 0);
    }
  }

  lemma {:induction false} CombosFromAreSubsequences<T>(items: seq<T>, k: nat, i: nat)
    requires 2 <= k <= |items| + 1 && i <= |items| - k + 1
    ensures forall j :: 0 <= j < |CombosFrom(items, k, i)| ==>
      |CombosFrom(items, k, i)[j]| == k && IsSubsequence(CombosFrom(items, k, i)[j], items)
    decreases k, 0, |items| - i
  {
    if i < |items| - k + 1 {
      var tail := EnumerateCombos(items[i + 1..], k - 1);
      var block := PrependAll(items[i], tail);
      var rest := CombosFrom(items, k, i + 1);
      CombosAreSubsequences(items[i + 1..], k - 1);
      CombosFromAreSubsequences(items, k, i + 1);
      forall j | 0 <= j < |block| ensures |block[j]| == k && IsSubsequence(block[j], items) {
        SubsequenceCons(items, i, tail[j]);
      }
      assert CombosFrom(items, k, i) == block + rest;
    }
  }

  // Combinations of positions

  /** [lo, lo + 1, ..., hi - 1], Rust's `(lo..hi).collect()`. */
  function Range(lo: nat, hi: nat): seq<nat>
    requires lo <= hi
  {
    seq(hi - lo, i requires 0 <= i < hi - lo => lo + i)
  }

  predicate Increasing(c: seq<nat>)
  {
    forall a, b :: 0 <= a < b < |c| ==> c[a] < c[b]
  }

  predicate Within(c: seq<nat>, lo: nat, hi: nat)
  {
    forall a :: 0 <= a < |c| ==> lo <= c[a] < hi
  }

  /** Strict lexicographic order on position lists. */
  predicate LexLess(x: seq<nat>, y: seq<nat>)
  {
    |x| > 0 && |y| > 0 && (x[0] < y[0] || (x[0] == y[0] && LexLess(x[1..], y[1..])))
  }

  predicate LexSorted(cs: seq<seq<nat>>)
  {
    forall a, b :: 0 <= a < b < |cs| ==> LexLess(cs[a], cs[b])
  }

  lemma LexSortedPrepend(x: nat, cs: seq<seq<nat>>)
    requires LexSorted(cs)
    ensures LexSorted(PrependAll(x, cs))
  {
    var ps := PrependAll(x, cs);
    forall a, b | 0 <= a < b < |ps| ensures LexLess(ps[a], ps[b]) {
      assert ps[a][1..] == cs[a] && ps[b][1..] == cs[b];
    }
  }

  lemma LexSortedConcat(xs: seq<seq<nat>>, ys: seq<seq<nat>>, bound: nat)
    requires LexSorted(xs) && LexSorted(ys)
    requires forall a :: 0 <= a < |xs| ==> |xs[a]| > 0 && xs[a][0] < bound
    requires forall b :: 0 <= b < |ys| ==> |ys[b]| > 0 && ys[b][0] >= bound
    ensures LexSorted(xs + ys)
  {
    var zs := xs + ys;
    forall a, b | 0 <= a < b < |zs| ensures LexLess(zs[a], zs[b]) {
      if b < |xs| {
        assert LexLess(xs[a], xs[b]);
      } else if a >= |xs| {
        assert LexLess(ys[a - |xs|], ys[b - |xs|]);
      } else {
        assert zs[a][0] < bound <= zs[b][0];
      }
    }
  }

  /**
   * Enumerating the positions lo .. hi - 1 yields strictly increasing position lists inside
   * [lo, hi), listed in strictly increasing lexicographic order.
   */
  lemma {:induction false} IndexCombos(lo: nat, hi: nat, k: nat)
    requires lo <= hi && 1 <= k <= hi - lo + 1
    ensures forall j :: 0 <= j < |EnumerateCombos(Range(lo, hi), k)| ==>
      |EnumerateCombos(Range(lo, hi), k)[j]| == k &&
      Increasing(EnumerateCombos(Range(lo, hi), k)[j]) && Within(EnumerateCombos(Range(lo, hi), k)[j], lo, hi)
    ensures LexSorted(EnumerateCombos(Range(lo, hi), k))
    decreases k, 1, 0
  {
    if k == 1 {
    } else {
      IndexCombosFrom(lo, hi, k, 0);
    }
  }

  lemma {:induction false} IndexCombosFrom(lo: nat, hi: nat, k: nat, i: nat)
    requires lo <= hi && 2 <= k <= hi - lo + 1 && i <= hi - lo - k + 1
    ensures forall j :: 0 <= j < |CombosFrom(Range(lo, hi), k, i)| ==>
      |CombosFrom(Range(lo, hi), k, i)[j]| == k &&
      Increasing(CombosFrom(Range(lo, hi), k, i)[j]) && Within(CombosFrom(Range(lo, hi), k, i)[j], lo + i, hi)
    ensures LexSorted(CombosFrom(Range(lo, hi), k, i))
    decreases k, 0, hi - lo - i
  {
    var items: seq<nat> := Range(lo, hi);
    if i < hi - lo - k + 1 {
      assert items[i + 1..] == Range(lo + i + 1, hi);
      assert items[i] == lo + i;
      var x: nat := lo + i;
      var tail: seq<seq<nat>> := EnumerateCombos(Range(lo + i + 1, hi), k - 1);
      var block: seq<seq<nat>> := PrependAll(x, tail);
      var rest: seq<seq<nat>> := CombosFrom(items, k, i + 1);
      assert CombosFrom(items, k, i) == PrependAll(items[i], EnumerateCombos(items[i + 1..], k - 1)) + rest;
      IndexCombos(lo + i + 1, hi, k - 1);
      IndexCombosFrom(lo, hi, k, i + 1);
      forall j | 0 <= j < |block|
        ensures |block[j]| == k && Increasing(block[j]) && Within(block[j], lo + i, hi)
      {
        assert block[j] == [lo + i] + tail[j];
        assert |tail[j]| == k - 1 > 0;
      }
      LexSortedPrepend(lo + i, tail);
      LexSortedConcat(block, rest, lo + i + 1);
      assert CombosFrom(items, k, i) == block + rest;
    }
  }

  /** Only the length and range half of IndexCombos, for callers with literal bounds. */
  lemma IndexCombosBounds(lo: nat, hi: nat, k: nat)
    requires lo <= hi && 1 <= k <= hi - lo + 1
    ensures forall j :: 0 <= j < |EnumerateCombos(Range(lo, hi), k)| ==>
      |EnumerateCombos(Range(lo, hi), k)[j]| == k && Within(EnumerateCombos(Range(lo, hi), k)[j], lo, hi)
  {
    IndexCombos(lo, hi, k);
  }

  lemma RangeSplit(lo: nat, hi: nat, i: nat)
    requires lo + i < hi
    ensures Range(lo, hi)[i] == lo + i && Range(lo, hi)[i + 1..] == Range(lo + i + 1, hi)
  {
  }

  /** The items at positions c of items. */
  function Pick<T>(items: seq<T>, c: seq<nat>): seq<T>
    requires Within(c, 0, |items|)
  {
    seq(|c|, a requires 0 <= a < |c| => items[c[a]])
  }

  /** cs lists, one for one, the items of items picked at the position lists ps. */
  ghost predicate PicksOf<T>(items: seq<T>, cs: seq<seq<T>>, ps: seq<seq<nat>>)
    decreases |cs|
  {
    |cs| == |ps| &&
    (|cs| == 0 || (Within(ps[0], 0, |items|) && cs[0] == Pick(items, ps[0]) && PicksOf(items, cs[1..], ps[1..])))
  }

  lemma {:induction false} PicksFromIndex<T>(items: seq<T>, cs: seq<seq<T>>, ps: seq<seq<nat>>)
    requires |cs| == |ps|
    requires forall j :: 0 <= j < |ps| ==> Within(ps[j], 0, |items|) && cs[j] == Pick(items, ps[j])
    ensures PicksOf(items, cs, ps)
    decreases |cs|
  {
    if |cs| > 0 {
      forall j | 0 <= j < |ps| - 1 ensures Within(ps[1..][j], 0, |items|) && cs[1..][j] == Pick(items, ps[1..][j]) {
        assert cs[1..][j] == cs[j + 1] && ps[1..][j] == ps[j + 1];
      }
      PicksFromIndex(items, cs[1..], ps[1..]);
    }
  }

  /** PicksOf read position by position. */
  lemma {:induction false} PicksAt<T>(items: seq<T>, cs: seq<seq<T>>, ps: seq<seq<nat>>)
    requires PicksOf(items, cs, ps)
    ensures |cs| == |ps|
    ensures forall j :: 0 <= j < |ps| ==> Within(ps[j], 0, |items|) && cs[j] == Pick(items, ps[j])
    decreases |cs|
  {
    if |cs| > 0 {
      PicksAt(items, cs[1..], ps[1..]);
      forall j | 1 <= j < |ps| ensures Within(ps[j], 0, |items|) && cs[j] == Pick(items, ps[j]) {
        assert cs[j] == cs[1..][j - 1] && ps[j] == ps[1..][j - 1];
      }
    }
  }

  lemma {:induction false} PicksPrepend<T>(items: seq<T>, x: nat, cs: seq<seq<T>>, ps: seq<seq<nat>>)
    requires x < |items| && PicksOf(items, cs, ps)
    ensures PicksOf(items, PrependAll(items[x], cs), PrependAll(x, ps))
    decreases |cs|
  {
    if |cs| > 0 {
      var block, pblock := PrependAll(items[x], cs), PrependAll(x, ps);
      PicksPrepend(items, x, cs[1..], ps[1..]);
      assert block[1..] == PrependAll(items[x], cs[1..]);
      assert pblock[1..] == PrependAll(x, ps[1..]);
      assert pblock[0] == [x] + ps[0];
      assert block[0] == [items[x]] + Pick(items, ps[0]);
    }
  }

  lemma {:induction false} PicksConcat<T>(items: seq<T>, cs: seq<seq<T>>, ps: seq<seq<nat>>, ds: seq<seq<T>>, qs: seq<seq<nat>>)
    requires PicksOf(items, cs, ps) && PicksOf(items, ds, qs)
    ensures PicksOf(items, cs + ds, ps + qs)
    decreases |cs|
  {
    if |cs| == 0 {
      assert cs + ds == ds && ps + qs == qs;
    } else {
      PicksConcat(items, cs[1..], ps[1..], ds, qs);
      assert (cs + ds)[1..] == cs[1..] + ds;
      assert (ps + qs)[1..] == ps[1..] + qs;
    }
  }

  /**
   * Enumerating the items picked at positions r gives the items picked at the enumerated
   * position lists of r, one for one and in the same order.
   */
  lemma {:induction false} CombosPick<T>(items: seq<T>, r: seq<nat>, k: nat)
    requires Within(r, 0, |items|) && 1 <= k <= |r| + 1
    ensures PicksOf(items, EnumerateCombos(Pick(items, r), k), EnumerateCombos(r, k))
    decreases k, 1, 0
  {
    if k == 1 {
      var cs, ps := EnumerateCombos(Pick(items, r), 1), EnumerateCombos(r, 1);
      forall j | 0 <= j < |ps| ensures Within(ps[j], 0, |items|) && cs[j] == Pick(items, ps[j]) {
        assert ps[j] == [r[j]];
      }
      PicksFromIndex(items, cs, ps);
    } else {
      CombosFromPick(items, r, k, 0);
    }
  }

  lemma {:induction false} CombosFromPick<T>(items: seq<T>, r: seq<nat>, k: nat, i: nat)
    requires Within(r, 0, |items|) && 2 <= k <= |r| + 1 && i <= |r| - k + 1
    ensures PicksOf(items, CombosFrom(Pick(items, r), k, i), CombosFrom(r, k, i))
    decreases k, 0, |r| - i
  {
    var q := Pick(items, r);
    if i < |r| - k + 1 {
      assert q[i] == items[r[i]];
      assert q[i + 1..] == Pick(items, r[i + 1..]);
      var tail, ptail := EnumerateCombos(q[i + 1..], k - 1), EnumerateCombos(r[i + 1..], k - 1);
      CombosPick(items, r[i + 1..], k - 1);
      CombosFromPick(items, r, k, i + 1);
      PicksPrepend(items, r[i], tail, ptail);
      PicksConcat(items, PrependAll(q[i], tail), PrependAll(r[i], ptail), CombosFrom(q, k, i + 1), CombosFrom(r, k, i + 1));
    }
  }

  /**
   * The combinations of items are the items picked at the combinations of the positions
   * 0 .. |items| - 1, one for one and in the same order.
   */
  lemma CombosPositions<T>(items: seq<T>, k: nat)
    requires 1 <= k <= |items| + 1
    ensures PicksOf(items, EnumerateCombos(items, k), EnumerateCombos(Range(0, |items|), k))
  {
    assert Pick(items, Range(0, |items|)) == items;
    CombosPick(items, Range(0, |items|), k);
  }
}
