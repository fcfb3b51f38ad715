/**
 * The counterfactual-regret bookkeeping of `src/cfr.rs`, with `f64` read as `real`.
 *
 * A game tree over a fixed set of states. Every action node partitions the states into
 * information sets and keeps, per action and information set, a strategy, an average
 * strategy and a cumulative regret; per state a reach probability and an expected value.
 * One CFR iteration pushes reach probabilities down the tree, pulls expected values up,
 * and then updates regrets and strategies at every action node.
 *
 * This module holds the computations of the nodes as functions over their fields, and the
 * properties proved about them; the nodes themselves are in module CfrTree.
 */
module Cfr {
  import opened Wrappers
  import opened Utils
  import opened Vectors

  /** The ε that `regret_match` adds to every clamped regret: 1e-8. */
  const EPSILON: real := 0.00000001

  predicate IndicesBelow(block: seq<nat>, n: nat)
  {
    forall m :: 0 <= m < |block| ==> block[m] < n
  }

  /** Every state listed in an information set names an entry of a length-n vector. */
  predicate StatesBelow(infosets: seq<seq<nat>>, n: nat)
  {
    forall k :: 0 <= k < |infosets| ==> IndicesBelow(infosets[k], n)
  }

  /** No state is listed in two information sets. */
  predicate Disjoint(infosets: seq<seq<nat>>)
  {
    forall k, l, s :: 0 <= k < l < |infosets| && s in infosets[k] ==> s !in infosets[l]
  }

  // Summing per information set

  /** p[s] summed over the states s of one block, in listing order. */
  function SumOver(p: Vector, block: seq<nat>): real
    requires IndicesBelow(block, |p|)
    decreases |block|
  {
    if |block| == 0 then 0.0 else SumOver(p, block[..|block| - 1]) + p[block[|block| - 1]]
  }

  /** evs[s] * p[s] summed over the states s of one block. */
  function WeightedOver(evs: Vector, p: Vector, block: seq<nat>): real
    requires IndicesBelow(block, |evs|) && IndicesBelow(block, |p|)
    decreases |block|
  {
    if |block| == 0 then 0.0
    else
      var s := block[|block| - 1];
      WeightedOver(evs, p, block[..|block| - 1]) + evs[s] * p[s]
  }

  /** `ActionNode::infoset_probabilities`: the probability mass of every information set. */
  function InfosetProbabilities(infosets: seq<seq<nat>>, p: Vector): (r: Vector)
    requires StatesBelow(infosets, |p|)
    ensures |r| == |infosets|
  {
    seq(|infosets|, k requires 0 <= k < |infosets| => SumOver(p, infosets[k]))
  }

  /** A zero denominator replaced by one, as `match x { 0. => 1., _ => *x }`. */
  function Guard(x: real): (r: real)
    ensures r != 0.0
  {
    if x == 0.0 then 1.0 else x
  }

  /** `ActionNode::infoset_evs`: the reach-weighted mean of `evs` over every information set. */
  function InfosetEvs(infosets: seq<seq<nat>>, evs: Vector, p: Vector): (r: Vector)
    requires StatesBelow(infosets, |evs|) && StatesBelow(infosets, |p|)
    ensures |r| == |infosets|
  {
    var ip := InfosetProbabilities(infosets, p);
    seq(|infosets|, k requires 0 <= k < |infosets| => WeightedOver(evs, p, infosets[k]) / Guard(ip[k]))
  }

  // The real arithmetic the mean and distribution proofs rest on

  /** A sum between lo and hi times a weight m is, divided by m > 0, between lo and hi. */
  lemma MeanBetween(lo: real, hi: real, sum: real, m: real)
    requires 0.0 < m && WeightedBetween(lo, hi, m, sum)
    ensures lo <= sum / m <= hi
  {
    var r := sum / m;
    assert r * m == sum;
    assert (r - lo) * m == sum - lo * m;
    assert (hi - r) * m == hi * m - sum;
  }

  /** The states of all information sets, infoset after infoset. */
  function Flatten(infosets: seq<seq<nat>>): seq<nat>
    decreases |infosets|
  {
    if |infosets| == 0 then [] else Flatten(infosets[..|infosets| - 1]) + infosets[|infosets| - 1]
  }

  lemma {:induction false} SumOverConcat(p: Vector, x: seq<nat>, y: seq<nat>)
    requires IndicesBelow(x, |p|) && IndicesBelow(y, |p|)
    ensures IndicesBelow(x + y, |p|)
    ensures SumOver(p, x + y) == SumOver(p, x) + SumOver(p, y)
    decreases |y|
  {
    if |y| > 0 {
      var n := |y| - 1;
      assert IndicesBelow(y[..n], |p|);
      SumOverConcat(p, x, y[..n]);
      assert (x + y)[..|x + y| - 1] == x + y[..n];
      assert (x + y)[|x + y| - 1] == y[n];
    } else {
      assert x + y == x;
    }
  }

  /** The masses of the information sets add up to the mass of the states they list. */
  lemma {:induction false} InfosetTotal(infosets: seq<seq<nat>>, p: Vector)
    requires StatesBelow(infosets, |p|)
    ensures IndicesBelow(Flatten(infosets), |p|)
    ensures Sum(InfosetProbabilities(infosets, p)) == SumOver(p, Flatten(infosets))
    decreases |infosets|
  {
    if |infosets| > 0 {
      var n := |infosets| - 1;
      var init := infosets[..n];
      assert StatesBelow(init, |p|) by {
        forall k | 0 <= k < n ensures IndicesBelow(init[k], |p|) {
          assert init[k] == infosets[k];
        }
      }
      InfosetTotal(init, p);
      assert InfosetProbabilities(infosets, p)[..n] == InfosetProbabilities(init, p);
      SumOverConcat(p, Flatten(init), infosets[n]);
    }
  }

  /** Taking one listed state out of a block takes its probability out of the sum. */
  lemma SumOverRemove(p: Vector, y: seq<nat>, i: nat)
    requires IndicesBelow(y, |p|) && i < |y|
    ensures IndicesBelow(y[..i] + y[i + 1..], |p|)
    ensures SumOver(p, y) == SumOver(p, y[..i] + y[i + 1..]) + p[y[i]]
  {
    var head := y[..i];
    var tail := y[i + 1..];
    assert IndicesBelow(head, |p|);
    assert IndicesBelow(tail, |p|);
    assert y == head + ([y[i]] + tail);
    SumOverConcat(p, [y[i]], tail);
    SumOverConcat(p, head, [y[i]] + tail);
    SumOverConcat(p, head, tail);
    assert SumOver(p, [y[i]]) == p[y[i]] by {
      assert [y[i]][..0] == [];
    }
  }

  /** SumOver depends only on the multiset of states listed. */
  lemma {:induction false} SumOverPermutation(p: Vector, x: seq<nat>, y: seq<nat>)
    requires IndicesBelow(x, |p|) && IndicesBelow(y, |p|)
    requires multiset(x) == multiset(y)
    ensures SumOver(p, x) == SumOver(p, y)
    decreases |x|
  {
    if |x| == 0 {
      assert |y| == |multiset(y)| == 0;
    } else {
      var n := |x| - 1;
      assert x[n] in multiset(y);
      var i :| 0 <= i < |y| && y[i] == x[n];
      SumOverRemove(p, y, i);
      MultisetRemove(x, y, i);
      SumOverPermutation(p, x[..n], y[..i] + y[i + 1..]);
    }
  }

  /** Taking the last entry out of x and a matching entry out of y keeps their multisets equal. */
  lemma MultisetRemove(x: seq<nat>, y: seq<nat>, i: nat)
    requires multiset(x) == multiset(y) && 0 < |x| && i < |y| && y[i] == x[|x| - 1]
    ensures multiset(x[..|x| - 1]) == multiset(y[..i] + y[i + 1..])
  {
    var n := |x| - 1;
    var s := x[n];
    var rest := y[..i] + y[i + 1..];
    calc {
      multiset(x[..n]) + multiset{s};
      { assert x == x[..n] + [s]; }
      multiset(x);
      multiset(y);
      { assert y == y[..i] + ([s] + y[i + 1..]); }
      multiset(y[..i]) + (multiset{s} + multiset(y[i + 1..]));
      multiset(rest) + multiset{s};
    }
    var a, b := multiset(x[..n]), multiset(rest);
    forall v
      ensures a[v] == b[v]
    {
      assert (a + multiset{s})[v] == (b + multiset{s})[v];
    }
  }

  lemma {:induction false} SumOverRange(p: Vector, n: nat)
    requires n <= |p|
    ensures IndicesBelow(Range(0, n), |p|)
    ensures SumOver(p, Range(0, n)) == Sum(p[..n])
    decreases n
  {
    if n > 0 {
      assert Range(0, n)[..n - 1] == Range(0, n - 1);
      assert p[..n][..n - 1] == p[..n - 1];
      SumOverRange(p, n - 1);
    }
  }

  /**
   * When every state is listed in exactly one information set, the infoset masses add up
   * to the total probability of the states.
   */
  lemma InfosetMass(infosets: seq<seq<nat>>, p: Vector)
    requires StatesBelow(infosets, |p|)
    requires multiset(Flatten(infosets)) == multiset(Range(0, |p|))
    ensures Sum(InfosetProbabilities(infosets, p)) == Sum(p)
  {
    InfosetTotal(infosets, p);
    SumOverRange(p, |p|);
    SumOverPermutation(p, Flatten(infosets), Range(0, |p|));
    assert p[..|p|] == p;
  }

  lemma {:induction false} SumOverNonNegative(p: Vector, block: seq<nat>)
    requires IndicesBelow(block, |p|) && NonNegative(p)
    ensures 0.0 <= SumOver(p, block)
    decreases |block|
  {
    if |block| > 0 {
      SumOverNonNegative(p, block[..|block| - 1]);
    }
  }

  /** Non-negative reach probabilities give non-negative infoset masses. */
  lemma InfosetProbabilitiesNonNegative(infosets: seq<seq<nat>>, p: Vector)
    requires StatesBelow(infosets, |p|) && NonNegative(p)
    ensures NonNegative(InfosetProbabilities(infosets, p))
  {
    forall k | 0 <= k < |infosets|
      ensures 0.0 <= InfosetProbabilities(infosets, p)[k]
    {
      SumOverNonNegative(p, infosets[k]);
    }
  }

  /** The entries of v at the states of one block, in the block's order. */
  function Gather(v: Vector, block: seq<nat>): (r: Vector)
    requires IndicesBelow(block, |v|)
    ensures |r| == |block|
  {
    seq(|block|, i requires 0 <= i < |block| => v[block[i]])
  }

  lemma {:induction false} SumOverGather(p: Vector, block: seq<nat>)
    requires IndicesBelow(block, |p|)
    ensures SumOver(p, block) == Sum(Gather(p, block))
    decreases |block|
  {
    if |block| > 0 {
      var n := |block| - 1;
      assert Gather(p, block)[..n] == Gather(p, block[..n]);
      SumOverGather(p, block[..n]);
    }
  }

  lemma {:induction false} WeightedOverGather(evs: Vector, p: Vector, block: seq<nat>)
    requires IndicesBelow(block, |evs|) && IndicesBelow(block, |p|)
    ensures WeightedOver(evs, p, block) == Sum(Times(Gather(evs, block), Gather(p, block)))
    decreases |block|
  {
    if |block| > 0 {
      var n := |block| - 1;
      var t := Times(Gather(evs, block), Gather(p, block));
      assert forall i :: 0 <= i < n ==> t[i] == Times(Gather(evs, block[..n]), Gather(p, block[..n]))[i];
      assert t[..n] == Times(Gather(evs, block[..n]), Gather(p, block[..n]));
      WeightedOverGather(evs, p, block[..n]);
    }
  }

  /** The same bound on the gathered entries of one block. */
  lemma GatheredBounds(evs: Vector, p: Vector, block: seq<nat>, lo: real, hi: real)
    requires IndicesBelow(block, |evs|) && IndicesBelow(block, |p|) && NonNegative(p)
    requires forall s :: 0 <= s < |evs| ==> lo <= evs[s] <= hi
    ensures WeightedBetween(lo, hi, Sum(Gather(p, block)), Sum(Times(Gather(evs, block), Gather(p, block))))
  {
    var x, w := Gather(evs, block), Gather(p, block);
    assert NonNegative(w) by {
      assert forall i :: 0 <= i < |w| ==> w[i] == p[block[i]];
    }
    assert forall i :: 0 <= i < |x| ==> lo <= x[i] <= hi by {
      assert forall i :: 0 <= i < |x| ==> x[i] == evs[block[i]];
    }
    SumBetween(x, w, lo, hi);
  }

  /** The bound of GatheredBounds carried over to the block's mass and weighted sum. */
  lemma WeightedBounds(evs: Vector, p: Vector, block: seq<nat>, lo: real, hi: real)
    requires IndicesBelow(block, |evs|) && IndicesBelow(block, |p|)
    requires WeightedBetween(lo, hi, Sum(Gather(p, block)), Sum(Times(Gather(evs, block), Gather(p, block))))
    ensures WeightedBetween(lo, hi, SumOver(p, block), WeightedOver(evs, p, block))
  {
    SumOverGather(p, block);
    WeightedOverGather(evs, p, block);
  }

  /**
   * `infoset_evs` is a mean: with non-negative reach probabilities and values in [lo, hi],
   * an infoset of positive mass gets a value in [lo, hi], and one of mass zero gets zero
   * (its denominator is replaced by one and its weighted sum is zero).
   */
  lemma InfosetEvsMean(infosets: seq<seq<nat>>, evs: Vector, p: Vector, lo: real, hi: real, k: nat)
    requires StatesBelow(infosets, |evs|) && StatesBelow(infosets, |p|) && NonNegative(p)
    requires forall s :: 0 <= s < |evs| ==> lo <= evs[s] <= hi
    requires k < |infosets|
    ensures InfosetProbabilities(infosets, p)[k] > 0.0 ==> lo <= InfosetEvs(infosets, evs, p)[k] <= hi
    ensures InfosetProbabilities(infosets, p)[k] == 0.0 ==> InfosetEvs(infosets, evs, p)[k] == 0.0
  {
    var mass := SumOver(p, infosets[k]);
    var w := WeightedOver(evs, p, infosets[k]);
    GatheredBounds(evs, p, infosets[k], lo, hi);
    WeightedBounds(evs, p, infosets[k], lo, hi);
    SumOverNonNegative(p, infosets[k]);
    if mass > 0.0 {
      MeanBetween(lo, hi, w, mass);
    }
  }

  // Expanding an infoset strategy to the states

  /** The last information set listing state s: the one whose column `expand_strategy` leaves in place. */
  function LastOwner(infosets: seq<seq<nat>>, s: nat): (r: Option<nat>)
    ensures r.None? <==> forall k :: 0 <= k < |infosets| ==> s !in infosets[k]
    ensures r.Some? ==> r.value < |infosets| && s in infosets[r.value]
    ensures r.Some? ==> forall k :: r.value < k < |infosets| ==> s !in infosets[k]
    decreases |infosets|
  {
    if |infosets| == 0 then None
    else if s in infosets[|infosets| - 1] then Some(|infosets| - 1)
    else
      var r := LastOwner(infosets[..|infosets| - 1], s);
      assert forall k :: 0 <= k < |infosets| - 1 ==> infosets[..|infosets| - 1][k] == infosets[k];
      r
  }

  function OwnedEntry(strategy: Matrix, owner: Option<nat>, a: nat): real
    requires a < |strategy| && (owner.Some? ==> owner.value < |strategy[a]|)
  {
    match owner
    case None => 0.0
    case Some(k) => strategy[a][k]
  }

  /** The result of `expand_strategy`: the strategy of every action, per state. */
  function ExpandedOf(strategy: Matrix, infosets: seq<seq<nat>>, nActions: nat, nStates: nat): (e: Matrix)
    requires IsMatrix(strategy, nActions, |infosets|)
    ensures IsMatrix(e, nActions, nStates)
  {
    seq(nActions, a requires 0 <= a < nActions =>
      seq(nStates, s requires 0 <= s < nStates => OwnedEntry(strategy, LastOwner(infosets, s), a)))
  }

  /** With disjoint information sets, every state of infoset k plays column k of the strategy. */
  lemma ExpandedColumn(strategy: Matrix, infosets: seq<seq<nat>>, nActions: nat, nStates: nat, k: nat, s: nat)
    requires IsMatrix(strategy, nActions, |infosets|) && Disjoint(infosets)
    requires k < |infosets| && s in infosets[k] && s < nStates
    ensures Column(ExpandedOf(strategy, infosets, nActions, nStates), s) == Column(strategy, k)
  {
    assert LastOwner(infosets, s) == Some(k);
  }

  /** A state in no information set gets probability zero for every action. */
  lemma ExpandedUnlisted(strategy: Matrix, infosets: seq<seq<nat>>, nActions: nat, nStates: nat, s: nat)
    requires IsMatrix(strategy, nActions, |infosets|)
    requires s < nStates && forall k :: 0 <= k < |infosets| ==> s !in infosets[k]
    ensures Column(ExpandedOf(strategy, infosets, nActions, nStates), s) == Constant(nActions, 0.0)
  {
    assert LastOwner(infosets, s) == None;
  }

  /** The reach probabilities handed to the children: the parent's reach times each action's row. */
  function ChildReachOf(p: Vector, expanded: Matrix): (r: seq<Vector>)
    requires IsMatrix(expanded, |expanded|, |p|)
    ensures |r| == |expanded| && forall a :: 0 <= a < |r| ==> |r[a]| == |p|
  {
    seq(|expanded|, a requires 0 <= a < |expanded| => Times(p, expanded[a]))
  }

  /**
   * Reach is conserved: when the strategy of the infoset listing state s is a distribution,
   * the children's reach probabilities of s add up to the parent's.
   */
  lemma ChildReachConserved(strategy: Matrix, infosets: seq<seq<nat>>, p: Vector, s: nat)
    requires IsMatrix(strategy, |strategy|, |infosets|) && s < |p|
    requires LastOwner(infosets, s).Some? && Distribution(Column(strategy, LastOwner(infosets, s).value))
    ensures Sum(Column(ChildReachOf(p, ExpandedOf(strategy, infosets, |strategy|, |p|)), s)) == p[s]
  {
    var e := ExpandedOf(strategy, infosets, |strategy|, |p|);
    var k := LastOwner(infosets, s).value;
    ExpandedOwnerColumn(strategy, infosets, |strategy|, |p|, s);
    ChildReachColumn(p, e, s);
    SumScale(p[s], Column(e, s));
  }

  lemma ExpandedOwnerColumn(strategy: Matrix, infosets: seq<seq<nat>>, nActions: nat, nStates: nat, s: nat)
    requires IsMatrix(strategy, nActions, |infosets|) && s < nStates && LastOwner(infosets, s).Some?
    ensures Column(ExpandedOf(strategy, infosets, nActions, nStates), s) == Column(strategy, LastOwner(infosets, s).value)
  {
  }

  lemma ChildReachColumn(p: Vector, e: Matrix, s: nat)
    requires IsMatrix(e, |e|, |p|) && s < |p|
    ensures Column(ChildReachOf(p, e), s) == Scale(p[s], Column(e, s))
  {
    var lhs := Column(ChildReachOf(p, e), s);
    var rhs := Scale(p[s], Column(e, s));
    forall a | 0 <= a < |e|
      ensures lhs[a] == rhs[a]
    {
      assert lhs[a] == ChildReachOf(p, e)[a][s] == p[s] * e[a][s];
    }
    assert lhs == rhs;
  }

  // Regret matching

  function Positive(x: real): real
  {
    if x < 0.0 then 0.0 else x
  }

  /** Negative regrets clamped to zero. */
  function Clamp(column: Vector): (r: Vector)
    ensures |r| == |column|
  {
    seq(|column|, i requires 0 <= i < |column| => Positive(column[i]))
  }

  /** The total of the clamped regrets, which is never negative. */
  function ClampedTotal(column: Vector): (r: real)
    ensures 0.0 <= r && r == Sum(Clamp(column))
  {
    SumNonNegative(Clamp(column));
    Sum(Clamp(column))
  }

  /** The uniform distribution over n actions. */
  function Uniform(n: nat): (r: Vector)
    ensures |r| == n
  {
    seq(n, i requires 0 <= i < n => 1.0 / n as real)
  }

  /** One column of `regret_match`: uniform when no regret is positive, else (r⁺ + ε) normalised. */
  function MatchColumn(column: Vector): (r: Vector)
    ensures |r| == |column|
  {
    var c := Clamp(column);
    if Sum(c) == 0.0 then Uniform(|column|)
    else
      var shifted := Shift(c, EPSILON);
      SumNonNegative(c);
      SumShift(c, EPSILON);
      Divide(shifted, Sum(shifted))
  }

  lemma ClampNonNegative(column: Vector)
    ensures NonNegative(Clamp(column))
  {
  }

  /**
   * The two cases of regret matching: a column with no positive regret becomes uniform;
   * otherwise entry i is (r_i⁺ + ε) / (Σ r⁺ + n ε).
   */
  lemma MatchColumnCases(column: Vector)
    ensures (forall i :: 0 <= i < |column| ==> column[i] <= 0.0) ==> MatchColumn(column) == Uniform(|column|)
    ensures (exists i :: 0 <= i < |column| && column[i] > 0.0) ==>
      forall i :: 0 <= i < |column| ==>
        MatchColumn(column)[i] == (Positive(column[i]) + EPSILON) / (ClampedTotal(column) + |column| as real * EPSILON)
  {
    var c := Clamp(column);
    ClampNonNegative(column);
    SumZero(c);
    SumNonNegative(c);
    SumShift(c, EPSILON);
    if exists i :: 0 <= i < |column| && column[i] > 0.0 {
      var i :| 0 <= i < |column| && column[i] > 0.0;
      assert c[i] != 0.0;
    }
  }

  lemma UniformDistribution(n: nat)
    requires n >= 1
    ensures Distribution(Uniform(n)) && forall i :: 0 <= i < n ==> Uniform(n)[i] > 0.0
  {
    assert Uniform(n) == Constant(n, 1.0 / n as real);
    SumConstant(n, 1.0 / n as real);
    assert n as real * (1.0 / n as real) == 1.0;
  }

  lemma NormalisedDistribution(c: Vector)
    requires |c| >= 1 && NonNegative(c)
    ensures Sum(Shift(c, EPSILON)) > 0.0
    ensures Distribution(Divide(Shift(c, EPSILON), Sum(Shift(c, EPSILON))))
    ensures forall i :: 0 <= i < |c| ==> Divide(Shift(c, EPSILON), Sum(Shift(c, EPSILON)))[i] > 0.0
  {
    var shifted := Shift(c, EPSILON);
    SumNonNegative(c);
    SumShift(c, EPSILON);
    var total := Sum(shifted);
    assert total > 0.0;
    SumDivide(shifted, total);
    assert total / total == 1.0;
    forall i | 0 <= i < |c|
      ensures Divide(shifted, total)[i] > 0.0
    {
      assert shifted[i] > 0.0;
    }
  }

  /** Every column of `regret_match` over at least one action is a distribution with positive entries. */
  lemma MatchColumnDistribution(column: Vector)
    requires |column| >= 1
    ensures Distribution(MatchColumn(column))
    ensures forall i :: 0 <= i < |column| ==> MatchColumn(column)[i] > 0.0
  {
    ClampNonNegative(column);
    if Sum(Clamp(column)) == 0.0 {
      UniformDistribution(|column|);
    } else {
      NormalisedDistribution(Clamp(column));
    }
  }

  /** The result of `regret_match`: one matched column per information set. */
  function RegretMatchOf(regrets: Matrix, nInfosets: nat): (r: Matrix)
    requires IsMatrix(regrets, |regrets|, nInfosets)
    ensures IsMatrix(r, |regrets|, nInfosets)
  {
    seq(|regrets|, a requires 0 <= a < |regrets| =>
      seq(nInfosets, k requires 0 <= k < nInfosets => MatchColumn(Column(regrets, k))[a]))
  }

  /** After regret matching over at least one action, every infoset column is a distribution. */
  lemma RegretMatchDistribution(regrets: Matrix, nInfosets: nat, k: nat)
    requires IsMatrix(regrets, |regrets|, nInfosets) && |regrets| >= 1 && k < nInfosets
    ensures Column(RegretMatchOf(regrets, nInfosets), k) == MatchColumn(Column(regrets, k))
    ensures Distribution(Column(RegretMatchOf(regrets, nInfosets), k))
  {
    MatchColumnDistribution(Column(regrets, k));
  }

  // Regrets and averages

  /** The rows of `action_evs`: each child's reach-weighted value per information set. */
  function ActionEvsOf(infosets: seq<seq<nat>>, payouts: seq<Vector>, reach: seq<Vector>): (r: Matrix)
    requires |payouts| == |reach|
    requires forall a :: 0 <= a < |payouts| ==> StatesBelow(infosets, |payouts[a]|) && StatesBelow(infosets, |reach[a]|)
    ensures IsMatrix(r, |payouts|, |infosets|)
  {
    seq(|payouts|, a requires 0 <= a < |payouts| => InfosetEvs(infosets, payouts[a], reach[a]))
  }

  /** `current_regret`: (action value - node value) per action and infoset, times the node's sign. */
  function RegretOf(actionEvs: Matrix, nodeEvs: Vector, sign: int): (r: Matrix)
    requires IsMatrix(actionEvs, |actionEvs|, |nodeEvs|)
    ensures IsMatrix(r, |actionEvs|, |nodeEvs|)
  {
    seq(|actionEvs|, a requires 0 <= a < |actionEvs| =>
      seq(|nodeEvs|, k requires 0 <= k < |nodeEvs| => (actionEvs[a][k] - nodeEvs[k]) * sign as real))
  }

  /** (x - c) * d, entry by entry. */
  function Centered(x: Vector, c: real, d: real): (r: Vector)
    ensures |r| == |x|
  {
    seq(|x|, a requires 0 <= a < |x| => (x[a] - c) * d)
  }

  lemma CenteredEntry(w: real, x: real, c: real, d: real)
    ensures w * ((x - c) * d) == d * (w * x - c * w)
  {
  }

  lemma CenteredTimes(sigma: Vector, x: Vector, c: real, d: real)
    requires |sigma| == |x|
    ensures Times(sigma, Centered(x, c, d)) == Scale(d, Minus(Times(sigma, x), Scale(c, sigma)))
  {
    var lhs := Times(sigma, Centered(x, c, d));
    var rhs := Scale(d, Minus(Times(sigma, x), Scale(c, sigma)));
    forall a | 0 <= a < |x|
      ensures lhs[a] == rhs[a]
    {
      var w, y := sigma[a], x[a];
      assert lhs[a] == w * ((y - c) * d);
      assert rhs[a] == d * (w * y - c * w);
      CenteredEntry(w, y, c, d);
    }
  }

  lemma SumCenteredTimes(sigma: Vector, x: Vector, c: real, d: real)
    requires |sigma| == |x|
    ensures Sum(Times(sigma, Centered(x, c, d))) == Sum(Scale(d, Minus(Times(sigma, x), Scale(c, sigma))))
  {
    CenteredTimes(sigma, x, c, d);
  }

  /** With a distribution sigma and c its expectation of x, Σ σ_a (x_a - c) d = 0. */
  lemma CenteredSumZero(sigma: Vector, x: Vector, c: real, d: real)
    requires |sigma| == |x| && Sum(sigma) == 1.0 && c == Sum(Times(sigma, x))
    ensures Sum(Times(sigma, Centered(x, c, d))) == 0.0
  {
    SumCenteredTimes(sigma, x, c, d);
    var t := Times(sigma, x);
    SumScale(c, sigma);
    SumMinus(t, Scale(c, sigma));
    assert Sum(Minus(t, Scale(c, sigma))) == 0.0;
    SumScale(d, Minus(t, Scale(c, sigma)));
  }

  /**
   * When the node's value of infoset k is the expectation of the action values under a
   * distribution sigma, the regrets of that infoset have expectation zero under sigma.
   */
  lemma RegretExpectationZero(actionEvs: Matrix, nodeEvs: Vector, sign: int, sigma: Vector, k: nat)
    requires IsMatrix(actionEvs, |actionEvs|, |nodeEvs|) && k < |nodeEvs|
    requires |sigma| == |actionEvs| && Sum(sigma) == 1.0
    requires nodeEvs[k] == Sum(Times(sigma, Column(actionEvs, k)))
    ensures Sum(Times(sigma, Column(RegretOf(actionEvs, nodeEvs, sign), k))) == 0.0
  {
    var x := Column(actionEvs, k);
    RegretColumn(actionEvs, nodeEvs, sign, k);
    CenteredSumZero(sigma, x, nodeEvs[k], sign as real);
  }

  lemma RegretColumn(actionEvs: Matrix, nodeEvs: Vector, sign: int, k: nat)
    requires IsMatrix(actionEvs, |actionEvs|, |nodeEvs|) && k < |nodeEvs|
    ensures Column(RegretOf(actionEvs, nodeEvs, sign), k) == Centered(Column(actionEvs, k), nodeEvs[k], sign as real)
  {
    var x := Column(actionEvs, k);
    var r := RegretOf(actionEvs, nodeEvs, sign);
    var lhs := Column(r, k);
    var rhs := Centered(x, nodeEvs[k], sign as real);
    forall a | 0 <= a < |actionEvs|
      ensures lhs[a] == rhs[a]
    {
      assert lhs[a] == r[a][k] == (actionEvs[a][k] - nodeEvs[k]) * sign as real;
      assert rhs[a] == (x[a] - nodeEvs[k]) * sign as real;
    }
    assert |lhs| == |rhs|;
  }

  /** The regret update of `update_strategy`: (R + r · mass) · t / (t + 1), entry by entry. */
  function RegretStep(regrets: Matrix, current: Matrix, mass: Vector, t: nat): (r: Matrix)
    requires IsMatrix(regrets, |regrets|, |mass|) && IsMatrix(current, |regrets|, |mass|)
    ensures IsMatrix(r, |regrets|, |mass|)
  {
    seq(|regrets|, a requires 0 <= a < |regrets| =>
      seq(|mass|, k requires 0 <= k < |mass| =>
        (regrets[a][k] + current[a][k] * mass[k]) * t as real / (t as real + 1.0)))
  }

  /**
   * The average-strategy update of `update_strategy`: the old average and the new strategy
   * weighted by the accumulated and the current infoset mass. Where both masses are zero
   * the average is kept.
   */
  function AverageStep(average: Matrix, total: Vector, strategy: Matrix, mass: Vector): (r: Matrix)
    requires |total| == |mass|
    requires IsMatrix(average, |average|, |mass|) && IsMatrix(strategy, |average|, |mass|)
    ensures IsMatrix(r, |average|, |mass|)
  {
    seq(|average|, a requires 0 <= a < |average| =>
      seq(|mass|, k requires 0 <= k < |mass| =>
        if total[k] + mass[k] == 0.0 then average[a][k]
        else (average[a][k] * total[k] + strategy[a][k] * mass[k]) / (total[k] + mass[k])))
  }

  /** x * u + y * v, entry by entry. */
  function Mix(x: Vector, y: Vector, u: real, v: real): (r: Vector)
    requires |x| == |y|
    ensures |r| == |x|
  {
    seq(|x|, a requires 0 <= a < |x| => x[a] * u + y[a] * v)
  }

  lemma SumMix(x: Vector, y: Vector, u: real, v: real)
    requires |x| == |y|
    ensures Sum(Mix(x, y, u, v)) == Sum(x) * u + Sum(y) * v
  {
    assert Mix(x, y, u, v) == Plus(Scale(u, x), Scale(v, y));
    SumPlus(Scale(u, x), Scale(v, y));
    SumScale(u, x);
    SumScale(v, y);
  }

  /**
   * The average strategy stays a distribution: with non-negative masses, an infoset column
   * that is a distribution in the old average and in the new strategy is one afterwards.
   */
  lemma AverageStepDistribution(average: Matrix, total: Vector, strategy: Matrix, mass: Vector, k: nat)
    requires |total| == |mass| && k < |mass|
    requires IsMatrix(average, |average|, |mass|) && IsMatrix(strategy, |average|, |mass|)
    requires 0.0 <= total[k] && 0.0 <= mass[k]
    requires Distribution(Column(average, k)) && Distribution(Column(strategy, k))
    ensures Distribution(Column(AverageStep(average, total, strategy, mass), k))
  {
    var d := total[k] + mass[k];
    AverageColumn(average, total, strategy, mass, k);
    if d != 0.0 {
      WeightsOfMix(total[k], mass[k]);
      MixDistribution(Column(average, k), Column(strategy, k), total[k] / d, mass[k] / d);
    }
  }

  /** Column k of the average update, as a mix of the old average and the new strategy. */
  lemma AverageColumn(average: Matrix, total: Vector, strategy: Matrix, mass: Vector, k: nat)
    requires |total| == |mass| && k < |mass|
    requires IsMatrix(average, |average|, |mass|) && IsMatrix(strategy, |average|, |mass|)
    ensures total[k] + mass[k] == 0.0 ==> Column(AverageStep(average, total, strategy, mass), k) == Column(average, k)
    ensures total[k] + mass[k] != 0.0 ==>
      Column(AverageStep(average, total, strategy, mass), k)
        == Mix(Column(average, k), Column(strategy, k), total[k] / (total[k] + mass[k]), mass[k] / (total[k] + mass[k]))
  {
    var r := AverageStep(average, total, strategy, mass);
    var d := total[k] + mass[k];
    if d != 0.0 {
      var x := Column(average, k);
      var y := Column(strategy, k);
      forall a | 0 <= a < |x|
        ensures Column(r, k)[a] == Mix(x, y, total[k] / d, mass[k] / d)[a]
      {
        MixEntry(x[a], y[a], total[k], mass[k]);
      }
    } else {
      assert forall a :: 0 <= a < |average| ==> Column(r, k)[a] == Column(average, k)[a];
    }
  }

  lemma MixDistribution(x: Vector, y: Vector, u: real, v: real)
    requires |x| == |y| && Distribution(x) && Distribution(y)
    requires 0.0 <= u && 0.0 <= v && u + v == 1.0
    ensures Distribution(Mix(x, y, u, v))
  {
    SumMix(x, y, u, v);
    forall a | 0 <= a < |x|
      ensures 0.0 <= Mix(x, y, u, v)[a]
    {
      ScaleBetween(0.0, x[a], x[a], u);
      ScaleBetween(0.0, y[a], y[a], v);
    }
  }

  lemma WeightsOfMix(t: real, m: real)
    requires 0.0 <= t && 0.0 <= m && t + m != 0.0
    ensures 0.0 <= t / (t + m) && 0.0 <= m / (t + m) && t / (t + m) + m / (t + m) == 1.0
  {
  }

  lemma MixEntry(x: real, y: real, t: real, m: real)
    requires t + m != 0.0
    ensures (x * t + y * m) / (t + m) == x * (t / (t + m)) + y * (m / (t + m))
  {
  }

  // Expected values from the children

  /** The children's payouts of state s weighted by their reach, added child by child. */
  function ReachWeighted(payouts: seq<Vector>, reach: seq<Vector>, s: nat): real
    requires |payouts| == |reach|
    requires forall a :: 0 <= a < |payouts| ==> s < |payouts[a]| && s < |reach[a]|
  {
    Sum(Times(Column(payouts, s), Column(reach, s)))
  }

  /** The new `evs` of `update_ev`: the children's reach-weighted payouts over the node's reach. */
  function EvOf(payouts: seq<Vector>, reach: seq<Vector>, p: Vector): (r: Vector)
    requires |payouts| == |reach|
    requires forall a :: 0 <= a < |payouts| ==> |payouts[a]| == |p| && |reach[a]| == |p|
    ensures |r| == |p|
  {
    seq(|p|, s requires 0 <= s < |p| => ReachWeighted(payouts, reach, s) / Guard(p[s]))
  }

  /**
   * `update_ev` computes a mean: when the children's reach of state s adds up to the node's
   * and every payout lies in [lo, hi], a reachable state's value lies in [lo, hi] and an
   * unreachable one's is zero.
   */
  lemma EvOfMean(payouts: seq<Vector>, reach: seq<Vector>, p: Vector, lo: real, hi: real, s: nat)
    requires |payouts| == |reach|
    requires forall a :: 0 <= a < |payouts| ==> |payouts[a]| == |p| && |reach[a]| == |p|
    requires s < |p| && Sum(Column(reach, s)) == p[s]
    requires forall a :: 0 <= a < |payouts| ==> 0.0 <= reach[a][s] && lo <= payouts[a][s] <= hi
    ensures p[s] > 0.0 ==> lo <= EvOf(payouts, reach, p)[s] <= hi
    ensures p[s] == 0.0 ==> EvOf(payouts, reach, p)[s] == 0.0
  {
    var w := ReachWeighted(payouts, reach, s);
    SumBetween(Column(payouts, s), Column(reach, s), lo, hi);
    if p[s] > 0.0 {
      MeanBetween(lo, hi, w, p[s]);
    }
  }
}
