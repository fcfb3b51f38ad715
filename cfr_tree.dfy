/**
 * The game-tree nodes of `src/cfr.rs`. An `ActionNode` owns its children; a child is either
 * another action node or a `TerminalNode` holding fixed payouts. The `Node` interface the
 * two share is the datatype `Child` with one function per accessor.
 *
 * Every update recurses into the children in place. The footprint `Repr` of an action node
 * is the set of nodes below it and itself; the footprints of siblings are disjoint, so
 * updating one child leaves the others as they were.
 */
module CfrTree {
  import opened Wrappers
  import opened Vectors
  import opened Cfr

  datatype Child = Act(node: ActionNode) | Term(leaf: TerminalNode)

  function Obj(c: Child): object
  {
    match c
    case Act(n) => n
    case Term(l) => l
  }

  /** `Node::state_probabilities`: the reach probability of every state. */
  function Probabilities(c: Child): Vector
    reads Obj(c)
  {
    match c
    case Act(n) => n.stateProbabilities
    case Term(l) => l.stateProbabilities
  }

  /** `Node::payouts`: an action node's current values, a terminal node's fixed payouts. */
  function Payouts(c: Child): Vector
    reads Obj(c)
  {
    match c
    case Act(n) => n.evs
    case Term(l) => l.payouts
  }

  function ObjectsOf(cs: seq<Child>): set<object>
  {
    set a | 0 <= a < |cs| :: Obj(cs[a])
  }

  function ProbabilitiesOf(cs: seq<Child>): (r: seq<Vector>)
    reads ObjectsOf(cs)
    ensures |r| == |cs|
  {
    seq(|cs|, a requires 0 <= a < |cs| reads ObjectsOf(cs) => Probabilities(cs[a]))
  }

  function PayoutsOf(cs: seq<Child>): (r: seq<Vector>)
    reads ObjectsOf(cs)
    ensures |r| == |cs|
  {
    seq(|cs|, a requires 0 <= a < |cs| reads ObjectsOf(cs) => Payouts(cs[a]))
  }

  /**
   * The fields of a subtree as a value, node by node: an action node's state lists its
   * children's states in order. The three updates are functions on these states.
   */
  datatype NodeState =
    | ActionState(name: string, stateProbabilities: Vector, totalProbabilities: Vector, evs: Vector,
                  infosets: seq<seq<nat>>, strategy: Matrix, avgStrategy: Matrix, regrets: Matrix,
                  sign: int, iterCount: nat, children: seq<NodeState>)
    | TerminalState(name: string, stateProbabilities: Vector, payouts: Vector)

  /** The children's states of an action node; a terminal node has none. */
  function ChildrenOf(s: NodeState): seq<NodeState>
  {
    match s
    case ActionState(_, _, _, _, _, _, _, _, _, _, cs) => cs
    case TerminalState(_, _, _) => []
  }

  /** `payouts()` of a node in state s. */
  function StatePayouts(s: NodeState): Vector
  {
    match s
    case ActionState(_, _, _, evs, _, _, _, _, _, _, _) => evs
    case TerminalState(_, _, payouts) => payouts
  }

  /** s is a subtree over n states with the array shapes of every node, all the way down. */
  predicate Formed(s: NodeState, n: nat)
  {
    match s
    case TerminalState(_, p, payouts) => |p| == n && |payouts| == n
    case ActionState(_, p, total, evs, infosets, strategy, avg, regrets, _, _, cs) =>
      && |p| == n && |evs| == n && StatesBelow(infosets, n) && |total| == |infosets|
      && IsMatrix(strategy, |cs|, |infosets|) && IsMatrix(avg, |cs|, |infosets|) && IsMatrix(regrets, |cs|, |infosets|)
      && forall a :: 0 <= a < |cs| ==> Formed(cs[a], n)
  }

  lemma FormedShapes(cs: seq<NodeState>, n: nat)
    requires forall a :: 0 <= a < |cs| ==> Formed(cs[a], n)
    ensures forall a :: 0 <= a < |cs| ==> |cs[a].stateProbabilities| == n && |StatePayouts(cs[a])| == n
  {
    forall a | 0 <= a < |cs|
      ensures |cs[a].stateProbabilities| == n && |StatePayouts(cs[a])| == n
    {
      assert Formed(cs[a], n);
    }
  }

  function PayoutsOfStates(cs: seq<NodeState>, n: nat): (r: seq<Vector>)
    requires forall a :: 0 <= a < |cs| ==> Formed(cs[a], n)
    ensures |r| == |cs| && forall a :: 0 <= a < |r| ==> |r[a]| == n
  {
    FormedShapes(cs, n);
    seq(|cs|, a requires 0 <= a < |cs| => StatePayouts(cs[a]))
  }

  function ReachOfStates(cs: seq<NodeState>, n: nat): (r: seq<Vector>)
    requires forall a :: 0 <= a < |cs| ==> Formed(cs[a], n)
    ensures |r| == |cs| && forall a :: 0 <= a < |r| ==> |r[a]| == n
  {
    FormedShapes(cs, n);
    seq(|cs|, a requires 0 <= a < |cs| => cs[a].stateProbabilities)
  }

  /**
   * `set_state_probabilities(p)` followed by `update_probabilities`, on a subtree: the node
   * takes the reach p, initialises its accumulated infoset reach from p when that sums to
   * zero, and hands child a the reach p times row a of its expanded strategy, recursively.
   */
  function ReachStep(s: NodeState, p: Vector): (r: NodeState)
    requires Formed(s, |p|)
    ensures Formed(r, |p|) && r.stateProbabilities == p
  {
    match s
    case TerminalState(name, _, payouts) => TerminalState(name, p, payouts)
    case ActionState(_, _, total, _, infosets, strategy, _, _, _, _, cs) =>
      var expanded := ExpandedOf(strategy, infosets, |cs|, |p|);
      ActionState(s.name, p, if Sum(total) == 0.0 then InfosetProbabilities(infosets, p) else total, s.evs,
                  infosets, strategy, s.avgStrategy, s.regrets, s.sign, s.iterCount,
                  seq(|cs|, a requires 0 <= a < |cs| => ReachStep(cs[a], Times(p, expanded[a]))))
  }

  /**
   * `update_ev` on a subtree over n states: the children first, then the node's values
   * from their payouts weighted by their reach; terminal nodes stay as they are.
   */
  function EvStep(s: NodeState, n: nat): (r: NodeState)
    requires Formed(s, n)
    ensures Formed(r, n) && r.stateProbabilities == s.stateProbabilities
  {
    match s
    case TerminalState(_, _, _) => s
    case ActionState(name, p, total, _, infosets, strategy, avg, regrets, sign, t, cs) =>
      var next := seq(|cs|, a requires 0 <= a < |cs| => EvStep(cs[a], n));
      ActionState(name, p, total, EvOf(PayoutsOfStates(next, n), ReachOfStates(next, n), p), infosets, strategy,
                  avg, regrets, sign, t, next)
  }

  /**
   * `update_strategy` on a subtree over n states: at every action node the regret, strategy,
   * average, count and mass updates of Cfr, from the node's values and its children's, then
   * the same below; terminal nodes stay as they are.
   */
  function StrategyStep(s: NodeState, n: nat): (r: NodeState)
    requires Formed(s, n)
    ensures Formed(r, n) && r.stateProbabilities == s.stateProbabilities && StatePayouts(r) == StatePayouts(s)
  {
    match s
    case TerminalState(_, _, _) => s
    case ActionState(name, p, total, evs, infosets, _, avg, regrets, sign, t, cs) =>
      var mass := InfosetProbabilities(infosets, p);
      var current := RegretOf(ActionEvsOf(infosets, PayoutsOfStates(cs, n), ReachOfStates(cs, n)),
                              InfosetEvs(infosets, evs, p), sign);
      var nextRegrets := RegretStep(regrets, current, mass, t);
      var nextStrategy := RegretMatchOf(nextRegrets, |infosets|);
      ActionState(name, p, Plus(total, mass), evs, infosets, nextStrategy,
                  AverageStep(avg, total, nextStrategy, mass), nextRegrets, sign, t + 1,
                  seq(|cs|, a requires 0 <= a < |cs| => StrategyStep(cs[a], n)))
  }

  /**
   * Every child of every action node in s holds the node's reach times that action's row of
   * the expanded strategy: what `update_probabilities` leaves behind.
   */
  predicate StateReached(s: NodeState, n: nat)
    requires Formed(s, n)
  {
    match s
    case TerminalState(_, _, _) => true
    case ActionState(_, p, _, _, infosets, strategy, _, _, _, _, cs) =>
      var expanded := ExpandedOf(strategy, infosets, |cs|, n);
      forall a :: 0 <= a < |cs| ==> cs[a].stateProbabilities == Times(p, expanded[a]) && StateReached(cs[a], n)
  }

  /** Every action node's values in s are its children's reach-weighted payouts over its own reach. */
  predicate StateEvsComputed(s: NodeState, n: nat)
    requires Formed(s, n)
  {
    match s
    case TerminalState(_, _, _) => true
    case ActionState(_, p, _, evs, _, _, _, _, _, _, cs) =>
      && evs == EvOf(PayoutsOfStates(cs, n), ReachOfStates(cs, n), p)
      && forall a :: 0 <= a < |cs| ==> StateEvsComputed(cs[a], n)
  }

  /** Every strategy column of every action node in s with at least one action is a distribution. */
  predicate StateMixed(s: NodeState, n: nat)
    requires Formed(s, n)
  {
    match s
    case TerminalState(_, _, _) => true
    case ActionState(_, _, _, _, infosets, strategy, _, _, _, _, cs) =>
      && (|cs| >= 1 ==> forall k :: 0 <= k < |infosets| ==> Distribution(Column(strategy, k)))
      && forall a :: 0 <= a < |cs| ==> StateMixed(cs[a], n)
  }

  /** The reach step hands every child its share, and leaves the strategies as they were. */
  lemma {:induction false} ReachStepReached(s: NodeState, p: Vector)
    requires Formed(s, |p|)
    ensures StateReached(ReachStep(s, p), |p|)
    ensures StateMixed(s, |p|) ==> StateMixed(ReachStep(s, p), |p|)
    decreases s
  {
    match s
    case TerminalState(_, _, _) =>
    case ActionState(_, _, _, _, infosets, strategy, _, _, _, _, cs) =>
      var expanded := ExpandedOf(strategy, infosets, |cs|, |p|);
      forall a | 0 <= a < |cs|
        ensures StateReached(ReachStep(cs[a], Times(p, expanded[a])), |p|)
        ensures StateMixed(cs[a], |p|) ==> StateMixed(ReachStep(cs[a], Times(p, expanded[a])), |p|)
      {
        ReachStepReached(cs[a], Times(p, expanded[a]));
      }
  }

  /** The value step computes every node's values, and leaves the reach and the strategies as they were. */
  lemma {:induction false} EvStepComputed(s: NodeState, n: nat)
    requires Formed(s, n)
    ensures StateEvsComputed(EvStep(s, n), n)
    ensures StateReached(s, n) ==> StateReached(EvStep(s, n), n)
    ensures StateMixed(s, n) ==> StateMixed(EvStep(s, n), n)
    decreases s
  {
    match s
    case TerminalState(_, _, _) =>
    case ActionState(_, _, _, _, _, _, _, _, _, _, cs) =>
      forall a | 0 <= a < |cs|
        ensures StateEvsComputed(EvStep(cs[a], n), n)
        ensures StateReached(cs[a], n) ==> StateReached(EvStep(cs[a], n), n)
        ensures StateMixed(cs[a], n) ==> StateMixed(EvStep(cs[a], n), n)
      {
        EvStepComputed(cs[a], n);
      }
  }

  /**
   * The strategy step leaves every strategy column a distribution, and keeps the values
   * computed, since it changes neither a node's reach nor its payouts.
   */
  lemma {:induction false} StrategyStepMixed(s: NodeState, n: nat)
    requires Formed(s, n)
    ensures StateMixed(StrategyStep(s, n), n)
    ensures StateEvsComputed(s, n) ==> StateEvsComputed(StrategyStep(s, n), n)
    decreases s
  {
    match s
    case TerminalState(_, _, _) =>
    case ActionState(_, p, total, evs, infosets, _, avg, regrets, sign, t, cs) =>
      var r := StrategyStep(s, n);
      var mass := InfosetProbabilities(infosets, p);
      var current := RegretOf(ActionEvsOf(infosets, PayoutsOfStates(cs, n), ReachOfStates(cs, n)),
                              InfosetEvs(infosets, evs, p), sign);
      var nextRegrets := RegretStep(regrets, current, mass, t);
      assert r.strategy == RegretMatchOf(nextRegrets, |infosets|);
      forall k | 0 <= k < |infosets| && |cs| >= 1
        ensures Distribution(Column(r.strategy, k))
      {
        RegretMatchDistribution(nextRegrets, |infosets|, k);
      }
      forall a | 0 <= a < |cs|
        ensures StateMixed(StrategyStep(cs[a], n), n)
        ensures StateEvsComputed(cs[a], n) ==> StateEvsComputed(StrategyStep(cs[a], n), n)
      {
        StrategyStepMixed(cs[a], n);
      }
      assert PayoutsOfStates(r.children, n) == PayoutsOfStates(cs, n);
      assert ReachOfStates(r.children, n) == ReachOfStates(cs, n);
  }

  /** The reach step ignores the reach a state held before: it replaces it. */
  lemma ReachStepIgnoresReach(s: NodeState, t: NodeState, p: Vector)
    requires Formed(s, |p|) && Formed(t, |p|) && s.ActionState? && t.ActionState?
    requires s.name == t.name && s.totalProbabilities == t.totalProbabilities && s.evs == t.evs
    requires s.infosets == t.infosets && s.strategy == t.strategy && s.avgStrategy == t.avgStrategy
    requires s.regrets == t.regrets && s.sign == t.sign && s.iterCount == t.iterCount && s.children == t.children
    ensures ReachStep(s, p) == ReachStep(t, p)
  {
  }

  /**
   * The children of the strategy step depend only on the children of the state: a node that
   * has updated its own fields first steps its children to the same states.
   */
  lemma StepChildrenAgree(s: NodeState, t: NodeState, n: nat)
    requires Formed(s, n) && Formed(t, n) && s.ActionState? && t.ActionState? && s.children == t.children
    ensures ChildrenOf(StrategyStep(s, n)) == ChildrenOf(StrategyStep(t, n))
  {
  }

  /** A leaf of the tree: its payouts never change, only the reach handed down to it. */
  class TerminalNode {
    var name: string
    var stateProbabilities: Vector
    var payouts: Vector

    constructor (name: string, stateProbabilities: Vector, payouts: Vector)
      ensures this.name == name && this.stateProbabilities == stateProbabilities && this.payouts == payouts
    {
      this.name := name;
      this.stateProbabilities := stateProbabilities;
      this.payouts := payouts;
    }

    ghost function Snapshot(): NodeState
      reads this
    {
      TerminalState(name, stateProbabilities, payouts)
    }

    /** A terminal node has no strategy, no average strategy and no children. */
    function Strategy(): (r: Option<Matrix>)
      ensures r == None
    {
      None
    }

    function AvgStrategy(): (r: Option<Matrix>)
      ensures r == None
    {
      None
    }

    function Children(): (r: Option<seq<Child>>)
      ensures r == None
    {
      None
    }

    method SetStateProbabilities(p: Vector)
      modifies this
      ensures stateProbabilities == p && name == old(name) && payouts == old(payouts)
    {
      stateProbabilities := p;
    }

    /** The three updates leave a terminal node as it is. */
    method UpdateProbabilities()
      ensures unchanged(this)
    {
    }

    method UpdateEv()
      ensures unchanged(this)
    {
    }

    method UpdateStrategy()
      ensures unchanged(this)
    {
    }
  }

  /**
   * Child c, with footprint fp, is a well-formed subtree over n states: an action node whose
   * footprint is fp, or a terminal node alone in fp; either way with n reach probabilities
   * and n payouts.
   */
  ghost predicate ChildValid(c: Child, fp: set<object>, n: nat)
    reads fp
    decreases fp, 1
  {
    match c
    case Act(node) =>
      node in fp && node.Repr == fp && |node.stateProbabilities| == n && |node.evs| == n && node.Valid()
    case Term(leaf) =>
      fp == {leaf} && |leaf.stateProbabilities| == n && |leaf.payouts| == n
  }

  /** All the objects of the footprints rs. */
  ghost function Union(rs: seq<set<object>>): (u: set<object>)
    ensures forall a :: 0 <= a < |rs| ==> rs[a] <= u
  {
    if |rs| == 0 then {} else Union(rs[..|rs| - 1]) + rs[|rs| - 1]
  }

  /** The state of child c's subtree. */
  ghost function ChildSnapshot(c: Child, fp: set<object>, n: nat): (r: NodeState)
    requires ChildValid(c, fp, n)
    reads fp
    ensures Formed(r, n) && r.stateProbabilities == Probabilities(c) && StatePayouts(r) == Payouts(c)
    ensures r.TerminalState? <==> c.Term?
    decreases fp, 3
  {
    match c
    case Act(node) => node.Snapshot()
    case Term(leaf) => leaf.Snapshot()
  }

  /**
   * A decision point. States are indexed 0 .. |stateProbabilities|; `infosets` lists the
   * states of every information set; the three matrices have a row per child (action) and
   * a column per information set. `ChildReprs[a]` is the footprint of child a.
   */
  class ActionNode {
    var name: string
    var stateProbabilities: Vector
    var totalProbabilities: Vector
    var evs: Vector
    var infosets: seq<seq<nat>>
    var strategy: Matrix
    var avgStrategy: Matrix
    var regrets: Matrix
    var children: seq<Child>
    var sign: int
    var iterCount: nat
    ghost var Repr: set<object>
    ghost var ChildReprs: seq<set<object>>

    /** The array shapes the ndarray operations of the node rely on. */
    predicate Shaped()
      reads this
    {
      && StatesBelow(infosets, |stateProbabilities|)
      && |evs| == |stateProbabilities|
      && |totalProbabilities| == |infosets|
      && IsMatrix(strategy, |children|, |infosets|)
      && IsMatrix(avgStrategy, |children|, |infosets|)
      && IsMatrix(regrets, |children|, |infosets|)
    }

    ghost predicate Valid()
      reads this, Repr
      decreases Repr, 0
    {
      && this in Repr
      && Shaped()
      && ObjectsOf(children) <= Repr
      && |ChildReprs| == |children|
      && (forall a :: 0 <= a < |children| ==> ChildReprs[a] <= Repr && this !in ChildReprs[a])
      && (forall a, b :: 0 <= a < b < |children| ==> ChildReprs[a] !! ChildReprs[b])
      && (forall a :: 0 <= a < |children| ==> ChildValid(children[a], ChildReprs[a], |stateProbabilities|))
    }

    /**
     * A node built from its fields, as the struct literals of the tests build one.
     * `childReprs` are the footprints of the children, which must be disjoint.
     */
    constructor (name: string, stateProbabilities: Vector, totalProbabilities: Vector, evs: Vector,
                 infosets: seq<seq<nat>>, strategy: Matrix, avgStrategy: Matrix, regrets: Matrix,
                 children: seq<Child>, sign: int, iterCount: nat, ghost childReprs: seq<set<object>>)
      requires StatesBelow(infosets, |stateProbabilities|) && |evs| == |stateProbabilities|
      requires |totalProbabilities| == |infosets|
      requires IsMatrix(strategy, |children|, |infosets|) && IsMatrix(avgStrategy, |children|, |infosets|)
      requires IsMatrix(regrets, |children|, |infosets|)
      requires |childReprs| == |children|
      requires forall a :: 0 <= a < |children| ==> ChildValid(children[a], childReprs[a], |stateProbabilities|)
      requires forall a, b :: 0 <= a < b < |children| ==> childReprs[a] !! childReprs[b]
      ensures Valid()
      ensures this.name == name && this.stateProbabilities == stateProbabilities
      ensures this.totalProbabilities == totalProbabilities && this.evs == evs && this.infosets == infosets
      ensures this.strategy == strategy && this.avgStrategy == avgStrategy && this.regrets == regrets
      ensures this.children == children && this.sign == sign && this.iterCount == iterCount
      ensures ChildReprs == childReprs
      ensures Repr == {this} + Union(childReprs)
    {
      this.name := name;
      this.stateProbabilities := stateProbabilities;
      this.totalProbabilities := totalProbabilities;
      this.evs := evs;
      this.infosets := infosets;
      this.strategy := strategy;
      this.avgStrategy := avgStrategy;
      this.regrets := regrets;
      this.children := children;
      this.sign := sign;
      this.iterCount := iterCount;
      ChildReprs := childReprs;
      Repr := {this} + Union(childReprs);
      new;
      forall a | 0 <= a < |children|
        ensures Obj(children[a]) in childReprs[a] && childReprs[a] <= Repr && this !in childReprs[a]
      {
        assert ChildValid(children[a], childReprs[a], |stateProbabilities|);
        assert this !in childReprs[a];
      }
    }

    /** Under Valid, every child has one reach probability and one payout per state. */
    lemma ChildShapes()
      requires Valid()
      ensures forall a :: 0 <= a < |children| ==>
        |Probabilities(children[a])| == |stateProbabilities| && |Payouts(children[a])| == |stateProbabilities|
    {
      forall a | 0 <= a < |children|
        ensures |Probabilities(children[a])| == |stateProbabilities| && |Payouts(children[a])| == |stateProbabilities|
      {
        assert ChildValid(children[a], ChildReprs[a], |stateProbabilities|);
      }
    }

    /** The state of the subtree below and including this node. */
    ghost function Snapshot(): (r: NodeState)
      requires Valid()
      reads this, Repr
      ensures Formed(r, |stateProbabilities|) && r.ActionState?
      decreases Repr, 2
    {
      ActionState(name, stateProbabilities, totalProbabilities, evs, infosets, strategy, avgStrategy, regrets,
                  sign, iterCount, ChildSnapshots())
    }

    /** The states of the children's subtrees, one per action. */
    ghost function ChildSnapshots(): (r: seq<NodeState>)
      requires Valid()
      reads this, Repr
      ensures |r| == |children|
      ensures forall a :: 0 <= a < |r| ==> r[a] == ChildSnapshot(children[a], ChildReprs[a], |stateProbabilities|)
      decreases Repr, 1
    {
      SnapshotsBelow(|children|)
    }

    /** The states of the first k children's subtrees. */
    ghost function SnapshotsBelow(k: nat): (r: seq<NodeState>)
      requires Valid() && k <= |children|
      reads this, Repr
      ensures |r| == k
      ensures forall a :: 0 <= a < k ==> r[a] == ChildSnapshot(children[a], ChildReprs[a], |stateProbabilities|)
      decreases Repr, 0, k
    {
      if k == 0 then []
      else SnapshotsBelow(k - 1) + [ChildSnapshot(children[k - 1], ChildReprs[k - 1], |stateProbabilities|)]
    }

    /** The children's states show the payouts and the reach the node reads from its children. */
    lemma ChildSnapshotsShow()
      requires Valid()
      ensures PayoutsOfStates(ChildSnapshots(), |stateProbabilities|) == PayoutsOf(children)
      ensures ReachOfStates(ChildSnapshots(), |stateProbabilities|) == ProbabilitiesOf(children)
    {
      var cs, n := ChildSnapshots(), |stateProbabilities|;
      assert forall a :: 0 <= a < |cs| ==> Formed(cs[a], n);
      assert forall a :: 0 <= a < |cs| ==> PayoutsOfStates(cs, n)[a] == PayoutsOf(children)[a];
      assert forall a :: 0 <= a < |cs| ==> ReachOfStates(cs, n)[a] == ProbabilitiesOf(children)[a];
    }

    /** The children's reach probabilities, one vector per action. */
    ghost function ChildProbabilities(): (r: seq<Vector>)
      requires Valid()
      reads this, Repr
      ensures |r| == |children| && forall a :: 0 <= a < |r| ==> |r[a]| == |stateProbabilities|
    {
      ChildShapes();
      ProbabilitiesOf(children)
    }

    /** The children's payouts, one vector per action. */
    ghost function ChildPayouts(): (r: seq<Vector>)
      requires Valid()
      reads this, Repr
      ensures |r| == |children| && forall a :: 0 <= a < |r| ==> |r[a]| == |stateProbabilities|
    {
      ChildShapes();
      PayoutsOf(children)
    }

    /** Every child's reach is the node's reach times that action's row of the expanded strategy, all the way down. */
    ghost predicate ReachPropagated()
      requires Valid()
      reads this, Repr
    {
      StateReached(Snapshot(), |stateProbabilities|)
    }

    /** Every node's values are its children's reach-weighted payouts over its own reach, all the way down. */
    ghost predicate EvsComputed()
      requires Valid()
      reads this, Repr
    {
      StateEvsComputed(Snapshot(), |stateProbabilities|)
    }

    /** Every strategy column of a node with at least one action is a distribution, all the way down. */
    ghost predicate StrategiesMixed()
      requires Valid()
      reads this, Repr
    {
      StateMixed(Snapshot(), |stateProbabilities|)
    }

    function Strategy(): (r: Option<Matrix>)
      reads this
      ensures r == Some(strategy)
    {
      Some(strategy)
    }

    function AvgStrategy(): (r: Option<Matrix>)
      reads this
      ensures r == Some(avgStrategy)
    {
      Some(avgStrategy)
    }

    function Children(): (r: Option<seq<Child>>)
      reads this
      ensures r == Some(children)
    {
      Some(children)
    }

    /**
     * `expand_strategy`: a zeroed matrix with a row per action and a column per state;
     * every state listed in infoset k gets column k of the strategy, later infosets
     * overwriting earlier ones.
     */
    method ExpandStrategy() returns (result: Matrix)
      requires IsMatrix(strategy, |children|, |infosets|) && StatesBelow(infosets, |stateProbabilities|)
      ensures result == ExpandedOf(strategy, infosets, |children|, |stateProbabilities|)
    {
      var nActions, nStates := |children|, |stateProbabilities|;
      result := Zeros(nActions, nStates);
      forall a, s | 0 <= a < nActions && 0 <= s < nStates
        ensures result[a][s] == OwnedEntry(strategy, LastOwner(infosets[..0], s), a)
      {
        assert infosets[..0] == [];
        assert result[a] == Constant(nStates, 0.0);
      }
      var k := 0;
      while k < |infosets|
        invariant k <= |infosets|
        invariant IsMatrix(result, nActions, nStates)
        invariant forall a, s :: 0 <= a < nActions && 0 <= s < nStates ==>
          result[a][s] == OwnedEntry(strategy, LastOwner(infosets[..k], s), a)
      {
        var block := infosets[k];
        var m := 0;
        while m < |block|
          invariant m <= |block|
          invariant IsMatrix(result, nActions, nStates)
          invariant forall a, s :: 0 <= a < nActions && 0 <= s < nStates ==>
            result[a][s] == if s in block[..m] then strategy[a][k] else OwnedEntry(strategy, LastOwner(infosets[..k], s), a)
        {
          assert block[..m + 1] == block[..m] + [block[m]];
          assert IndicesBelow(infosets[k], nStates);
          var previous := result;
          result := WithColumn(result, block[m], Column(strategy, k));
          forall a, s | 0 <= a < nActions && 0 <= s < nStates
            ensures result[a][s] == if s in block[..m + 1] then strategy[a][k] else OwnedEntry(strategy, LastOwner(infosets[..k], s), a)
          {
            assert result[a] == previous[a][block[m] := strategy[a][k]];
          }
          m := m + 1;
        }
        assert block[..m] == block;
        assert infosets[..k + 1][..k] == infosets[..k];
        assert infosets[..k + 1][k] == infosets[k];
        k := k + 1;
      }
      assert infosets[..k] == infosets;
      var expanded := ExpandedOf(strategy, infosets, nActions, nStates);
      forall a | 0 <= a < nActions
        ensures result[a] == expanded[a]
      {
        assert forall s :: 0 <= s < nStates ==> result[a][s] == expanded[a][s];
      }
    }

    /**
     * `action_evs`: row a is the infoset values of child a's payouts weighted by child a's
     * reach probabilities.
     */
    method ActionEvs() returns (result: Matrix)
      requires forall a :: 0 <= a < |children| ==>
        StatesBelow(infosets, |Payouts(children[a])|) && StatesBelow(infosets, |Probabilities(children[a])|)
      ensures result == ActionEvsOf(infosets, PayoutsOf(children), ProbabilitiesOf(children))
    {
      result := Zeros(|children|, |infosets|);
      for a := 0 to |children|
        invariant IsMatrix(result, |children|, |infosets|)
        invariant forall b :: 0 <= b < a ==>
          result[b] == InfosetEvs(infosets, Payouts(children[b]), Probabilities(children[b]))
      {
        result := result[a := InfosetEvs(infosets, Payouts(children[a]), Probabilities(children[a]))];
      }
    }

    /**
     * `current_regret`: how much better each action did than the node, per information set,
     * from the point of view of the player `sign` stands for.
     */
    method CurrentRegret() returns (r: Matrix)
      requires forall a :: 0 <= a < |children| ==>
        StatesBelow(infosets, |Payouts(children[a])|) && StatesBelow(infosets, |Probabilities(children[a])|)
      requires StatesBelow(infosets, |evs|) && StatesBelow(infosets, |stateProbabilities|)
      ensures r == RegretOf(ActionEvsOf(infosets, PayoutsOf(children), ProbabilitiesOf(children)),
                            InfosetEvs(infosets, evs, stateProbabilities), sign)
    {
      var actionEvs := ActionEvs();
      r := RegretOf(actionEvs, InfosetEvs(infosets, evs, stateProbabilities), sign);
    }

    method SetStateProbabilities(p: Vector)
      requires Valid()
      modifies this
      ensures stateProbabilities == p
      ensures Repr == old(Repr) && ChildReprs == old(ChildReprs) && name == old(name)
      ensures totalProbabilities == old(totalProbabilities) && evs == old(evs) && infosets == old(infosets)
      ensures strategy == old(strategy) && avgStrategy == old(avgStrategy) && regrets == old(regrets)
      ensures children == old(children) && sign == old(sign) && iterCount == old(iterCount)
      ensures |p| == |old(stateProbabilities)| ==> Valid() && ChildSnapshots() == old(ChildSnapshots())
    {
      stateProbabilities := p;
      if |p| == |old(stateProbabilities)| {
        assert forall a :: 0 <= a < |children| ==> ChildSnapshots()[a] == old(ChildSnapshots())[a];
      }
    }

    /** The assignment to the accumulated infoset reach, which leaves everything else as it was. */
    method SetTotalProbabilities(t: Vector)
      requires Valid() && |t| == |infosets|
      modifies this
      ensures Valid() && Repr == old(Repr) && ChildReprs == old(ChildReprs)
      ensures totalProbabilities == t && name == old(name) && stateProbabilities == old(stateProbabilities) && evs == old(evs)
      ensures infosets == old(infosets) && strategy == old(strategy) && avgStrategy == old(avgStrategy)
      ensures regrets == old(regrets) && children == old(children) && sign == old(sign) && iterCount == old(iterCount)
      ensures ChildSnapshots() == old(ChildSnapshots())
    {
      totalProbabilities := t;
      assert forall a :: 0 <= a < |children| ==> ChildSnapshots()[a] == old(ChildSnapshots())[a];
    }

    /** The assignment to the regrets, which leaves everything else as it was. */
    method SetRegrets(r: Matrix)
      requires Valid() && IsMatrix(r, |children|, |infosets|)
      modifies this
      ensures Valid() && Repr == old(Repr) && ChildReprs == old(ChildReprs)
      ensures regrets == r && name == old(name) && stateProbabilities == old(stateProbabilities) && evs == old(evs)
      ensures infosets == old(infosets) && strategy == old(strategy) && avgStrategy == old(avgStrategy)
      ensures totalProbabilities == old(totalProbabilities) && children == old(children) && sign == old(sign)
      ensures iterCount == old(iterCount)
      ensures ChildSnapshots() == old(ChildSnapshots())
    {
      regrets := r;
      assert forall a :: 0 <= a < |children| ==> ChildSnapshots()[a] == old(ChildSnapshots())[a];
    }

    /**
     * `update_probabilities`: the accumulated infoset reach is initialised from the current
     * reach when it sums to zero; then every child gets the node's reach times its row of
     * the expanded strategy, and passes it on.
     */
    method UpdateProbabilities()
      requires Valid()
      modifies Repr
      ensures Valid() && Repr == old(Repr) && ChildReprs == old(ChildReprs) && stateProbabilities == old(stateProbabilities)
      ensures Snapshot() == ReachStep(old(Snapshot()), old(stateProbabilities))
      ensures ReachPropagated()
      ensures old(StrategiesMixed()) ==> StrategiesMixed()
      decreases Repr, 3
    {
      ghost var before := Snapshot();
      InitTotalProbabilities();
      var expanded := ExpandStrategy();
      PropagateReach(expanded);
      ReachStepReached(before, stateProbabilities);
    }

    /** `set_state_probabilities(row)` followed by `update_probabilities`, as a parent calls them on a child. */
    method ReceiveReach(row: Vector)
      requires Valid() && |row| == |stateProbabilities|
      modifies Repr
      ensures Valid() && Repr == old(Repr) && ChildReprs == old(ChildReprs) && stateProbabilities == row
      ensures Snapshot() == ReachStep(old(Snapshot()), row)
      decreases Repr, 4
    {
      ghost var before := Snapshot();
      SetStateProbabilities(row);
      ghost var reset := Snapshot();
      UpdateProbabilities();
      ReachStepIgnoresReach(reset, before, row);
    }

    /** The first step of `update_probabilities`: the accumulated infoset reach, when it sums to zero, becomes that of the current reach. */
    method InitTotalProbabilities()
      requires Valid()
      modifies this
      ensures Valid() && Repr == old(Repr) && ChildReprs == old(ChildReprs)
      ensures totalProbabilities == if Sum(old(totalProbabilities)) == 0.0 then InfosetProbabilities(infosets, stateProbabilities) else old(totalProbabilities)
      ensures name == old(name) && stateProbabilities == old(stateProbabilities) && evs == old(evs)
      ensures infosets == old(infosets) && strategy == old(strategy) && avgStrategy == old(avgStrategy)
      ensures regrets == old(regrets) && children == old(children) && sign == old(sign) && iterCount == old(iterCount)
      ensures ChildSnapshots() == old(ChildSnapshots())
    {
      if Sum(totalProbabilities) == 0.0 {
        SetTotalProbabilities(InfosetProbabilities(infosets, stateProbabilities));
      }
    }

    /** The loop over the children of `update_probabilities`. */
    method PropagateReach(expanded: Matrix)
      requires Valid() && expanded == ExpandedOf(strategy, infosets, |children|, |stateProbabilities|)
      modifies Repr - {this}
      ensures Valid()
      ensures ChildSnapshots() == ChildrenOf(ReachStep(old(Snapshot()), stateProbabilities))
      decreases Repr, 2
    {
      ghost var start := ChildSnapshots();
      var reach, n := stateProbabilities, |children|;
      var rows := seq(n, b requires 0 <= b < n => Times(reach, expanded[b]));
      for a := 0 to |children|
        invariant Valid()
        invariant forall b :: 0 <= b < a ==> ChildSnapshot(children[b], ChildReprs[b], |stateProbabilities|) == ReachStep(start[b], rows[b])
        invariant forall b :: a <= b < |children| ==> ChildSnapshot(children[b], ChildReprs[b], |stateProbabilities|) == start[b]
      {
        PropagateTo(a, rows[a]);
      }
      ghost var target := ChildrenOf(ReachStep(old(Snapshot()), stateProbabilities));
      assert forall b :: 0 <= b < |children| ==> ChildSnapshots()[b] == target[b];
    }

    /**
     * One step of that loop: child a takes `row` as its reach and updates its own children;
     * the other children keep theirs.
     */
    method PropagateTo(a: nat, row: Vector)
      requires Valid() && a < |children| && |row| == |stateProbabilities|
      modifies ChildReprs[a]
      ensures Valid()
      ensures ChildSnapshot(children[a], ChildReprs[a], |stateProbabilities|) == ReachStep(old(ChildSnapshot(children[a], ChildReprs[a], |stateProbabilities|)), row)
      ensures forall b :: 0 <= b < |children| && b != a ==> ChildSnapshot(children[b], ChildReprs[b], |stateProbabilities|) == old(ChildSnapshot(children[b], ChildReprs[b], |stateProbabilities|))
      decreases Repr, 1
    {
      if children[a].Act? {
        PropagateToNode(a, row);
      } else {
        children[a].leaf.SetStateProbabilities(row);
        children[a].leaf.UpdateProbabilities();
      }
    }

    /** PropagateTo for a child that is an action node. */
    method PropagateToNode(a: nat, row: Vector)
      requires Valid() && a < |children| && children[a].Act? && |row| == |stateProbabilities|
      modifies ChildReprs[a]
      ensures Valid()
      ensures ChildSnapshot(children[a], ChildReprs[a], |stateProbabilities|) == ReachStep(old(ChildSnapshot(children[a], ChildReprs[a], |stateProbabilities|)), row)
      ensures forall b :: 0 <= b < |children| && b != a ==> ChildSnapshot(children[b], ChildReprs[b], |stateProbabilities|) == old(ChildSnapshot(children[b], ChildReprs[b], |stateProbabilities|))
      decreases Repr, 0
    {
      var n := children[a].node;
      assert ChildValid(children[a], ChildReprs[a], |stateProbabilities|);
      n.ReceiveReach(row);
      forall b | 0 <= b < |children| && b != a
        ensures ChildValid(children[b], ChildReprs[b], |stateProbabilities|)
        ensures ChildSnapshot(children[b], ChildReprs[b], |stateProbabilities|) == old(ChildSnapshot(children[b], ChildReprs[b], |stateProbabilities|))
      {
        assert ChildReprs[b] !! ChildReprs[a];
      }
    }

    /**
     * `update_ev`: the children first, then the node's value of every state from the
     * children's payouts weighted by their reach.
     */
    method UpdateEv()
      requires Valid()
      modifies Repr
      ensures Valid() && Repr == old(Repr) && ChildReprs == old(ChildReprs) && stateProbabilities == old(stateProbabilities)
      ensures Snapshot() == EvStep(old(Snapshot()), |stateProbabilities|)
      ensures EvsComputed()
      ensures old(ReachPropagated()) ==> ReachPropagated()
      ensures old(StrategiesMixed()) ==> StrategiesMixed()
      decreases Repr, 3
    {
      ghost var before := Snapshot();
      UpdateChildrenEv();
      ChildSnapshotsShow();
      SetEvs(EvOf(PayoutsOf(children), ProbabilitiesOf(children), stateProbabilities));
      EvStepComputed(before, |stateProbabilities|);
    }

    /** The assignment to the node's own values, which leaves everything below the node as it was. */
    method SetEvs(v: Vector)
      requires Valid() && |v| == |stateProbabilities|
      modifies this
      ensures evs == v
      ensures Valid() && Repr == old(Repr) && ChildReprs == old(ChildReprs)
      ensures name == old(name) && stateProbabilities == old(stateProbabilities) && totalProbabilities == old(totalProbabilities)
      ensures infosets == old(infosets) && strategy == old(strategy) && avgStrategy == old(avgStrategy)
      ensures regrets == old(regrets) && children == old(children) && sign == old(sign) && iterCount == old(iterCount)
      ensures ChildSnapshots() == old(ChildSnapshots())
    {
      evs := v;
      assert forall a :: 0 <= a < |children| ==> ChildSnapshots()[a] == old(ChildSnapshots())[a];
    }

    /** The loop over the children of `update_ev`. */
    method UpdateChildrenEv()
      requires Valid()
      modifies Repr - {this}
      ensures Valid()
      ensures ChildSnapshots() == ChildrenOf(EvStep(old(Snapshot()), |stateProbabilities|))
      decreases Repr, 2
    {
      ghost var start := ChildSnapshots();
      for a := 0 to |children|
        invariant Valid()
        invariant forall b :: 0 <= b < a ==> ChildSnapshot(children[b], ChildReprs[b], |stateProbabilities|) == EvStep(start[b], |stateProbabilities|)
        invariant forall b :: a <= b < |children| ==> ChildSnapshot(children[b], ChildReprs[b], |stateProbabilities|) == start[b]
      {
        UpdateEvAt(a);
      }
      ghost var target := ChildrenOf(EvStep(old(Snapshot()), |stateProbabilities|));
      assert forall b :: 0 <= b < |children| ==> ChildSnapshots()[b] == target[b];
    }

    /** One step of that loop: child a updates its values; the other children keep theirs. */
    method UpdateEvAt(a: nat)
      requires Valid() && a < |children|
      modifies ChildReprs[a]
      ensures Valid()
      ensures ChildSnapshot(children[a], ChildReprs[a], |stateProbabilities|) == EvStep(old(ChildSnapshot(children[a], ChildReprs[a], |stateProbabilities|)), |stateProbabilities|)
      ensures forall b :: 0 <= b < |children| && b != a ==> ChildSnapshot(children[b], ChildReprs[b], |stateProbabilities|) == old(ChildSnapshot(children[b], ChildReprs[b], |stateProbabilities|))
      decreases Repr, 1
    {
      if children[a].Act? {
        UpdateEvAtNode(a);
      } else {
        children[a].leaf.UpdateEv();
      }
    }

    /** UpdateEvAt for a child that is an action node. */
    method UpdateEvAtNode(a: nat)
      requires Valid() && a < |children| && children[a].Act?
      modifies ChildReprs[a]
      ensures Valid()
      ensures ChildSnapshot(children[a], ChildReprs[a], |stateProbabilities|) == EvStep(old(ChildSnapshot(children[a], ChildReprs[a], |stateProbabilities|)), |stateProbabilities|)
      ensures forall b :: 0 <= b < |children| && b != a ==> ChildSnapshot(children[b], ChildReprs[b], |stateProbabilities|) == old(ChildSnapshot(children[b], ChildReprs[b], |stateProbabilities|))
      decreases Repr, 0
    {
      var n := children[a].node;
      assert ChildValid(children[a], ChildReprs[a], |stateProbabilities|);
      n.UpdateEv();
      forall b | 0 <= b < |children| && b != a
        ensures ChildValid(children[b], ChildReprs[b], |stateProbabilities|)
        ensures ChildSnapshot(children[b], ChildReprs[b], |stateProbabilities|) == old(ChildSnapshot(children[b], ChildReprs[b], |stateProbabilities|))
      {
        assert ChildReprs[b] !! ChildReprs[a];
      }
    }

    /**
     * `update_strategy`: with m the infoset mass of the current reach, the regrets become
     * (R + r · m) · t / (t + 1) for the current regret r and the iteration count t; the
     * strategy is regret-matched from them; the average strategy mixes the old average and
     * the new strategy by the accumulated and the current mass; the count goes up by one and
     * m is added to the accumulated mass. Then the children update theirs.
     */
    method UpdateStrategy()
      requires Valid()
      modifies Repr
      ensures Valid() && Repr == old(Repr) && ChildReprs == old(ChildReprs) && stateProbabilities == old(stateProbabilities)
      ensures Snapshot() == StrategyStep(old(Snapshot()), |stateProbabilities|)
      ensures StrategiesMixed()
      ensures old(EvsComputed()) ==> EvsComputed()
      decreases Repr, 3
    {
      ghost var before := Snapshot();
      UpdateOwnStrategy();
      ghost var own := Snapshot();
      UpdateChildrenStrategy();
      StepChildrenAgree(before, own, |stateProbabilities|);
      StrategyStepMixed(before, |stateProbabilities|);
    }

    /** The node's own part of `update_strategy`, before it turns to the children. */
    method UpdateOwnStrategy()
      requires Valid()
      modifies this
      ensures Valid() && Repr == old(Repr) && ChildReprs == old(ChildReprs)
      ensures name == old(name) && stateProbabilities == old(stateProbabilities) && evs == old(evs)
      ensures infosets == old(infosets) && children == old(children) && sign == old(sign)
      ensures iterCount == old(iterCount) + 1
      ensures totalProbabilities == Plus(old(totalProbabilities), InfosetProbabilities(infosets, stateProbabilities))
      ensures regrets == RegretStep(
        old(regrets),
        RegretOf(ActionEvsOf(infosets, PayoutsOfStates(ChildSnapshots(), |stateProbabilities|),
                             ReachOfStates(ChildSnapshots(), |stateProbabilities|)),
                 InfosetEvs(infosets, evs, stateProbabilities), sign),
        InfosetProbabilities(infosets, stateProbabilities),
        old(iterCount))
      ensures strategy == RegretMatchOf(regrets, |infosets|)
      ensures avgStrategy == AverageStep(old(avgStrategy), old(totalProbabilities), strategy, InfosetProbabilities(infosets, stateProbabilities))
      ensures ChildSnapshots() == old(ChildSnapshots())
    {
      var ip := InfosetProbabilities(infosets, stateProbabilities);
      UpdateRegrets();
      var matched := RegretMatch();
      SetStrategies(matched, AverageStep(avgStrategy, totalProbabilities, matched, ip), Plus(totalProbabilities, ip));
    }

    /** The regret update of `update_strategy`, from the node's values and its children's. */
    method UpdateRegrets()
      requires Valid()
      modifies this
      ensures Valid() && Repr == old(Repr) && ChildReprs == old(ChildReprs)
      ensures name == old(name) && stateProbabilities == old(stateProbabilities) && evs == old(evs)
      ensures infosets == old(infosets) && children == old(children) && sign == old(sign)
      ensures totalProbabilities == old(totalProbabilities) && strategy == old(strategy) && avgStrategy == old(avgStrategy)
      ensures iterCount == old(iterCount)
      ensures regrets == RegretStep(
        old(regrets),
        RegretOf(ActionEvsOf(infosets, PayoutsOfStates(ChildSnapshots(), |stateProbabilities|),
                             ReachOfStates(ChildSnapshots(), |stateProbabilities|)),
                 InfosetEvs(infosets, evs, stateProbabilities), sign),
        InfosetProbabilities(infosets, stateProbabilities),
        iterCount)
      ensures ChildSnapshots() == old(ChildSnapshots())
    {
      ChildSnapshotsShow();
      ChildShapes();
      var cr := CurrentRegret();
      SetRegrets(RegretStep(regrets, cr, InfosetProbabilities(infosets, stateProbabilities), iterCount));
    }

    /**
     * The assignments to the node's strategy, average strategy, iteration count and accumulated
     * mass, which leave everything below the node as it was.
     */
    method SetStrategies(s: Matrix, avg: Matrix, total: Vector)
      requires Valid()
      requires IsMatrix(s, |children|, |infosets|) && IsMatrix(avg, |children|, |infosets|) && |total| == |infosets|
      modifies this
      ensures strategy == s && avgStrategy == avg && totalProbabilities == total && iterCount == old(iterCount) + 1
      ensures Valid() && Repr == old(Repr) && ChildReprs == old(ChildReprs)
      ensures name == old(name) && stateProbabilities == old(stateProbabilities) && evs == old(evs)
      ensures infosets == old(infosets) && regrets == old(regrets) && children == old(children) && sign == old(sign)
      ensures ChildSnapshots() == old(ChildSnapshots())
    {
      strategy := s;
      avgStrategy := avg;
      iterCount := iterCount + 1;
      totalProbabilities := total;
      assert forall a :: 0 <= a < |children| ==> ChildSnapshots()[a] == old(ChildSnapshots())[a];
    }

    /** The loop over the children of `update_strategy`. */
    method UpdateChildrenStrategy()
      requires Valid()
      modifies Repr - {this}
      ensures Valid()
      ensures ChildSnapshots() == ChildrenOf(StrategyStep(old(Snapshot()), |stateProbabilities|))
      decreases Repr, 2
    {
      ghost var start := ChildSnapshots();
      for a := 0 to |children|
        invariant Valid()
        invariant forall b :: 0 <= b < a ==> ChildSnapshot(children[b], ChildReprs[b], |stateProbabilities|) == StrategyStep(start[b], |stateProbabilities|)
        invariant forall b :: a <= b < |children| ==> ChildSnapshot(children[b], ChildReprs[b], |stateProbabilities|) == start[b]
      {
        UpdateStrategyAt(a);
      }
      ghost var target := ChildrenOf(StrategyStep(old(Snapshot()), |stateProbabilities|));
      assert forall b :: 0 <= b < |children| ==> ChildSnapshots()[b] == target[b];
    }

    /** One step of that loop: child a updates its strategies; the other children keep theirs. */
    method UpdateStrategyAt(a: nat)
      requires Valid() && a < |children|
      modifies ChildReprs[a]
      ensures Valid()
      ensures ChildSnapshot(children[a], ChildReprs[a], |stateProbabilities|) == StrategyStep(old(ChildSnapshot(children[a], ChildReprs[a], |stateProbabilities|)), |stateProbabilities|)
      ensures forall b :: 0 <= b < |children| && b != a ==> ChildSnapshot(children[b], ChildReprs[b], |stateProbabilities|) == old(ChildSnapshot(children[b], ChildReprs[b], |stateProbabilities|))
      decreases Repr, 1
    {
      if children[a].Act? {
        UpdateStrategyAtNode(a);
      } else {
        children[a].leaf.UpdateStrategy();
      }
    }

    /** UpdateStrategyAt for a child that is an action node. */
    method UpdateStrategyAtNode(a: nat)
      requires Valid() && a < |children| && children[a].Act?
      modifies ChildReprs[a]
      ensures Valid()
      ensures ChildSnapshot(children[a], ChildReprs[a], |stateProbabilities|) == StrategyStep(old(ChildSnapshot(children[a], ChildReprs[a], |stateProbabilities|)), |stateProbabilities|)
      ensures forall b :: 0 <= b < |children| && b != a ==> ChildSnapshot(children[b], ChildReprs[b], |stateProbabilities|) == old(ChildSnapshot(children[b], ChildReprs[b], |stateProbabilities|))
      decreases Repr, 0
    {
      var n := children[a].node;
      assert ChildValid(children[a], ChildReprs[a], |stateProbabilities|);
      n.UpdateStrategy();
      forall b | 0 <= b < |children| && b != a
        ensures ChildValid(children[b], ChildReprs[b], |stateProbabilities|)
        ensures ChildSnapshot(children[b], ChildReprs[b], |stateProbabilities|) == old(ChildSnapshot(children[b], ChildReprs[b], |stateProbabilities|))
      {
        assert ChildReprs[b] !! ChildReprs[a];
      }
    }

    /**
     * `regret_match`: column by column, the clamped regrets; a column with no positive
     * regret becomes uniform over the children, any other is shifted by ε and normalised.
     */
    method RegretMatch() returns (result: Matrix)
      requires IsMatrix(regrets, |children|, |infosets|)
      ensures result == RegretMatchOf(regrets, |infosets|)
    {
      result := Zeros(|children|, |infosets|);
      for k := 0 to |infosets|
        invariant IsMatrix(result, |children|, |infosets|)
        invariant forall a, l :: 0 <= a < |children| && 0 <= l < k ==>
          result[a][l] == MatchColumn(Column(regrets, l))[a]
      {
        result := WithColumn(result, k, MatchColumn(Column(regrets, k)));
      }
      var matched := RegretMatchOf(regrets, |infosets|);
      forall a | 0 <= a < |children|
        ensures result[a] == matched[a]
      {
        assert forall l :: 0 <= l < |infosets| ==> result[a][l] == matched[a][l];
      }
    }
  }
  /**
   * The tree of the test `test_update_tree`: a root over three states, each its own
   * information set, playing the uniform strategy over three terminal children.
   */
  method UpdateTree() returns (root: ActionNode)
    ensures root.Valid() && fresh(root.Repr)
    ensures root.iterCount == 1 && |root.children| == 3 && root.infosets == [[0], [1], [2]]
    ensures root.stateProbabilities == Constant(3, 1.0 / 3.0) && root.totalProbabilities == Constant(3, 0.0)
  {
    var zeros := Constant(3, 0.0);
    var a := new TerminalNode("a", zeros, [3.0, 2.0, 3.0]);
    var b := new TerminalNode("b", zeros, [1.0, 2.5, 2.0]);
    var c := new TerminalNode("c", zeros, [4.0, 2.0, 2.0]);
    var third := Constant(3, 1.0 / 3.0);
    var uniform := [third, third, third];
    ghost var reprs: seq<set<object>> := [{a}, {b}, {c}];
    assert reprs[..2] == [{a}, {b}] && reprs[..2][..1] == [{a}] && reprs[..2][..1][..0] == [];
    assert Union(reprs[..2][..1]) == {a} && Union(reprs[..2]) == {a, b} && Union(reprs) == {a, b, c};
    root := new ActionNode("root", Constant(3, 1.0 / 3.0), zeros, zeros, [[0], [1], [2]], uniform, uniform,
                           Zeros(3, 3), [Term(a), Term(b), Term(c)], 1, 1, reprs);
  }

  /**
   * On a state shaped like that tree, one iteration adds the current infoset mass twice to
   * the accumulated mass: once initialising it, once in the strategy step.
   */
  lemma IterationTotals(s: NodeState)
    requires Formed(s, 3) && s.ActionState? && s.infosets == [[0], [1], [2]] && s.iterCount == 1
    requires s.stateProbabilities == Constant(3, 1.0 / 3.0) && s.totalProbabilities == Constant(3, 0.0)
    ensures var p := s.stateProbabilities;
      var r := ReachStep(StrategyStep(EvStep(ReachStep(s, p), 3), 3), p);
      r.totalProbabilities == Constant(3, 2.0 / 3.0) && r.iterCount == 2
  {
    var p := s.stateProbabilities;
    SumConstant(3, 0.0);
    var s1 := ReachStep(s, p);
    assert s1.totalProbabilities == Constant(3, 1.0 / 3.0);
    var s3 := StrategyStep(EvStep(s1, 3), 3);
    assert s3.totalProbabilities == Constant(3, 2.0 / 3.0);
    SumConstant(3, 2.0 / 3.0);
  }

  /** One CFR iteration on that tree: reach, values, strategy and reach again. */
  method UpdateTreeExample() returns (root: ActionNode)
    ensures root.Valid() && root.iterCount == 2
    ensures root.totalProbabilities == Constant(3, 2.0 / 3.0)
    ensures root.ReachPropagated() && root.StrategiesMixed()
  {
    root := UpdateTree();
    ghost var start := root.Snapshot();
    root.UpdateProbabilities();
    root.UpdateEv();
    root.UpdateStrategy();
    root.UpdateProbabilities();
    IterationTotals(start);
  }
}
