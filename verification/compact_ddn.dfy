/** CompactDynamicDecisionNetwork: one default transition network plus, per
    action, a list of replacement nodes. The network of an action is the
    default one with that action's replacements applied in order. */
module CompactDdn {
  import opened Sums
  import opened FactorSpace
  import opened BayesianNetwork

  /** CompactDDN::Node: a replacement for the node of variable `id`. */
  datatype DiffNode = DiffNode(id: nat, node: Node)

  /** `diffs[a]` are the replacements of action a. The two fields are what
      getDiffNodes and getDefaultTransition return. */
  datatype CompactDDN = CompactDDN(diffs: seq<seq<DiffNode>>, defaultTransition: DBN)

  /** Every replacement names a variable of the default network. */
  predicate DiffsInRange(ddn: CompactDDN)
  {
    forall a, k :: 0 <= a < |ddn.diffs| && 0 <= k < |ddn.diffs[a]| ==>
      ddn.diffs[a][k].id < |ddn.defaultTransition.nodes|
  }

  /** The node variable i ends up with after the replacements `diff` are
      applied in order to `default`: the last replacement for i wins. */
  function Override(diff: seq<DiffNode>, default: Node, i: nat): Node
  {
    if diff == [] then default
    else if diff[|diff| - 1].id == i then diff[|diff| - 1].node
    else Override(diff[..|diff| - 1], default, i)
  }

  /** The nodes of the network of action a. */
  function DiffTransition(ddn: CompactDDN, a: nat): (r: seq<Node>)
    requires a < |ddn.diffs|
    ensures |r| == |ddn.defaultTransition.nodes|
  {
    var nodes := ddn.defaultTransition.nodes;
    seq(|nodes|, i requires 0 <= i < |nodes| => Override(ddn.diffs[a], nodes[i], i))
  }

  /** makeDiffTransition: start from the default nodes and overwrite the
      slot of every replacement of action a, in order. */
  method MakeDiffTransition(ddn: CompactDDN, a: nat) returns (r: DBNRef)
    requires a < |ddn.diffs| && DiffsInRange(ddn)
    ensures r.nodes == DiffTransition(ddn, a)
  {
    var diff := ddn.diffs[a];
    var defaults := ddn.defaultTransition.nodes;
    var nodes := defaults;
    var k := 0;
    while k < |diff|
      invariant 0 <= k <= |diff|
      invariant |nodes| == |defaults|
      invariant forall i :: 0 <= i < |nodes| ==> nodes[i] == Override(diff[..k], defaults[i], i)
    {
      var d := diff[k];
      assert diff[..k + 1][..k] == diff[..k];
      nodes := nodes[d.id := d.node];
      k := k + 1;
    }
    assert diff[..k] == diff;
    r := DBNRef(nodes);
  }

  // ---------------------------------------------------------------------
  // Properties of the replacement
  // ---------------------------------------------------------------------

  /** A variable no replacement names keeps its default node. */
  lemma {:induction false} OverrideDefault(diff: seq<DiffNode>, default: Node, i: nat)
    requires forall k :: 0 <= k < |diff| ==> diff[k].id != i
    ensures Override(diff, default, i) == default
  {
    if diff != [] {
      OverrideDefault(diff[..|diff| - 1], default, i);
    }
  }

  /** A variable some replacement names gets the node of the last such
      replacement. */
  lemma {:induction false} OverrideLast(diff: seq<DiffNode>, default: Node, i: nat, k: nat)
    requires k < |diff| && diff[k].id == i
    requires forall j :: k < j < |diff| ==> diff[j].id != i
    ensures Override(diff, default, i) == diff[k].node
  {
    if k < |diff| - 1 {
      OverrideLast(diff[..|diff| - 1], default, i, k);
    }
  }

  /** Every node of the result is the default node or a replacement for
      that very variable. */
  lemma {:induction false} OverrideSource(diff: seq<DiffNode>, default: Node, i: nat)
    ensures Override(diff, default, i) == default ||
            exists k :: 0 <= k < |diff| && diff[k].id == i && Override(diff, default, i) == diff[k].node
  {
    if diff != [] && diff[|diff| - 1].id != i {
      var init := diff[..|diff| - 1];
      OverrideSource(init, default, i);
      if Override(init, default, i) != default {
        var k :| 0 <= k < |init| && init[k].id == i && Override(init, default, i) == init[k].node;
        assert diff[k] == init[k];
      }
    }
  }

  /** An action without replacements uses the default network. */
  lemma NoDiffIsDefault(ddn: CompactDDN, a: nat)
    requires a < |ddn.diffs| && ddn.diffs[a] == []
    ensures DiffTransition(ddn, a) == ddn.defaultTransition.nodes
  {
  }

  /** Replacements shaped for their variable. */
  predicate DiffsShape(space: Factors, ddn: CompactDDN)
  {
    forall a, k :: 0 <= a < |ddn.diffs| && 0 <= k < |ddn.diffs[a]| ==>
      NodeShape(space, ddn.diffs[a][k].id, ddn.diffs[a][k].node)
  }

  predicate DiffsStochastic(ddn: CompactDDN)
  {
    forall a, k :: 0 <= a < |ddn.diffs| && 0 <= k < |ddn.diffs[a]| ==> Stochastic(ddn.diffs[a][k].node)
  }

  /** When the default network and every replacement are well formed, so is
      the network of every action: a node per variable, shaped for it, each
      row a probability distribution. */
  lemma DiffTransitionWellFormed(space: Factors, ddn: CompactDDN, a: nat)
    requires a < |ddn.diffs|
    requires NetShape(space, ddn.defaultTransition.nodes) && DiffsShape(space, ddn)
    requires NetStochastic(ddn.defaultTransition.nodes) && DiffsStochastic(ddn)
    ensures NetShape(space, DiffTransition(ddn, a)) && NetStochastic(DiffTransition(ddn, a))
  {
    var nodes := ddn.defaultTransition.nodes;
    var r := DiffTransition(ddn, a);
    forall i | 0 <= i < |r|
      ensures NodeShape(space, i, r[i]) && Stochastic(r[i])
    {
      OverrideSource(ddn.diffs[a], nodes[i], i);
    }
  }

  /** From any state, the network of any action reaches some state with
      probability one. */
  lemma DiffTransitionTotal(space: Factors, ddn: CompactDDN, a: nat, s: Factors)
    requires a < |ddn.diffs|
    requires NetShape(space, ddn.defaultTransition.nodes) && DiffsShape(space, ddn)
    requires NetStochastic(ddn.defaultTransition.nodes) && DiffsStochastic(ddn)
    requires IsFull(space, s)
    ensures NetShape(space, DiffTransition(ddn, a))
    ensures Sum(DomainSize(space, Iota(0, |space|)), FullTerms(space, DiffTransition(ddn, a), s)) == 1.0
  {
    DiffTransitionWellFormed(space, ddn, a);
    TotalProbability(space, DiffTransition(ddn, a), s);
  }
}
