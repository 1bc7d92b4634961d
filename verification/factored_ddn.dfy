/** FactoredDynamicDecisionNetwork: a decision network over factored
    actions. The node of each state variable depends on a subset of the
    action variables (its action tag) and holds one conditional probability
    table per joint assignment of that subset. */
module FactoredDdn {
  import opened Sums
  import opened FactorSpace
  import opened BayesianNetwork

  /** FactoredDDN::Node: `nodes[k]` is the table used when the action
      variables of `actionTag` take their k-th joint assignment. */
  datatype ActionNode = ActionNode(actionTag: seq<nat>, nodes: seq<Node>)

  /** `nodes[i]` is the node of state variable i (what operator[] returns). */
  datatype FactoredDDN = FactoredDDN(nodes: seq<ActionNode>)

  /** One table per joint assignment of a valid action tag, each shaped for
      variable `child`. */
  predicate ActionNodeShape(space: Factors, actions: Factors, child: nat, an: ActionNode)
  {
    IsSpace(actions) && IsTagOf(actions, an.actionTag) &&
    |an.nodes| == DomainSize(actions, an.actionTag) &&
    forall k :: 0 <= k < |an.nodes| ==> NodeShape(space, child, an.nodes[k])
  }

  predicate DdnShape(space: Factors, actions: Factors, ddn: FactoredDDN)
  {
    IsSpace(space) && IsSpace(actions) && |ddn.nodes| == |space| &&
    forall i :: 0 <= i < |ddn.nodes| ==> ActionNodeShape(space, actions, i, ddn.nodes[i])
  }

  predicate DdnStochastic(ddn: FactoredDDN)
  {
    forall i, k :: 0 <= i < |ddn.nodes| && 0 <= k < |ddn.nodes[i].nodes| ==> Stochastic(ddn.nodes[i].nodes[k])
  }

  // ---------------------------------------------------------------------
  // Choosing the tables of an action
  // ---------------------------------------------------------------------

  /** The table of `an` for the values `a` gives to its action tag. */
  function SelectNode(space: Factors, actions: Factors, child: nat, an: ActionNode, a: PartialFactors): (n: Node)
    requires ActionNodeShape(space, actions, child, an) && IsPartial(actions, a) && Covers(a, an.actionTag)
    ensures NodeShape(space, child, n) && n in an.nodes
  {
    an.nodes[ToIndex(actions, an.actionTag, Project(actions, a, an.actionTag))]
  }

  /** The network of the full action `a`: each variable's table for the
      values `a` gives to that variable's action tag. */
  function SelectNetwork(space: Factors, actions: Factors, ddn: FactoredDDN, a: Factors): (r: seq<Node>)
    requires DdnShape(space, actions, ddn) && IsFull(actions, a)
    ensures NetShape(space, r)
    ensures forall i :: 0 <= i < |r| ==> r[i] in ddn.nodes[i].nodes
  {
    seq(|ddn.nodes|, i requires 0 <= i < |ddn.nodes| =>
      var an := ddn.nodes[i];
      an.nodes[ToIndex(actions, an.actionTag, Select(a, an.actionTag))])
  }

  /** `a` assigns every action variable the children of `tag` depend on. */
  predicate ActionsCovered(ddn: FactoredDDN, a: PartialFactors, tag: seq<nat>)
  {
    forall k :: 0 <= k < |tag| ==> tag[k] < |ddn.nodes| && Covers(a, ddn.nodes[tag[k]].actionTag)
  }

  /** The tables the partial action `a` selects for the children of `tag`. */
  function SelectChildren(space: Factors, actions: Factors, ddn: FactoredDDN, a: PartialFactors, tag: seq<nat>)
    : (r: seq<Node>)
    requires DdnShape(space, actions, ddn) && IsPartial(actions, a) && ActionsCovered(ddn, a, tag)
    ensures |r| == |tag|
    ensures forall k :: 0 <= k < |tag| ==> NodeShape(space, tag[k], r[k]) && r[k] in ddn.nodes[tag[k]].nodes
  {
    seq(|tag|, k requires 0 <= k < |tag| => SelectNode(space, actions, tag[k], ddn.nodes[tag[k]], a))
  }

  // ---------------------------------------------------------------------
  // getTransitionProbability
  // ---------------------------------------------------------------------

  /** The full query: the transition probability of the network of `a`. */
  function FactoredTransitionProbability(space: Factors, actions: Factors, ddn: FactoredDDN,
                                         s: Factors, a: Factors, s1: Factors): real
    requires DdnShape(space, actions, ddn) && IsFull(space, s) && IsFull(actions, a) && IsFull(space, s1)
  {
    TransitionProbability(space, SelectNetwork(space, actions, ddn, a), s, s1)
  }

  /** The partial query: the product over the children of `s1` of the table
      `a` selects for each child. `a` must assign the action variables and
      `s` the parents of every child. */
  function FactoredPartialTransitionProbability(space: Factors, actions: Factors, ddn: FactoredDDN,
                                                s: PartialFactors, a: PartialFactors, s1: PartialFactors): real
    requires DdnShape(space, actions, ddn) && IsPartial(space, s) && IsPartial(actions, a) && IsPartial(space, s1)
    requires ActionsCovered(ddn, a, s1.tag)
    requires Chosen(space, SelectChildren(space, actions, ddn, a, s1.tag), s, s1.tag)
  {
    ChildrenProduct(space, SelectChildren(space, actions, ddn, a, s1.tag), s, s1)
  }

  // ---------------------------------------------------------------------
  // Properties
  // ---------------------------------------------------------------------

  /** A full action selects, for the children of any tag, the tables the
      network of that action holds for them. */
  lemma SelectFull(space: Factors, actions: Factors, ddn: FactoredDDN, a: Factors, tag: seq<nat>)
    requires DdnShape(space, actions, ddn) && IsFull(actions, a) && InScope(tag, |ddn.nodes|)
    ensures IsPartial(actions, Full(a)) && ActionsCovered(ddn, Full(a), tag)
    ensures SelectChildren(space, actions, ddn, Full(a), tag) == Gather(SelectNetwork(space, actions, ddn, a), tag)
  {
    forall k | 0 <= k < |tag|
      ensures Covers(Full(a), ddn.nodes[tag[k]].actionTag)
      ensures Project(actions, Full(a), ddn.nodes[tag[k]].actionTag) == Select(a, ddn.nodes[tag[k]].actionTag)
    {
      ProjectFull(actions, a, ddn.nodes[tag[k]].actionTag);
    }
  }

  /** The full query is the partial query with the state, the action and
      the next state covering every variable. */
  lemma FactoredFullAgreesWithPartial(space: Factors, actions: Factors, ddn: FactoredDDN,
                                      s: Factors, a: Factors, s1: Factors)
    requires DdnShape(space, actions, ddn) && IsFull(space, s) && IsFull(actions, a) && IsFull(space, s1)
    ensures IsPartial(space, Full(s)) && IsPartial(actions, Full(a)) && IsPartial(space, Full(s1))
    ensures ActionsCovered(ddn, Full(a), Full(s1).tag)
    ensures Chosen(space, SelectChildren(space, actions, ddn, Full(a), Full(s1).tag), Full(s), Full(s1).tag)
    ensures FactoredTransitionProbability(space, actions, ddn, s, a, s1) ==
            FactoredPartialTransitionProbability(space, actions, ddn, Full(s), Full(a), Full(s1))
  {
    var net := SelectNetwork(space, actions, ddn, a);
    SelectFull(space, actions, ddn, a, Full(s1).tag);
    FullAgreesWithPartial(space, net, s, s1);
    GatherChosen(space, net, Full(s), Full(s1).tag);
  }

  /** The network of any action of a stochastic decision network is
      stochastic. */
  lemma SelectStochastic(space: Factors, actions: Factors, ddn: FactoredDDN, a: Factors)
    requires DdnShape(space, actions, ddn) && DdnStochastic(ddn) && IsFull(actions, a)
    ensures NetStochastic(SelectNetwork(space, actions, ddn, a))
  {
    var net := SelectNetwork(space, actions, ddn, a);
    forall i | 0 <= i < |net|
      ensures Stochastic(net[i])
    {
      var an := ddn.nodes[i];
      assert net[i] == an.nodes[ToIndex(actions, an.actionTag, Select(a, an.actionTag))];
    }
  }

  /** Both queries are probabilities. */
  lemma FactoredProbabilityBounds(space: Factors, actions: Factors, ddn: FactoredDDN,
                                  s: PartialFactors, a: PartialFactors, s1: PartialFactors)
    requires DdnShape(space, actions, ddn) && DdnStochastic(ddn)
    requires IsPartial(space, s) && IsPartial(actions, a) && IsPartial(space, s1)
    requires ActionsCovered(ddn, a, s1.tag)
    requires Chosen(space, SelectChildren(space, actions, ddn, a, s1.tag), s, s1.tag)
    ensures 0.0 <= FactoredPartialTransitionProbability(space, actions, ddn, s, a, s1) <= 1.0
  {
    var chosen := SelectChildren(space, actions, ddn, a, s1.tag);
    forall k | 0 <= k < |chosen|
      ensures Stochastic(chosen[k])
    {
      var an := ddn.nodes[s1.tag[k]];
      assert chosen[k] == an.nodes[ToIndex(actions, an.actionTag, Project(actions, a, an.actionTag))];
    }
    ChildrenProductBounds(space, chosen, s, s1);
  }

  /** From any state under any action, the probabilities of reaching every
      full state sum to one. */
  lemma FactoredTotalProbability(space: Factors, actions: Factors, ddn: FactoredDDN, s: Factors, a: Factors)
    requires DdnShape(space, actions, ddn) && DdnStochastic(ddn) && IsFull(space, s) && IsFull(actions, a)
    ensures NetShape(space, SelectNetwork(space, actions, ddn, a))
    ensures Sum(DomainSize(space, Iota(0, |space|)), FullTerms(space, SelectNetwork(space, actions, ddn, a), s)) == 1.0
  {
    SelectStochastic(space, actions, ddn, a);
    TotalProbability(space, SelectNetwork(space, actions, ddn, a), s);
  }

  /** The partial query reads the action only on the action tags of the
      children: two actions that agree there give the same probability. */
  lemma ActionLocality(space: Factors, actions: Factors, ddn: FactoredDDN,
                       s: PartialFactors, a: PartialFactors, b: PartialFactors, s1: PartialFactors)
    requires DdnShape(space, actions, ddn) && IsPartial(space, s) && IsPartial(space, s1)
    requires IsPartial(actions, a) && ActionsCovered(ddn, a, s1.tag)
    requires IsPartial(actions, b) && ActionsCovered(ddn, b, s1.tag)
    requires forall k, v :: 0 <= k < |s1.tag| && v in ddn.nodes[s1.tag[k]].actionTag ==> ValueOf(a, v) == ValueOf(b, v)
    requires Chosen(space, SelectChildren(space, actions, ddn, a, s1.tag), s, s1.tag)
    ensures SelectChildren(space, actions, ddn, a, s1.tag) == SelectChildren(space, actions, ddn, b, s1.tag)
    ensures FactoredPartialTransitionProbability(space, actions, ddn, s, a, s1) ==
            FactoredPartialTransitionProbability(space, actions, ddn, s, b, s1)
  {
    forall k | 0 <= k < |s1.tag|
      ensures Project(actions, a, ddn.nodes[s1.tag[k]].actionTag) == Project(actions, b, ddn.nodes[s1.tag[k]].actionTag)
    {
      ProjectAgree(actions, a, b, ddn.nodes[s1.tag[k]].actionTag);
    }
  }
}
