/** Dynamic Bayesian Networks: one conditional probability table (Node) per
    state variable, and the exact transition-probability queries over full
    and partial assignments.

    DynamicBayesianNetwork owns its nodes and DynamicBayesianNetworkRef only
    refers to nodes owned elsewhere; every node is immutable, so both are
    modelled by the sequence of node values they expose, and both answer the
    queries below through that sequence. Indexed access (`operator[]`) is
    `nodes[i]`, whose range Dafny checks at every use. */
module BayesianNetwork {
  import opened Sums
  import opened FactorSpace
  import opened AssignmentSums

  /** DBN::Node: the parent tag and the conditional probability table of
      one variable; the child is the node's position in the network. Row r
      is the r-th parent assignment in canonical order, column v the child
      value v. */
  datatype Node = Node(tag: seq<nat>, matrix: seq<seq<real>>)

  /** The owning network: `nodes[i]` is the node of variable i. */
  datatype DBN = DBN(nodes: seq<Node>)

  /** The non-owning network: `nodes[i]` is the node that its i-th
      reference denotes. */
  datatype DBNRef = DBNRef(nodes: seq<Node>)

  /** One row per parent assignment and one column per child value. */
  predicate NodeShape(space: Factors, child: nat, n: Node)
  {
    IsSpace(space) && child < |space| && IsTagOf(space, n.tag) &&
    |n.matrix| == DomainSize(space, n.tag) &&
    forall r :: 0 <= r < |n.matrix| ==> |n.matrix[r]| == space[child]
  }

  function RowTerms(row: seq<real>): nat -> real
  {
    (v: nat) => if v < |row| then row[v] else 0.0
  }

  function RowSum(row: seq<real>): real
  {
    Sum(|row|, RowTerms(row))
  }

  /** The documented node invariant: every row is non-negative and sums to 1. */
  predicate Stochastic(n: Node)
  {
    forall r :: 0 <= r < |n.matrix| ==>
      RowSum(n.matrix[r]) == 1.0 &&
      forall v :: 0 <= v < |n.matrix[r]| ==> 0.0 <= n.matrix[r][v]
  }

  /** A node per state variable, each shaped for its variable. */
  predicate NetShape(space: Factors, nodes: seq<Node>)
  {
    IsSpace(space) && |nodes| == |space| &&
    forall i :: 0 <= i < |nodes| ==> NodeShape(space, i, nodes[i])
  }

  predicate NetStochastic(nodes: seq<Node>)
  {
    forall i :: 0 <= i < |nodes| ==> Stochastic(nodes[i])
  }

  // ---------------------------------------------------------------------
  // The product over children
  // ---------------------------------------------------------------------

  /** Probability that `child` takes value `v` under node `n`, the row being
      selected by the values `s` gives to the node's parents. */
  function Entry(space: Factors, child: nat, n: Node, s: PartialFactors, v: nat): real
    requires NodeShape(space, child, n) && IsPartial(space, s) && Covers(s, n.tag)
    requires v < space[child]
  {
    n.matrix[ToIndex(space, n.tag, Project(space, s, n.tag))][v]
  }

  /** `chosen[k]` is a node for child `tag[k]` whose parents `s` assigns. */
  predicate Chosen(space: Factors, chosen: seq<Node>, s: PartialFactors, tag: seq<nat>)
  {
    |chosen| == |tag| &&
    forall k :: 0 <= k < |tag| ==> NodeShape(space, tag[k], chosen[k]) && Covers(s, chosen[k].tag)
  }

  function Tail(p: PartialFactors): PartialFactors
    requires p.tag != [] && |p.values| == |p.tag|
  {
    PartialFactors(p.tag[1..], p.values[1..])
  }

  /** The product, over the children named by `s1`, of the probability that
      each child takes its value in `s1`. */
  function ChildrenProduct(space: Factors, chosen: seq<Node>, s: PartialFactors, s1: PartialFactors): real
    requires IsSpace(space) && IsPartial(space, s) && IsPartial(space, s1)
    requires Chosen(space, chosen, s, s1.tag)
    decreases |s1.tag|
  {
    if s1.tag == [] then 1.0
    else Times(Entry(space, s1.tag[0], chosen[0], s, s1.values[0]),
               ChildrenProduct(space, chosen[1..], s, Tail(s1)))
  }

  /** The nodes of the variables of `tag`, in tag order. */
  function Gather(nodes: seq<Node>, tag: seq<nat>): (r: seq<Node>)
    requires InScope(tag, |nodes|)
    ensures |r| == |tag| && forall k :: 0 <= k < |tag| ==> r[k] == nodes[tag[k]]
  {
    seq(|tag|, k requires 0 <= k < |tag| => nodes[tag[k]])
  }

  /** `s` assigns every parent of every child in `tag`. */
  predicate ParentsCovered(nodes: seq<Node>, s: PartialFactors, tag: seq<nat>)
  {
    forall k :: 0 <= k < |tag| ==> tag[k] < |nodes| && Covers(s, nodes[tag[k]].tag)
  }

  // ---------------------------------------------------------------------
  // getTransitionProbability
  // ---------------------------------------------------------------------

  /** The full-assignment query: the product over every variable i of
      table i at the row of the parents' values in `s` and the column s1[i]. */
  function TransitionProbability(space: Factors, nodes: seq<Node>, s: Factors, s1: Factors): real
    requires NetShape(space, nodes) && IsFull(space, s) && IsFull(space, s1)
  {
    FullProductFrom(space, nodes, s, s1, 0)
  }

  function FullProductFrom(space: Factors, nodes: seq<Node>, s: Factors, s1: Factors, i: nat): real
    requires NetShape(space, nodes) && IsFull(space, s) && IsFull(space, s1) && i <= |nodes|
    decreases |nodes| - i
  {
    if i == |nodes| then 1.0
    else
      var n := nodes[i];
      Times(n.matrix[ToIndex(space, n.tag, Select(s, n.tag))][s1[i]],
            FullProductFrom(space, nodes, s, s1, i + 1))
  }

  /** The partial-assignment query: the product over only the children named
      by `s1`. The caller must supply every parent of those children in `s`. */
  function PartialTransitionProbability(space: Factors, nodes: seq<Node>, s: PartialFactors, s1: PartialFactors): real
    requires NetShape(space, nodes) && IsPartial(space, s) && IsPartial(space, s1)
    requires ParentsCovered(nodes, s, s1.tag)
  {
    ChildrenProduct(space, Gather(nodes, s1.tag), s, s1)
  }

  // ---------------------------------------------------------------------
  // Properties
  // ---------------------------------------------------------------------

  lemma EntryBounds(space: Factors, child: nat, n: Node, s: PartialFactors, v: nat)
    requires NodeShape(space, child, n) && IsPartial(space, s) && Covers(s, n.tag)
    requires v < space[child] && Stochastic(n)
    ensures 0.0 <= Entry(space, child, n, s, v) <= 1.0
  {
    var row := n.matrix[ToIndex(space, n.tag, Project(space, s, n.tag))];
    TermAtMostSum(|row|, RowTerms(row), v);
  }

  lemma {:induction false} ChildrenProductBounds(space: Factors, chosen: seq<Node>, s: PartialFactors, s1: PartialFactors)
    requires IsSpace(space) && IsPartial(space, s) && IsPartial(space, s1)
    requires Chosen(space, chosen, s, s1.tag)
    requires forall k :: 0 <= k < |chosen| ==> Stochastic(chosen[k])
    ensures 0.0 <= ChildrenProduct(space, chosen, s, s1) <= 1.0
    decreases |s1.tag|
  {
    if s1.tag != [] {
      EntryBounds(space, s1.tag[0], chosen[0], s, s1.values[0]);
      ChildrenProductBounds(space, chosen[1..], s, Tail(s1));
      UnitProduct(Entry(space, s1.tag[0], chosen[0], s, s1.values[0]),
                  ChildrenProduct(space, chosen[1..], s, Tail(s1)));
    }
  }

  /** A product of two probabilities is a probability. */
  lemma UnitProduct(e: real, p: real)
    requires 0.0 <= e <= 1.0 && 0.0 <= p <= 1.0
    ensures 0.0 <= Times(e, p) <= 1.0
  {
    assert 0.0 <= e * p;
    assert e * p <= p by {
      assert p - e * p == (1.0 - e) * p;
      assert (1.0 - e) * p >= 0.0;
    }
  }

  /** The partial query is a probability. */
  lemma PartialProbabilityBounds(space: Factors, nodes: seq<Node>, s: PartialFactors, s1: PartialFactors)
    requires NetShape(space, nodes) && NetStochastic(nodes)
    requires IsPartial(space, s) && IsPartial(space, s1) && ParentsCovered(nodes, s, s1.tag)
    ensures 0.0 <= PartialTransitionProbability(space, nodes, s, s1) <= 1.0
  {
    ChildrenProductBounds(space, Gather(nodes, s1.tag), s, s1);
  }

  /** The product over the children reads the initial assignment only at
      the parents of the chosen nodes. */
  lemma {:induction false} ChildrenProductAgree(space: Factors, chosen: seq<Node>, s: PartialFactors, t: PartialFactors,
                                                s1: PartialFactors)
    requires IsSpace(space) && IsPartial(space, s) && IsPartial(space, t) && IsPartial(space, s1)
    requires Chosen(space, chosen, s, s1.tag) && Chosen(space, chosen, t, s1.tag)
    requires forall k, v :: 0 <= k < |chosen| && v in chosen[k].tag ==> ValueOf(s, v) == ValueOf(t, v)
    ensures ChildrenProduct(space, chosen, s, s1) == ChildrenProduct(space, chosen, t, s1)
    decreases |s1.tag|
  {
    if s1.tag != [] {
      ProjectAgree(space, s, t, chosen[0].tag);
      ChildrenProductAgree(space, chosen[1..], s, t, Tail(s1));
    }
  }

  /** The partial query reads the initial assignment only at the parents of
      the children asked about: two initial assignments that agree there
      give the same probability. */
  lemma PartialQueryLocality(space: Factors, nodes: seq<Node>, s: PartialFactors, t: PartialFactors, s1: PartialFactors)
    requires NetShape(space, nodes) && IsPartial(space, s) && IsPartial(space, t) && IsPartial(space, s1)
    requires ParentsCovered(nodes, s, s1.tag) && ParentsCovered(nodes, t, s1.tag)
    requires forall k, v :: 0 <= k < |s1.tag| && v in nodes[s1.tag[k]].tag ==> ValueOf(s, v) == ValueOf(t, v)
    ensures PartialTransitionProbability(space, nodes, s, s1) == PartialTransitionProbability(space, nodes, t, s1)
  {
    GatherChosen(space, nodes, s, s1.tag);
    GatherChosen(space, nodes, t, s1.tag);
    ChildrenProductAgree(space, Gather(nodes, s1.tag), s, t, s1);
  }

  /** A full assignment assigns the parents of every node. */
  lemma FullCovers(space: Factors, nodes: seq<Node>, s: Factors, tag: seq<nat>)
    requires NetShape(space, nodes) && IsFull(space, s) && InScope(tag, |nodes|)
    ensures IsPartial(space, Full(s)) && ParentsCovered(nodes, Full(s), tag)
  {
    forall k | 0 <= k < |tag|
      ensures Covers(Full(s), nodes[tag[k]].tag)
    {
      ProjectFull(space, s, nodes[tag[k]].tag);
    }
  }

  /** The variables i .. |nodes| - 1 with the values s1 gives them, after
      the first is dropped, are the variables i + 1 .. |nodes| - 1. */
  lemma SuffixStep(space: Factors, nodes: seq<Node>, s1: Factors, i: nat)
    requires NetShape(space, nodes) && IsFull(space, s1) && i < |nodes|
    ensures IsPartial(space, PartialFactors(Iota(i, |nodes|), s1[i..]))
    ensures Iota(i, |nodes|)[0] == i && Iota(i, |nodes|)[1..] == Iota(i + 1, |nodes|)
    ensures Gather(nodes, Iota(i, |nodes|))[1..] == Gather(nodes, Iota(i + 1, |nodes|))
    ensures Tail(PartialFactors(Iota(i, |nodes|), s1[i..])) == PartialFactors(Iota(i + 1, |nodes|), s1[i + 1..])
  {
    assert s1[i..][1..] == s1[i + 1..];
  }

  /** Under a full assignment, Entry reads the row of the parents' values. */
  lemma EntryFull(space: Factors, nodes: seq<Node>, s: Factors, i: nat, v: nat)
    requires NetShape(space, nodes) && IsFull(space, s) && i < |nodes| && v < space[i]
    ensures IsPartial(space, Full(s)) && Covers(Full(s), nodes[i].tag)
    ensures Entry(space, i, nodes[i], Full(s), v) ==
            nodes[i].matrix[ToIndex(space, nodes[i].tag, Select(s, nodes[i].tag))][v]
  {
    ProjectFull(space, s, nodes[i].tag);
  }

  /** The nodes gathered for `tag` are chosen for it. */
  lemma GatherChosen(space: Factors, nodes: seq<Node>, s: PartialFactors, tag: seq<nat>)
    requires NetShape(space, nodes) && ParentsCovered(nodes, s, tag)
    ensures InScope(tag, |nodes|) && Chosen(space, Gather(nodes, tag), s, tag)
  {
  }

  lemma {:induction false} FullProductAgrees(space: Factors, nodes: seq<Node>, s: Factors, s1: Factors, i: nat)
    requires NetShape(space, nodes) && IsFull(space, s) && IsFull(space, s1) && i <= |nodes|
    requires IsPartial(space, Full(s)) && ParentsCovered(nodes, Full(s), Iota(i, |nodes|))
    ensures IsPartial(space, PartialFactors(Iota(i, |nodes|), s1[i..]))
    ensures FullProductFrom(space, nodes, s, s1, i) ==
            ChildrenProduct(space, Gather(nodes, Iota(i, |nodes|)), Full(s),
                            PartialFactors(Iota(i, |nodes|), s1[i..]))
    decreases |nodes| - i
  {
    if i < |nodes| {
      var tag := Iota(i, |nodes|);
      var chosen := Gather(nodes, tag);
      var p := PartialFactors(tag, s1[i..]);
      SuffixStep(space, nodes, s1, i);
      assert ParentsCovered(nodes, Full(s), Iota(i + 1, |nodes|));
      GatherChosen(space, nodes, Full(s), tag);
      GatherChosen(space, nodes, Full(s), Iota(i + 1, |nodes|));
      FullProductAgrees(space, nodes, s, s1, i + 1);
      EntryFull(space, nodes, s, i, s1[i]);
    }
  }

  /** The full query is the partial query with both assignments covering
      every variable. */
  lemma FullAgreesWithPartial(space: Factors, nodes: seq<Node>, s: Factors, s1: Factors)
    requires NetShape(space, nodes) && IsFull(space, s) && IsFull(space, s1)
    ensures IsPartial(space, Full(s)) && IsPartial(space, Full(s1))
    ensures ParentsCovered(nodes, Full(s), Full(s1).tag)
    ensures TransitionProbability(space, nodes, s, s1) ==
            PartialTransitionProbability(space, nodes, Full(s), Full(s1))
  {
    FullCovers(space, nodes, s, Iota(0, |nodes|));
    FullProductAgrees(space, nodes, s, s1, 0);
    assert s1[0..] == s1;
  }

  /** The full query is a probability. */
  lemma ProbabilityBounds(space: Factors, nodes: seq<Node>, s: Factors, s1: Factors)
    requires NetShape(space, nodes) && NetStochastic(nodes) && IsFull(space, s) && IsFull(space, s1)
    ensures 0.0 <= TransitionProbability(space, nodes, s, s1) <= 1.0
  {
    FullAgreesWithPartial(space, nodes, s, s1);
    PartialProbabilityBounds(space, nodes, Full(s), Full(s1));
  }

  // ---------------------------------------------------------------------
  // Probability mass
  // ---------------------------------------------------------------------

  /** v => the product over the children `tag` when they take the values v. */
  function ChildrenTerms(space: Factors, chosen: seq<Node>, s: PartialFactors, tag: seq<nat>): seq<nat> -> real
    requires IsSpace(space) && IsTagOf(space, tag) && IsPartial(space, s)
    requires Chosen(space, chosen, s, tag)
  {
    (v: seq<nat>) =>
      if InDomain(space, tag, v) then ChildrenProduct(space, chosen, s, PartialFactors(tag, v)) else 0.0
  }

  /** r => the probability that the first child of `tag` takes value r. */
  function FirstTerms(space: Factors, chosen: seq<Node>, s: PartialFactors, tag: seq<nat>): nat -> real
    requires IsSpace(space) && IsTagOf(space, tag) && IsPartial(space, s) && tag != []
    requires Chosen(space, chosen, s, tag)
  {
    (r: nat) => if r < space[tag[0]] then Entry(space, tag[0], chosen[0], s, r) else 0.0
  }

  /** The product over the children is the first child's probability times
      the product over the others. */
  lemma ChildrenTermsSplit(space: Factors, chosen: seq<Node>, s: PartialFactors, tag: seq<nat>)
    requires IsSpace(space) && IsTagOf(space, tag) && IsPartial(space, s) && tag != []
    requires Chosen(space, chosen, s, tag)
    ensures forall v :: InDomain(space, tag, v) ==>
      ChildrenTerms(space, chosen, s, tag)(v) ==
      Split(FirstTerms(space, chosen, s, tag), ChildrenTerms(space, chosen[1..], s, tag[1..]))(v)
  {
    forall v | InDomain(space, tag, v)
      ensures ChildrenTerms(space, chosen, s, tag)(v) ==
              Split(FirstTerms(space, chosen, s, tag), ChildrenTerms(space, chosen[1..], s, tag[1..]))(v)
    {
      var p := PartialFactors(tag, v);
      assert Tail(p) == PartialFactors(tag[1..], v[1..]);
      assert InDomain(space, tag[1..], v[1..]);
    }
  }

  /** The first child's values have total probability one. */
  lemma FirstMass(space: Factors, chosen: seq<Node>, s: PartialFactors, tag: seq<nat>)
    requires IsSpace(space) && IsTagOf(space, tag) && IsPartial(space, s) && tag != []
    requires Chosen(space, chosen, s, tag) && Stochastic(chosen[0])
    ensures Sum(space[tag[0]], FirstTerms(space, chosen, s, tag)) == 1.0
  {
    var n := chosen[0];
    var row := n.matrix[ToIndex(space, n.tag, Project(space, s, n.tag))];
    assert RowSum(row) == 1.0;
    SumExt(|row|, RowTerms(row), FirstTerms(space, chosen, s, tag));
  }

  /** Over all joint assignments of the children, the products sum to one. */
  lemma {:induction false} ChildrenMass(space: Factors, chosen: seq<Node>, s: PartialFactors, tag: seq<nat>)
    requires IsSpace(space) && IsTagOf(space, tag) && IsPartial(space, s)
    requires Chosen(space, chosen, s, tag)
    requires forall k :: 0 <= k < |chosen| ==> Stochastic(chosen[k])
    ensures SumOver(space, tag, ChildrenTerms(space, chosen, s, tag)) == 1.0
  {
    if tag == [] {
      SumOverEmpty(space, ChildrenTerms(space, chosen, s, tag));
      assert InDomain(space, [], []);
    } else {
      var first := FirstTerms(space, chosen, s, tag);
      var rest := ChildrenTerms(space, chosen[1..], s, tag[1..]);
      ChildrenMass(space, chosen[1..], s, tag[1..]);
      FirstMass(space, chosen, s, tag);
      ChildrenTermsSplit(space, chosen, s, tag);
      SumOverExt(space, tag, ChildrenTerms(space, chosen, s, tag), Split(first, rest));
      SumOverSplit(space, tag, first, rest);
    }
  }

  /** A full assignment enumerated in canonical order. */
  function FullFromIndex(space: Factors, k: nat): (s1: Factors)
    requires IsSpace(space)
    ensures IsFull(space, s1)
  {
    var all := Iota(0, |space|);
    var r := FromIndex(space, all, k);
    assert forall i :: 0 <= i < |r| ==> all[i] == i;
    r
  }

  function FullTerms(space: Factors, nodes: seq<Node>, s: Factors): nat -> real
    requires NetShape(space, nodes) && IsFull(space, s)
  {
    (k: nat) => TransitionProbability(space, nodes, s, FullFromIndex(space, k))
  }

  /** The k-th full state's probability is the product over every child at
      the k-th joint assignment of all variables. */
  lemma FullTermsAgree(space: Factors, nodes: seq<Node>, s: Factors)
    requires NetShape(space, nodes) && IsFull(space, s)
    ensures IsPartial(space, Full(s)) && Chosen(space, nodes, Full(s), Iota(0, |space|))
    ensures forall k: nat :: k < DomainSize(space, Iota(0, |space|)) ==>
      FullTerms(space, nodes, s)(k) ==
      Enumerated(space, Iota(0, |space|), ChildrenTerms(space, nodes, Full(s), Iota(0, |space|)))(k)
  {
    var all := Iota(0, |space|);
    FullCovers(space, nodes, s, all);
    assert Gather(nodes, all) == nodes;
    forall k: nat | k < DomainSize(space, all)
      ensures FullTerms(space, nodes, s)(k) == Enumerated(space, all, ChildrenTerms(space, nodes, Full(s), all))(k)
    {
      var v := FullFromIndex(space, k);
      FullAgreesWithPartial(space, nodes, s, v);
      assert InDomain(space, all, v);
    }
  }

  /** From any full state, the probabilities of reaching every full state
      sum to one. */
  lemma TotalProbability(space: Factors, nodes: seq<Node>, s: Factors)
    requires NetShape(space, nodes) && NetStochastic(nodes) && IsFull(space, s)
    ensures Sum(DomainSize(space, Iota(0, |space|)), FullTerms(space, nodes, s)) == 1.0
  {
    var all := Iota(0, |space|);
    FullTermsAgree(space, nodes, s);
    ChildrenMass(space, nodes, Full(s), all);
    SumExt(DomainSize(space, all), FullTerms(space, nodes, s),
           Enumerated(space, all, ChildrenTerms(space, nodes, Full(s), all)));
  }
}
