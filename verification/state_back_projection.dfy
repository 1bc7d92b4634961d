/** backProject over a transition network: the basis function whose value at
    an assignment of the parents is the expected value of the input basis at
    the next state. Works for the owning and the non-owning network alike,
    both being read through their sequence of nodes. */
module StateBackProjection {
  import opened Sums
  import opened FactorSpace
  import opened AssignmentSums
  import opened BayesianNetwork
  import opened FactoredFunctions

  /** The scope of the result: the merge, over the children of `tag` in
      order, of each child's parent tag. Exactly the parents of those
      children. */
  function ParentScope(space: Factors, nodes: seq<Node>, tag: seq<nat>): (r: seq<nat>)
    requires NetShape(space, nodes) && InScope(tag, |nodes|)
    ensures IsTagOf(space, r)
    ensures forall k, v :: 0 <= k < |tag| && v in nodes[tag[k]].tag ==> v in r
    ensures forall v :: v in r ==> exists k :: 0 <= k < |tag| && v in nodes[tag[k]].tag
  {
    if tag == [] then []
    else
      var init := tag[..|tag| - 1];
      var last := nodes[tag[|tag| - 1]].tag;
      var r := Merge(ParentScope(space, nodes, init), last);
      assert forall k :: 0 <= k < |init| ==> init[k] == tag[k];
      assert forall i :: 0 <= i < |r| ==> r[i] in r;
      r
  }

  /** i => bf's value at the i-th assignment of its scope times the
      probability of reaching that assignment from `x`. */
  function BackTerms(space: Factors, nodes: seq<Node>, bf: BasisFunction, x: PartialFactors): nat -> real
    requires NetShape(space, nodes) && BasisShape(space, bf) && IsPartial(space, x)
    requires ParentsCovered(nodes, x, bf.tag)
  {
    (i: nat) =>
      if i < |bf.values| then Times(bf.values[i], PartialTransitionProbability(space, nodes, x, Nth(space, bf.tag, i)))
      else 0.0
  }

  /** The expected value of bf at the next state, from the partial state x. */
  function ExpectedValue(space: Factors, nodes: seq<Node>, bf: BasisFunction, x: PartialFactors): real
    requires NetShape(space, nodes) && BasisShape(space, bf) && IsPartial(space, x)
    requires ParentsCovered(nodes, x, bf.tag)
  {
    Sum(|bf.values|, BackTerms(space, nodes, bf, x))
  }

  /** Every parent of every child of `tag` is in `scope`. */
  predicate ScopeCovers(nodes: seq<Node>, scope: seq<nat>, tag: seq<nat>)
  {
    forall k :: 0 <= k < |tag| ==> tag[k] < |nodes| && forall v :: v in nodes[tag[k]].tag ==> v in scope
  }

  /** The expected value of bf from each assignment of `scope`, in canonical
      order. */
  function Expectations(space: Factors, nodes: seq<Node>, bf: BasisFunction, scope: seq<nat>): (r: seq<real>)
    requires NetShape(space, nodes) && BasisShape(space, bf)
    requires IsTagOf(space, scope) && ScopeCovers(nodes, scope, bf.tag)
    ensures |r| == DomainSize(space, scope)
  {
    var n := DomainSize(space, scope);
    seq(n, id requires 0 <= id < n => ExpectedValue(space, nodes, bf, Nth(space, scope, id)))
  }

  /** The back-projection of bf: over the parent scope, the expected value
      of bf from each assignment of the scope. */
  function BackProjection(space: Factors, nodes: seq<Node>, bf: BasisFunction): (r: BasisFunction)
    requires NetShape(space, nodes) && BasisShape(space, bf)
    ensures BasisShape(space, r) && r.tag == ParentScope(space, nodes, bf.tag)
  {
    var scope := ParentScope(space, nodes, bf.tag);
    BasisFunction(scope, Expectations(space, nodes, bf, scope))
  }

  // ---------------------------------------------------------------------
  // The algorithm
  // ---------------------------------------------------------------------

  /** The innermost loop: run `rhs` over every assignment of bf's scope,
      accumulating value times probability from `x`. */
  method Expectation(space: Factors, nodes: seq<Node>, bf: BasisFunction, x: PartialFactors,
                     rhs: PartialFactorsEnumerator) returns (v: real)
    requires NetShape(space, nodes) && BasisShape(space, bf) && IsPartial(space, x)
    requires ParentsCovered(nodes, x, bf.tag)
    requires rhs.Valid() && rhs.space == space && rhs.tag == bf.tag && rhs.index == 0
    modifies rhs
    ensures rhs.Valid() && rhs.index == |bf.values|
    ensures v == ExpectedValue(space, nodes, bf, x)
  {
    v := 0.0;
    var more := rhs.IsValid();
    while more
      invariant rhs.Valid() && rhs.index <= |bf.values|
      invariant more <==> rhs.index < |bf.values|
      invariant v == Sum(rhs.index, BackTerms(space, nodes, bf, x))
      decreases |bf.values| - rhs.index
    {
      v := AddTerm(space, nodes, bf, x, rhs, v);
      more := rhs.IsValid();
    }
  }

  /** One iteration of the innermost loop of backProject: the value of bf at
      the current assignment, weighted by its probability, is added to the
      sum and the enumerator moves on. */
  method AddTerm(space: Factors, nodes: seq<Node>, bf: BasisFunction, x: PartialFactors,
                 rhs: PartialFactorsEnumerator, v: real) returns (v': real)
    requires NetShape(space, nodes) && BasisShape(space, bf) && IsPartial(space, x)
    requires ParentsCovered(nodes, x, bf.tag)
    requires rhs.Valid() && rhs.space == space && rhs.tag == bf.tag && rhs.index < |bf.values|
    requires v == Sum(rhs.index, BackTerms(space, nodes, bf, x))
    modifies rhs
    ensures rhs.Valid() && rhs.index == old(rhs.index) + 1
    ensures v' == Sum(rhs.index, BackTerms(space, nodes, bf, x))
  {
    v' := v + Times(bf.values[rhs.index], PartialTransitionProbability(space, nodes, x, rhs.Current()));
    rhs.Advance();
  }

  /** The first loop of backProject: merge the parent tag of every child
      of `tag`, in order, into an initially empty scope. */
  method MergeParents(space: Factors, nodes: seq<Node>, tag: seq<nat>) returns (scope: seq<nat>)
    requires NetShape(space, nodes) && InScope(tag, |nodes|)
    ensures scope == ParentScope(space, nodes, tag)
  {
    scope := [];
    for k := 0 to |tag|
      invariant scope == ParentScope(space, nodes, tag[..k])
    {
      assert tag[..k + 1][..k] == tag[..k];
      scope := Merge(scope, nodes[tag[k]].tag);
    }
    assert tag[..|tag|] == tag;
  }

  /** The second loop of backProject: a dense buffer over `scope`, filled
      with one expected value per assignment of `scope`, in canonical order. */
  method FillExpectations(space: Factors, nodes: seq<Node>, bf: BasisFunction, scope: seq<nat>)
    returns (values: seq<real>)
    requires NetShape(space, nodes) && BasisShape(space, bf)
    requires IsTagOf(space, scope) && ScopeCovers(nodes, scope, bf.tag)
    ensures values == Expectations(space, nodes, bf, scope)
  {
    var size := DomainSize(space, scope);
    ghost var expected := Expectations(space, nodes, bf, scope);
    var buffer := new real[size];
    var domain := new PartialFactorsEnumerator(space, scope);
    var rhsDomain := new PartialFactorsEnumerator(space, bf.tag);
    var id := 0;
    var more := domain.IsValid();
    while more
      invariant domain != rhsDomain
      invariant domain.Valid() && domain.space == space && domain.tag == scope
      invariant rhsDomain.Valid() && rhsDomain.space == space && rhsDomain.tag == bf.tag && rhsDomain.index == 0
      invariant id == domain.index && (more <==> id < size)
      invariant buffer[..id] == expected[..id]
      decreases size - id
    {
      FillSlot(space, nodes, bf, scope, buffer, domain, rhsDomain);
      id := id + 1;
      more := domain.IsValid();
    }
    assert buffer[..] == buffer[..id];
    values := buffer[..];
  }

  /** One iteration of the first loop of backProject: the expectation from
      the current scope assignment goes into its slot, the scope enumerator
      moves on and the basis enumerator starts over. */
  method FillSlot(space: Factors, nodes: seq<Node>, bf: BasisFunction, scope: seq<nat>, buffer: array<real>,
                  domain: PartialFactorsEnumerator, rhsDomain: PartialFactorsEnumerator)
    requires NetShape(space, nodes) && BasisShape(space, bf)
    requires IsTagOf(space, scope) && ScopeCovers(nodes, scope, bf.tag)
    requires buffer.Length == DomainSize(space, scope) && domain != rhsDomain
    requires domain.Valid() && domain.space == space && domain.tag == scope && domain.index < buffer.Length
    requires rhsDomain.Valid() && rhsDomain.space == space && rhsDomain.tag == bf.tag && rhsDomain.index == 0
    requires buffer[..domain.index] == Expectations(space, nodes, bf, scope)[..domain.index]
    modifies buffer, domain, rhsDomain
    ensures domain.Valid() && domain.index == old(domain.index) + 1
    ensures rhsDomain.Valid() && rhsDomain.index == 0
    ensures buffer[..domain.index] == Expectations(space, nodes, bf, scope)[..domain.index]
  {
    ghost var expected := Expectations(space, nodes, bf, scope);
    var id := domain.index;
    var currentVal := Expectation(space, nodes, bf, domain.Current(), rhsDomain);
    assert currentVal == expected[id];
    domain.Advance();
    rhsDomain.Reset();
    Store(buffer, id, currentVal, expected);
  }

  /** Writes v at slot id of a buffer whose first id slots already hold the
      first id expected values, v being the next one. */
  method Store(buffer: array<real>, id: nat, v: real, ghost expected: seq<real>)
    requires id < buffer.Length && id < |expected|
    requires buffer[..id] == expected[..id] && v == expected[id]
    modifies buffer
    ensures buffer[..id + 1] == expected[..id + 1]
    ensures forall j :: id < j < buffer.Length ==> buffer[j] == old(buffer[j])
  {
    buffer[id] := v;
    assert buffer[..id + 1] == old(buffer[..id]) + [v];
  }

  /** backProject: the merged parent scope, and over it the expected value
      of bf from each of its assignments. */
  method BackProject(space: Factors, nodes: seq<Node>, bf: BasisFunction) returns (r: BasisFunction)
    requires NetShape(space, nodes) && BasisShape(space, bf)
    ensures r == BackProjection(space, nodes, bf)
  {
    var scope := MergeParents(space, nodes, bf.tag);
    var values := FillExpectations(space, nodes, bf, scope);
    r := BasisFunction(scope, values);
  }

  // ---------------------------------------------------------------------
  // Properties
  // ---------------------------------------------------------------------

  /** i => the probability of reaching the i-th assignment of bf's scope. */
  function ReachTerms(space: Factors, nodes: seq<Node>, bf: BasisFunction, x: PartialFactors): nat -> real
    requires NetShape(space, nodes) && BasisShape(space, bf) && IsPartial(space, x)
    requires ParentsCovered(nodes, x, bf.tag)
  {
    (i: nat) => if i < |bf.values| then PartialTransitionProbability(space, nodes, x, Nth(space, bf.tag, i)) else 0.0
  }

  /** The next values of bf's scope have total probability one. */
  lemma ReachMass(space: Factors, nodes: seq<Node>, bf: BasisFunction, x: PartialFactors)
    requires NetShape(space, nodes) && NetStochastic(nodes) && BasisShape(space, bf) && IsPartial(space, x)
    requires ParentsCovered(nodes, x, bf.tag)
    ensures Sum(|bf.values|, ReachTerms(space, nodes, bf, x)) == 1.0
  {
    var chosen := Gather(nodes, bf.tag);
    GatherChosen(space, nodes, x, bf.tag);
    ChildrenMass(space, chosen, x, bf.tag);
    forall k: nat | k < |bf.values|
      ensures Enumerated(space, bf.tag, ChildrenTerms(space, chosen, x, bf.tag))(k) ==
              ReachTerms(space, nodes, bf, x)(k)
    {
      assert InDomain(space, bf.tag, FromIndex(space, bf.tag, k));
    }
    SumExt(|bf.values|, Enumerated(space, bf.tag, ChildrenTerms(space, chosen, x, bf.tag)),
           ReachTerms(space, nodes, bf, x));
  }

  /** An expectation of values between lo and hi is between lo and hi. */
  lemma ExpectedValueBounds(space: Factors, nodes: seq<Node>, bf: BasisFunction, x: PartialFactors, lo: real, hi: real)
    requires NetShape(space, nodes) && NetStochastic(nodes) && BasisShape(space, bf) && IsPartial(space, x)
    requires ParentsCovered(nodes, x, bf.tag)
    requires forall i :: 0 <= i < |bf.values| ==> lo <= bf.values[i] <= hi
    ensures lo <= ExpectedValue(space, nodes, bf, x) <= hi
  {
    var n := |bf.values|;
    var reach := ReachTerms(space, nodes, bf, x);
    var terms := BackTerms(space, nodes, bf, x);
    var low := (i: nat) => Times(reach(i), lo);
    var high := (i: nat) => Times(reach(i), hi);
    forall k: nat | k < n
      ensures low(k) <= terms(k) <= high(k)
    {
      PartialProbabilityBounds(space, nodes, x, Nth(space, bf.tag, k));
      TimesBetween(bf.values[k], reach(k), lo, hi);
    }
    ReachMass(space, nodes, bf, x);
    SumScale(n, reach, low, lo);
    SumScale(n, reach, high, hi);
    SumMonotone(n, low, terms);
    SumMonotone(n, terms, high);
  }

  /** When bf's values lie between lo and hi, so do its back-projection's. */
  lemma BackProjectionBounds(space: Factors, nodes: seq<Node>, bf: BasisFunction, lo: real, hi: real)
    requires NetShape(space, nodes) && NetStochastic(nodes) && BasisShape(space, bf)
    requires forall i :: 0 <= i < |bf.values| ==> lo <= bf.values[i] <= hi
    ensures forall j :: 0 <= j < |BackProjection(space, nodes, bf).values| ==>
              lo <= BackProjection(space, nodes, bf).values[j] <= hi
  {
    var r := BackProjection(space, nodes, bf);
    forall j | 0 <= j < |r.values|
      ensures lo <= r.values[j] <= hi
    {
      ExpectedValueBounds(space, nodes, bf, Nth(space, r.tag, j), lo, hi);
    }
  }

  /** The expectation of a sum of two bases is the sum of their expectations. */
  lemma ExpectedValueAdd(space: Factors, nodes: seq<Node>, x: BasisFunction, y: BasisFunction, p: PartialFactors)
    requires NetShape(space, nodes) && BasisShape(space, x) && BasisShape(space, y) && x.tag == y.tag
    requires IsPartial(space, p) && ParentsCovered(nodes, p, x.tag)
    ensures BasisShape(space, Add(x, y))
    ensures ExpectedValue(space, nodes, Add(x, y), p) == ExpectedValue(space, nodes, x, p) + ExpectedValue(space, nodes, y, p)
  {
    var sum := Add(x, y);
    forall i: nat | i < |sum.values|
      ensures BackTerms(space, nodes, sum, p)(i) == BackTerms(space, nodes, x, p)(i) + BackTerms(space, nodes, y, p)(i)
    {
      TimesAdd(x.values[i], y.values[i], PartialTransitionProbability(space, nodes, p, Nth(space, x.tag, i)));
    }
    SumAdd(|sum.values|, BackTerms(space, nodes, x, p), BackTerms(space, nodes, y, p), BackTerms(space, nodes, sum, p));
  }

  /** Expectations over a scope are additive in the basis. */
  lemma ExpectationsAdd(space: Factors, nodes: seq<Node>, x: BasisFunction, y: BasisFunction, scope: seq<nat>)
    requires NetShape(space, nodes) && BasisShape(space, x) && BasisShape(space, y) && x.tag == y.tag
    requires IsTagOf(space, scope) && ScopeCovers(nodes, scope, x.tag)
    ensures BasisShape(space, Add(x, y))
    ensures forall j :: 0 <= j < DomainSize(space, scope) ==>
              Expectations(space, nodes, Add(x, y), scope)[j] ==
              Expectations(space, nodes, x, scope)[j] + Expectations(space, nodes, y, scope)[j]
  {
    forall j | 0 <= j < DomainSize(space, scope)
      ensures Expectations(space, nodes, Add(x, y), scope)[j] ==
              Expectations(space, nodes, x, scope)[j] + Expectations(space, nodes, y, scope)[j]
    {
      ExpectedValueAdd(space, nodes, x, y, Nth(space, scope, j));
    }
  }

  /** Back-projection is linear: projecting a sum of two bases over the same
      scope is summing their projections. */
  lemma BackProjectionAdd(space: Factors, nodes: seq<Node>, x: BasisFunction, y: BasisFunction)
    requires NetShape(space, nodes) && BasisShape(space, x) && BasisShape(space, y) && x.tag == y.tag
    ensures BasisShape(space, Add(x, y))
    ensures BackProjection(space, nodes, Add(x, y)) ==
            Add(BackProjection(space, nodes, x), BackProjection(space, nodes, y))
  {
    var scope := ParentScope(space, nodes, x.tag);
    ExpectationsAdd(space, nodes, x, y, scope);
    var sum := Add(BackProjection(space, nodes, x), BackProjection(space, nodes, y));
    assert BackProjection(space, nodes, Add(x, y)).values == sum.values;
  }

  /** The scope assignment that a full state selects agrees with the full
      state on every variable of the scope. */
  lemma SelectAgrees(space: Factors, s: Factors, scope: seq<nat>)
    requires IsFull(space, s) && IsSpace(space) && IsTagOf(space, scope)
    ensures IsPartial(space, Full(s)) && IsPartial(space, PartialFactors(scope, Select(s, scope)))
    ensures Covers(Full(s), scope)
    ensures forall v :: v in scope ==> ValueOf(PartialFactors(scope, Select(s, scope)), v) == ValueOf(Full(s), v)
  {
    var x := PartialFactors(scope, Select(s, scope));
    ProjectFull(space, s, scope);
    forall v | v in scope
      ensures ValueOf(x, v) == ValueOf(Full(s), v)
    {
      var j := IndexOf(scope, v);
      assert Select(s, scope)[j] == s[v];
      IndexOfIota(|s|, v);
    }
  }

  /** The expectation reads the source assignment only on the parents of
      bf's variables: two assignments that agree there give the same value. */
  lemma ExpectedValueLocality(space: Factors, nodes: seq<Node>, bf: BasisFunction, x: PartialFactors, y: PartialFactors)
    requires NetShape(space, nodes) && BasisShape(space, bf)
    requires IsPartial(space, x) && ParentsCovered(nodes, x, bf.tag)
    requires IsPartial(space, y) && ParentsCovered(nodes, y, bf.tag)
    requires forall k, v :: 0 <= k < |bf.tag| && v in nodes[bf.tag[k]].tag ==> ValueOf(x, v) == ValueOf(y, v)
    ensures ExpectedValue(space, nodes, bf, x) == ExpectedValue(space, nodes, bf, y)
  {
    forall i: nat | i < |bf.values|
      ensures BackTerms(space, nodes, bf, x)(i) == BackTerms(space, nodes, bf, y)(i)
    {
      PartialQueryLocality(space, nodes, x, y, Nth(space, bf.tag, i));
    }
    SumExt(|bf.values|, BackTerms(space, nodes, bf, x), BackTerms(space, nodes, bf, y));
  }

  /** The entry of the back-projection a full state selects is the
      expectation from that state's values on the scope. */
  lemma EvaluateProjection(space: Factors, nodes: seq<Node>, bf: BasisFunction, s: Factors)
    requires NetShape(space, nodes) && BasisShape(space, bf) && IsFull(space, s)
    ensures var scope := ParentScope(space, nodes, bf.tag);
            var x := PartialFactors(scope, Select(s, scope));
            IsPartial(space, x) && ParentsCovered(nodes, x, bf.tag) &&
            Evaluate(space, BackProjection(space, nodes, bf), s) == ExpectedValue(space, nodes, bf, x)
  {
    var scope := ParentScope(space, nodes, bf.tag);
    var sel := Select(s, scope);
    assert InDomain(space, scope, sel);
    FromToIndex(space, scope, sel);
    assert Nth(space, scope, ToIndex(space, scope, sel)) == PartialFactors(scope, sel);
  }

  /** What back-projection means: its value at a full state s is the
      expected value of bf at the next state, from s. */
  lemma BackProjectionAt(space: Factors, nodes: seq<Node>, bf: BasisFunction, s: Factors)
    requires NetShape(space, nodes) && BasisShape(space, bf) && IsFull(space, s)
    ensures IsPartial(space, Full(s)) && ParentsCovered(nodes, Full(s), bf.tag)
    ensures Evaluate(space, BackProjection(space, nodes, bf), s) == ExpectedValue(space, nodes, bf, Full(s))
  {
    var scope := ParentScope(space, nodes, bf.tag);
    var x := PartialFactors(scope, Select(s, scope));
    FullCovers(space, nodes, s, bf.tag);
    EvaluateProjection(space, nodes, bf, s);
    SelectAgrees(space, s, scope);
    ExpectedValueLocality(space, nodes, bf, x, Full(s));
  }

  // ---------------------------------------------------------------------
  // backProject of a factored vector
  // ---------------------------------------------------------------------

  /** The bases of backProject of a factored vector: the projection of each
      basis, in order, added with plusEqual into an initially empty vector. */
  function BackProjectBases(space: Factors, nodes: seq<Node>, bases: seq<BasisFunction>): (r: seq<BasisFunction>)
    requires NetShape(space, nodes) && BasesShape(space, bases)
    ensures BasesShape(space, r) && |r| <= |bases|
  {
    if bases == [] then []
    else
      PlusEqual(space, BackProjectBases(space, nodes, bases[..|bases| - 1]),
                BackProjection(space, nodes, bases[|bases| - 1]))
  }

  /** backProject of a factored vector: project each basis and add the
      result into the output. */
  method BackProjectVector(space: Factors, nodes: seq<Node>, fv: FactoredVector) returns (r: FactoredVector)
    requires NetShape(space, nodes) && BasesShape(space, fv.bases)
    ensures r.bases == BackProjectBases(space, nodes, fv.bases)
  {
    var bases: seq<BasisFunction> := [];
    for k := 0 to |fv.bases|
      invariant bases == BackProjectBases(space, nodes, fv.bases[..k])
    {
      bases := AddProjection(space, nodes, fv.bases, k, bases);
    }
    assert fv.bases[..|fv.bases|] == fv.bases;
    r := FactoredVector(bases);
  }

  /** One iteration of backProject of a factored vector: the projection of
      the k-th basis is added into the projections of the bases before it. */
  method AddProjection(space: Factors, nodes: seq<Node>, inputs: seq<BasisFunction>, k: nat,
                       bases: seq<BasisFunction>) returns (r: seq<BasisFunction>)
    requires NetShape(space, nodes) && BasesShape(space, inputs) && k < |inputs|
    requires bases == BackProjectBases(space, nodes, inputs[..k])
    ensures r == BackProjectBases(space, nodes, inputs[..k + 1])
  {
    var projected := BackProject(space, nodes, inputs[k]);
    assert inputs[..k + 1][..k] == inputs[..k];
    r := PlusEqual(space, bases, projected);
  }

  /** The sum, over the bases, of each basis' expected value from s. */
  function ExpectedSum(space: Factors, nodes: seq<Node>, bases: seq<BasisFunction>, s: Factors): real
    requires NetShape(space, nodes) && BasesShape(space, bases) && IsFull(space, s)
  {
    if bases == [] then 0.0
    else
      FullCovers(space, nodes, s, bases[|bases| - 1].tag);
      ExpectedSum(space, nodes, bases[..|bases| - 1], s) + ExpectedValue(space, nodes, bases[|bases| - 1], Full(s))
  }

  /** What backProject of a factored vector means: its value at a full
      state s is the sum of the expected values of the input's bases. */
  lemma {:induction false} BackProjectBasesAt(space: Factors, nodes: seq<Node>, bases: seq<BasisFunction>, s: Factors)
    requires NetShape(space, nodes) && BasesShape(space, bases) && IsFull(space, s)
    ensures EvaluateBases(space, BackProjectBases(space, nodes, bases), s) == ExpectedSum(space, nodes, bases, s)
  {
    if bases != [] {
      var init := bases[..|bases| - 1];
      var last := bases[|bases| - 1];
      BackProjectBasesAt(space, nodes, init, s);
      PlusEqualSum(space, BackProjectBases(space, nodes, init), BackProjection(space, nodes, last), s);
      BackProjectionAt(space, nodes, last, s);
    }
  }
}
