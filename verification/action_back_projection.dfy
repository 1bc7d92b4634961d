/** backProject over a factored decision network: the basis matrix whose
    value at an assignment of the state parents and of the action variables
    is the expected value of the input basis at the next state. */
module ActionBackProjection {
  import opened Sums
  import opened FactorSpace
  import opened BayesianNetwork
  import opened FactoredFunctions
  import opened AssignmentSums
  import opened FactoredDdn
  import opened StateBackProjection

  // ---------------------------------------------------------------------
  // The scopes of the result
  // ---------------------------------------------------------------------

  /** The action scope: the merge, over the children of `tag` in order, of
      each child's action tag. Exactly the action variables they read. */
  function ActionScope(space: Factors, actions: Factors, ddn: FactoredDDN, tag: seq<nat>): (r: seq<nat>)
    requires DdnShape(space, actions, ddn) && InScope(tag, |ddn.nodes|)
    ensures IsTagOf(actions, r)
    ensures forall k, v :: 0 <= k < |tag| && v in ddn.nodes[tag[k]].actionTag ==> v in r
    ensures forall v :: v in r ==> exists k :: 0 <= k < |tag| && v in ddn.nodes[tag[k]].actionTag
  {
    if tag == [] then []
    else
      var init := tag[..|tag| - 1];
      var r := Merge(ActionScope(space, actions, ddn, init), ddn.nodes[tag[|tag| - 1]].actionTag);
      assert forall k :: 0 <= k < |init| ==> init[k] == tag[k];
      assert forall i :: 0 <= i < |r| ==> r[i] in r;
      r
  }

  /** `acc` merged, in order, with the parent tag of every table of `tables`. */
  function MergeTableTags(space: Factors, acc: seq<nat>, tables: seq<Node>): (r: seq<nat>)
    requires IsTagOf(space, acc) && forall j :: 0 <= j < |tables| ==> IsTagOf(space, tables[j].tag)
    ensures IsTagOf(space, r)
    ensures forall v :: v in acc ==> v in r
    ensures forall j, v :: 0 <= j < |tables| && v in tables[j].tag ==> v in r
    ensures forall v :: v in r ==> v in acc || exists j :: 0 <= j < |tables| && v in tables[j].tag
  {
    if tables == [] then acc
    else
      var init := tables[..|tables| - 1];
      var last := tables[|tables| - 1].tag;
      assert IsTagOf(space, last);
      assert forall j :: 0 <= j < |init| ==> init[j] == tables[j];
      var r := Merge(MergeTableTags(space, acc, init), last);
      assert forall i :: 0 <= i < |r| ==> r[i] in r;
      r
  }

  /** The state scope: the merge, over the children of `tag` in order, of
      the parent tag of every table of each child. Exactly the state
      variables those tables read. */
  function StateScope(space: Factors, actions: Factors, ddn: FactoredDDN, tag: seq<nat>): (r: seq<nat>)
    requires DdnShape(space, actions, ddn) && InScope(tag, |ddn.nodes|)
    ensures IsTagOf(space, r)
    ensures forall k, j, v :: 0 <= k < |tag| && 0 <= j < |ddn.nodes[tag[k]].nodes| && v in ddn.nodes[tag[k]].nodes[j].tag ==>
              v in r
    ensures forall v :: v in r ==>
              exists k, j :: 0 <= k < |tag| && 0 <= j < |ddn.nodes[tag[k]].nodes| && v in ddn.nodes[tag[k]].nodes[j].tag
  {
    if tag == [] then []
    else
      var init := tag[..|tag| - 1];
      var an := ddn.nodes[tag[|tag| - 1]];
      assert forall j :: 0 <= j < |an.nodes| ==> NodeShape(space, tag[|tag| - 1], an.nodes[j]);
      assert forall k :: 0 <= k < |init| ==> init[k] == tag[k];
      MergeTableTags(space, StateScope(space, actions, ddn, init), an.nodes)
  }

  /** The first loop of backProject: for every child of `tag`, in order,
      merge its action tag into the action scope and the parent tag of each
      of its tables into the state scope. */
  method MergeScopes(space: Factors, actions: Factors, ddn: FactoredDDN, tag: seq<nat>)
    returns (scope: seq<nat>, actionScope: seq<nat>)
    requires DdnShape(space, actions, ddn) && InScope(tag, |ddn.nodes|)
    ensures scope == StateScope(space, actions, ddn, tag)
    ensures actionScope == ActionScope(space, actions, ddn, tag)
  {
    scope := [];
    actionScope := [];
    for k := 0 to |tag|
      invariant scope == StateScope(space, actions, ddn, tag[..k])
      invariant actionScope == ActionScope(space, actions, ddn, tag[..k])
    {
      assert tag[..k + 1][..k] == tag[..k];
      var an := ddn.nodes[tag[k]];
      actionScope := Merge(actionScope, an.actionTag);
      ghost var before := scope;
      for j := 0 to |an.nodes|
        invariant scope == MergeTableTags(space, before, an.nodes[..j])
      {
        assert an.nodes[..j + 1][..j] == an.nodes[..j];
        scope := Merge(scope, an.nodes[j].tag);
      }
      assert an.nodes[..|an.nodes|] == an.nodes;
    }
    assert tag[..|tag|] == tag;
  }

  // ---------------------------------------------------------------------
  // What the result holds
  // ---------------------------------------------------------------------

  /** Every action variable and every state parent that a table of a child
      of `tag` reads belongs to `actionScope` and to `scope`. */
  predicate ScopesCover(ddn: FactoredDDN, scope: seq<nat>, actionScope: seq<nat>, tag: seq<nat>)
  {
    forall k :: 0 <= k < |tag| ==>
      tag[k] < |ddn.nodes| &&
      (forall v :: v in ddn.nodes[tag[k]].actionTag ==> v in actionScope) &&
      (forall j, v :: 0 <= j < |ddn.nodes[tag[k]].nodes| && v in ddn.nodes[tag[k]].nodes[j].tag ==> v in scope)
  }

  /** An assignment of the scopes can be queried for the children of `tag`:
      it assigns their action tags and the parents of the tables it selects. */
  lemma ScopeAssignmentQueryable(space: Factors, actions: Factors, ddn: FactoredDDN, tag: seq<nat>,
                                 x: PartialFactors, a: PartialFactors)
    requires DdnShape(space, actions, ddn) && ScopesCover(ddn, x.tag, a.tag, tag)
    requires IsPartial(space, x) && IsPartial(actions, a)
    ensures ActionsCovered(ddn, a, tag)
    ensures Chosen(space, SelectChildren(space, actions, ddn, a, tag), x, tag)
  {
    var chosen := SelectChildren(space, actions, ddn, a, tag);
    forall k | 0 <= k < |tag|
      ensures Covers(x, chosen[k].tag)
    {
      var tables := ddn.nodes[tag[k]].nodes;
      var j :| 0 <= j < |tables| && tables[j] == chosen[k];
    }
  }

  /** i => bf's value at the i-th assignment of its scope times the
      probability of reaching that assignment from state `x` under action `a`. */
  function ActionTerms(space: Factors, actions: Factors, ddn: FactoredDDN, bf: BasisFunction,
                       x: PartialFactors, a: PartialFactors): nat -> real
    requires DdnShape(space, actions, ddn) && BasisShape(space, bf)
    requires IsPartial(space, x) && IsPartial(actions, a) && ActionsCovered(ddn, a, bf.tag)
    requires Chosen(space, SelectChildren(space, actions, ddn, a, bf.tag), x, bf.tag)
  {
    (i: nat) =>
      if i < |bf.values| then
        Times(bf.values[i], FactoredPartialTransitionProbability(space, actions, ddn, x, a, Nth(space, bf.tag, i)))
      else 0.0
  }

  /** The expected value of bf at the next state, from `x` under `a`. */
  function ActionExpectedValue(space: Factors, actions: Factors, ddn: FactoredDDN, bf: BasisFunction,
                               x: PartialFactors, a: PartialFactors): real
    requires DdnShape(space, actions, ddn) && BasisShape(space, bf)
    requires IsPartial(space, x) && IsPartial(actions, a) && ActionsCovered(ddn, a, bf.tag)
    requires Chosen(space, SelectChildren(space, actions, ddn, a, bf.tag), x, bf.tag)
  {
    Sum(|bf.values|, ActionTerms(space, actions, ddn, bf, x, a))
  }

  /** The expected value from the sid-th assignment of `scope` under the
      aid-th assignment of `actionScope`. */
  function Cell(space: Factors, actions: Factors, ddn: FactoredDDN, bf: BasisFunction,
                scope: seq<nat>, actionScope: seq<nat>, sid: nat, aid: nat): real
    requires DdnShape(space, actions, ddn) && BasisShape(space, bf)
    requires IsTagOf(space, scope) && IsTagOf(actions, actionScope) && ScopesCover(ddn, scope, actionScope, bf.tag)
  {
    var x := Nth(space, scope, sid);
    var a := Nth(actions, actionScope, aid);
    ScopeAssignmentQueryable(space, actions, ddn, bf.tag, x, a);
    ActionExpectedValue(space, actions, ddn, bf, x, a)
  }

  /** One row per assignment of `scope`, one column per assignment of
      `actionScope`, both in canonical order. */
  function ActionExpectations(space: Factors, actions: Factors, ddn: FactoredDDN, bf: BasisFunction,
                              scope: seq<nat>, actionScope: seq<nat>): (r: seq<seq<real>>)
    requires DdnShape(space, actions, ddn) && BasisShape(space, bf)
    requires IsTagOf(space, scope) && IsTagOf(actions, actionScope) && ScopesCover(ddn, scope, actionScope, bf.tag)
    ensures |r| == DomainSize(space, scope)
    ensures forall sid :: 0 <= sid < |r| ==> |r[sid]| == DomainSize(actions, actionScope)
  {
    var rows := DomainSize(space, scope);
    var cols := DomainSize(actions, actionScope);
    seq(rows, sid requires 0 <= sid < rows =>
      seq(cols, aid requires 0 <= aid < cols => Cell(space, actions, ddn, bf, scope, actionScope, sid, aid)))
  }

  /** The two scopes cover what the children of `tag` read. */
  lemma ScopesCoverChildren(space: Factors, actions: Factors, ddn: FactoredDDN, tag: seq<nat>)
    requires DdnShape(space, actions, ddn) && InScope(tag, |ddn.nodes|)
    ensures ScopesCover(ddn, StateScope(space, actions, ddn, tag), ActionScope(space, actions, ddn, tag), tag)
  {
  }

  /** The back-projection of bf through the decision network: over the
      state and action scopes, the expected value of bf from each pair of
      assignments. */
  function BackProjectionActions(space: Factors, actions: Factors, ddn: FactoredDDN, bf: BasisFunction)
    : (r: BasisMatrix)
    requires DdnShape(space, actions, ddn) && BasisShape(space, bf)
    ensures MatrixShape(space, actions, r)
    ensures r.tag == StateScope(space, actions, ddn, bf.tag) && r.actionTag == ActionScope(space, actions, ddn, bf.tag)
  {
    var scope := StateScope(space, actions, ddn, bf.tag);
    var actionScope := ActionScope(space, actions, ddn, bf.tag);
    ScopesCoverChildren(space, actions, ddn, bf.tag);
    BasisMatrix(scope, actionScope, ActionExpectations(space, actions, ddn, bf, scope, actionScope))
  }

  // ---------------------------------------------------------------------
  // The algorithm
  // ---------------------------------------------------------------------

  /** The innermost loop: run `rhs` over every assignment of bf's scope,
      accumulating value times probability from `x` under `a`. */
  method ActionExpectation(space: Factors, actions: Factors, ddn: FactoredDDN, bf: BasisFunction,
                           x: PartialFactors, a: PartialFactors, rhs: PartialFactorsEnumerator) returns (v: real)
    requires DdnShape(space, actions, ddn) && BasisShape(space, bf)
    requires IsPartial(space, x) && IsPartial(actions, a) && ActionsCovered(ddn, a, bf.tag)
    requires Chosen(space, SelectChildren(space, actions, ddn, a, bf.tag), x, bf.tag)
    requires rhs.Valid() && rhs.space == space && rhs.tag == bf.tag && rhs.index == 0
    modifies rhs
    ensures rhs.Valid()
    ensures v == ActionExpectedValue(space, actions, ddn, bf, x, a)
  {
    v := 0.0;
    var more := rhs.IsValid();
    while more
      invariant rhs.Valid() && rhs.index <= |bf.values|
      invariant more <==> rhs.index < |bf.values|
      invariant v == Sum(rhs.index, ActionTerms(space, actions, ddn, bf, x, a))
      decreases |bf.values| - rhs.index
    {
      v := AddActionTerm(space, actions, ddn, bf, x, a, rhs, v);
      more := rhs.IsValid();
    }
  }

  /** One iteration of the innermost loop: the value of bf at the current
      assignment, weighted by its probability, is added to the sum and the
      enumerator moves on. */
  method AddActionTerm(space: Factors, actions: Factors, ddn: FactoredDDN, bf: BasisFunction,
                       x: PartialFactors, a: PartialFactors, rhs: PartialFactorsEnumerator, v: real)
    returns (v': real)
    requires DdnShape(space, actions, ddn) && BasisShape(space, bf)
    requires IsPartial(space, x) && IsPartial(actions, a) && ActionsCovered(ddn, a, bf.tag)
    requires Chosen(space, SelectChildren(space, actions, ddn, a, bf.tag), x, bf.tag)
    requires rhs.Valid() && rhs.space == space && rhs.tag == bf.tag && rhs.index < |bf.values|
    requires v == Sum(rhs.index, ActionTerms(space, actions, ddn, bf, x, a))
    modifies rhs
    ensures rhs.Valid() && rhs.index == old(rhs.index) + 1
    ensures v' == Sum(rhs.index, ActionTerms(space, actions, ddn, bf, x, a))
  {
    v' := v + Times(bf.values[rhs.index],
                    FactoredPartialTransitionProbability(space, actions, ddn, x, a, rhs.Current()));
    rhs.Advance();
  }

  /** The cell of the current state and action assignments: its expected
      value is written at (sId, aId), the action enumerator moves on and the
      basis enumerator starts over. */
  method FillCell(space: Factors, actions: Factors, ddn: FactoredDDN, bf: BasisFunction,
                  scope: seq<nat>, actionScope: seq<nat>, values: array2<real>, sId: nat, aId: nat,
                  sDomain: PartialFactorsEnumerator, aDomain: PartialFactorsEnumerator,
                  rhsDomain: PartialFactorsEnumerator, ghost expected: seq<seq<real>>)
    requires DdnShape(space, actions, ddn) && BasisShape(space, bf)
    requires IsTagOf(space, scope) && IsTagOf(actions, actionScope) && ScopesCover(ddn, scope, actionScope, bf.tag)
    requires expected == ActionExpectations(space, actions, ddn, bf, scope, actionScope)
    requires values.Length0 == |expected| && values.Length1 == DomainSize(actions, actionScope)
    requires sDomain != aDomain && sDomain != rhsDomain && aDomain != rhsDomain
    requires sDomain.Valid() && sDomain.space == space && sDomain.tag == scope && sDomain.index == sId < values.Length0
    requires aDomain.Valid() && aDomain.space == actions && aDomain.tag == actionScope
    requires aDomain.index == aId < values.Length1
    requires rhsDomain.Valid() && rhsDomain.space == space && rhsDomain.tag == bf.tag && rhsDomain.index == 0
    modifies values, aDomain, rhsDomain
    ensures aDomain.Valid() && aDomain.index == aId + 1
    ensures rhsDomain.Valid() && rhsDomain.index == 0
    ensures values[sId, aId] == expected[sId][aId]
    ensures forall i, j :: 0 <= i < values.Length0 && 0 <= j < values.Length1 && (i != sId || j != aId) ==>
              values[i, j] == old(values[i, j])
  {
    var x := sDomain.Current();
    var a := aDomain.Current();
    ScopeAssignmentQueryable(space, actions, ddn, bf.tag, x, a);
    var currentVal := ActionExpectation(space, actions, ddn, bf, x, a, rhsDomain);
    assert currentVal == expected[sId][aId];
    values[sId, aId] := currentVal;
    aDomain.Advance();
    rhsDomain.Reset();
  }

  /** The loop over the action assignments, from wherever the action
      enumerator stands to its end, for the current state assignment. */
  method FillRow(space: Factors, actions: Factors, ddn: FactoredDDN, bf: BasisFunction,
                 scope: seq<nat>, actionScope: seq<nat>, values: array2<real>, sId: nat, aId: nat,
                 sDomain: PartialFactorsEnumerator, aDomain: PartialFactorsEnumerator,
                 rhsDomain: PartialFactorsEnumerator, ghost expected: seq<seq<real>>)
    returns (aId': nat)
    requires DdnShape(space, actions, ddn) && BasisShape(space, bf)
    requires IsTagOf(space, scope) && IsTagOf(actions, actionScope) && ScopesCover(ddn, scope, actionScope, bf.tag)
    requires expected == ActionExpectations(space, actions, ddn, bf, scope, actionScope)
    requires values.Length0 == |expected| && values.Length1 == DomainSize(actions, actionScope)
    requires sDomain != aDomain && sDomain != rhsDomain && aDomain != rhsDomain
    requires sDomain.Valid() && sDomain.space == space && sDomain.tag == scope && sDomain.index == sId < values.Length0
    requires aDomain.Valid() && aDomain.space == actions && aDomain.tag == actionScope && aDomain.index == aId
    requires rhsDomain.Valid() && rhsDomain.space == space && rhsDomain.tag == bf.tag && rhsDomain.index == 0
    modifies values, aDomain, rhsDomain
    ensures aDomain.Valid() && aDomain.index == aId' == values.Length1
    ensures rhsDomain.Valid() && rhsDomain.index == 0
    ensures forall j :: aId <= j < values.Length1 ==> values[sId, j] == expected[sId][j]
    ensures forall i, j :: 0 <= i < values.Length0 && 0 <= j < values.Length1 && (i != sId || j < aId) ==>
              values[i, j] == old(values[i, j])
  {
    aId' := aId;
    var more := aDomain.IsValid();
    while more
      invariant aDomain.Valid() && aDomain.index == aId' && aId <= aId' <= values.Length1
      invariant more <==> aId' < values.Length1
      invariant rhsDomain.Valid() && rhsDomain.index == 0
      invariant forall j :: aId <= j < aId' ==> values[sId, j] == expected[sId][j]
      invariant forall i, j :: 0 <= i < values.Length0 && 0 <= j < values.Length1 && (i != sId || j < aId || aId' <= j) ==>
                  values[i, j] == old(values[i, j])
      decreases values.Length1 - aId'
    {
      FillCell(space, actions, ddn, bf, scope, actionScope, values, sId, aId', sDomain, aDomain, rhsDomain, expected);
      aId' := aId' + 1;
      more := aDomain.IsValid();
    }
  }

  /** The second loop of backProject with the action enumerator started
      over for every state assignment (and the column counter with it): a
      buffer over both scopes filled with one expected value per pair of
      assignments. */
  method FillActionMatrix(space: Factors, actions: Factors, ddn: FactoredDDN, bf: BasisFunction,
                          scope: seq<nat>, actionScope: seq<nat>) returns (values: seq<seq<real>>)
    requires DdnShape(space, actions, ddn) && BasisShape(space, bf)
    requires IsTagOf(space, scope) && IsTagOf(actions, actionScope) && ScopesCover(ddn, scope, actionScope, bf.tag)
    ensures values == ActionExpectations(space, actions, ddn, bf, scope, actionScope)
  {
    var sizeS := DomainSize(space, scope);
    var sizeA := DomainSize(actions, actionScope);
    ghost var expected := ActionExpectations(space, actions, ddn, bf, scope, actionScope);
    var buffer := new real[sizeS, sizeA];
    var sId := 0;
    var sDomain := new PartialFactorsEnumerator(space, scope);
    var aDomain := new PartialFactorsEnumerator(actions, actionScope);
    var rhsDomain := new PartialFactorsEnumerator(space, bf.tag);
    var aId := 0;
    var more := sDomain.IsValid();
    while more
      invariant sDomain != aDomain && sDomain != rhsDomain && aDomain != rhsDomain
      invariant sDomain.Valid() && sDomain.space == space && sDomain.tag == scope && sDomain.index == sId
      invariant aDomain.Valid() && aDomain.space == actions && aDomain.tag == actionScope && aDomain.index == aId == 0
      invariant rhsDomain.Valid() && rhsDomain.space == space && rhsDomain.tag == bf.tag && rhsDomain.index == 0
      invariant more <==> sId < sizeS
      invariant forall i, j :: 0 <= i < sId && 0 <= j < sizeA ==> buffer[i, j] == expected[i][j]
      decreases sizeS - sId
    {
      aId := NextRow(space, actions, ddn, bf, scope, actionScope, buffer, sId, aId, sDomain, aDomain, rhsDomain, expected);
      sId := sId + 1;
      more := sDomain.IsValid();
    }
    values := Contents(buffer, expected);
  }

  /** One iteration of the corrected second loop: the row of the current
      state assignment is filled, the state enumerator moves on and the
      action enumerator and the column counter aId start over. */
  method NextRow(space: Factors, actions: Factors, ddn: FactoredDDN, bf: BasisFunction,
                 scope: seq<nat>, actionScope: seq<nat>, buffer: array2<real>, sId: nat, aId: nat,
                 sDomain: PartialFactorsEnumerator, aDomain: PartialFactorsEnumerator,
                 rhsDomain: PartialFactorsEnumerator, ghost expected: seq<seq<real>>) returns (aId': nat)
    requires DdnShape(space, actions, ddn) && BasisShape(space, bf)
    requires IsTagOf(space, scope) && IsTagOf(actions, actionScope) && ScopesCover(ddn, scope, actionScope, bf.tag)
    requires expected == ActionExpectations(space, actions, ddn, bf, scope, actionScope)
    requires buffer.Length0 == |expected| && buffer.Length1 == DomainSize(actions, actionScope)
    requires sDomain != aDomain && sDomain != rhsDomain && aDomain != rhsDomain
    requires sDomain.Valid() && sDomain.space == space && sDomain.tag == scope && sDomain.index == sId < buffer.Length0
    requires aDomain.Valid() && aDomain.space == actions && aDomain.tag == actionScope && aDomain.index == aId == 0
    requires rhsDomain.Valid() && rhsDomain.space == space && rhsDomain.tag == bf.tag && rhsDomain.index == 0
    requires forall i, j :: 0 <= i < sId && 0 <= j < buffer.Length1 ==> buffer[i, j] == expected[i][j]
    modifies buffer, sDomain, aDomain, rhsDomain
    ensures sDomain.Valid() && sDomain.index == sId + 1
    ensures aDomain.Valid() && aDomain.index == aId' == 0
    ensures rhsDomain.Valid() && rhsDomain.index == 0
    ensures forall i, j :: 0 <= i < sId + 1 && 0 <= j < buffer.Length1 ==> buffer[i, j] == expected[i][j]
  {
    aId' := FillRow(space, actions, ddn, bf, scope, actionScope, buffer, sId, aId,
                    sDomain, aDomain, rhsDomain, expected);
    sDomain.Advance();
    aDomain.Reset();
    aId' := 0;
  }

  /** The rows of a buffer every cell of which holds its expected value. */
  method Contents(buffer: array2<real>, ghost expected: seq<seq<real>>) returns (values: seq<seq<real>>)
    requires buffer.Length0 == |expected| && forall i :: 0 <= i < |expected| ==> |expected[i]| == buffer.Length1
    requires forall i, j :: 0 <= i < buffer.Length0 && 0 <= j < buffer.Length1 ==> buffer[i, j] == expected[i][j]
    ensures values == expected
  {
    values := seq(buffer.Length0, i requires 0 <= i < buffer.Length0 reads buffer =>
                seq(buffer.Length1, j requires 0 <= j < buffer.Length1 reads buffer => buffer[i, j]));
    assert forall i :: 0 <= i < |values| ==> values[i] == expected[i];
  }

  /** The second loop of backProject as written: the action enumerator and
      the column counter are never started over, so only the first row is
      computed and every other row keeps what `storage` held. */
  method FillActionMatrixAsWritten(space: Factors, actions: Factors, ddn: FactoredDDN, bf: BasisFunction,
                                   scope: seq<nat>, actionScope: seq<nat>, storage: array2<real>)
    returns (values: seq<seq<real>>)
    requires DdnShape(space, actions, ddn) && BasisShape(space, bf)
    requires IsTagOf(space, scope) && IsTagOf(actions, actionScope) && ScopesCover(ddn, scope, actionScope, bf.tag)
    requires storage.Length0 == DomainSize(space, scope) && storage.Length1 == DomainSize(actions, actionScope)
    modifies storage
    ensures |values| == storage.Length0
    ensures values[0] == ActionExpectations(space, actions, ddn, bf, scope, actionScope)[0]
    ensures forall i :: 1 <= i < |values| ==>
              |values[i]| == storage.Length1 && forall j :: 0 <= j < storage.Length1 ==> values[i][j] == old(storage[i, j])
  {
    var sizeS := DomainSize(space, scope);
    var sizeA := DomainSize(actions, actionScope);
    ghost var expected := ActionExpectations(space, actions, ddn, bf, scope, actionScope);
    var sId := 0;
    var aId := 0;
    var sDomain := new PartialFactorsEnumerator(space, scope);
    var aDomain := new PartialFactorsEnumerator(actions, actionScope);
    var rhsDomain := new PartialFactorsEnumerator(space, bf.tag);
    var more := sDomain.IsValid();
    while more
      invariant sDomain != aDomain && sDomain != rhsDomain && aDomain != rhsDomain
      invariant sDomain.Valid() && sDomain.space == space && sDomain.tag == scope && sDomain.index == sId
      invariant aDomain.Valid() && aDomain.space == actions && aDomain.tag == actionScope && aDomain.index == aId
      invariant rhsDomain.Valid() && rhsDomain.space == space && rhsDomain.tag == bf.tag && rhsDomain.index == 0
      invariant more <==> sId < sizeS
      invariant aId == if sId == 0 then 0 else sizeA
      invariant 0 < sId ==> forall j :: 0 <= j < sizeA ==> storage[0, j] == expected[0][j]
      invariant forall i, j :: 0 <= i < sizeS && 0 <= j < sizeA && (sId == 0 || 1 <= i) ==>
                  storage[i, j] == old(storage[i, j])
      decreases sizeS - sId
    {
      aId := FillRow(space, actions, ddn, bf, scope, actionScope, storage, sId, aId,
                     sDomain, aDomain, rhsDomain, expected);
      sId := sId + 1;
      sDomain.Advance();
      more := sDomain.IsValid();
    }
    values := seq(sizeS, i requires 0 <= i < sizeS reads storage =>
                seq(sizeA, j requires 0 <= j < sizeA reads storage => storage[i, j]));
    assert values[0] == expected[0];
  }

  /** backProject of a basis through a factored decision network, with the
      action enumerator started over for every state assignment. */
  method BackProjectActions(space: Factors, actions: Factors, ddn: FactoredDDN, bf: BasisFunction)
    returns (r: BasisMatrix)
    requires DdnShape(space, actions, ddn) && BasisShape(space, bf)
    ensures r == BackProjectionActions(space, actions, ddn, bf)
  {
    var scope, actionScope := MergeScopes(space, actions, ddn, bf.tag);
    ScopesCoverChildren(space, actions, ddn, bf.tag);
    var values := FillActionMatrix(space, actions, ddn, bf, scope, actionScope);
    r := BasisMatrix(scope, actionScope, values);
  }

  /** backProject of a basis through a factored decision network as
      written. `storage` is the memory the resize of the result hands out:
      only its first row is computed, the others come back as they were. */
  method BackProjectActionsAsWritten(space: Factors, actions: Factors, ddn: FactoredDDN, bf: BasisFunction,
                                     storage: array2<real>) returns (r: BasisMatrix)
    requires DdnShape(space, actions, ddn) && BasisShape(space, bf)
    requires storage.Length0 == DomainSize(space, StateScope(space, actions, ddn, bf.tag))
    requires storage.Length1 == DomainSize(actions, ActionScope(space, actions, ddn, bf.tag))
    modifies storage
    ensures r.tag == BackProjectionActions(space, actions, ddn, bf).tag
    ensures r.actionTag == BackProjectionActions(space, actions, ddn, bf).actionTag
    ensures |r.values| == storage.Length0
    ensures r.values[0] == BackProjectionActions(space, actions, ddn, bf).values[0]
    ensures forall i :: 1 <= i < |r.values| ==>
              |r.values[i]| == storage.Length1 && forall j :: 0 <= j < storage.Length1 ==> r.values[i][j] == old(storage[i, j])
  {
    var scope, actionScope := MergeScopes(space, actions, ddn, bf.tag);
    ScopesCoverChildren(space, actions, ddn, bf.tag);
    var values := FillActionMatrixAsWritten(space, actions, ddn, bf, scope, actionScope, storage);
    r := BasisMatrix(scope, actionScope, values);
  }

  // ---------------------------------------------------------------------
  // Properties
  // ---------------------------------------------------------------------

  /** i => the probability of reaching the i-th assignment of bf's scope
      from `x` under `a`. */
  function ActionReachTerms(space: Factors, actions: Factors, ddn: FactoredDDN, bf: BasisFunction,
                            x: PartialFactors, a: PartialFactors): nat -> real
    requires DdnShape(space, actions, ddn) && BasisShape(space, bf)
    requires IsPartial(space, x) && IsPartial(actions, a) && ActionsCovered(ddn, a, bf.tag)
    requires Chosen(space, SelectChildren(space, actions, ddn, a, bf.tag), x, bf.tag)
  {
    (i: nat) =>
      if i < |bf.values| then FactoredPartialTransitionProbability(space, actions, ddn, x, a, Nth(space, bf.tag, i))
      else 0.0
  }

  /** The tables an action selects in a stochastic network are stochastic. */
  lemma SelectedStochastic(space: Factors, actions: Factors, ddn: FactoredDDN, a: PartialFactors, tag: seq<nat>)
    requires DdnShape(space, actions, ddn) && DdnStochastic(ddn) && IsPartial(actions, a) && ActionsCovered(ddn, a, tag)
    ensures forall k :: 0 <= k < |tag| ==> Stochastic(SelectChildren(space, actions, ddn, a, tag)[k])
  {
    var chosen := SelectChildren(space, actions, ddn, a, tag);
    forall k | 0 <= k < |tag|
      ensures Stochastic(chosen[k])
    {
      var an := ddn.nodes[tag[k]];
      assert chosen[k] == an.nodes[ToIndex(actions, an.actionTag, Project(actions, a, an.actionTag))];
    }
  }

  /** The next values of bf's scope have total probability one, under any
      action. */
  lemma ActionReachMass(space: Factors, actions: Factors, ddn: FactoredDDN, bf: BasisFunction,
                        x: PartialFactors, a: PartialFactors)
    requires DdnShape(space, actions, ddn) && DdnStochastic(ddn) && BasisShape(space, bf)
    requires IsPartial(space, x) && IsPartial(actions, a) && ActionsCovered(ddn, a, bf.tag)
    requires Chosen(space, SelectChildren(space, actions, ddn, a, bf.tag), x, bf.tag)
    ensures Sum(|bf.values|, ActionReachTerms(space, actions, ddn, bf, x, a)) == 1.0
  {
    var chosen := SelectChildren(space, actions, ddn, a, bf.tag);
    SelectedStochastic(space, actions, ddn, a, bf.tag);
    ChildrenMass(space, chosen, x, bf.tag);
    forall k: nat | k < |bf.values|
      ensures Enumerated(space, bf.tag, ChildrenTerms(space, chosen, x, bf.tag))(k) ==
              ActionReachTerms(space, actions, ddn, bf, x, a)(k)
    {
      assert InDomain(space, bf.tag, FromIndex(space, bf.tag, k));
    }
    SumExt(|bf.values|, Enumerated(space, bf.tag, ChildrenTerms(space, chosen, x, bf.tag)),
           ActionReachTerms(space, actions, ddn, bf, x, a));
  }

  /** Each term of the expectation lies between lo and hi times the
      probability of its assignment. */
  lemma ActionTermBounds(space: Factors, actions: Factors, ddn: FactoredDDN, bf: BasisFunction,
                         x: PartialFactors, a: PartialFactors, lo: real, hi: real, k: nat)
    requires DdnShape(space, actions, ddn) && DdnStochastic(ddn) && BasisShape(space, bf)
    requires IsPartial(space, x) && IsPartial(actions, a) && ActionsCovered(ddn, a, bf.tag)
    requires Chosen(space, SelectChildren(space, actions, ddn, a, bf.tag), x, bf.tag)
    requires k < |bf.values| && lo <= bf.values[k] <= hi
    ensures Times(ActionReachTerms(space, actions, ddn, bf, x, a)(k), lo) <= ActionTerms(space, actions, ddn, bf, x, a)(k)
    ensures ActionTerms(space, actions, ddn, bf, x, a)(k) <= Times(ActionReachTerms(space, actions, ddn, bf, x, a)(k), hi)
  {
    var p := FactoredPartialTransitionProbability(space, actions, ddn, x, a, Nth(space, bf.tag, k));
    FactoredProbabilityBounds(space, actions, ddn, x, a, Nth(space, bf.tag, k));
    TimesBetween(bf.values[k], p, lo, hi);
  }

  /** An expectation of values between lo and hi is between lo and hi. */
  lemma ActionExpectedValueBounds(space: Factors, actions: Factors, ddn: FactoredDDN, bf: BasisFunction,
                                  x: PartialFactors, a: PartialFactors, lo: real, hi: real)
    requires DdnShape(space, actions, ddn) && DdnStochastic(ddn) && BasisShape(space, bf)
    requires IsPartial(space, x) && IsPartial(actions, a) && ActionsCovered(ddn, a, bf.tag)
    requires Chosen(space, SelectChildren(space, actions, ddn, a, bf.tag), x, bf.tag)
    requires forall i :: 0 <= i < |bf.values| ==> lo <= bf.values[i] <= hi
    ensures lo <= ActionExpectedValue(space, actions, ddn, bf, x, a) <= hi
  {
    var n := |bf.values|;
    var terms := ActionTerms(space, actions, ddn, bf, x, a);
    var reach := ActionReachTerms(space, actions, ddn, bf, x, a);
    var low := (i: nat) => Times(reach(i), lo);
    var high := (i: nat) => Times(reach(i), hi);
    forall k: nat | k < n
      ensures low(k) <= terms(k) <= high(k)
    {
      ActionTermBounds(space, actions, ddn, bf, x, a, lo, hi, k);
    }
    ActionReachMass(space, actions, ddn, bf, x, a);
    SumScale(n, reach, low, lo);
    SumScale(n, reach, high, hi);
    SumMonotone(n, low, terms);
    SumMonotone(n, terms, high);
  }

  /** When bf's values lie between lo and hi, so do the values of its
      back-projection through the decision network. */
  lemma BackProjectionActionsBounds(space: Factors, actions: Factors, ddn: FactoredDDN, bf: BasisFunction,
                                    lo: real, hi: real)
    requires DdnShape(space, actions, ddn) && DdnStochastic(ddn) && BasisShape(space, bf)
    requires forall i :: 0 <= i < |bf.values| ==> lo <= bf.values[i] <= hi
    ensures forall i, j :: 0 <= i < |BackProjectionActions(space, actions, ddn, bf).values| &&
                           0 <= j < |BackProjectionActions(space, actions, ddn, bf).values[i]| ==>
              lo <= BackProjectionActions(space, actions, ddn, bf).values[i][j] <= hi
  {
    var r := BackProjectionActions(space, actions, ddn, bf);
    forall i, j | 0 <= i < |r.values| && 0 <= j < |r.values[i]|
      ensures lo <= r.values[i][j] <= hi
    {
      CellBounds(space, actions, ddn, bf, r.tag, r.actionTag, i, j, lo, hi);
    }
  }

  /** One cell of the back-projection lies between lo and hi. */
  lemma CellBounds(space: Factors, actions: Factors, ddn: FactoredDDN, bf: BasisFunction,
                   scope: seq<nat>, actionScope: seq<nat>, sid: nat, aid: nat, lo: real, hi: real)
    requires DdnShape(space, actions, ddn) && DdnStochastic(ddn) && BasisShape(space, bf)
    requires IsTagOf(space, scope) && IsTagOf(actions, actionScope) && ScopesCover(ddn, scope, actionScope, bf.tag)
    requires forall i :: 0 <= i < |bf.values| ==> lo <= bf.values[i] <= hi
    ensures lo <= Cell(space, actions, ddn, bf, scope, actionScope, sid, aid) <= hi
  {
    var x := Nth(space, scope, sid);
    var a := Nth(actions, actionScope, aid);
    ScopeAssignmentQueryable(space, actions, ddn, bf.tag, x, a);
    ActionExpectedValueBounds(space, actions, ddn, bf, x, a, lo, hi);
  }

  /** The expectation reads the action only on the action tags of the
      children, and the state only on the parents of the tables the action
      selects: a term is the same from two pairs that agree there. */
  lemma ActionTermLocality(space: Factors, actions: Factors, ddn: FactoredDDN, bf: BasisFunction,
                           x: PartialFactors, a: PartialFactors, y: PartialFactors, b: PartialFactors,
                           chosen: seq<Node>, i: nat)
    requires DdnShape(space, actions, ddn) && BasisShape(space, bf)
    requires IsPartial(space, x) && IsPartial(actions, a) && ActionsCovered(ddn, a, bf.tag)
    requires Chosen(space, SelectChildren(space, actions, ddn, a, bf.tag), x, bf.tag)
    requires IsPartial(space, y) && IsPartial(actions, b) && ActionsCovered(ddn, b, bf.tag)
    requires Chosen(space, SelectChildren(space, actions, ddn, b, bf.tag), y, bf.tag)
    requires forall k, v :: 0 <= k < |bf.tag| && v in ddn.nodes[bf.tag[k]].actionTag ==> ValueOf(a, v) == ValueOf(b, v)
    requires chosen == SelectChildren(space, actions, ddn, a, bf.tag) && Chosen(space, chosen, y, bf.tag)
    requires forall k, v :: 0 <= k < |chosen| && v in chosen[k].tag ==> ValueOf(x, v) == ValueOf(y, v)
    ensures ActionTerms(space, actions, ddn, bf, x, a)(i) == ActionTerms(space, actions, ddn, bf, y, b)(i)
  {
    if i < |bf.values| {
      var s1 := Nth(space, bf.tag, i);
      ActionLocality(space, actions, ddn, x, a, b, s1);
      ChildrenProductAgree(space, chosen, x, y, s1);
    }
  }

  /** The expectation is the same from two state and action assignments
      that agree on what the selected tables read. */
  lemma ActionExpectedValueLocality(space: Factors, actions: Factors, ddn: FactoredDDN, bf: BasisFunction,
                                    x: PartialFactors, a: PartialFactors, y: PartialFactors, b: PartialFactors,
                                    chosen: seq<Node>)
    requires DdnShape(space, actions, ddn) && BasisShape(space, bf)
    requires IsPartial(space, x) && IsPartial(actions, a) && ActionsCovered(ddn, a, bf.tag)
    requires Chosen(space, SelectChildren(space, actions, ddn, a, bf.tag), x, bf.tag)
    requires IsPartial(space, y) && IsPartial(actions, b) && ActionsCovered(ddn, b, bf.tag)
    requires Chosen(space, SelectChildren(space, actions, ddn, b, bf.tag), y, bf.tag)
    requires forall k, v :: 0 <= k < |bf.tag| && v in ddn.nodes[bf.tag[k]].actionTag ==> ValueOf(a, v) == ValueOf(b, v)
    requires chosen == SelectChildren(space, actions, ddn, a, bf.tag) && Chosen(space, chosen, y, bf.tag)
    requires forall k, v :: 0 <= k < |chosen| && v in chosen[k].tag ==> ValueOf(x, v) == ValueOf(y, v)
    ensures ActionExpectedValue(space, actions, ddn, bf, x, a) == ActionExpectedValue(space, actions, ddn, bf, y, b)
  {
    forall i: nat | i < |bf.values|
      ensures ActionTerms(space, actions, ddn, bf, x, a)(i) == ActionTerms(space, actions, ddn, bf, y, b)(i)
    {
      ActionTermLocality(space, actions, ddn, bf, x, a, y, b, chosen, i);
    }
    SumExt(|bf.values|, ActionTerms(space, actions, ddn, bf, x, a), ActionTerms(space, actions, ddn, bf, y, b));
  }

  /** From a full state under a full action, the expectation through the
      decision network is the expectation through the network that action
      selects. */
  lemma FullActionExpectedValue(space: Factors, actions: Factors, ddn: FactoredDDN, bf: BasisFunction,
                                s: Factors, a: Factors)
    requires DdnShape(space, actions, ddn) && BasisShape(space, bf) && IsFull(space, s) && IsFull(actions, a)
    ensures IsPartial(space, Full(s)) && IsPartial(actions, Full(a)) && ActionsCovered(ddn, Full(a), bf.tag)
    ensures Chosen(space, SelectChildren(space, actions, ddn, Full(a), bf.tag), Full(s), bf.tag)
    ensures ParentsCovered(SelectNetwork(space, actions, ddn, a), Full(s), bf.tag)
    ensures ActionExpectedValue(space, actions, ddn, bf, Full(s), Full(a)) ==
            ExpectedValue(space, SelectNetwork(space, actions, ddn, a), bf, Full(s))
  {
    var net := SelectNetwork(space, actions, ddn, a);
    SelectFull(space, actions, ddn, a, bf.tag);
    FullCovers(space, net, s, bf.tag);
    GatherChosen(space, net, Full(s), bf.tag);
    forall i: nat | i < |bf.values|
      ensures ActionTerms(space, actions, ddn, bf, Full(s), Full(a))(i) == BackTerms(space, net, bf, Full(s))(i)
    {
      assert Nth(space, bf.tag, i).tag == bf.tag;
    }
    SumExt(|bf.values|, ActionTerms(space, actions, ddn, bf, Full(s), Full(a)), BackTerms(space, net, bf, Full(s)));
  }

  /** The entry of the back-projection that a full state and a full action
      select is the expectation from the values they give the two scopes. */
  lemma EvaluateActionProjection(space: Factors, actions: Factors, ddn: FactoredDDN, bf: BasisFunction,
                                 s: Factors, a: Factors)
    requires DdnShape(space, actions, ddn) && BasisShape(space, bf) && IsFull(space, s) && IsFull(actions, a)
    ensures var r := BackProjectionActions(space, actions, ddn, bf);
            Evaluate2D(space, actions, r, s, a) ==
            Cell(space, actions, ddn, bf, r.tag, r.actionTag,
                 ToIndex(space, r.tag, Select(s, r.tag)), ToIndex(actions, r.actionTag, Select(a, r.actionTag)))
  {
  }

  /** The entry a full state and a full action select holds the
      expectation from that state under that action: the expectation reads
      only the values the two scopes carry. */
  lemma CellAtFull(space: Factors, actions: Factors, ddn: FactoredDDN, bf: BasisFunction,
                    scope: seq<nat>, actionScope: seq<nat>, s: Factors, a: Factors)
    requires DdnShape(space, actions, ddn) && BasisShape(space, bf)
    requires IsTagOf(space, scope) && IsTagOf(actions, actionScope) && ScopesCover(ddn, scope, actionScope, bf.tag)
    requires IsFull(space, s) && IsFull(actions, a)
    ensures IsPartial(space, Full(s)) && IsPartial(actions, Full(a)) && ActionsCovered(ddn, Full(a), bf.tag)
    ensures Chosen(space, SelectChildren(space, actions, ddn, Full(a), bf.tag), Full(s), bf.tag)
    ensures Cell(space, actions, ddn, bf, scope, actionScope,
                 ToIndex(space, scope, Select(s, scope)), ToIndex(actions, actionScope, Select(a, actionScope))) ==
            ActionExpectedValue(space, actions, ddn, bf, Full(s), Full(a))
  {
    NthSelect(space, s, scope);
    NthSelect(actions, a, actionScope);
    var x := PartialFactors(scope, Select(s, scope));
    var y := PartialFactors(actionScope, Select(a, actionScope));
    ScopeAssignmentQueryable(space, actions, ddn, bf.tag, x, y);
    FullActionExpectedValue(space, actions, ddn, bf, s, a);
    SelectAgrees(space, s, scope);
    SelectAgrees(actions, a, actionScope);
    var chosen := SelectChildren(space, actions, ddn, y, bf.tag);
    forall k | 0 <= k < |chosen|
      ensures Covers(Full(s), chosen[k].tag)
    {
      ProjectFull(space, s, chosen[k].tag);
    }
    ActionExpectedValueLocality(space, actions, ddn, bf, x, y, Full(s), Full(a), chosen);
  }

  /** What backProject through a decision network means: at every full
      state s and full action a, its value is the value at s of the
      back-projection through the network that a selects. */
  lemma BackProjectionActionsAt(space: Factors, actions: Factors, ddn: FactoredDDN, bf: BasisFunction,
                                s: Factors, a: Factors)
    requires DdnShape(space, actions, ddn) && BasisShape(space, bf) && IsFull(space, s) && IsFull(actions, a)
    ensures Evaluate2D(space, actions, BackProjectionActions(space, actions, ddn, bf), s, a) ==
            Evaluate(space, BackProjection(space, SelectNetwork(space, actions, ddn, a), bf), s)
  {
    EvaluateActionProjection(space, actions, ddn, bf, s, a);
    var r := BackProjectionActions(space, actions, ddn, bf);
    ScopesCoverChildren(space, actions, ddn, bf.tag);
    CellAtFull(space, actions, ddn, bf, r.tag, r.actionTag, s, a);
    FullActionExpectedValue(space, actions, ddn, bf, s, a);
    BackProjectionAt(space, SelectNetwork(space, actions, ddn, a), bf, s);
  }

  // ---------------------------------------------------------------------
  // backProject of a factored vector through a decision network
  // ---------------------------------------------------------------------

  /** The bases of backProject of a factored vector through a decision
      network: the projection of each basis, in order, added with plusEqual
      into an initially empty matrix. */
  function BackProjectMatrices(space: Factors, actions: Factors, ddn: FactoredDDN, bases: seq<BasisFunction>)
    : (r: seq<BasisMatrix>)
    requires DdnShape(space, actions, ddn) && BasesShape(space, bases)
    ensures MatricesShape(space, actions, r) && |r| <= |bases|
  {
    if bases == [] then []
    else
      PlusEqual2D(space, actions, BackProjectMatrices(space, actions, ddn, bases[..|bases| - 1]),
                  BackProjectionActions(space, actions, ddn, bases[|bases| - 1]))
  }

  /** backProject of a factored vector through a decision network: project
      each basis and add the result into the output. */
  method BackProjectMatrix(space: Factors, actions: Factors, ddn: FactoredDDN, fv: FactoredVector)
    returns (r: Factored2DMatrix)
    requires DdnShape(space, actions, ddn) && BasesShape(space, fv.bases)
    ensures r.bases == BackProjectMatrices(space, actions, ddn, fv.bases)
  {
    var bases: seq<BasisMatrix> := [];
    for k := 0 to |fv.bases|
      invariant bases == BackProjectMatrices(space, actions, ddn, fv.bases[..k])
    {
      bases := AddActionProjection(space, actions, ddn, fv.bases, k, bases);
    }
    assert fv.bases[..|fv.bases|] == fv.bases;
    r := Factored2DMatrix(bases);
  }

  /** One iteration of backProject of a factored vector through a decision
      network: the projection of the k-th basis is added into the
      projections of the bases before it. */
  method AddActionProjection(space: Factors, actions: Factors, ddn: FactoredDDN, inputs: seq<BasisFunction>, k: nat,
                             bases: seq<BasisMatrix>) returns (r: seq<BasisMatrix>)
    requires DdnShape(space, actions, ddn) && BasesShape(space, inputs) && k < |inputs|
    requires bases == BackProjectMatrices(space, actions, ddn, inputs[..k])
    ensures r == BackProjectMatrices(space, actions, ddn, inputs[..k + 1])
  {
    var projected := BackProjectActions(space, actions, ddn, inputs[k]);
    assert inputs[..k + 1][..k] == inputs[..k];
    r := PlusEqual2D(space, actions, bases, projected);
  }

  /** What backProject of a factored vector through a decision network
      means: at every full state s and full action a, its value is the sum
      of the expected values of the input's bases from s under the network
      that a selects. */
  lemma {:induction false} BackProjectMatricesAt(space: Factors, actions: Factors, ddn: FactoredDDN,
                                                 bases: seq<BasisFunction>, s: Factors, a: Factors)
    requires DdnShape(space, actions, ddn) && BasesShape(space, bases) && IsFull(space, s) && IsFull(actions, a)
    ensures EvaluateMatrices(space, actions, BackProjectMatrices(space, actions, ddn, bases), s, a) ==
            ExpectedSum(space, SelectNetwork(space, actions, ddn, a), bases, s)
  {
    if bases != [] {
      var init := bases[..|bases| - 1];
      var last := bases[|bases| - 1];
      BackProjectMatricesAt(space, actions, ddn, init, s, a);
      PlusEqual2DSum(space, actions, BackProjectMatrices(space, actions, ddn, init),
                     BackProjectionActions(space, actions, ddn, last), s, a);
      BackProjectionActionsAt(space, actions, ddn, last, s, a);
      BackProjectionAt(space, SelectNetwork(space, actions, ddn, a), last, s);
    }
  }

  /** A decision network on which backProject as written returns a wrong
      value: one binary state variable that keeps its value, no action
      variables, and the basis that is 1 everywhere. */
  const KeepSpace: Factors := [2]
  const NoActions: Factors := []
  const Keep: Node := Node([0], [[1.0, 0.0], [0.0, 1.0]])
  const KeepDdn: FactoredDDN := FactoredDDN([ActionNode([], [Keep])])
  const One: BasisFunction := BasisFunction([0], [1.0, 1.0])

  /** The example is well formed, its scopes are the state variable and no
      action variable, and every expected value of the constant basis 1 is 1. */
  lemma KeepFacts()
    ensures DdnShape(KeepSpace, NoActions, KeepDdn) && DdnStochastic(KeepDdn) && BasisShape(KeepSpace, One)
    ensures StateScope(KeepSpace, NoActions, KeepDdn, One.tag) == [0]
    ensures ActionScope(KeepSpace, NoActions, KeepDdn, One.tag) == []
    ensures DomainSize(KeepSpace, [0]) == 2 && DomainSize(NoActions, []) == 1
    ensures BackProjectionActions(KeepSpace, NoActions, KeepDdn, One).values[1][0] == 1.0
  {
    assert RowSum([1.0, 0.0]) == 1.0 && RowSum([0.0, 1.0]) == 1.0;
    assert DdnShape(KeepSpace, NoActions, KeepDdn) && DdnStochastic(KeepDdn) && BasisShape(KeepSpace, One);
    assert One.tag[..0] == [] && [Keep][..0] == [];
    assert MergeTableTags(KeepSpace, [], [Keep]) == Merge([], [0]) == [0];
    assert StateScope(KeepSpace, NoActions, KeepDdn, One.tag) == [0];
    assert ActionScope(KeepSpace, NoActions, KeepDdn, One.tag) == Merge([], []) == [];
    BackProjectionActionsBounds(KeepSpace, NoActions, KeepDdn, One, 1.0, 1.0);
  }

  /** On the example, every expected value is 1, but the second row of the
      result of backProject as written keeps what the storage held, here 0. */
  method StaleRowExample() returns (written: real, intended: real)
    ensures written == 0.0 && intended == 1.0
  {
    KeepFacts();
    var storage := new real[2, 1];
    storage[1, 0] := 0.0;
    var r := BackProjectActionsAsWritten(KeepSpace, NoActions, KeepDdn, One, storage);
    written := r.values[1][0];
    intended := BackProjectionActions(KeepSpace, NoActions, KeepDdn, One).values[1][0];
  }
}
