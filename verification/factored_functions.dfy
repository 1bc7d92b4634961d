/** The factored value functions that back-projection reads and builds: a
    basis function is a dense table over the assignments of its tag, a
    factored vector is the sum of its bases, and the matrix variants add a
    second scope over the action variables. */
module FactoredFunctions {
  import opened FactorSpace

  /** BasisFunction: `values[k]` is the value at the k-th assignment of `tag`. */
  datatype BasisFunction = BasisFunction(tag: seq<nat>, values: seq<real>)

  /** FactoredVector: the function that is the sum of its bases. */
  datatype FactoredVector = FactoredVector(bases: seq<BasisFunction>)

  /** BasisMatrix: `values[x][y]` is the value at the x-th assignment of
      `tag` and the y-th assignment of `actionTag`. */
  datatype BasisMatrix = BasisMatrix(tag: seq<nat>, actionTag: seq<nat>, values: seq<seq<real>>)

  /** Factored2DMatrix: the function of state and action that is the sum of
      its bases. */
  datatype Factored2DMatrix = Factored2DMatrix(bases: seq<BasisMatrix>)

  // ---------------------------------------------------------------------
  // Basis functions
  // ---------------------------------------------------------------------

  /** One value per assignment of a valid tag. */
  predicate BasisShape(space: Factors, bf: BasisFunction)
  {
    IsSpace(space) && IsTagOf(space, bf.tag) && |bf.values| == DomainSize(space, bf.tag)
  }

  predicate BasesShape(space: Factors, bases: seq<BasisFunction>)
  {
    forall k :: 0 <= k < |bases| ==> BasisShape(space, bases[k])
  }

  /** The value of a basis at a full state: the entry of the state's values
      on the basis' tag. */
  function Evaluate(space: Factors, bf: BasisFunction, s: Factors): real
    requires BasisShape(space, bf) && IsFull(space, s)
  {
    bf.values[ToIndex(space, bf.tag, Select(s, bf.tag))]
  }

  /** The value of a sum of bases at a full state. */
  function EvaluateBases(space: Factors, bases: seq<BasisFunction>, s: Factors): real
    requires BasesShape(space, bases) && IsFull(space, s)
  {
    if bases == [] then 0.0
    else Evaluate(space, bases[0], s) + EvaluateBases(space, bases[1..], s)
  }

  /** Two bases over the same tag, added entry by entry. */
  function Add(x: BasisFunction, y: BasisFunction): (r: BasisFunction)
    requires x.tag == y.tag && |x.values| == |y.values|
    ensures r.tag == x.tag && |r.values| == |x.values|
    ensures forall i :: 0 <= i < |r.values| ==> r.values[i] == x.values[i] + y.values[i]
  {
    BasisFunction(x.tag, seq(|x.values|, i requires 0 <= i < |x.values| => x.values[i] + y.values[i]))
  }

  /** The sum of two bases over the same tag is, at every full state, the
      sum of their values there. */
  lemma AddAt(space: Factors, x: BasisFunction, y: BasisFunction, s: Factors)
    requires BasisShape(space, x) && BasisShape(space, y) && x.tag == y.tag && IsFull(space, s)
    ensures BasisShape(space, Add(x, y))
    ensures Evaluate(space, Add(x, y), s) == Evaluate(space, x, s) + Evaluate(space, y, s)
  {
  }

  /** plusEqual for a factored vector: the basis is added into the first
      basis over the same tag, or appended when there is none. */
  function PlusEqual(space: Factors, bases: seq<BasisFunction>, bf: BasisFunction): (r: seq<BasisFunction>)
    requires BasesShape(space, bases) && BasisShape(space, bf)
    ensures BasesShape(space, r)
    ensures |bases| <= |r| <= |bases| + 1
  {
    if bases == [] then [bf]
    else if bases[0].tag == bf.tag then [Add(bases[0], bf)] + bases[1..]
    else [bases[0]] + PlusEqual(space, bases[1..], bf)
  }

  /** Adding a basis adds its value at every state: plusEqual preserves the
      pointwise sum. */
  lemma {:induction false} PlusEqualSum(space: Factors, bases: seq<BasisFunction>, bf: BasisFunction, s: Factors)
    requires BasesShape(space, bases) && BasisShape(space, bf) && IsFull(space, s)
    ensures EvaluateBases(space, PlusEqual(space, bases, bf), s) ==
            EvaluateBases(space, bases, s) + Evaluate(space, bf, s)
  {
    var r := PlusEqual(space, bases, bf);
    if bases == [] {
      assert r[1..] == [];
    } else if bases[0].tag == bf.tag {
      AddAt(space, bases[0], bf, s);
      assert r[1..] == bases[1..];
    } else {
      assert r[1..] == PlusEqual(space, bases[1..], bf);
      PlusEqualSum(space, bases[1..], bf, s);
    }
  }

  // ---------------------------------------------------------------------
  // Basis matrices
  // ---------------------------------------------------------------------

  /** One row per state assignment of `tag`, one column per action
      assignment of `actionTag`. */
  predicate MatrixShape(space: Factors, actions: Factors, bm: BasisMatrix)
  {
    IsSpace(space) && IsSpace(actions) && IsTagOf(space, bm.tag) && IsTagOf(actions, bm.actionTag) &&
    |bm.values| == DomainSize(space, bm.tag) &&
    forall x :: 0 <= x < |bm.values| ==> |bm.values[x]| == DomainSize(actions, bm.actionTag)
  }

  predicate MatricesShape(space: Factors, actions: Factors, bases: seq<BasisMatrix>)
  {
    forall k :: 0 <= k < |bases| ==> MatrixShape(space, actions, bases[k])
  }

  /** The value of a basis matrix at a full state and a full action. */
  function Evaluate2D(space: Factors, actions: Factors, bm: BasisMatrix, s: Factors, a: Factors): real
    requires MatrixShape(space, actions, bm) && IsFull(space, s) && IsFull(actions, a)
  {
    bm.values[ToIndex(space, bm.tag, Select(s, bm.tag))][ToIndex(actions, bm.actionTag, Select(a, bm.actionTag))]
  }

  function EvaluateMatrices(space: Factors, actions: Factors, bases: seq<BasisMatrix>, s: Factors, a: Factors): real
    requires MatricesShape(space, actions, bases) && IsFull(space, s) && IsFull(actions, a)
  {
    if bases == [] then 0.0
    else Evaluate2D(space, actions, bases[0], s, a) + EvaluateMatrices(space, actions, bases[1..], s, a)
  }

  /** Two basis matrices over the same scopes, added entry by entry. */
  function Add2D(space: Factors, actions: Factors, x: BasisMatrix, y: BasisMatrix): (r: BasisMatrix)
    requires MatrixShape(space, actions, x) && MatrixShape(space, actions, y)
    requires x.tag == y.tag && x.actionTag == y.actionTag
    ensures MatrixShape(space, actions, r) && r.tag == x.tag && r.actionTag == x.actionTag
    ensures forall i, j :: 0 <= i < |r.values| && 0 <= j < |r.values[i]| ==>
              r.values[i][j] == x.values[i][j] + y.values[i][j]
  {
    var cols := DomainSize(actions, x.actionTag);
    BasisMatrix(x.tag, x.actionTag,
      seq(|x.values|, i requires 0 <= i < |x.values| =>
        seq(cols, j requires 0 <= j < cols => x.values[i][j] + y.values[i][j])))
  }

  /** The sum of two basis matrices over the same scopes is, at every full
      state and full action, the sum of their values there. */
  lemma Add2DAt(space: Factors, actions: Factors, x: BasisMatrix, y: BasisMatrix, s: Factors, a: Factors)
    requires MatrixShape(space, actions, x) && MatrixShape(space, actions, y)
    requires x.tag == y.tag && x.actionTag == y.actionTag && IsFull(space, s) && IsFull(actions, a)
    ensures Evaluate2D(space, actions, Add2D(space, actions, x, y), s, a) ==
            Evaluate2D(space, actions, x, s, a) + Evaluate2D(space, actions, y, s, a)
  {
  }

  /** plusEqual for a factored matrix: added into the first basis over the
      same state and action tags, or appended when there is none. */
  function PlusEqual2D(space: Factors, actions: Factors, bases: seq<BasisMatrix>, bm: BasisMatrix): (r: seq<BasisMatrix>)
    requires MatricesShape(space, actions, bases) && MatrixShape(space, actions, bm)
    ensures MatricesShape(space, actions, r)
    ensures |bases| <= |r| <= |bases| + 1
  {
    if bases == [] then [bm]
    else if bases[0].tag == bm.tag && bases[0].actionTag == bm.actionTag then
      [Add2D(space, actions, bases[0], bm)] + bases[1..]
    else [bases[0]] + PlusEqual2D(space, actions, bases[1..], bm)
  }

  /** plusEqual on factored matrices preserves the pointwise sum. */
  lemma {:induction false} PlusEqual2DSum(space: Factors, actions: Factors, bases: seq<BasisMatrix>, bm: BasisMatrix,
                                          s: Factors, a: Factors)
    requires MatricesShape(space, actions, bases) && MatrixShape(space, actions, bm)
    requires IsFull(space, s) && IsFull(actions, a)
    ensures EvaluateMatrices(space, actions, PlusEqual2D(space, actions, bases, bm), s, a) ==
            EvaluateMatrices(space, actions, bases, s, a) + Evaluate2D(space, actions, bm, s, a)
  {
    var r := PlusEqual2D(space, actions, bases, bm);
    if bases == [] {
      assert r[1..] == [];
    } else if bases[0].tag == bm.tag && bases[0].actionTag == bm.actionTag {
      Add2DAt(space, actions, bases[0], bm, s, a);
      assert r[1..] == bases[1..];
    } else {
      assert r[1..] == PlusEqual2D(space, actions, bases[1..], bm);
      PlusEqual2DSum(space, actions, bases[1..], bm, s, a);
    }
  }
}
