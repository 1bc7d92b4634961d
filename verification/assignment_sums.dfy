/** Sums of a function of an assignment over every assignment of a tag,
    taken in the canonical enumeration order. */
module AssignmentSums {
  import opened Sums
  import opened FactorSpace

  /** k => h applied to the k-th assignment of `tag`. */
  function Enumerated(space: Factors, tag: seq<nat>, h: seq<nat> -> real): nat -> real
    requires IsSpace(space) && InScope(tag, |space|)
  {
    (k: nat) => h(FromIndex(space, tag, k))
  }

  /** The sum of h over every assignment of `tag`. */
  function SumOver(space: Factors, tag: seq<nat>, h: seq<nat> -> real): real
    requires IsSpace(space) && InScope(tag, |space|)
  {
    Sum(DomainSize(space, tag), Enumerated(space, tag, h))
  }

  /** The empty tag has exactly one assignment, the empty one. */
  lemma SumOverEmpty(space: Factors, h: seq<nat> -> real)
    requires IsSpace(space)
    ensures SumOver(space, [], h) == h([])
  {
    assert FromIndex(space, [], 0) == [];
    assert Enumerated(space, [], h)(0) == h([]);
  }

  /** Entry r of block q of the enumeration of `tag` is value r of the first
      variable followed by the q-th assignment of the others. */
  lemma EnumeratedBlock(space: Factors, tag: seq<nat>, h: seq<nat> -> real, q: nat, r: nat)
    requires IsSpace(space) && InScope(tag, |space|) && tag != [] && r < space[tag[0]]
    ensures Shifted(Enumerated(space, tag, h), q * space[tag[0]])(r) ==
            h([r] + FromIndex(space, tag[1..], q))
  {
    FromIndexStep(space, tag, q, r);
    ShiftedAt(Enumerated(space, tag, h), q * space[tag[0]], r);
  }

  /** Pointwise-equal functions on the assignments of `tag` have equal sums. */
  lemma SumOverExt(space: Factors, tag: seq<nat>, h1: seq<nat> -> real, h2: seq<nat> -> real)
    requires IsSpace(space) && InScope(tag, |space|)
    requires forall v :: InDomain(space, tag, v) ==> h1(v) == h2(v)
    ensures SumOver(space, tag, h1) == SumOver(space, tag, h2)
  {
    forall k: nat | k < DomainSize(space, tag)
      ensures Enumerated(space, tag, h1)(k) == Enumerated(space, tag, h2)(k)
    {
      var v := FromIndex(space, tag, k);
      assert InDomain(space, tag, v);
    }
    SumExt(DomainSize(space, tag), Enumerated(space, tag, h1), Enumerated(space, tag, h2));
  }

  /** v => e(first value of v) * g(the remaining values). */
  function Split(e: nat -> real, g: seq<nat> -> real): seq<nat> -> real
  {
    (v: seq<nat>) => if v == [] then 0.0 else Times(e(v[0]), g(v[1..]))
  }

  /** Block q of the enumeration of `tag` under Split(e, g) is e scaled by
      the value of g at the q-th assignment of the other variables. */
  lemma SplitBlocks(space: Factors, tag: seq<nat>, e: nat -> real, g: seq<nat> -> real)
    requires IsSpace(space) && InScope(tag, |space|) && tag != []
    ensures forall q: nat, r: nat {:trigger Shifted(Enumerated(space, tag, Split(e, g)), q * space[tag[0]])(r)} ::
      q < DomainSize(space, tag[1..]) && r < space[tag[0]] ==>
      Shifted(Enumerated(space, tag, Split(e, g)), q * space[tag[0]])(r) ==
      Times(e(r), Enumerated(space, tag[1..], g)(q))
  {
    forall q: nat, r: nat | q < DomainSize(space, tag[1..]) && r < space[tag[0]]
      ensures Shifted(Enumerated(space, tag, Split(e, g)), q * space[tag[0]])(r) ==
              Times(e(r), Enumerated(space, tag[1..], g)(q))
    {
      EnumeratedBlock(space, tag, Split(e, g), q, r);
      var x := FromIndex(space, tag[1..], q);
      assert ([r] + x)[1..] == x;
    }
  }

  /** A function that factors over the first variable and the rest has the
      product of the two sums as its sum. */
  lemma SumOverSplit(space: Factors, tag: seq<nat>, e: nat -> real, g: seq<nat> -> real)
    requires IsSpace(space) && InScope(tag, |space|) && tag != []
    ensures SumOver(space, tag, Split(e, g)) == Times(Sum(space[tag[0]], e), SumOver(space, tag[1..], g))
  {
    var c := space[tag[0]];
    var d := DomainSize(space, tag[1..]);
    var f := Enumerated(space, tag, Split(e, g));
    var b := Enumerated(space, tag[1..], g);
    SplitBlocks(space, tag, e, g);
    SumProductOver(DomainSize(space, tag), c, d, f, e, b);
  }
}
