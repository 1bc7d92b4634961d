/** Factor spaces, scopes ("tags"), partial assignments, the canonical
    mixed-radix layout, and the partial-assignment enumerator.

    These are the collaborators the transition networks and back-projection
    call into (merge, factorSpacePartial, PartialFactorsEnumerator); their
    implementations are not part of this model, so each is given here by a
    definition that meets its documented behaviour. The layout convention is
    that the FIRST variable of a tag varies fastest (it is the least
    significant digit); tables, enumerators and dense buffers all share it. */
module FactorSpace {

  /** A factor space (entry i is the number of values of variable i), and
      also a full assignment (entry i is the value of variable i). */
  type Factors = seq<nat>

  predicate IsSpace(space: Factors)
  {
    forall i :: 0 <= i < |space| ==> space[i] > 0
  }

  /** A tag (scope): strictly increasing variable ids. */
  predicate IsTag(tag: seq<nat>)
  {
    forall i, j :: 0 <= i < j < |tag| ==> tag[i] < tag[j]
  }

  /** Every id of `tag` names one of `n` variables. */
  predicate InScope(tag: seq<nat>, n: nat)
  {
    forall i :: 0 <= i < |tag| ==> tag[i] < n
  }

  predicate IsTagOf(space: Factors, tag: seq<nat>)
  {
    IsTag(tag) && InScope(tag, |space|)
  }

  /** `values` is aligned with `tag` and every value is within its variable's cardinality. */
  predicate InDomain(space: Factors, tag: seq<nat>, values: seq<nat>)
  {
    |values| == |tag| &&
    forall j :: 0 <= j < |tag| ==> tag[j] < |space| && values[j] < space[tag[j]]
  }

  /** A full assignment over the whole space. */
  predicate IsFull(space: Factors, s: Factors)
  {
    |s| == |space| && forall i :: 0 <= i < |s| ==> s[i] < space[i]
  }

  /** An assignment restricted to a scope: values aligned positionally with the tag. */
  datatype PartialFactors = PartialFactors(tag: seq<nat>, values: seq<nat>)

  predicate IsPartial(space: Factors, p: PartialFactors)
  {
    IsTag(p.tag) && InDomain(space, p.tag, p.values)
  }

  /** The ids lo, lo + 1, ..., hi - 1: the tag of a full assignment when lo == 0. */
  function Iota(lo: nat, hi: nat): (r: seq<nat>)
    ensures |r| == if lo <= hi then hi - lo else 0
    ensures forall j :: 0 <= j < |r| ==> r[j] == lo + j
    decreases hi - lo
  {
    if lo < hi then [lo] + Iota(lo + 1, hi) else []
  }

  /** A full assignment seen as a partial assignment over every variable. */
  function Full(s: Factors): PartialFactors
  {
    PartialFactors(Iota(0, |s|), s)
  }

  // ---------------------------------------------------------------------
  // merge: sorted, duplicate-free union of two tags
  // ---------------------------------------------------------------------

  function Merge(a: seq<nat>, b: seq<nat>): (r: seq<nat>)
    requires IsTag(a) && IsTag(b)
    ensures IsTag(r)
    ensures forall v :: v in r <==> v in a || v in b
    decreases |a| + |b|
  {
    if a == [] then b
    else if b == [] then a
    else if a[0] < b[0] then
      var m := Merge(a[1..], b);
      HeadIsLeast(a);
      HeadIsLeast(b);
      ConsTag(a[0], m);
      [a[0]] + m
    else if b[0] < a[0] then
      var m := Merge(a, b[1..]);
      HeadIsLeast(a);
      HeadIsLeast(b);
      ConsTag(b[0], m);
      [b[0]] + m
    else
      var m := Merge(a[1..], b[1..]);
      HeadIsLeast(a);
      HeadIsLeast(b);
      ConsTag(a[0], m);
      [a[0]] + m
  }

  /** The first id of a tag is below every later one. */
  lemma HeadIsLeast(a: seq<nat>)
    requires IsTag(a) && a != []
    ensures forall v :: v in a[1..] ==> a[0] < v
  {
  }

  /** An id below every id of a tag can be put in front of it. */
  lemma ConsTag(x: nat, m: seq<nat>)
    requires IsTag(m) && forall v :: v in m ==> x < v
    ensures IsTag([x] + m)
  {
    forall j | 0 <= j < |m|
      ensures x < m[j]
    {
      assert m[j] in m;
    }
  }

  /** A tag is determined by the set of its ids: this is what makes "the
      sorted, duplicate-free union" a single well-defined value. */
  lemma {:induction false} TagsEqual(a: seq<nat>, b: seq<nat>)
    requires IsTag(a) && IsTag(b)
    requires forall v :: v in a <==> v in b
    ensures a == b
  {
    if a != [] || b != [] {
      var x := (a + b)[0];
      assert x in a && x in b;
      assert a[0] in b && b[0] in a;
      assert a[0] == b[0];
      forall v
        ensures v in a[1..] <==> v in b[1..]
      {
        if v in a[1..] {
          assert v in b && v != b[0];
        }
        if v in b[1..] {
          assert v in a && v != a[0];
        }
      }
      TagsEqual(a[1..], b[1..]);
    }
  }

  /** Merging is commutative and has the empty tag as unit. */
  lemma MergeCommutes(a: seq<nat>, b: seq<nat>)
    requires IsTag(a) && IsTag(b)
    ensures Merge(a, b) == Merge(b, a) && Merge(a, []) == a
  {
    TagsEqual(Merge(a, b), Merge(b, a));
  }

  // ---------------------------------------------------------------------
  // factorSpacePartial: number of joint assignments of a tag
  // ---------------------------------------------------------------------

  /** The product of the cardinalities of the variables of `tag`. */
  function DomainSize(space: Factors, tag: seq<nat>): (r: nat)
    requires IsSpace(space) && InScope(tag, |space|)
    ensures r >= 1
  {
    if tag == [] then 1 else space[tag[0]] * DomainSize(space, tag[1..])
  }

  // ---------------------------------------------------------------------
  // The mixed-radix linear index and its inverse
  // ---------------------------------------------------------------------

  /** Position of an assignment of `tag` in the canonical order. */
  function ToIndex(space: Factors, tag: seq<nat>, values: seq<nat>): (r: nat)
    requires IsSpace(space) && InDomain(space, tag, values)
    ensures r < DomainSize(space, tag)
  {
    if tag == [] then 0
    else
      var c, rest := space[tag[0]], ToIndex(space, tag[1..], values[1..]);
      DigitBound(values[0], c, rest, DomainSize(space, tag[1..]));
      values[0] + c * rest
  }

  /** The k-th assignment of `tag` in the canonical order. */
  function FromIndex(space: Factors, tag: seq<nat>, k: nat): (r: seq<nat>)
    requires IsSpace(space) && InScope(tag, |space|)
    ensures InDomain(space, tag, r)
  {
    if tag == [] then []
    else [k % space[tag[0]]] + FromIndex(space, tag[1..], k / space[tag[0]])
  }

  /** A digit below c followed by a number below d stays below c * d. */
  lemma DigitBound(v: nat, c: nat, rest: nat, d: nat)
    requires v < c && rest < d
    ensures v + c * rest < c * d
  {
    assert c * rest <= c * (d - 1);
  }

  /** The remainder plus c times the quotient is the number itself. */
  lemma DigitCompose(k: nat, c: nat, t: nat)
    requires c > 0 && t == k / c
    ensures k % c + c * t == k
  {
  }

  /** A multiple of c strictly between -c and c is zero. */
  lemma ZeroMultiple(x: int, c: int)
    requires c > 0 && -c < x * c < c
    ensures x == 0
  {
    if x >= 1 {
      assert false;
    } else if x <= -1 {
      assert false;
    }
  }

  /** Euclidean division of q * c + r by c. */
  lemma DivMod(q: nat, c: nat, r: nat)
    requires r < c
    ensures (q * c + r) / c == q && (q * c + r) % c == r
  {
    var n := q * c + r;
    var q', r' := n / c, n % c;
    assert n == q' * c + r';
    assert (q' - q) * c == r - r';
    ZeroMultiple(q' - q, c);
  }

  lemma DivBelow(k: nat, c: nat, d: nat)
    requires c > 0 && k < c * d
    ensures k / c < d
  {
    if k / c >= d {
      assert false;
    }
  }

  /** Enumerating then indexing gives the position back: the enumerator's
      k-th assignment is laid out at slot k. */
  lemma {:induction false} ToFromIndex(space: Factors, tag: seq<nat>, k: nat)
    requires IsSpace(space) && InScope(tag, |space|)
    requires k < DomainSize(space, tag)
    ensures ToIndex(space, tag, FromIndex(space, tag, k)) == k
  {
    if tag != [] {
      var c := space[tag[0]];
      var d := DomainSize(space, tag[1..]);
      DivBelow(k, c, d);
      ToFromIndex(space, tag[1..], k / c);
      var r := FromIndex(space, tag, k);
      assert r[0] == k % c && r[1..] == FromIndex(space, tag[1..], k / c);
      DigitCompose(k, c, ToIndex(space, tag[1..], r[1..]));
    }
  }

  /** Indexing then enumerating gives the assignment back: every assignment
      of the tag is visited, exactly once. */
  lemma {:induction false} FromToIndex(space: Factors, tag: seq<nat>, values: seq<nat>)
    requires IsSpace(space) && InDomain(space, tag, values)
    ensures FromIndex(space, tag, ToIndex(space, tag, values)) == values
  {
    if tag != [] {
      var c := space[tag[0]];
      var rest := ToIndex(space, tag[1..], values[1..]);
      DivMod(rest, c, values[0]);
      assert values[0] + c * rest == rest * c + values[0];
      FromToIndex(space, tag[1..], values[1..]);
    }
  }

  /** The first variable is the least significant digit: the assignment at
      q * c + r is r for the first variable and the q-th assignment of the rest. */
  lemma FromIndexStep(space: Factors, tag: seq<nat>, q: nat, r: nat)
    requires IsSpace(space) && InScope(tag, |space|) && tag != []
    requires r < space[tag[0]]
    ensures FromIndex(space, tag, q * space[tag[0]] + r) ==
            [r] + FromIndex(space, tag[1..], q)
  {
    var c := space[tag[0]];
    DivMod(q, c, r);
    var k := q * c + r;
    assert FromIndex(space, tag, k) == [k % c] + FromIndex(space, tag[1..], k / c);
  }

  // ---------------------------------------------------------------------
  // Projection of assignments onto a scope
  // ---------------------------------------------------------------------

  /** Position of `v` in `tag`. */
  function IndexOf(tag: seq<nat>, v: nat): (j: nat)
    requires v in tag
    ensures j < |tag| && tag[j] == v
  {
    if tag[0] == v then 0 else IndexOf(tag[1..], v)  + 1
  }

  /** Every variable of `tag` is assigned by `p`. */
  predicate Covers(p: PartialFactors, tag: seq<nat>)
  {
    forall v :: v in tag ==> v in p.tag
  }

  /** The value `p` gives to variable `v`. */
  function ValueOf(p: PartialFactors, v: nat): nat
    requires |p.values| == |p.tag| && v in p.tag
  {
    p.values[IndexOf(p.tag, v)]
  }

  /** The values of `p` restricted to `tag`, in the order of `tag`. */
  function Project(space: Factors, p: PartialFactors, tag: seq<nat>): (r: seq<nat>)
    requires IsPartial(space, p) && Covers(p, tag)
    ensures InDomain(space, tag, r)
    ensures forall j :: 0 <= j < |tag| ==> r[j] == ValueOf(p, tag[j])
  {
    if tag == [] then []
    else
      var j := IndexOf(p.tag, tag[0]);
      assert p.tag[j] == tag[0];
      [ValueOf(p, tag[0])] + Project(space, p, tag[1..])
  }

  /** The values of a full assignment `s` on the variables of `tag`. */
  function Select(s: Factors, tag: seq<nat>): (r: seq<nat>)
    requires InScope(tag, |s|)
    ensures |r| == |tag| && forall j :: 0 <= j < |tag| ==> r[j] == s[tag[j]]
  {
    if tag == [] then [] else [s[tag[0]]] + Select(s, tag[1..])
  }

  lemma {:induction false} IndexOfIota(n: nat, v: nat)
    requires v < n
    ensures v in Iota(0, n) && IndexOf(Iota(0, n), v) == v
  {
    var t := Iota(0, n);
    assert t[v] == v;
    var j := IndexOf(t, v);
    assert t[j] == j;
  }

  /** Projecting a full assignment is selecting its entries. */
  lemma ProjectFull(space: Factors, s: Factors, tag: seq<nat>)
    requires IsFull(space, s) && InScope(tag, |space|)
    ensures IsPartial(space, Full(s)) && Covers(Full(s), tag)
    ensures Project(space, Full(s), tag) == Select(s, tag)
  {
    forall v | v in tag
      ensures v in Full(s).tag && ValueOf(Full(s), v) == s[v]
    {
      IndexOfIota(|s|, v);
    }
  }

  /** Projection only looks at the projected variables. */
  lemma ProjectAgree(space: Factors, p: PartialFactors, q: PartialFactors, tag: seq<nat>)
    requires IsPartial(space, p) && Covers(p, tag)
    requires IsPartial(space, q) && Covers(q, tag)
    requires forall v :: v in tag ==> ValueOf(p, v) == ValueOf(q, v)
    ensures Project(space, p, tag) == Project(space, q, tag)
  {
  }

  /** The k-th assignment of `tag` in canonical order, as a partial assignment. */
  function Nth(space: Factors, tag: seq<nat>, k: nat): (p: PartialFactors)
    requires IsSpace(space) && IsTagOf(space, tag)
    ensures IsPartial(space, p) && p.tag == tag
  {
    PartialFactors(tag, FromIndex(space, tag, k))
  }

  /** The values a full assignment gives a tag are the assignment of the
      tag at their own index. */
  lemma NthSelect(space: Factors, s: Factors, tag: seq<nat>)
    requires IsSpace(space) && IsFull(space, s) && IsTagOf(space, tag)
    ensures InDomain(space, tag, Select(s, tag))
    ensures Nth(space, tag, ToIndex(space, tag, Select(s, tag))) == PartialFactors(tag, Select(s, tag))
  {
    assert InDomain(space, tag, Select(s, tag));
    FromToIndex(space, tag, Select(s, tag));
  }

  // ---------------------------------------------------------------------
  // PartialFactorsEnumerator: a restartable cursor over a tag's domain
  // ---------------------------------------------------------------------

  /** A cursor over every assignment of `tag`, in canonical order. The
      position `index` is the number of assignments already passed. */
  class PartialFactorsEnumerator {
    const space: Factors
    const tag: seq<nat>
    var index: nat

    ghost predicate Valid()
      reads this
    {
      IsSpace(space) && IsTagOf(space, tag) && index <= DomainSize(space, tag)
    }

    function Size(): (n: nat)
      requires IsSpace(space) && InScope(tag, |space|)
    {
      DomainSize(space, tag)
    }

    constructor (space: Factors, tag: seq<nat>)
      requires IsSpace(space) && IsTagOf(space, tag)
      ensures Valid() && this.space == space && this.tag == tag && index == 0
    {
      this.space := space;
      this.tag := tag;
      index := 0;
    }

    /** isValid(): the cursor has not run past the last assignment. */
    method IsValid() returns (b: bool)
      requires Valid()
      ensures b <==> index < Size()
    {
      b := index < DomainSize(space, tag);
    }

    /** operator*: the current partial assignment. */
    function Current(): (p: PartialFactors)
      reads this
      requires Valid() && index < Size()
      ensures IsPartial(space, p) && p.tag == tag
    {
      Nth(space, tag, index)
    }

    /** advance(): step to the next assignment in canonical order. */
    method Advance()
      requires Valid() && index < Size()
      modifies this
      ensures Valid() && index == old(index) + 1
    {
      index := index + 1;
    }

    /** reset(): go back to the first assignment. */
    method Reset()
      requires Valid()
      modifies this
      ensures Valid() && index == 0
    {
      index := 0;
    }
  }
}
