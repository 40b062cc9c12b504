/** The NumPy operations the core applies to embeddings: negation, element-wise addition and np.sum(..., axis=0).
    Vectors are sequences of reals, so sums are exact and their order does not matter. */
module Vectors {

  type Vector = seq<real>

  /** The zero vector of dimension d. */
  function Zero(d: nat): (z: Vector)
    ensures |z| == d
    ensures forall i :: 0 <= i < d ==> z[i] == 0.0
  {
    seq(d, _ => 0.0)
  }

  /** -v, element by element. */
  function Neg(v: Vector): (r: Vector)
    ensures |r| == |v|
    ensures forall i :: 0 <= i < |v| ==> r[i] == -v[i]
  {
    seq(|v|, i requires 0 <= i < |v| => -v[i])
  }

  /** a + b for two vectors of the same dimension. */
  function Add(a: Vector, b: Vector): (r: Vector)
    requires |a| == |b|
    ensures |r| == |a|
    ensures forall i :: 0 <= i < |a| ==> r[i] == a[i] + b[i]
  {
    seq(|a|, i requires 0 <= i < |a| => a[i] + b[i])
  }

  /** Every vector of vs has dimension d. */
  predicate AllOfDim(vs: seq<Vector>, d: nat) {
    forall i :: 0 <= i < |vs| ==> |vs[i]| == d
  }

  /** np.sum(vs, axis=0): the element-wise sum of vectors of dimension d (the zero vector when vs is empty). */
  function Sum(vs: seq<Vector>, d: nat): (r: Vector)
    requires AllOfDim(vs, d)
    ensures |r| == d
  {
    if vs == [] then Zero(d) else Add(vs[0], Sum(vs[1..], d))
  }

  /** Negation is an involution, and a vector plus its negation is zero. */
  lemma NegProperties(v: Vector)
    ensures Neg(Neg(v)) == v
    ensures Add(v, Neg(v)) == Zero(|v|)
  {
    assert forall i :: 0 <= i < |v| ==> Neg(Neg(v))[i] == v[i];
    assert forall i :: 0 <= i < |v| ==> Add(v, Neg(v))[i] == Zero(|v|)[i];
  }

  lemma AddCommutes(a: Vector, b: Vector)
    requires |a| == |b|
    ensures Add(a, b) == Add(b, a)
  {
    assert forall i :: 0 <= i < |a| ==> Add(a, b)[i] == Add(b, a)[i];
  }

  lemma AddAssociates(a: Vector, b: Vector, c: Vector)
    requires |a| == |b| == |c|
    ensures Add(Add(a, b), c) == Add(a, Add(b, c))
  {
    assert forall i :: 0 <= i < |a| ==> Add(Add(a, b), c)[i] == Add(a, Add(b, c))[i];
  }

  lemma AddZero(a: Vector)
    ensures Add(Zero(|a|), a) == a
  {
    assert forall i :: 0 <= i < |a| ==> Add(Zero(|a|), a)[i] == a[i];
  }

  /** Summing a concatenation is adding the two partial sums. */
  lemma {:induction false} SumAppend(a: seq<Vector>, b: seq<Vector>, d: nat)
    requires AllOfDim(a, d) && AllOfDim(b, d)
    ensures AllOfDim(a + b, d)
    ensures Sum(a + b, d) == Add(Sum(a, d), Sum(b, d))
  {
    assert AllOfDim(a + b, d);
    if a == [] {
      assert a + b == b;
      AddZero(Sum(b, d));
    } else {
      assert (a + b)[1..] == a[1..] + b;
      assert AllOfDim(a[1..], d);
      SumAppend(a[1..], b, d);
      AddAssociates(a[0], Sum(a[1..], d), Sum(b, d));
    }
  }
}
