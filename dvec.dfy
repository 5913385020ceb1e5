/**
 * A dense vector whose dimension is known only at run time: a sequence of
 * components.  Element-wise arithmetic requires operands of one dimension; the
 * dot products accumulate in a loop.
 */
module DVector {
  datatype DVec = DVec(at: seq<real>)

  /** The dimension. */
  function Len(v: DVec): nat
  {
    |v.at|
  }

  /** A vector of dimension dim with every component elem. */
  function FromElem(dim: nat, elem: real): (r: DVec)
    ensures Len(r) == dim
    ensures forall i :: 0 <= i < dim ==> r.at[i] == elem
  {
    DVec(seq(dim, i => elem))
  }

  /** A vector of dimension dim whose component i is f(i). */
  function FromFn(dim: nat, f: nat -> real): (r: DVec)
    ensures Len(r) == dim
    ensures forall i :: 0 <= i < dim ==> r.at[i] == f(i)
  {
    DVec(seq(dim, i requires 0 <= i => f(i)))
  }

  /** A constant vector is the one built from the constant function. */
  lemma FromElemIsFromFn(dim: nat, elem: real)
    ensures FromElem(dim, elem) == FromFn(dim, i => elem)
  {
    assert FromElem(dim, elem).at == FromFn(dim, i => elem).at;
  }

  function NewZeros(dim: nat): (r: DVec)
    ensures Len(r) == dim && IsZero(r)
  {
    FromElem(dim, 0.0)
  }

  function NewOnes(dim: nat): (r: DVec)
    ensures Len(r) == dim && forall i :: 0 <= i < dim ==> r.at[i] == 1.0
  {
    FromElem(dim, 1.0)
  }

  /** Every component is zero: v is the vector from_elem builds from zero for its dimension. */
  predicate IsZero(v: DVec): (b: bool)
    ensures b <==> v == FromElem(Len(v), 0.0)
  {
    forall i :: 0 <= i < |v.at| ==> v.at[i] == 0.0
  }

  /** The only zero vector of a dimension is the one new_zeros builds. */
  lemma ZeroIsNewZeros(v: DVec)
    requires IsZero(v)
    ensures v == NewZeros(Len(v))
  {
    assert v.at == NewZeros(Len(v)).at;
  }

  function Add(a: DVec, b: DVec): (r: DVec)
    requires Len(a) == Len(b)
    ensures Len(r) == Len(a) && forall i :: 0 <= i < Len(r) ==> r.at[i] == a.at[i] + b.at[i]
  {
    DVec(seq(|a.at|, i requires 0 <= i < |a.at| => a.at[i] + b.at[i]))
  }

  function Sub(a: DVec, b: DVec): (r: DVec)
    requires Len(a) == Len(b)
    ensures Len(r) == Len(a) && forall i :: 0 <= i < Len(r) ==> r.at[i] == a.at[i] - b.at[i]
  {
    DVec(seq(|a.at|, i requires 0 <= i < |a.at| => a.at[i] - b.at[i]))
  }

  function Neg(a: DVec): (r: DVec)
    ensures Len(r) == Len(a) && forall i :: 0 <= i < Len(r) ==> r.at[i] == -a.at[i]
  {
    DVec(seq(|a.at|, i requires 0 <= i < |a.at| => -a.at[i]))
  }

  /** Subtracting is adding the negation. */
  lemma SubIsAddNeg(a: DVec, b: DVec)
    requires Len(a) == Len(b)
    ensures Sub(a, b) == Add(a, Neg(b))
  {
    assert Sub(a, b).at == Add(a, Neg(b)).at;
  }

  /** a - b + b == a. */
  lemma SubThenAdd(a: DVec, b: DVec)
    requires Len(a) == Len(b)
    ensures Add(Sub(a, b), b) == a
  {
    assert Add(Sub(a, b), b).at == a.at;
  }

  /** Every component times the scalar s. */
  function ScalarMul(v: DVec, s: real): (r: DVec)
    ensures Len(r) == Len(v) && forall i :: 0 <= i < Len(r) ==> r.at[i] == v.at[i] * s
  {
    DVec(seq(|v.at|, i requires 0 <= i < |v.at| => v.at[i] * s))
  }

  /** Every component plus the scalar s. */
  function ScalarAdd(v: DVec, s: real): (r: DVec)
    ensures Len(r) == Len(v) && forall i :: 0 <= i < Len(r) ==> r.at[i] == v.at[i] + s
  {
    DVec(seq(|v.at|, i requires 0 <= i < |v.at| => v.at[i] + s))
  }

  /** Every component minus the scalar s. */
  function ScalarSub(v: DVec, s: real): (r: DVec)
    ensures Len(r) == Len(v) && forall i :: 0 <= i < Len(r) ==> r.at[i] == v.at[i] - s
  {
    DVec(seq(|v.at|, i requires 0 <= i < |v.at| => v.at[i] - s))
  }

  /** Subtracting a scalar undoes adding it. */
  lemma ScalarSubUndoesAdd(v: DVec, s: real)
    ensures ScalarSub(ScalarAdd(v, s), s) == v
  {
    assert ScalarSub(ScalarAdd(v, s), s).at == v.at;
  }

  /** The sum of a[i] * b[i] over the first n components. */
  function DotProduct(a: seq<real>, b: seq<real>, n: nat): real
    requires n <= |a| && n <= |b|
  {
    if n == 0 then 0.0 else DotProduct(a, b, n - 1) + a[n - 1] * b[n - 1]
  }

  /** The sum of (s[i] - a[i]) * b[i] over the first n components. */
  function SubDotProduct(s: seq<real>, a: seq<real>, b: seq<real>, n: nat): real
    requires n <= |s| && n <= |a| && n <= |b|
  {
    if n == 0 then 0.0 else SubDotProduct(s, a, b, n - 1) + (s[n - 1] - a[n - 1]) * b[n - 1]
  }

  /** The dot product of two vectors of one dimension. */
  method Dot(self: DVec, other: DVec) returns (res: real)
    requires Len(self) == Len(other)
    ensures res == DotProduct(self.at, other.at, Len(self))
  {
    res := 0.0;
    var i := 0;
    while i < |self.at|
      invariant i <= |self.at|
      invariant res == DotProduct(self.at, other.at, i)
    {
      res := res + self.at[i] * other.at[i];
      i := i + 1;
    }
  }

  /** The dot product of self - a with b, over the dimension of self. */
  method SubDot(self: DVec, a: DVec, b: DVec) returns (res: real)
    requires Len(a) >= Len(self) && Len(b) >= Len(self)
    ensures res == SubDotProduct(self.at, a.at, b.at, Len(self))
  {
    res := 0.0;
    var i := 0;
    while i < |self.at|
      invariant i <= |self.at|
      invariant res == SubDotProduct(self.at, a.at, b.at, i)
    {
      res := res + (self.at[i] - a.at[i]) * b.at[i];
      i := i + 1;
    }
  }

  /** For vectors of one dimension, sub_dot is the dot product of the difference. */
  lemma {:induction false} SubDotIsDotOfSub(s: DVec, a: DVec, b: DVec, n: nat)
    requires Len(s) == Len(a) == Len(b) && n <= Len(s)
    ensures SubDotProduct(s.at, a.at, b.at, n) == DotProduct(Sub(s, a).at, b.at, n)
  {
    if n > 0 {
      SubDotIsDotOfSub(s, a, b, n - 1);
    }
  }

  /** The dot product does not depend on the order of its operands. */
  lemma {:induction false} DotCommutes(a: seq<real>, b: seq<real>, n: nat)
    requires n <= |a| && n <= |b|
    ensures DotProduct(a, b, n) == DotProduct(b, a, n)
  {
    if n > 0 {
      DotCommutes(a, b, n - 1);
    }
  }

  /** Scaling one operand scales the dot product. */
  lemma {:induction false} DotScales(a: DVec, b: DVec, s: real, n: nat)
    requires Len(a) == Len(b) && n <= Len(a)
    ensures DotProduct(ScalarMul(a, s).at, b.at, n) == s * DotProduct(a.at, b.at, n)
  {
    if n > 0 {
      DotScales(a, b, s, n - 1);
      var x, y := a.at[n - 1], b.at[n - 1];
      assert (x * s) * y == s * (x * y);
    }
  }

  /** The dot product distributes over vector addition. */
  lemma {:induction false} DotAdds(a: DVec, a': DVec, b: DVec, n: nat)
    requires Len(a) == Len(a') == Len(b) && n <= Len(a)
    ensures DotProduct(Add(a, a').at, b.at, n) == DotProduct(a.at, b.at, n) + DotProduct(a'.at, b.at, n)
  {
    if n > 0 {
      DotAdds(a, a', b, n - 1);
      var x, x', y := a.at[n - 1], a'.at[n - 1], b.at[n - 1];
      assert (x + x') * y == x * y + x' * y;
    }
  }

  /** The dot product of a vector with itself is never negative. */
  lemma {:induction false} DotSelfNonNegative(a: seq<real>, n: nat)
    requires n <= |a|
    ensures DotProduct(a, a, n) >= 0.0
  {
    if n > 0 {
      DotSelfNonNegative(a, n - 1);
      var x := a[n - 1];
      assert x * x >= 0.0;
    }
  }

  /** The squared norm: the dot product of the vector with itself. */
  method SqNorm(self: DVec) returns (res: real)
    ensures res == DotProduct(self.at, self.at, Len(self))
    ensures res >= 0.0
  {
    res := Dot(self, self);
    DotSelfNonNegative(self.at, Len(self));
  }

  /** The i-th vector of the canonical basis of dimension dim. */
  predicate IsBasisElement(v: DVec, dim: nat, i: nat)
  {
    Len(v) == dim && forall j :: 0 <= j < dim ==> v.at[j] == if i == j then 1.0 else 0.0
  }

  /** The dim vectors of dimension dim that are one at their own index and zero elsewhere. */
  method CanonicalBasisWithDim(dim: nat) returns (res: seq<DVec>)
    ensures |res| == dim
    ensures forall i :: 0 <= i < dim ==> IsBasisElement(res[i], dim, i)
  {
    res := [];
    var i := 0;
    while i < dim
      invariant i <= dim && |res| == i
      invariant forall j :: 0 <= j < i ==> IsBasisElement(res[j], dim, j)
    {
      var basisElement := NewZeros(dim);
      basisElement := DVec(basisElement.at[i := 1.0]);
      res := res + [basisElement];
      i := i + 1;
    }
  }

  /** The canonical basis is orthonormal: the dot product of its i-th and j-th vectors is one
      when i == j and zero otherwise. */
  lemma CanonicalBasisOrthonormal(e: DVec, f: DVec, dim: nat, i: nat, j: nat)
    requires i < dim && j < dim && IsBasisElement(e, dim, i) && IsBasisElement(f, dim, j)
    ensures DotProduct(e.at, f.at, dim) == if i == j then 1.0 else 0.0
  {
    BasisDotPrefix(e, f, dim, i, j, dim);
  }

  lemma {:induction false} BasisDotPrefix(e: DVec, f: DVec, dim: nat, i: nat, j: nat, n: nat)
    requires n <= dim && IsBasisElement(e, dim, i) && IsBasisElement(f, dim, j)
    ensures DotProduct(e.at, f.at, n) == if i == j && i < n then 1.0 else 0.0
  {
    if n > 0 {
      BasisDotPrefix(e, f, dim, i, j, n - 1);
    }
  }

  /** The vector of the elements an iterator yields, in order. */
  method FromIterator(param: seq<real>) returns (res: DVec)
    ensures res.at == param
  {
    res := DVec([]);
    var k := 0;
    while k < |param|
      invariant k <= |param| && res.at == param[..k]
    {
      res := DVec(res.at + [param[k]]);
      k := k + 1;
      assert param[..k] == param[..k - 1] + [param[k - 1]];
    }
    assert param[..k] == param;
  }

  /** A vector read as a translation is itself. */
  function Translation(v: DVec): (r: DVec)
    ensures r == v
  {
    v
  }

  /** The inverse of the translation by v is the translation by -v. */
  function InvTranslation(v: DVec): (r: DVec)
    ensures Len(r) == Len(v) && forall i :: 0 <= i < Len(r) ==> r.at[i] == -v.at[i]
  {
    Neg(v)
  }

  /** v translated by t. */
  function Translated(v: DVec, t: DVec): (r: DVec)
    requires Len(v) == Len(t)
    ensures Len(r) == Len(v) && forall i :: 0 <= i < Len(r) ==> r.at[i] == v.at[i] + t.at[i]
  {
    Add(v, t)
  }

  /** translate_by replaces the vector by its translate. */
  function TranslateBy(v: DVec, t: DVec): (r: DVec)
    requires Len(v) == Len(t)
    ensures r == Translated(v, t)
  {
    Add(v, t)
  }

  /** set_translation replaces the vector by the translation given. */
  function SetTranslation(v: DVec, t: DVec): (r: DVec)
    ensures Translation(r) == t
  {
    t
  }

  /** Translating by t and then by the inverse of t gives the vector back. */
  lemma TranslationRoundTrip(v: DVec, t: DVec)
    requires Len(v) == Len(t)
    ensures Translated(Translated(v, t), InvTranslation(t)) == v
  {
    assert Translated(Translated(v, t), InvTranslation(t)).at == v.at;
  }

  /** The inverse translation undoes the translation of the zero vector. */
  lemma InverseOfTranslation(t: DVec)
    ensures Translated(Translation(t), InvTranslation(t)) == NewZeros(Len(t))
  {
    assert Translated(Translation(t), InvTranslation(t)).at == NewZeros(Len(t)).at;
  }
}
