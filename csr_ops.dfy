/**
 * The CSR entry points for sparse products and sums.  Operand tags are
 * resolved here: an operand tagged Transpose is replaced by a materialised
 * transposed copy and the operation is called once more with both tags NoOp,
 * where it reaches the shared kernels with the operands in their given order.
 */
module CsrOps {
  import opened Wrappers
  import Dense
  import opened Compressed

  /** A CSR matrix: lanes are rows, minor indices are columns. */
  class CsrMatrix {
    var cs: CsMatrix

    ghost predicate Valid()
      reads this
    {
      WellFormed(cs)
    }

    constructor (cs: CsMatrix)
      requires WellFormed(cs)
      ensures this.cs == cs && Valid()
    {
      this.cs := cs;
    }
  }

  /** The compressed storage of a tagged CSR operand, with the tag kept. */
  function OpCs(a: Op<CsrMatrix>): (r: Op<CsMatrix>)
    reads a.inner
    ensures r.inner == a.inner.cs && r.NoOp? == a.NoOp?
  {
    if a.NoOp? then NoOp(a.inner.cs) else Transpose(a.inner.cs)
  }

  /** The dimension check of a product: C is op(A).rows by op(B).cols and the inner sizes agree. */
  predicate ProductDims(c: CsMatrix, a: Op<CsMatrix>, b: Op<CsMatrix>)
  {
    WellFormed(c) && WellFormed(a.inner) && WellFormed(b.inner) &&
    c.nmajor == OpRows(a) && c.nminor == OpCols(b) && OpCols(a) == OpRows(b)
  }

  /** C's pattern has a slot for every entry that op(A) * op(B) can produce. */
  predicate OpProductFits(c: CsMatrix, a: Op<CsMatrix>, b: Op<CsMatrix>)
    requires ProductDims(c, a, b)
  {
    forall i, k, j | 0 <= i < OpRows(a) && 0 <= k < OpCols(a) && 0 <= j < OpCols(b) ::
      OpHas(a, i, k) && OpHas(b, k, j) ==> Has(c, i, j)
  }

  /** The dense value beta * C + alpha * op(A) * op(B). */
  function ProductTarget(beta: real, c: CsMatrix, alpha: real, a: Op<CsMatrix>, b: Op<CsMatrix>): (d: Dense.Matrix)
    requires ProductDims(c, a, b)
    ensures Dense.IsMatrix(d, c.nmajor, c.nminor)
  {
    Dense.Combine(beta, CsrView(c), alpha,
      Dense.Mul(OpCsrView(a), OpCsrView(b), OpRows(a), OpCols(a), OpCols(b)), c.nmajor, c.nminor)
  }

  function TransposeCount(a: Op<CsMatrix>, b: Op<CsMatrix>): nat
  {
    (if a.Transpose? then 1 else 0) + (if b.Transpose? then 1 else 0)
  }

  /** Which product routine do_transposes hands the untagged operands back to. */
  datatype Caller = Checked | Unchecked

  /** The new value of C after the checked product, or the kernel's error. */
  function CheckedProduct(beta: real, c: CsMatrix, alpha: real, a: Op<CsMatrix>, b: Op<CsMatrix>): (r: Result<CsMatrix, OperationError>)
    requires ProductDims(c, a, b)
    ensures r.Failure? ==> r.error == InvalidPattern(PatternMessage)
    ensures r.Success? ==> KeepsPattern(c, r.value)
    decreases TransposeCount(a, b), 1
  {
    if a.NoOp? && b.NoOp? then SpmmCsPreallocChecked(beta, c, alpha, a.inner, b.inner)
    else DoTransposes(Checked, beta, c, alpha, a, b)
  }

  /** The new value of C after the unchecked product, which reports no pattern error. */
  function UncheckedProduct(beta: real, c: CsMatrix, alpha: real, a: Op<CsMatrix>, b: Op<CsMatrix>): (r: Result<CsMatrix, OperationError>)
    requires ProductDims(c, a, b)
    ensures r.Success? && KeepsPattern(c, r.value)
    decreases TransposeCount(a, b), 1
  {
    if a.NoOp? && b.NoOp? then
      FitsUntagged(c, a, b);
      SpmmCsPreallocUnchecked(beta, c, alpha, a.inner, b.inner)
    else DoTransposes(Unchecked, beta, c, alpha, a, b)
  }

  /** Materialise every operand tagged Transpose and call the product again with both tags NoOp. */
  function DoTransposes(caller: Caller, beta: real, c: CsMatrix, alpha: real, a: Op<CsMatrix>, b: Op<CsMatrix>): (r: Result<CsMatrix, OperationError>)
    requires ProductDims(c, a, b)
    requires a.Transpose? || b.Transpose?
    ensures caller.Unchecked? ==> r.Success?
    ensures r.Failure? ==> r.error == InvalidPattern(PatternMessage)
    ensures r.Success? ==> KeepsPattern(c, r.value)
    decreases TransposeCount(a, b), 0
  {
    MaterializeFacts(a);
    MaterializeFacts(b);
    var a', b' := NoOp(Materialize(a)), NoOp(Materialize(b));
    match caller
    case Checked => CheckedProduct(beta, c, alpha, a', b')
    case Unchecked => UncheckedProduct(beta, c, alpha, a', b')
  }

  /** The new value of C after the sparse sum, or the kernel's error. */
  function Sum(beta: real, c: CsMatrix, alpha: real, a: Op<CsMatrix>): (r: Result<CsMatrix, OperationError>)
    requires SpaddShapes(c, a)
    ensures r.Failure? ==> r.error == InvalidPattern(PatternMessage)
    ensures r.Success? ==> KeepsPattern(c, r.value)
  {
    SpaddCsPrealloc(beta, c, alpha, a)
  }

  /** The new dense C after the sparse-dense product: beta * C + alpha * op(A) * op(B). */
  function DenseProduct(beta: real, c: Dense.Matrix, alpha: real, a: Op<CsMatrix>, b: Op<Dense.Matrix>, n: nat): (r: Dense.Matrix)
    requires WellFormed(a.inner)
    requires Dense.IsMatrix(c, OpRows(a), n) && OpDenseShape(b, OpCols(a), n)
    ensures Dense.IsMatrix(r, OpRows(a), n)
    ensures r == Dense.Combine(beta, c, alpha, Dense.Mul(OpCsrView(a), OpDense(b, OpCols(a), n), OpRows(a), OpCols(a), n), OpRows(a), n)
  {
    SpmmCsDense(beta, c, alpha, a, b, n)
  }

  // ---------------------------------------------------------------------------
  // What the routing computes.

  /** Untagged materialised operands store what the tagged ones do and read the same. */
  lemma MaterializedOperands(c: CsMatrix, a: Op<CsMatrix>, b: Op<CsMatrix>)
    requires ProductDims(c, a, b)
    ensures ProductDims(c, NoOp(Materialize(a)), NoOp(Materialize(b)))
    ensures OpProductFits(c, NoOp(Materialize(a)), NoOp(Materialize(b))) <==> OpProductFits(c, a, b)
    ensures OpCsrView(NoOp(Materialize(a))) == OpCsrView(a) && OpCsrView(NoOp(Materialize(b))) == OpCsrView(b)
  {
    MaterializeFacts(a);
    MaterializeFacts(b);
    var a', b' := NoOp(Materialize(a)), NoOp(Materialize(b));
    forall i, k, j | 0 <= i < OpRows(a) && 0 <= k < OpCols(a) && 0 <= j < OpCols(b)
      ensures (OpHas(a', i, k) && OpHas(b', k, j)) == (OpHas(a, i, k) && OpHas(b, k, j))
    {
    }
  }

  /** With both tags NoOp, the operand-level fit is the kernel's fit. */
  lemma FitsUntagged(c: CsMatrix, a: Op<CsMatrix>, b: Op<CsMatrix>)
    requires ProductDims(c, a, b) && a.NoOp? && b.NoOp?
    ensures SpmmShapes(c, a.inner, b.inner)
    ensures OpProductFits(c, a, b) <==> ProductFits(c, a.inner, b.inner)
  {
    if OpProductFits(c, a, b) {
      forall i, k, j | 0 <= i < a.inner.nmajor && 0 <= k < a.inner.nminor && 0 <= j < b.inner.nminor
        ensures Has(a.inner, i, k) && Has(b.inner, k, j) ==> Has(c, i, j)
      {
        assert OpHas(a, i, k) == Has(a.inner, i, k) && OpHas(b, k, j) == Has(b.inner, k, j);
      }
    }
    if ProductFits(c, a.inner, b.inner) {
      forall i, k, j | 0 <= i < OpRows(a) && 0 <= k < OpCols(a) && 0 <= j < OpCols(b)
        ensures OpHas(a, i, k) && OpHas(b, k, j) ==> Has(c, i, j)
      {
        assert OpHas(a, i, k) == Has(a.inner, i, k) && OpHas(b, k, j) == Has(b.inner, k, j);
      }
    }
  }

  /** The checked product fails exactly when C's pattern lacks a slot for op(A) * op(B);
      otherwise C keeps its pattern and reads as beta * C + alpha * op(A) * op(B). */
  lemma CheckedProductComputes(beta: real, c: CsMatrix, alpha: real, a: Op<CsMatrix>, b: Op<CsMatrix>)
    requires ProductDims(c, a, b)
    ensures CheckedProduct(beta, c, alpha, a, b).Failure? <==> !OpProductFits(c, a, b)
    ensures CheckedProduct(beta, c, alpha, a, b).Failure? ==>
      CheckedProduct(beta, c, alpha, a, b).error == InvalidPattern(PatternMessage)
    ensures CheckedProduct(beta, c, alpha, a, b).Success? ==>
      var r := CheckedProduct(beta, c, alpha, a, b).value;
      WellFormed(r) && r.nmajor == c.nmajor && r.nminor == c.nminor &&
      r.offsets == c.offsets && r.indices == c.indices &&
      CsrView(r) == ProductTarget(beta, c, alpha, a, b)
    decreases TransposeCount(a, b)
  {
    if a.NoOp? && b.NoOp? {
      FitsUntagged(c, a, b);
      SpmmCheckedComputes(beta, c, alpha, a.inner, b.inner);
    } else {
      MaterializedOperands(c, a, b);
      CheckedProductComputes(beta, c, alpha, NoOp(Materialize(a)), NoOp(Materialize(b)));
    }
  }

  /** The unchecked product never fails: on every input C keeps its pattern and each slot
      takes the value of beta * C + alpha * op(A) * op(B) at it; with a fitting pattern it
      gives what the checked product gives. */
  lemma UncheckedProductComputes(beta: real, c: CsMatrix, alpha: real, a: Op<CsMatrix>, b: Op<CsMatrix>)
    requires ProductDims(c, a, b)
    ensures UncheckedProduct(beta, c, alpha, a, b) == Success(Restrict(c, ProductTarget(beta, c, alpha, a, b)))
    ensures OpProductFits(c, a, b) ==> UncheckedProduct(beta, c, alpha, a, b) == CheckedProduct(beta, c, alpha, a, b)
    decreases TransposeCount(a, b)
  {
    CheckedProductComputes(beta, c, alpha, a, b);
    if a.NoOp? && b.NoOp? {
      FitsUntagged(c, a, b);
      if ProductFits(c, a.inner, b.inner) {
        SpmmFits(beta, c, alpha, a.inner, b.inner);
      }
    } else {
      MaterializedOperands(c, a, b);
      UncheckedProductComputes(beta, c, alpha, NoOp(Materialize(a)), NoOp(Materialize(b)));
    }
  }

  /** With a fitting pattern, C's slots restricted to the target read back as the target. */
  lemma ProductOfFit(beta: real, c: CsMatrix, alpha: real, a: Op<CsMatrix>, b: Op<CsMatrix>)
    requires ProductDims(c, a, b)
    ensures WellFormed(Restrict(c, ProductTarget(beta, c, alpha, a, b)))
    ensures OpProductFits(c, a, b) ==>
      CsrView(Restrict(c, ProductTarget(beta, c, alpha, a, b))) == ProductTarget(beta, c, alpha, a, b)
  {
    var r := Restrict(c, ProductTarget(beta, c, alpha, a, b));
    SameLayout(c, r);
    if OpProductFits(c, a, b) {
      UncheckedProductComputes(beta, c, alpha, a, b);
      CheckedProductComputes(beta, c, alpha, a, b);
      assert CheckedProduct(beta, c, alpha, a, b) == Success(r);
    }
  }

  /** The sum fails exactly when C's pattern lacks a slot for an entry of op(A);
      otherwise C keeps its pattern and reads as beta * C + alpha * op(A). */
  lemma SumComputes(beta: real, c: CsMatrix, alpha: real, a: Op<CsMatrix>)
    requires SpaddShapes(c, a)
    ensures Sum(beta, c, alpha, a).Failure? <==> !AddFits(c, a)
    ensures Sum(beta, c, alpha, a).Failure? ==> Sum(beta, c, alpha, a).error == InvalidPattern(PatternMessage)
    ensures Sum(beta, c, alpha, a).Success? ==>
      var r := Sum(beta, c, alpha, a).value;
      WellFormed(r) && r.offsets == c.offsets && r.indices == c.indices &&
      CsrView(r) == Dense.Combine(beta, CsrView(c), alpha, OpCsrView(a), c.nmajor, c.nminor)
  {
    SpaddComputes(beta, c, alpha, a);
  }

  /** A Transpose tag on A gives the same dense product as the materialised transpose. */
  lemma DenseProductTransposeTag(beta: real, c: Dense.Matrix, alpha: real, m: CsMatrix, b: Op<Dense.Matrix>, n: nat)
    requires WellFormed(m)
    requires Dense.IsMatrix(c, m.nminor, n) && OpDenseShape(b, m.nmajor, n)
    ensures WellFormed(TransposeCs(m))
    ensures DenseProduct(beta, c, alpha, Transpose(m), b, n) == DenseProduct(beta, c, alpha, NoOp(TransposeCs(m)), b, n)
  {
    MaterializeFacts(Transpose(m));
  }

  // ---------------------------------------------------------------------------
  // The entry points that write into C.

  /** spmm_csr_prealloc_checked: C <- beta * C + alpha * op(A) * op(B), or an error. */
  method SpmmCsrPreallocChecked(beta: real, c: CsrMatrix, alpha: real, a: Op<CsrMatrix>, b: Op<CsrMatrix>)
    returns (r: Result<(), OperationError>)
    requires ProductDims(c.cs, OpCs(a), OpCs(b))
    modifies c
    ensures var res := CheckedProduct(beta, old(c.cs), alpha, old(OpCs(a)), old(OpCs(b)));
      (r.Failure? <==> res.Failure?) && (r.Failure? ==> r.error == res.error) &&
      (r.Success? ==> c.cs == res.value && c.Valid()) && (r.Failure? ==> c.Valid())
  {
    CheckedProductComputes(beta, c.cs, alpha, OpCs(a), OpCs(b));
    var res := CheckedProduct(beta, c.cs, alpha, OpCs(a), OpCs(b));
    if res.Success? {
      c.cs := res.value;
      r := Success(());
    } else {
      r := Failure(res.error);
    }
  }

  /** spmm_csr_prealloc_unchecked: never reports an error; C keeps its pattern, each slot takes
      the value of beta * C + alpha * op(A) * op(B), and with a fitting pattern C reads as it. */
  method SpmmCsrPreallocUnchecked(beta: real, c: CsrMatrix, alpha: real, a: Op<CsrMatrix>, b: Op<CsrMatrix>)
    returns (r: Result<(), OperationError>)
    requires ProductDims(c.cs, OpCs(a), OpCs(b))
    modifies c
    ensures r.Success? && c.Valid()
    ensures UncheckedProduct(beta, old(c.cs), alpha, old(OpCs(a)), old(OpCs(b))) == Success(c.cs)
    ensures c.cs == Restrict(old(c.cs), ProductTarget(beta, old(c.cs), alpha, old(OpCs(a)), old(OpCs(b))))
    ensures c.cs.offsets == old(c.cs.offsets) && c.cs.indices == old(c.cs.indices)
    ensures OpProductFits(old(c.cs), old(OpCs(a)), old(OpCs(b))) ==>
      CsrView(c.cs) == ProductTarget(beta, old(c.cs), alpha, old(OpCs(a)), old(OpCs(b)))
  {
    var c0 := c.cs;
    UncheckedProductComputes(beta, c0, alpha, OpCs(a), OpCs(b));
    ProductOfFit(beta, c0, alpha, OpCs(a), OpCs(b));
    c.cs := Restrict(c0, ProductTarget(beta, c0, alpha, OpCs(a), OpCs(b)));
    r := Success(());
  }

  /** spadd_csr_prealloc: C <- beta * C + alpha * op(A), or an error. */
  method SpaddCsrPrealloc(beta: real, c: CsrMatrix, alpha: real, a: Op<CsrMatrix>)
    returns (r: Result<(), OperationError>)
    requires SpaddShapes(c.cs, OpCs(a))
    modifies c
    ensures var res := Sum(beta, old(c.cs), alpha, old(OpCs(a)));
      (r.Failure? <==> res.Failure?) && (r.Failure? ==> r.error == res.error) &&
      (r.Success? ==> c.cs == res.value && c.Valid()) && (r.Failure? ==> c.Valid())
  {
    SumComputes(beta, c.cs, alpha, OpCs(a));
    var res := Sum(beta, c.cs, alpha, OpCs(a));
    if res.Success? {
      c.cs := res.value;
      r := Success(());
    } else {
      r := Failure(res.error);
    }
  }
}
