/**
 * The CSC entry points: sparse products and sums routed to the shared
 * row-oriented kernels, and the two sparse lower-triangular solves.
 *
 * A CSC matrix keeps one lane per column; its storage read as CSR is the
 * transposed matrix.  The kernels therefore see C^T = beta * C^T + alpha * B^T A^T,
 * which is why the product hands them B before A, and why the sparse-dense
 * product flips A's tag.
 */
module CscOps {
  import opened Wrappers
  import Dense
  import opened Compressed

  /** A CSC matrix: lanes are columns, minor indices are rows. */
  class CscMatrix {
    var cs: CsMatrix

    ghost predicate Valid()
      reads this
    {
      WellFormed(cs)
    }

    constructor (cs: CsMatrix)
      requires WellFormed(cs)
      ensures this.cs == cs && Valid()
    {
      this.cs := cs;
    }
  }

  /** The compressed storage of a tagged CSC operand, with the tag kept. */
  function OpCs(a: Op<CscMatrix>): (r: Op<CsMatrix>)
    reads a.inner
    ensures r.inner == a.inner.cs && r.NoOp? == a.NoOp?
  {
    if a.NoOp? then NoOp(a.inner.cs) else Transpose(a.inner.cs)
  }

  /** Rows and columns of op(a) with a read as CSC. */
  function OpCscRows(a: Op<CsMatrix>): nat
  {
    if a.NoOp? then a.inner.nminor else a.inner.nmajor
  }

  function OpCscCols(a: Op<CsMatrix>): nat
  {
    if a.NoOp? then a.inner.nmajor else a.inner.nminor
  }

  /** op(a) stores entry (i, j), a read as CSC. */
  predicate OpCscHas(a: Op<CsMatrix>, i: nat, j: nat)
    requires WellFormed(a.inner) && i < OpCscRows(a) && j < OpCscCols(a)
  {
    if a.NoOp? then Has(a.inner, j, i) else Has(a.inner, i, j)
  }

  /** The dense matrix op(a), a read as CSC. */
  function OpCscView(a: Op<CsMatrix>): (v: Dense.Matrix)
    requires WellFormed(a.inner)
    ensures Dense.IsMatrix(v, OpCscRows(a), OpCscCols(a))
  {
    if a.NoOp? then CscView(a.inner) else Dense.Transpose(CscView(a.inner), a.inner.nminor, a.inner.nmajor)
  }

  /** Read as CSC, op(a) is op'(a) read as CSR, where op' is the other tag. */
  lemma OpCscViewIsFlippedCsr(a: Op<CsMatrix>)
    requires WellFormed(a.inner)
    ensures OpCscView(a) == OpCsrView(a.Transposed())
    ensures OpCscRows(a) == OpRows(a.Transposed()) && OpCscCols(a) == OpCols(a.Transposed())
  {
    CscViewIsTransposedCsrView(a.inner);
    if a.Transpose? {
      Dense.TransposeTwice(CsrView(a.inner), a.inner.nmajor, a.inner.nminor);
    }
  }

  /** Read as CSC, op(a) is the transpose of op(a) read as CSR. */
  lemma OpCscViewIsTransposedCsr(a: Op<CsMatrix>)
    requires WellFormed(a.inner)
    ensures OpCscView(a) == Dense.Transpose(OpCsrView(a), OpRows(a), OpCols(a))
  {
    CscViewIsTransposedCsrView(a.inner);
    if a.Transpose? {
      Dense.TransposeTwice(CsrView(a.inner), a.inner.nmajor, a.inner.nminor);
    }
  }

  // ---------------------------------------------------------------------------
  // Products and sums.

  /** The dimension check of a product: C is op(A).rows by op(B).cols and the inner sizes agree. */
  predicate ProductDims(c: CsMatrix, a: Op<CsMatrix>, b: Op<CsMatrix>)
  {
    WellFormed(c) && WellFormed(a.inner) && WellFormed(b.inner) &&
    c.nminor == OpCscRows(a) && c.nmajor == OpCscCols(b) && OpCscCols(a) == OpCscRows(b)
  }

  /** C's pattern has a slot for every entry that op(A) * op(B) can produce. */
  predicate OpProductFits(c: CsMatrix, a: Op<CsMatrix>, b: Op<CsMatrix>)
    requires ProductDims(c, a, b)
  {
    forall i, k, j | 0 <= i < OpCscRows(a) && 0 <= k < OpCscCols(a) && 0 <= j < OpCscCols(b) ::
      OpCscHas(a, i, k) && OpCscHas(b, k, j) ==> Has(c, j, i)
  }

  /** The dense value beta * C + alpha * op(A) * op(B). */
  function ProductTarget(beta: real, c: CsMatrix, alpha: real, a: Op<CsMatrix>, b: Op<CsMatrix>): (d: Dense.Matrix)
    requires ProductDims(c, a, b)
    ensures Dense.IsMatrix(d, c.nminor, c.nmajor)
  {
    Dense.Combine(beta, CscView(c), alpha,
      Dense.Mul(OpCscView(a), OpCscView(b), OpCscRows(a), OpCscCols(a), OpCscCols(b)), c.nminor, c.nmajor)
  }

  function TransposeCount(a: Op<CsMatrix>, b: Op<CsMatrix>): nat
  {
    (if a.Transpose? then 1 else 0) + (if b.Transpose? then 1 else 0)
  }

  /** The new value of C after spmm_csc_prealloc, or the kernel's error.  Untagged operands go
      to the kernel in swapped order; otherwise the tagged operands are materialised and the
      product is taken once more. */
  function Product(beta: real, c: CsMatrix, alpha: real, a: Op<CsMatrix>, b: Op<CsMatrix>): (r: Result<CsMatrix, OperationError>)
    requires ProductDims(c, a, b)
    ensures r.Failure? ==> r.error == InvalidPattern(PatternMessage)
    ensures r.Success? ==> KeepsPattern(c, r.value)
    decreases TransposeCount(a, b)
  {
    if a.NoOp? && b.NoOp? then SpmmCsPreallocChecked(beta, c, alpha, b.inner, a.inner)
    else
      MaterializeFacts(a);
      MaterializeFacts(b);
      Product(beta, c, alpha, NoOp(Materialize(a)), NoOp(Materialize(b)))
  }

  /** The new value of C after spadd_csc_prealloc: the kernel with A's tag kept. */
  function Sum(beta: real, c: CsMatrix, alpha: real, a: Op<CsMatrix>): (r: Result<CsMatrix, OperationError>)
    requires WellFormed(c) && WellFormed(a.inner) && c.nminor == OpCscRows(a) && c.nmajor == OpCscCols(a)
    ensures r.Failure? ==> r.error == InvalidPattern(PatternMessage)
    ensures r.Success? ==> KeepsPattern(c, r.value)
  {
    SpaddCsPrealloc(beta, c, alpha, a)
  }

  /** C's pattern has a slot for every stored entry of op(A), all read as CSC. */
  predicate SumFits(c: CsMatrix, a: Op<CsMatrix>)
    requires WellFormed(c) && WellFormed(a.inner) && c.nminor == OpCscRows(a) && c.nmajor == OpCscCols(a)
  {
    forall i, j | 0 <= i < c.nminor && 0 <= j < c.nmajor :: OpCscHas(a, i, j) ==> Has(c, j, i)
  }

  /** The new dense C after spmm_csc_dense_: the CSR kernel gets A with its tag flipped, and
      the result is beta * C + alpha * op(A) * op(B) with A read as CSC. */
  function DenseProduct(beta: real, c: Dense.Matrix, alpha: real, a: Op<CsMatrix>, b: Op<Dense.Matrix>, n: nat): (r: Dense.Matrix)
    requires WellFormed(a.inner)
    requires Dense.IsMatrix(c, OpCscRows(a), n) && OpDenseShape(b, OpCscCols(a), n)
    ensures Dense.IsMatrix(r, OpCscRows(a), n)
    ensures r == Dense.Combine(beta, c, alpha,
                   Dense.Mul(OpCscView(a), OpDense(b, OpCscCols(a), n), OpCscRows(a), OpCscCols(a), n), OpCscRows(a), n)
  {
    OpCscViewIsFlippedCsr(a);
    SpmmCsDense(beta, c, alpha, a.Transposed(), b, n)
  }

  // ---------------------------------------------------------------------------
  // What the routing computes.

  /** Untagged materialised operands store what the tagged ones do and read the same. */
  lemma MaterializedOperands(c: CsMatrix, a: Op<CsMatrix>, b: Op<CsMatrix>)
    requires ProductDims(c, a, b)
    ensures ProductDims(c, NoOp(Materialize(a)), NoOp(Materialize(b)))
    ensures OpProductFits(c, NoOp(Materialize(a)), NoOp(Materialize(b))) <==> OpProductFits(c, a, b)
    ensures OpCscView(NoOp(Materialize(a))) == OpCscView(a) && OpCscView(NoOp(Materialize(b))) == OpCscView(b)
  {
    MaterializedOperand(a);
    MaterializedOperand(b);
    var a', b' := NoOp(Materialize(a)), NoOp(Materialize(b));
    forall i, k, j | 0 <= i < OpCscRows(a) && 0 <= k < OpCscCols(a) && 0 <= j < OpCscCols(b)
      ensures (OpCscHas(a', i, k) && OpCscHas(b', k, j)) == (OpCscHas(a, i, k) && OpCscHas(b, k, j))
    {
    }
  }

  lemma MaterializedOperand(a: Op<CsMatrix>)
    requires WellFormed(a.inner)
    ensures WellFormed(Materialize(a))
    ensures OpCscRows(NoOp(Materialize(a))) == OpCscRows(a) && OpCscCols(NoOp(Materialize(a))) == OpCscCols(a)
    ensures forall i, j :: 0 <= i < OpCscRows(a) && 0 <= j < OpCscCols(a) ==>
      (OpCscHas(NoOp(Materialize(a)), i, j) <==> OpCscHas(a, i, j))
    ensures OpCscView(NoOp(Materialize(a))) == OpCscView(a)
  {
    if a.Transpose? {
      TransposeEntries(a.inner);
      TransposeViews(a.inner);
    }
  }

  /** With both tags NoOp, the fit of C for A * B is the kernel's fit for the swapped operands. */
  lemma FitsSwapped(c: CsMatrix, a: Op<CsMatrix>, b: Op<CsMatrix>)
    requires ProductDims(c, a, b) && a.NoOp? && b.NoOp?
    ensures SpmmShapes(c, b.inner, a.inner)
    ensures OpProductFits(c, a, b) <==> ProductFits(c, b.inner, a.inner)
  {
    if OpProductFits(c, a, b) {
      forall j, k, i | 0 <= j < b.inner.nmajor && 0 <= k < b.inner.nminor && 0 <= i < a.inner.nminor
        ensures Has(b.inner, j, k) && Has(a.inner, k, i) ==> Has(c, j, i)
      {
        assert OpCscHas(a, i, k) == Has(a.inner, k, i) && OpCscHas(b, k, j) == Has(b.inner, j, k);
      }
    }
    if ProductFits(c, b.inner, a.inner) {
      forall i, k, j | 0 <= i < OpCscRows(a) && 0 <= k < OpCscCols(a) && 0 <= j < OpCscCols(b)
        ensures OpCscHas(a, i, k) && OpCscHas(b, k, j) ==> Has(c, j, i)
      {
        assert OpCscHas(a, i, k) == Has(a.inner, k, i) && OpCscHas(b, k, j) == Has(b.inner, j, k);
      }
    }
  }

  /** The swapped kernel call computes (beta * C + alpha * A * B) for CSC operands. */
  lemma SwappedKernelComputes(beta: real, c: CsMatrix, alpha: real, a: CsMatrix, b: CsMatrix)
    requires ProductDims(c, NoOp(a), NoOp(b)) && ProductFits(c, b, a)
    ensures SpmmShapes(c, b, a)
    ensures var r := SpmmCsPreallocChecked(beta, c, alpha, b, a);
      r.Success? && WellFormed(r.value) &&
      CscView(r.value) == ProductTarget(beta, c, alpha, NoOp(a), NoOp(b))
  {
    SpmmCheckedComputes(beta, c, alpha, b, a);
    var r := SpmmCsPreallocChecked(beta, c, alpha, b, a).value;
    var rows, inner, cols := a.nminor, a.nmajor, b.nmajor;
    var prod := Dense.Mul(CsrView(b), CsrView(a), cols, inner, rows);
    CscViewIsTransposedCsrView(r);
    CscViewIsTransposedCsrView(c);
    CscViewIsTransposedCsrView(a);
    CscViewIsTransposedCsrView(b);
    Dense.TransposeOfCombine(beta, CsrView(c), alpha, prod, cols, rows);
    Dense.TransposeOfProduct(CsrView(b), CsrView(a), cols, inner, rows);
  }

  /** spmm_csc_prealloc fails exactly when C's pattern lacks a slot for op(A) * op(B);
      otherwise C keeps its pattern and reads as beta * C + alpha * op(A) * op(B). */
  lemma ProductComputes(beta: real, c: CsMatrix, alpha: real, a: Op<CsMatrix>, b: Op<CsMatrix>)
    requires ProductDims(c, a, b)
    ensures Product(beta, c, alpha, a, b).Failure? <==> !OpProductFits(c, a, b)
    ensures Product(beta, c, alpha, a, b).Failure? ==>
      Product(beta, c, alpha, a, b).error == InvalidPattern(PatternMessage)
    ensures Product(beta, c, alpha, a, b).Success? ==>
      var r := Product(beta, c, alpha, a, b).value;
      WellFormed(r) && r.nmajor == c.nmajor && r.nminor == c.nminor &&
      r.offsets == c.offsets && r.indices == c.indices &&
      CscView(r) == ProductTarget(beta, c, alpha, a, b)
    decreases TransposeCount(a, b)
  {
    if a.NoOp? && b.NoOp? {
      FitsSwapped(c, a, b);
      SpmmCheckedComputes(beta, c, alpha, b.inner, a.inner);
      if ProductFits(c, b.inner, a.inner) {
        SwappedKernelComputes(beta, c, alpha, a.inner, b.inner);
      }
    } else {
      MaterializedOperands(c, a, b);
      ProductComputes(beta, c, alpha, NoOp(Materialize(a)), NoOp(Materialize(b)));
    }
  }

  /** spadd_csc_prealloc fails exactly when C's pattern lacks a slot for an entry of op(A);
      otherwise C keeps its pattern and reads as beta * C + alpha * op(A). */
  lemma SumComputes(beta: real, c: CsMatrix, alpha: real, a: Op<CsMatrix>)
    requires WellFormed(c) && WellFormed(a.inner) && c.nminor == OpCscRows(a) && c.nmajor == OpCscCols(a)
    ensures Sum(beta, c, alpha, a).Failure? <==> !SumFits(c, a)
    ensures Sum(beta, c, alpha, a).Failure? ==> Sum(beta, c, alpha, a).error == InvalidPattern(PatternMessage)
    ensures Sum(beta, c, alpha, a).Success? ==>
      var r := Sum(beta, c, alpha, a).value;
      WellFormed(r) && r.offsets == c.offsets && r.indices == c.indices &&
      CscView(r) == Dense.Combine(beta, CscView(c), alpha, OpCscView(a), c.nminor, c.nmajor)
  {
    SpaddComputes(beta, c, alpha, a);
    assert AddFits(c, a) <==> SumFits(c, a) by {
      forall i, j | 0 <= i < c.nmajor && 0 <= j < c.nminor
        ensures OpHas(a, i, j) == OpCscHas(a, j, i)
      {
      }
    }
    if AddFits(c, a) {
      var r := Sum(beta, c, alpha, a).value;
      CscViewIsTransposedCsrView(r);
      CscViewIsTransposedCsrView(c);
      OpCscViewIsTransposedCsr(a);
      Dense.TransposeOfCombine(beta, CsrView(c), alpha, OpCsrView(a), c.nmajor, c.nminor);
    }
  }

  // ---------------------------------------------------------------------------
  // The entry points that write into C.

  /** spmm_csc_prealloc: C <- beta * C + alpha * op(A) * op(B), or an error. */
  method SpmmCscPrealloc(beta: real, c: CscMatrix, alpha: real, a: Op<CscMatrix>, b: Op<CscMatrix>)
    returns (r: Result<(), OperationError>)
    requires ProductDims(c.cs, OpCs(a), OpCs(b))
    modifies c
    ensures var res := Product(beta, old(c.cs), alpha, old(OpCs(a)), old(OpCs(b)));
      (r.Failure? <==> res.Failure?) && (r.Failure? ==> r.error == res.error) &&
      (r.Success? ==> c.cs == res.value && c.Valid()) && (r.Failure? ==> c.Valid())
  {
    ProductComputes(beta, c.cs, alpha, OpCs(a), OpCs(b));
    var res := Product(beta, c.cs, alpha, OpCs(a), OpCs(b));
    if res.Success? {
      c.cs := res.value;
      r := Success(());
    } else {
      r := Failure(res.error);
    }
  }

  /** spadd_csc_prealloc: C <- beta * C + alpha * op(A), or an error. */
  method SpaddCscPrealloc(beta: real, c: CscMatrix, alpha: real, a: Op<CscMatrix>)
    returns (r: Result<(), OperationError>)
    requires WellFormed(c.cs) && WellFormed(a.inner.cs)
    requires c.cs.nminor == OpCscRows(OpCs(a)) && c.cs.nmajor == OpCscCols(OpCs(a))
    modifies c
    ensures var res := Sum(beta, old(c.cs), alpha, old(OpCs(a)));
      (r.Failure? <==> res.Failure?) && (r.Failure? ==> r.error == res.error) &&
      (r.Success? ==> c.cs == res.value && c.Valid()) && (r.Failure? ==> c.Valid())
  {
    SumComputes(beta, c.cs, alpha, OpCs(a));
    var res := Sum(beta, c.cs, alpha, OpCs(a));
    if res.Success? {
      c.cs := res.value;
      r := Success(());
    } else {
      r := Failure(res.error);
    }
  }
}
