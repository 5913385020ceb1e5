/**
 * Compressed sparse storage shared by CSR and CSC matrices.  A CsMatrix has
 * `nmajor` lanes (rows for CSR, columns for CSC); lane k holds the minor
 * indices indices[offsets[k] .. offsets[k + 1]] with the values stored at the
 * same positions.  Read as CSR, entry (i, j) of the matrix is At(m, i, j).
 *
 * The operand tag Op, the transpose of a compressed matrix and the shared
 * kernels for sparse products and sums are defined here by what they compute:
 * beta * C + alpha * op(A) * op(B) or beta * C + alpha * op(A) on the stored
 * entries of C, with an error when C's pattern has no slot for an entry of
 * the result.
 */
module Compressed {
  import opened Wrappers
  import Flatten
  import Dense

  datatype CsMatrix = CsMatrix(nmajor: nat, nminor: nat, offsets: seq<nat>, indices: seq<nat>, values: seq<real>)

  /** The layout of the offsets: nmajor + 1 of them, non-decreasing from 0 to the
      number of stored entries, with one value per stored index. */
  predicate Shaped(m: CsMatrix)
  {
    && |m.offsets| == m.nmajor + 1
    && m.offsets[0] == 0
    && m.offsets[m.nmajor] == |m.indices|
    && |m.values| == |m.indices|
    && (forall k, k' :: 0 <= k <= k' <= m.nmajor ==> m.offsets[k] <= m.offsets[k'])
  }

  /** The minor indices stored in lane k. */
  function LaneIndices(m: CsMatrix, k: nat): seq<nat>
    requires Shaped(m) && k < m.nmajor
  {
    m.indices[m.offsets[k]..m.offsets[k + 1]]
  }

  predicate Increasing(s: seq<nat>)
  {
    forall t, u :: 0 <= t < u < |s| ==> s[t] < s[u]
  }

  /** The storage invariant: the layout above, minor indices in bounds and strictly
      ascending in each lane. */
  predicate WellFormed(m: CsMatrix)
  {
    && Shaped(m)
    && (forall p :: 0 <= p < |m.indices| ==> m.indices[p] < m.nminor)
    && (forall k :: 0 <= k < m.nmajor ==> Increasing(LaneIndices(m, k)))
  }

  /** The kinds of error an operation on compressed matrices reports. */
  datatype OperationError = InvalidPattern(message: string)

  const PatternMessage: string := "Pattern of output matrix does not accommodate the result."

  function LaneValues(m: CsMatrix, k: nat): seq<real>
    requires Shaped(m) && k < m.nmajor
  {
    m.values[m.offsets[k]..m.offsets[k + 1]]
  }

  /** The first position of x in s, or |s| when x does not occur. */
  function Find(s: seq<nat>, x: nat): (r: nat)
    ensures r <= |s| && (r < |s| ==> s[r] == x)
    ensures forall q :: 0 <= q < r ==> s[q] != x
  {
    if |s| == 0 then 0 else if s[0] == x then 0 else 1 + Find(s[1..], x)
  }

  /** Entry (i, j) is explicitly stored. */
  predicate Has(m: CsMatrix, i: nat, j: nat)
    requires Shaped(m) && i < m.nmajor
  {
    Find(LaneIndices(m, i), j) < |LaneIndices(m, i)|
  }

  /** Entry (i, j) of the matrix read with lanes as rows: the stored value, or zero. */
  function At(m: CsMatrix, i: nat, j: nat): real
    requires Shaped(m) && i < m.nmajor
  {
    var lane := LaneIndices(m, i);
    if Find(lane, j) < |lane| then LaneValues(m, i)[Find(lane, j)] else 0.0
  }

  /** The dense matrix of m read as CSR (lanes are rows). */
  function CsrView(m: CsMatrix): (v: Dense.Matrix)
    requires WellFormed(m)
    ensures Dense.IsMatrix(v, m.nmajor, m.nminor)
    ensures forall i, j :: 0 <= i < m.nmajor && 0 <= j < m.nminor ==> v[i][j] == At(m, i, j)
  {
    seq(m.nmajor, i requires 0 <= i < m.nmajor => seq(m.nminor, j requires 0 <= j < m.nminor => At(m, i, j)))
  }

  /** The dense matrix of m read as CSC (lanes are columns). */
  function CscView(m: CsMatrix): (v: Dense.Matrix)
    requires WellFormed(m)
    ensures Dense.IsMatrix(v, m.nminor, m.nmajor)
    ensures forall i, j :: 0 <= i < m.nminor && 0 <= j < m.nmajor ==> v[i][j] == At(m, j, i)
  {
    seq(m.nminor, i requires 0 <= i < m.nminor => seq(m.nmajor, j requires 0 <= j < m.nmajor => At(m, j, i)))
  }

  lemma CscViewIsTransposedCsrView(m: CsMatrix)
    requires WellFormed(m)
    ensures CscView(m) == Dense.Transpose(CsrView(m), m.nmajor, m.nminor)
  {
    Dense.Extensional(CscView(m), Dense.Transpose(CsrView(m), m.nmajor, m.nminor), m.nminor, m.nmajor);
  }

  // ---------------------------------------------------------------------------
  // The operand tag.

  /** Use a matrix as it is, or its transpose. */
  datatype Op<T> = NoOp(inner: T) | Transpose(inner: T)
  {
    /** The same operand with the other tag. */
    function Transposed(): (r: Op<T>)
      ensures r.inner == inner && r.NoOp? == Transpose?
    {
      match this
      case NoOp(x) => Transpose(x)
      case Transpose(x) => NoOp(x)
    }

    /** Apply f to the operand and keep the tag. */
    function MapSameOp<U>(f: T -> U): (r: Op<U>)
      ensures r.inner == f(inner) && r.NoOp? == NoOp?
    {
      match this
      case NoOp(x) => NoOp(f(x))
      case Transpose(x) => Transpose(f(x))
    }
  }

  /** Rows and columns of op(a) with a read as CSR. */
  function OpRows(a: Op<CsMatrix>): nat
  {
    if a.NoOp? then a.inner.nmajor else a.inner.nminor
  }

  function OpCols(a: Op<CsMatrix>): nat
  {
    if a.NoOp? then a.inner.nminor else a.inner.nmajor
  }

  predicate OpHas(a: Op<CsMatrix>, i: nat, j: nat)
    requires WellFormed(a.inner) && i < OpRows(a) && j < OpCols(a)
  {
    if a.NoOp? then Has(a.inner, i, j) else Has(a.inner, j, i)
  }

  function OpAt(a: Op<CsMatrix>, i: nat, j: nat): real
    requires WellFormed(a.inner) && i < OpRows(a) && j < OpCols(a)
  {
    if a.NoOp? then At(a.inner, i, j) else At(a.inner, j, i)
  }

  /** The dense matrix op(a), a read as CSR. */
  function OpCsrView(a: Op<CsMatrix>): (v: Dense.Matrix)
    requires WellFormed(a.inner)
    ensures Dense.IsMatrix(v, OpRows(a), OpCols(a))
    ensures forall i, j :: 0 <= i < OpRows(a) && 0 <= j < OpCols(a) ==> v[i][j] == OpAt(a, i, j)
  {
    if a.NoOp? then CsrView(a.inner) else Dense.Transpose(CsrView(a.inner), a.inner.nmajor, a.inner.nminor)
  }

  /** A dense operand b whose effective shape op(b) is rows by cols. */
  predicate OpDenseShape(b: Op<Dense.Matrix>, rows: nat, cols: nat)
  {
    if b.NoOp? then Dense.IsMatrix(b.inner, rows, cols) else Dense.IsMatrix(b.inner, cols, rows)
  }

  function OpDense(b: Op<Dense.Matrix>, rows: nat, cols: nat): (v: Dense.Matrix)
    requires OpDenseShape(b, rows, cols)
    ensures Dense.IsMatrix(v, rows, cols)
  {
    if b.NoOp? then b.inner else Dense.Transpose(b.inner, cols, rows)
  }

  // ---------------------------------------------------------------------------
  // Transpose: lane r of the result lists, in ascending order, every old lane q
  // that stores an entry with minor index r.

  /** The old lanes q' < q that store minor index r. */
  function TLaneIndices(m: CsMatrix, r: nat, q: nat): seq<nat>
    requires WellFormed(m) && q <= m.nmajor
  {
    if q == 0 then [] else TLaneIndices(m, r, q - 1) + (if Has(m, q - 1, r) then [q - 1] else [])
  }

  function TLaneValues(m: CsMatrix, r: nat, q: nat): (v: seq<real>)
    requires WellFormed(m) && q <= m.nmajor
    ensures |v| == |TLaneIndices(m, r, q)|
  {
    if q == 0 then [] else TLaneValues(m, r, q - 1) + (if Has(m, q - 1, r) then [At(m, q - 1, r)] else [])
  }

  lemma {:induction false} TLaneFacts(m: CsMatrix, r: nat, q: nat)
    requires WellFormed(m) && q <= m.nmajor
    ensures forall t :: 0 <= t < |TLaneIndices(m, r, q)| ==> TLaneIndices(m, r, q)[t] < q
    ensures Increasing(TLaneIndices(m, r, q))
  {
    if q > 0 {
      TLaneFacts(m, r, q - 1);
      var s := TLaneIndices(m, r, q - 1);
      assert TLaneIndices(m, r, q) == s + (if Has(m, q - 1, r) then [q - 1] else []);
    }
  }

  /** Find in a concatenation looks in the second part only when the first lacks x. */
  lemma {:induction false} FindAppend(s: seq<nat>, t: seq<nat>, x: nat)
    ensures Find(s + t, x) == if Find(s, x) < |s| then Find(s, x) else |s| + Find(t, x)
  {
    if |s| == 0 {
      assert s + t == t;
    } else if s[0] != x {
      assert (s + t)[1..] == s[1..] + t;
      FindAppend(s[1..], t, x);
    }
  }

  /** Looking up old lane x in the transposed lane r finds it exactly when m stores
      (x, r), and gives entry (x, r) of m. */
  lemma {:induction false} TLaneLookup(m: CsMatrix, r: nat, q: nat, x: nat)
    requires WellFormed(m) && q <= m.nmajor
    ensures Find(TLaneIndices(m, r, q), x) < |TLaneIndices(m, r, q)| <==> x < q && Has(m, x, r)
    ensures (if Find(TLaneIndices(m, r, q), x) < |TLaneIndices(m, r, q)|
             then TLaneValues(m, r, q)[Find(TLaneIndices(m, r, q), x)] else 0.0)
         == (if x < q then At(m, x, r) else 0.0)
  {
    if q > 0 {
      TLaneLookup(m, r, q - 1, x);
      var s, t := TLaneIndices(m, r, q - 1), (if Has(m, q - 1, r) then [q - 1] else []);
      var vs, vt := TLaneValues(m, r, q - 1), (if Has(m, q - 1, r) then [At(m, q - 1, r)] else []);
      assert TLaneIndices(m, r, q) == s + t;
      assert TLaneValues(m, r, q) == vs + vt;
      FindAppend(s, t, x);
      if Find(s, x) < |s| {
        assert (vs + vt)[Find(s, x)] == vs[Find(s, x)];
      } else if x == q - 1 && Has(m, q - 1, r) {
        assert (vs + vt)[|s|] == At(m, q - 1, r);
      }
    }
  }

  function TransposedIndexLanes(m: CsMatrix): seq<seq<nat>>
    requires WellFormed(m)
  {
    seq(m.nminor, r requires 0 <= r => TLaneIndices(m, r, m.nmajor))
  }

  function TransposedValueLanes(m: CsMatrix): seq<seq<real>>
    requires WellFormed(m)
  {
    seq(m.nminor, r requires 0 <= r => TLaneValues(m, r, m.nmajor))
  }

  /** The transpose of m: minor and major dimensions swapped. */
  function TransposeCs(m: CsMatrix): (t: CsMatrix)
    requires WellFormed(m)
    ensures t.nmajor == m.nminor && t.nminor == m.nmajor
  {
    var il, vl := TransposedIndexLanes(m), TransposedValueLanes(m);
    CsMatrix(m.nminor, m.nmajor, Flatten.Offsets(il), Flatten.Concat(il), Flatten.Concat(vl))
  }

  lemma TransposeShaped(m: CsMatrix)
    requires WellFormed(m)
    ensures Shaped(TransposeCs(m))
    ensures forall r :: 0 <= r < m.nminor ==>
      LaneIndices(TransposeCs(m), r) == TLaneIndices(m, r, m.nmajor) &&
      LaneValues(TransposeCs(m), r) == TLaneValues(m, r, m.nmajor)
  {
    var il, vl := TransposedIndexLanes(m), TransposedValueLanes(m);
    var t := TransposeCs(m);
    forall r | 0 <= r < m.nminor
      ensures |il[r]| == |vl[r]|
    {
    }
    Flatten.OffsetsSameLengths(il, vl);
    forall k, k' | 0 <= k <= k' <= t.nmajor
      ensures t.offsets[k] <= t.offsets[k']
    {
      Flatten.OffsetsMonotone(il, k, k');
    }
    assert Shaped(t);
    forall r | 0 <= r < m.nminor
      ensures LaneIndices(t, r) == il[r] && LaneValues(t, r) == vl[r]
    {
      Flatten.LaneSlice(il, r);
      Flatten.LaneSlice(vl, r);
    }
  }

  /** The transpose is well formed, and its lane r is the transposed lane r. */
  lemma TransposeLanes(m: CsMatrix)
    requires WellFormed(m)
    ensures WellFormed(TransposeCs(m))
    ensures forall r :: 0 <= r < m.nminor ==>
      LaneIndices(TransposeCs(m), r) == TLaneIndices(m, r, m.nmajor) &&
      LaneValues(TransposeCs(m), r) == TLaneValues(m, r, m.nmajor)
  {
    var il := TransposedIndexLanes(m);
    var t := TransposeCs(m);
    TransposeShaped(m);
    forall p | 0 <= p < |t.indices|
      ensures t.indices[p] < t.nminor
    {
      assert t.indices[p] in Flatten.Concat(il);
      Flatten.ConcatElement(il, t.indices[p]);
      var r :| 0 <= r < |il| && t.indices[p] in il[r];
      TLaneFacts(m, r, m.nmajor);
      var u :| 0 <= u < |il[r]| && il[r][u] == t.indices[p];
    }
    forall k | 0 <= k < t.nmajor
      ensures Increasing(LaneIndices(t, k))
    {
      TLaneFacts(m, k, m.nmajor);
    }
  }

  /** The transpose stores entry (i, j) exactly when m stores (j, i), with the same value. */
  lemma TransposeEntries(m: CsMatrix)
    requires WellFormed(m)
    ensures WellFormed(TransposeCs(m))
    ensures forall i, j :: 0 <= i < m.nminor && 0 <= j < m.nmajor ==>
      (Has(TransposeCs(m), i, j) <==> Has(m, j, i)) && At(TransposeCs(m), i, j) == At(m, j, i)
  {
    TransposeLanes(m);
    forall i, j | 0 <= i < m.nminor && 0 <= j < m.nmajor
      ensures (Has(TransposeCs(m), i, j) <==> Has(m, j, i)) && At(TransposeCs(m), i, j) == At(m, j, i)
    {
      TLaneLookup(m, i, m.nmajor, j);
    }
  }

  /** Read in either orientation, the transpose's dense matrix is the transposed dense matrix. */
  lemma TransposeViews(m: CsMatrix)
    requires WellFormed(m)
    ensures WellFormed(TransposeCs(m))
    ensures CsrView(TransposeCs(m)) == Dense.Transpose(CsrView(m), m.nmajor, m.nminor)
    ensures CscView(TransposeCs(m)) == Dense.Transpose(CscView(m), m.nminor, m.nmajor)
  {
    TransposeEntries(m);
    Dense.Extensional(CsrView(TransposeCs(m)), Dense.Transpose(CsrView(m), m.nmajor, m.nminor), m.nminor, m.nmajor);
    Dense.Extensional(CscView(TransposeCs(m)), Dense.Transpose(CscView(m), m.nminor, m.nmajor), m.nmajor, m.nminor);
  }

  /** The operand as a matrix of its own: the inner matrix, or a transposed copy of it. */
  function Materialize(a: Op<CsMatrix>): (m: CsMatrix)
    requires WellFormed(a.inner)
    ensures m.nmajor == OpRows(a) && m.nminor == OpCols(a)
  {
    if a.NoOp? then a.inner else TransposeCs(a.inner)
  }

  /** The materialised operand is well formed, stores what op(a) stores and reads as op(a). */
  lemma MaterializeFacts(a: Op<CsMatrix>)
    requires WellFormed(a.inner)
    ensures WellFormed(Materialize(a))
    ensures forall i, j :: 0 <= i < OpRows(a) && 0 <= j < OpCols(a) ==>
      (Has(Materialize(a), i, j) <==> OpHas(a, i, j)) && At(Materialize(a), i, j) == OpAt(a, i, j)
    ensures CsrView(Materialize(a)) == OpCsrView(a)
  {
    if a.Transpose? {
      TransposeEntries(a.inner);
      TransposeViews(a.inner);
    }
  }

  // ---------------------------------------------------------------------------
  // The shared kernels.  Every kernel keeps C's pattern and rewrites the value in
  // each of C's slots.

  /** The lane that slot p lies in. */
  function SlotLane(m: CsMatrix, p: nat): (k: nat)
    requires WellFormed(m) && p < |m.indices|
    ensures k < m.nmajor && m.offsets[k] <= p < m.offsets[k + 1]
  {
    LaneFrom(m, p, 0)
  }

  function LaneFrom(m: CsMatrix, p: nat, k: nat): (r: nat)
    requires WellFormed(m) && p < |m.indices| && k < m.nmajor && m.offsets[k] <= p
    ensures k <= r < m.nmajor && m.offsets[r] <= p < m.offsets[r + 1]
    decreases m.nmajor - k
  {
    if p < m.offsets[k + 1] then k else LaneFrom(m, p, k + 1)
  }

  /** C's pattern has a slot for every entry that A * B can produce (a and b read as CSR). */
  predicate ProductFits(c: CsMatrix, a: CsMatrix, b: CsMatrix)
    requires SpmmShapes(c, a, b)
  {
    forall i, k, j | 0 <= i < a.nmajor && 0 <= k < a.nminor && 0 <= j < b.nminor ::
      Has(a, i, k) && Has(b, k, j) ==> Has(c, i, j)
  }

  predicate SpmmShapes(c: CsMatrix, a: CsMatrix, b: CsMatrix)
  {
    WellFormed(c) && WellFormed(a) && WellFormed(b) &&
    c.nmajor == a.nmajor && a.nminor == b.nmajor && c.nminor == b.nminor
  }

  /** r has the dimensions, offsets and indices of c: only the values may differ. */
  predicate KeepsPattern(c: CsMatrix, r: CsMatrix)
  {
    r.nmajor == c.nmajor && r.nminor == c.nminor && r.offsets == c.offsets && r.indices == c.indices
  }

  /** C's pattern with the value in every slot read off the dense matrix d. */
  function Restrict(c: CsMatrix, d: Dense.Matrix): (r: CsMatrix)
    requires WellFormed(c) && Dense.IsMatrix(d, c.nmajor, c.nminor)
    ensures r.nmajor == c.nmajor && r.nminor == c.nminor
    ensures r.offsets == c.offsets && r.indices == c.indices && |r.values| == |c.values|
  {
    c.(values := seq(|c.values|, p requires 0 <= p < |c.values| => d[SlotLane(c, p)][c.indices[p]]))
  }

  /** The dense value beta * C + alpha * A * B that the product kernel writes into C's slots. */
  function SpmmTarget(beta: real, c: CsMatrix, alpha: real, a: CsMatrix, b: CsMatrix): (d: Dense.Matrix)
    requires SpmmShapes(c, a, b)
    ensures Dense.IsMatrix(d, c.nmajor, c.nminor)
  {
    Dense.Combine(beta, CsrView(c), alpha, Dense.Mul(CsrView(a), CsrView(b), a.nmajor, a.nminor, b.nminor), c.nmajor, c.nminor)
  }

  /** The checked sparse product kernel (lanes are rows): C <- beta * C + alpha * A * B. */
  function SpmmCsPreallocChecked(beta: real, c: CsMatrix, alpha: real, a: CsMatrix, b: CsMatrix): Result<CsMatrix, OperationError>
    requires SpmmShapes(c, a, b)
  {
    if ProductFits(c, a, b) then Success(Restrict(c, SpmmTarget(beta, c, alpha, a, b)))
    else Failure(InvalidPattern(PatternMessage))
  }

  /** The unchecked kernel never reports an error: every slot of C takes the value of
      beta * C + alpha * A * B at it, and entries of the product without a slot are dropped. */
  function SpmmCsPreallocUnchecked(beta: real, c: CsMatrix, alpha: real, a: CsMatrix, b: CsMatrix): Result<CsMatrix, OperationError>
    requires SpmmShapes(c, a, b)
  {
    Success(Restrict(c, SpmmTarget(beta, c, alpha, a, b)))
  }

  predicate SpaddShapes(c: CsMatrix, a: Op<CsMatrix>)
  {
    WellFormed(c) && WellFormed(a.inner) && OpRows(a) == c.nmajor && OpCols(a) == c.nminor
  }

  /** C's pattern has a slot for every stored entry of op(A). */
  predicate AddFits(c: CsMatrix, a: Op<CsMatrix>)
    requires SpaddShapes(c, a)
  {
    forall i, j | 0 <= i < c.nmajor && 0 <= j < c.nminor :: OpHas(a, i, j) ==> Has(c, i, j)
  }

  /** The dense value beta * C + alpha * op(A) that the sum kernel writes into C's slots. */
  function SpaddTarget(beta: real, c: CsMatrix, alpha: real, a: Op<CsMatrix>): (d: Dense.Matrix)
    requires SpaddShapes(c, a)
    ensures Dense.IsMatrix(d, c.nmajor, c.nminor)
  {
    Dense.Combine(beta, CsrView(c), alpha, OpCsrView(a), c.nmajor, c.nminor)
  }

  /** The sparse sum kernel (lanes are rows): C <- beta * C + alpha * op(A). */
  function SpaddCsPrealloc(beta: real, c: CsMatrix, alpha: real, a: Op<CsMatrix>): Result<CsMatrix, OperationError>
    requires SpaddShapes(c, a)
  {
    if AddFits(c, a) then Success(Restrict(c, SpaddTarget(beta, c, alpha, a)))
    else Failure(InvalidPattern(PatternMessage))
  }

  /** The sparse-dense product kernel (A read as CSR): C <- beta * C + alpha * op(A) * op(B). */
  function SpmmCsDense(beta: real, c: Dense.Matrix, alpha: real, a: Op<CsMatrix>, b: Op<Dense.Matrix>, n: nat): (r: Dense.Matrix)
    requires WellFormed(a.inner)
    requires Dense.IsMatrix(c, OpRows(a), n) && OpDenseShape(b, OpCols(a), n)
    ensures Dense.IsMatrix(r, OpRows(a), n)
  {
    Dense.Combine(beta, c, alpha, Dense.Mul(OpCsrView(a), OpDense(b, OpCols(a), n), OpRows(a), OpCols(a), n), OpRows(a), n)
  }

  // ---------------------------------------------------------------------------
  // What the kernels compute, stated on dense matrices.

  /** A matrix with m's layout and new values is well formed, with m's lanes. */
  lemma SameLayout(m: CsMatrix, r: CsMatrix)
    requires WellFormed(m)
    requires r.nmajor == m.nmajor && r.nminor == m.nminor && r.offsets == m.offsets
    requires r.indices == m.indices && |r.values| == |m.values|
    ensures WellFormed(r)
    ensures forall k :: 0 <= k < m.nmajor ==> LaneIndices(r, k) == LaneIndices(m, k)
  {
    forall k | 0 <= k < m.nmajor
      ensures LaneIndices(r, k) == LaneIndices(m, k)
    {
    }
  }

  lemma SlotLaneOf(m: CsMatrix, k: nat, p: nat)
    requires WellFormed(m) && k < m.nmajor && m.offsets[k] <= p < m.offsets[k + 1]
    ensures SlotLane(m, p) == k
  {
  }

  /** The stored value at (i, j) sits at slot offsets[i] + Find(lane i, j). */
  lemma AtSlot(m: CsMatrix, i: nat, j: nat)
    requires WellFormed(m) && i < m.nmajor && Has(m, i, j)
    ensures m.offsets[i] + Find(LaneIndices(m, i), j) < m.offsets[i + 1]
    ensures m.indices[m.offsets[i] + Find(LaneIndices(m, i), j)] == j
    ensures At(m, i, j) == m.values[m.offsets[i] + Find(LaneIndices(m, i), j)]
  {
  }

  /** A slot of C's pattern holds the matching entry of d. */
  lemma RestrictStored(c: CsMatrix, d: Dense.Matrix, i: nat, j: nat)
    requires WellFormed(c) && Dense.IsMatrix(d, c.nmajor, c.nminor)
    requires i < c.nmajor && Has(c, i, j)
    ensures WellFormed(Restrict(c, d)) && At(Restrict(c, d), i, j) == d[i][j]
  {
    var r := Restrict(c, d);
    SameLayout(c, r);
    AtSlot(c, i, j);
    AtSlot(r, i, j);
    var p := c.offsets[i] + Find(LaneIndices(c, i), j);
    SlotLaneOf(c, i, p);
    assert r.values[p] == d[i][j];
  }

  /** Read back, Restrict(c, d) is d, provided d vanishes wherever C's pattern has no slot. */
  lemma RestrictView(c: CsMatrix, d: Dense.Matrix)
    requires WellFormed(c) && Dense.IsMatrix(d, c.nmajor, c.nminor)
    requires forall i, j :: 0 <= i < c.nmajor && 0 <= j < c.nminor && !Has(c, i, j) ==> d[i][j] == 0.0
    ensures WellFormed(Restrict(c, d)) && CsrView(Restrict(c, d)) == d
  {
    var r := Restrict(c, d);
    SameLayout(c, r);
    forall i, j | 0 <= i < c.nmajor && 0 <= j < c.nminor
      ensures At(r, i, j) == d[i][j]
    {
      if Has(c, i, j) {
        RestrictStored(c, d, i, j);
      } else {
        assert !Has(r, i, j);
      }
    }
    Dense.Extensional(CsrView(r), d, c.nmajor, c.nminor);
  }

  /** An entry of A * B whose slot C's pattern lacks is a sum of zero terms. */
  lemma {:induction false} ProductOutsidePattern(c: CsMatrix, a: CsMatrix, b: CsMatrix, i: nat, j: nat, n: nat)
    requires SpmmShapes(c, a, b) && ProductFits(c, a, b)
    requires i < a.nmajor && j < b.nminor && n <= a.nminor && !Has(c, i, j)
    ensures Dense.MulAt(CsrView(a), CsrView(b), i, j, n) == 0.0
  {
    if n > 0 {
      var k := n - 1;
      ProductOutsidePattern(c, a, b, i, j, k);
      assert !Has(a, i, k) || !Has(b, k, j);
      ZeroTerm(a, b, i, k, j);
    }
  }

  /** A term a_ik * b_kj of the product is zero when either factor has no slot. */
  lemma ZeroTerm(a: CsMatrix, b: CsMatrix, i: nat, k: nat, j: nat)
    requires WellFormed(a) && WellFormed(b) && a.nminor == b.nmajor
    requires i < a.nmajor && k < a.nminor && j < b.nminor
    requires !Has(a, i, k) || !Has(b, k, j)
    ensures CsrView(a)[i][k] * CsrView(b)[k][j] == 0.0
  {
    assert At(a, i, k) == 0.0 || At(b, k, j) == 0.0;
  }

  /** The checked product kernel fails exactly when C's pattern lacks a slot for A * B;
      otherwise it keeps C's pattern and C's dense matrix becomes beta * C + alpha * A * B. */
  lemma SpmmCheckedComputes(beta: real, c: CsMatrix, alpha: real, a: CsMatrix, b: CsMatrix)
    requires SpmmShapes(c, a, b)
    ensures SpmmCsPreallocChecked(beta, c, alpha, a, b).Failure? <==> !ProductFits(c, a, b)
    ensures ProductFits(c, a, b) ==>
      var r := SpmmCsPreallocChecked(beta, c, alpha, a, b).value;
      WellFormed(r) && r.offsets == c.offsets && r.indices == c.indices &&
      CsrView(r) == Dense.Combine(beta, CsrView(c), alpha,
                      Dense.Mul(CsrView(a), CsrView(b), a.nmajor, a.nminor, b.nminor), c.nmajor, c.nminor)
  {
    if ProductFits(c, a, b) {
      SpmmFits(beta, c, alpha, a, b);
    }
  }

  /** With a fitting pattern both product kernels write beta * C + alpha * A * B. */
  lemma SpmmFits(beta: real, c: CsMatrix, alpha: real, a: CsMatrix, b: CsMatrix)
    requires SpmmShapes(c, a, b) && ProductFits(c, a, b)
    ensures WellFormed(Restrict(c, SpmmTarget(beta, c, alpha, a, b)))
    ensures CsrView(Restrict(c, SpmmTarget(beta, c, alpha, a, b))) == SpmmTarget(beta, c, alpha, a, b)
  {
    var d := SpmmTarget(beta, c, alpha, a, b);
    forall i, j | 0 <= i < c.nmajor && 0 <= j < c.nminor && !Has(c, i, j)
      ensures d[i][j] == 0.0
    {
      ProductOutsidePattern(c, a, b, i, j, a.nminor);
    }
    RestrictView(c, d);
  }

  /** The sum kernel fails exactly when C's pattern lacks a slot for an entry of op(A);
      otherwise it keeps C's pattern and C's dense matrix becomes beta * C + alpha * op(A). */
  lemma SpaddComputes(beta: real, c: CsMatrix, alpha: real, a: Op<CsMatrix>)
    requires SpaddShapes(c, a)
    ensures SpaddCsPrealloc(beta, c, alpha, a).Failure? <==> !AddFits(c, a)
    ensures AddFits(c, a) ==>
      var r := SpaddCsPrealloc(beta, c, alpha, a).value;
      WellFormed(r) && r.offsets == c.offsets && r.indices == c.indices &&
      CsrView(r) == Dense.Combine(beta, CsrView(c), alpha, OpCsrView(a), c.nmajor, c.nminor)
  {
    if AddFits(c, a) {
      var d := SpaddTarget(beta, c, alpha, a);
      forall i, j | 0 <= i < c.nmajor && 0 <= j < c.nminor && !Has(c, i, j)
        ensures d[i][j] == 0.0
      {
        assert !OpHas(a, i, j);
      }
      RestrictView(c, d);
    }
  }
}
