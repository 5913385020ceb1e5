/**
 * The sparse lower-triangular solves op(L) X = B of the CSC module.  L is a
 * square CSC matrix of which only the lower triangle is read; B is overwritten
 * with X column by column.  Without a transpose the columns of L give a forward
 * substitution; with one, L^T is upper triangular and the substitution runs
 * backwards, each step taking a dot product with the stored part of a column.
 */
module CscSolve {
  import opened Wrappers
  import Dense
  import opened Compressed
  import opened CscOps

  datatype SolveErrorKind = Singular

  datatype SolveError = SolveError(kind: SolveErrorKind, message: string)

  const ZeroDiagonalMessage: string := "Matrix contains at least one diagonal entry that is zero."

  /** L is a well-formed square matrix. */
  predicate Square(l: CsMatrix)
  {
    WellFormed(l) && l.nmajor == l.nminor
  }

  /** Column k of L stores its diagonal entry, and that entry is not zero. */
  predicate DiagonalOk(l: CsMatrix, k: nat)
    requires Square(l) && k < l.nmajor
  {
    Has(l, k, k) && At(l, k, k) != 0.0
  }

  predicate NonSingular(l: CsMatrix)
    requires Square(l)
  {
    forall k :: 0 <= k < l.nmajor ==> DiagonalOk(l, k)
  }

  /** The lower triangle of L read as CSC (column k is lane k), zero above the diagonal. */
  function LowerTriangle(l: CsMatrix): (t: Dense.Matrix)
    requires Square(l)
    ensures Dense.IsMatrix(t, l.nmajor, l.nmajor)
    ensures forall i, k :: 0 <= i < l.nmajor && 0 <= k < l.nmajor ==>
      t[i][k] == if k <= i then At(l, k, i) else 0.0
  {
    seq(l.nmajor, i requires 0 <= i < l.nmajor =>
      seq(l.nmajor, k requires 0 <= k < l.nmajor => if k <= i then At(l, k, i) else 0.0))
  }

  /** The triangular matrix op(L) the solve works with. */
  function Triangle(l: Op<CsMatrix>): (t: Dense.Matrix)
    requires Square(l.inner)
    ensures Dense.IsMatrix(t, l.inner.nmajor, l.inner.nmajor)
  {
    if l.NoOp? then LowerTriangle(l.inner)
    else Dense.Transpose(LowerTriangle(l.inner), l.inner.nmajor, l.inner.nmajor)
  }

  /** L, read as CSC, stores nothing above its diagonal. */
  predicate StoresLowerOnly(l: CsMatrix)
    requires Square(l)
  {
    forall k, i :: 0 <= i < k < l.nmajor ==> !Has(l, k, i)
  }

  /** For a matrix that stores nothing above its diagonal, the triangle the solve works with
      is op(L) itself. */
  lemma TriangleOfLowerIsView(l: Op<CsMatrix>)
    requires Square(l.inner) && StoresLowerOnly(l.inner)
    ensures Triangle(l) == OpCscView(l)
  {
    var n := l.inner.nmajor;
    var t := LowerTriangle(l.inner);
    var v := CscView(l.inner);
    forall i, k | 0 <= i < n && 0 <= k < n
      ensures t[i][k] == v[i][k]
    {
      if i < k {
        assert !Has(l.inner, k, i);
      }
    }
    Dense.Extensional(t, v, n, n);
  }

  // ---------------------------------------------------------------------------
  // Sums used by the proofs.

  /** The sum of c[q] * x[q] over q < k. */
  function Dot(c: seq<real>, x: seq<real>, k: nat): real
    requires k <= |c| && k <= |x|
  {
    if k == 0 then 0.0 else Dot(c, x, k - 1) + c[k - 1] * x[k - 1]
  }

  /** The sum of v[q] * x[s[q]] over the lane positions lo <= q < hi. */
  function LanePrefix(s: seq<nat>, v: seq<real>, x: seq<real>, lo: nat, hi: nat): real
    requires lo <= hi <= |s| && |s| <= |v|
    requires forall q :: lo <= q < hi ==> s[q] < |x|
  {
    if hi == lo then 0.0 else LanePrefix(s, v, x, lo, hi - 1) + v[hi - 1] * x[s[hi - 1]]
  }

  /** Dot only looks at the entries of x where c is not zero. */
  lemma {:induction false} DotFrame(c: seq<real>, x: seq<real>, y: seq<real>, k: nat)
    requires k <= |c| && k <= |x| && k <= |y|
    requires forall q :: 0 <= q < k ==> c[q] == 0.0 || x[q] == y[q]
    ensures Dot(c, x, k) == Dot(c, y, k)
  {
    if k > 0 {
      DotFrame(c, x, y, k - 1);
    }
  }

  /** Positions where c is zero add nothing. */
  lemma {:induction false} DotZeroRange(c: seq<real>, x: seq<real>, a: nat, k: nat)
    requires a <= k <= |c| && k <= |x|
    requires forall q :: a <= q < k ==> c[q] == 0.0
    ensures Dot(c, x, k) == Dot(c, x, a)
    decreases k
  {
    if k > a {
      DotZeroRange(c, x, a, k - 1);
    }
  }

  /** The part of Dot from a to k only looks at x[a..k]. */
  lemma {:induction false} DotRangeFrame(c: seq<real>, x: seq<real>, y: seq<real>, a: nat, k: nat)
    requires a <= k <= |c| && k <= |x| && k <= |y|
    requires forall q :: a <= q < k ==> x[q] == y[q]
    ensures Dot(c, x, k) - Dot(c, x, a) == Dot(c, y, k) - Dot(c, y, a)
    decreases k
  {
    if k > a {
      DotRangeFrame(c, x, y, a, k - 1);
    }
  }

  /** In a strictly ascending sequence every element is found at its own position. */
  lemma FindIncreasing(s: seq<nat>, q: nat)
    requires Increasing(s) && q < |s|
    ensures Find(s, s[q]) == q
  {
  }

  /** Past the diagonal position d of an ascending lane lie exactly the stored indices above s[d]. */
  lemma AfterDiagonal(s: seq<nat>, d: nat, i: nat)
    requires Increasing(s) && d < |s|
    ensures (d < Find(s, i) < |s|) <==> (s[d] < i && Find(s, i) < |s|)
  {
  }

  lemma LaneBounds(l: CsMatrix, k: nat)
    requires WellFormed(l) && k < l.nmajor
    ensures forall q :: 0 <= q < |LaneIndices(l, k)| ==> LaneIndices(l, k)[q] < l.nminor
    ensures |LaneValues(l, k)| == |LaneIndices(l, k)|
  {
    forall q | 0 <= q < |LaneIndices(l, k)|
      ensures LaneIndices(l, k)[q] < l.nminor
    {
      assert LaneIndices(l, k)[q] == l.indices[l.offsets[k] + q];
    }
  }

  // ---------------------------------------------------------------------------
  // Forward substitution (no transpose).

  /** Row i of t x reaches b0[i] using the first k entries. */
  predicate Solved(t: Dense.Matrix, x: seq<real>, b0: seq<real>, i: nat, k: nat)
    requires i < |t| && k <= |t[i]| && k <= |x| && i < |b0|
  {
    Dot(t[i], x, k) == b0[i]
  }

  /** x solves t x = b0 in every one of its n rows. */
  predicate SolvesColumn(t: Dense.Matrix, x: seq<real>, b0: seq<real>, n: nat)
    requires Dense.IsMatrix(t, n, n) && |x| == n && |b0| == n
  {
    forall i :: 0 <= i < n ==> Solved(t, x, b0, i, n)
  }

  /** Row i of the lower-triangular t x reaches b0[i] using entries up to the diagonal. */
  predicate SolvedLower(t: Dense.Matrix, x: seq<real>, b0: seq<real>, i: nat)
    requires i < |t| && i < |t[i]| && i < |x| && i < |b0|
  {
    Dot(t[i], x, i + 1) == b0[i]
  }

  /** Row i still holds its right-hand side minus the part known from the first k entries. */
  predicate Pending(t: Dense.Matrix, x: seq<real>, b0: seq<real>, i: nat, k: nat)
    requires i < |t| && k <= |t[i]| && k <= |x| && i < |x| && i < |b0|
  {
    x[i] + Dot(t[i], x, k) == b0[i]
  }

  /** After k steps of forward substitution on x with right-hand side b0: rows from k on are
      pending, rows before k are solved. */
  predicate ForwardInv(t: Dense.Matrix, x: seq<real>, b0: seq<real>, n: nat, k: nat)
    requires Dense.IsMatrix(t, n, n) && |x| == n && |b0| == n && k <= n
  {
    && (forall i :: k <= i < n ==> Pending(t, x, b0, i, k))
    && (forall i :: 0 <= i < k ==> SolvedLower(t, x, b0, i))
  }

  /** x is xo after one step of forward substitution on column k of the lower-triangular t. */
  predicate StepShape(t: Dense.Matrix, n: nat, xo: seq<real>, x: seq<real>, k: nat)
    requires Dense.IsMatrix(t, n, n) && |xo| == n && |x| == n && k < n && t[k][k] != 0.0
  {
    && x[k] == xo[k] / t[k][k]
    && forall i :: 0 <= i < n && i != k ==> x[i] == xo[i] - (if k < i then t[i][k] * x[k] else 0.0)
  }

  /** One step of forward substitution with the lower-triangular t: dividing x[k] by the
      diagonal and subtracting column k below it keeps ForwardInv. */
  lemma ForwardStep(t: Dense.Matrix, n: nat, xo: seq<real>, x: seq<real>, b0: seq<real>, k: nat)
    requires Dense.IsMatrix(t, n, n) && |xo| == n && |x| == n && |b0| == n && k < n
    requires t[k][k] != 0.0
    requires ForwardInv(t, xo, b0, n, k)
    requires StepShape(t, n, xo, x, k)
    ensures ForwardInv(t, x, b0, n, k + 1)
  {
    forall i | 0 <= i < k
      ensures SolvedLower(t, x, b0, i)
    {
      assert SolvedLower(t, xo, b0, i);
      DotFrame(t[i], x, xo, i + 1);
    }
    var k1 := k + 1;
    forall i | k < i < n
      ensures Pending(t, x, b0, i, k1)
    {
      assert Pending(t, xo, b0, i, k);
      DotFrame(t[i], x, xo, k);
    }
    assert Pending(t, xo, b0, k, k);
    DotFrame(t[k], x, xo, k);
    var lkk := t[k][k];
    assert lkk * (xo[k] / lkk) == xo[k];
    assert SolvedLower(t, x, b0, k);
  }

  /** Rows already solved by forward substitution satisfy the full row of the triangle. */
  lemma ForwardDone(t: Dense.Matrix, n: nat, x: seq<real>, b0: seq<real>)
    requires Dense.IsMatrix(t, n, n) && |x| == n && |b0| == n
    requires forall i, q :: 0 <= i < q < n ==> t[i][q] == 0.0
    requires ForwardInv(t, x, b0, n, n)
    ensures SolvesColumn(t, x, b0, n)
  {
    forall i | 0 <= i < n
      ensures Solved(t, x, b0, i, n)
    {
      assert SolvedLower(t, x, b0, i);
      DotZeroRange(t[i], x, i + 1, n);
    }
  }

  /** y with xk times the stored entries of a lane past position d subtracted. */
  function LaneUpdate(y: seq<real>, lane: seq<nat>, vals: seq<real>, d: nat, xk: real): (x: seq<real>)
    requires |vals| == |lane|
    ensures |x| == |y|
  {
    seq(|y|, i requires 0 <= i < |y| =>
      y[i] - (if d < Find(lane, i) < |lane| then vals[Find(lane, i)] * xk else 0.0))
  }

  /** What subtracting xk times a lane past its diagonal position d leaves in row i != s[d]. */
  lemma LaneStepEntry(s: seq<nat>, v: seq<real>, d: nat, y: seq<real>, x: seq<real>, xk: real, i: nat)
    requires Increasing(s) && |v| == |s| && d < |s| && i < |y| && i != s[d]
    requires x == LaneUpdate(y, s, v, d, xk)
    ensures x[i] == y[i] - (if s[d] < i && Find(s, i) < |s| then v[Find(s, i)] * xk else 0.0)
  {
    AfterDiagonal(s, d, i);
  }

  /** Column k of t, on and below the diagonal, is what lane s with values v stores. */
  predicate ColumnFromLane(t: Dense.Matrix, n: nat, k: nat, s: seq<nat>, v: seq<real>)
    requires Dense.IsMatrix(t, n, n) && k < n && |v| == |s|
  {
    forall i :: k <= i < n ==> t[i][k] == if Find(s, i) < |s| then v[Find(s, i)] else 0.0
  }

  /** Column k of the lower triangle of l is lane k of l. */
  lemma LowerColumn(l: CsMatrix, k: nat)
    requires Square(l) && k < l.nmajor
    ensures |LaneValues(l, k)| == |LaneIndices(l, k)|
    ensures ColumnFromLane(LowerTriangle(l), l.nmajor, k, LaneIndices(l, k), LaneValues(l, k))
  {
  }

  /** Dividing by the diagonal entry v[d] of lane s = column k of t and subtracting the rest of
      the lane is one step of forward substitution with t. */
  lemma LaneStepShape(t: Dense.Matrix, n: nat, s: seq<nat>, v: seq<real>, d: nat, xo: seq<real>, x: seq<real>, k: nat)
    requires Dense.IsMatrix(t, n, n) && k < n && |xo| == n && |v| == |s|
    requires Increasing(s) && d < |s| && s[d] == k && v[d] != 0.0
    requires ColumnFromLane(t, n, k, s, v)
    requires x == LaneUpdate(xo[k := xo[k] / v[d]], s, v, d, xo[k] / v[d])
    ensures t[k][k] != 0.0 && StepShape(t, n, xo, x, k)
  {
    FindIncreasing(s, d);
    var xk := xo[k] / v[d];
    var y := xo[k := xk];
    assert x[k] == xk;
    forall i | 0 <= i < n && i != k
      ensures x[i] == xo[i] - (if k < i then t[i][k] * x[k] else 0.0)
    {
      LaneStepEntry(s, v, d, y, x, xk, i);
    }
  }

  /** b[.., j] as a sequence. */
  function Column(b: array2<real>, j: nat): (x: seq<real>)
    requires j < b.Length1
    reads b
    ensures |x| == b.Length0 && forall i :: 0 <= i < b.Length0 ==> x[i] == b[i, j]
  {
    seq(b.Length0, i requires 0 <= i < b.Length0 reads b => b[i, j])
  }

  /** The contents of b as a dense matrix. */
  function Grid(b: array2<real>): (g: Dense.Matrix)
    reads b
    ensures Dense.IsMatrix(g, b.Length0, b.Length1)
    ensures forall i, j :: 0 <= i < b.Length0 && 0 <= j < b.Length1 ==> g[i][j] == b[i, j]
  {
    seq(b.Length0, i requires 0 <= i < b.Length0 reads b =>
      seq(b.Length1, j requires 0 <= j < b.Length1 reads b => b[i, j]))
  }

  /** Subtracts xk times the stored entries of a lane past position d from column j of b:
      the inner loop of forward substitution. */
  method SubtractLane(lane: seq<nat>, vals: seq<real>, d: nat, xk: real, b: array2<real>, j: nat)
    requires Increasing(lane) && |vals| == |lane| && d < |lane| && j < b.Length1
    requires forall q :: 0 <= q < |lane| ==> lane[q] < b.Length0
    modifies b
    ensures Column(b, j) == LaneUpdate(old(Column(b, j)), lane, vals, d, xk)
    ensures forall i, j' :: 0 <= i < b.Length0 && 0 <= j' < b.Length1 && j' != j ==> b[i, j'] == old(b[i, j'])
  {
    ghost var y := Column(b, j);
    var p := d + 1;
    while p < |lane|
      invariant d + 1 <= p <= |lane|
      invariant forall i :: 0 <= i < b.Length0 ==>
        b[i, j] == y[i] - (if d < Find(lane, i) < p then vals[Find(lane, i)] * xk else 0.0)
      invariant forall i, j' :: 0 <= i < b.Length0 && 0 <= j' < b.Length1 && j' != j ==> b[i, j'] == old(b[i, j'])
    {
      var i := lane[p];
      FindIncreasing(lane, p);
      b[i, j] := b[i, j] - vals[p] * xk;
      p := p + 1;
    }
    forall i | 0 <= i < b.Length0
      ensures Column(b, j)[i] == LaneUpdate(y, lane, vals, d, xk)[i]
    {
    }
    assert Column(b, j) == LaneUpdate(y, lane, vals, d, xk);
  }

  /** Solves column j of b in place by forward substitution with the lower triangle of l. */
  method SolveLowerColumn(l: CsMatrix, b: array2<real>, j: nat) returns (ok: bool)
    requires Square(l) && b.Length0 == l.nmajor && j < b.Length1
    modifies b
    ensures ok <==> NonSingular(l)
    ensures ok ==> SolvesColumn(LowerTriangle(l), Column(b, j), old(Column(b, j)), l.nmajor)
    ensures forall i, j' :: 0 <= i < b.Length0 && 0 <= j' < b.Length1 && j' != j ==> b[i, j'] == old(b[i, j'])
  {
    var n := l.nmajor;
    ghost var t := LowerTriangle(l);
    ghost var b0 := Column(b, j);
    ghost var x := b0;
    var k := 0;
    while k < n
      invariant k <= n
      invariant forall k' :: 0 <= k' < k ==> DiagonalOk(l, k')
      invariant x == Column(b, j)
      invariant ForwardInv(t, x, b0, n, k)
      invariant forall i, j' :: 0 <= i < n && 0 <= j' < b.Length1 && j' != j ==> b[i, j'] == old(b[i, j'])
    {
      var lane, vals := LaneIndices(l, k), LaneValues(l, k);
      LaneBounds(l, k);
      var d := Find(lane, k);
      if d == |lane| {
        assert !DiagonalOk(l, k);
        return false;
      }
      var lkk := vals[d];
      if lkk == 0.0 {
        assert !DiagonalOk(l, k);
        return false;
      }
      assert DiagonalOk(l, k);
      b[k, j] := b[k, j] / lkk;
      var xk := b[k, j];
      assert Column(b, j) == x[k := xk];
      SubtractLane(lane, vals, d, xk, b, j);
      LowerColumn(l, k);
      LaneStepShape(t, n, lane, vals, d, x, Column(b, j), k);
      ForwardStep(t, n, x, Column(b, j), b0, k);
      x := Column(b, j);
      k := k + 1;
    }
    ForwardDone(t, n, x, b0);
    return true;
  }

  // ---------------------------------------------------------------------------
  // Backward substitution (transpose).

  /** Row i of u, from the diagonal on, is what lane s with values v stores. */
  predicate RowFromLane(u: Dense.Matrix, n: nat, i: nat, s: seq<nat>, v: seq<real>)
    requires Dense.IsMatrix(u, n, n) && i < n && |v| == |s|
  {
    forall q :: i <= q < n ==> u[i][q] == if Find(s, q) < |s| then v[Find(s, q)] else 0.0
  }

  /** u is zero below the diagonal. */
  predicate UpperTriangular(u: Dense.Matrix, n: nat)
    requires Dense.IsMatrix(u, n, n)
  {
    forall r, q :: 0 <= q < r < n ==> u[r][q] == 0.0
  }

  /** The transposed lower triangle of l is upper triangular, and its row i is lane i of l. */
  lemma UpperRow(l: CsMatrix, i: nat)
    requires Square(l) && i < l.nmajor
    ensures |LaneValues(l, i)| == |LaneIndices(l, i)|
    ensures RowFromLane(Dense.Transpose(LowerTriangle(l), l.nmajor, l.nmajor), l.nmajor, i, LaneIndices(l, i), LaneValues(l, i))
  {
  }

  lemma TransposedTriangleIsUpper(l: CsMatrix)
    requires Square(l)
    ensures UpperTriangular(Dense.Transpose(LowerTriangle(l), l.nmajor, l.nmajor), l.nmajor)
  {
  }

  /** The dense row of length n that lane s with values v stores. */
  function Densify(s: seq<nat>, v: seq<real>, n: nat): (c: seq<real>)
    requires |v| == |s|
    ensures |c| == n
    ensures forall q :: 0 <= q < n ==> c[q] == if Find(s, q) < |s| then v[Find(s, q)] else 0.0
  {
    seq(n, q requires 0 <= q < n => if Find(s, q) < |s| then v[Find(s, q)] else 0.0)
  }

  /** The sum of the first k entries of w. */
  function Sum(w: seq<real>, k: nat): real
    requires k <= |w|
  {
    if k == 0 then 0.0 else Sum(w, k - 1) + w[k - 1]
  }

  /** The terms c[q] * x[q] of a dense dot product. */
  function Pointwise(c: seq<real>, x: seq<real>, n: nat): (w: seq<real>)
    requires n <= |c| && n <= |x|
    ensures |w| == n && forall q :: 0 <= q < n ==> w[q] == c[q] * x[q]
  {
    seq(n, q requires 0 <= q < n => c[q] * x[q])
  }

  /** The terms v[q] * x[s[q]] of a sparse dot product. */
  function LaneTerms(s: seq<nat>, v: seq<real>, x: seq<real>): (w: seq<real>)
    requires |v| == |s| && forall q :: 0 <= q < |s| ==> s[q] < |x|
    ensures |w| == |s| && forall q :: 0 <= q < |s| ==> w[q] == v[q] * x[s[q]]
  {
    seq(|s|, q requires 0 <= q < |s| => v[q] * x[s[q]])
  }

  /** The column just past the p-th stored entry of s (0 when p is 0). */
  function Past(s: seq<nat>, p: nat): nat
    requires p <= |s|
  {
    if p == 0 then 0 else s[p - 1] + 1
  }

  lemma {:induction false} DotIsSum(c: seq<real>, x: seq<real>, n: nat, k: nat)
    requires k <= n <= |c| && n <= |x|
    ensures Dot(c, x, k) == Sum(Pointwise(c, x, n), k)
  {
    if k > 0 {
      DotIsSum(c, x, n, k - 1);
    }
  }

  lemma {:induction false} LanePrefixIsSum(s: seq<nat>, v: seq<real>, x: seq<real>, p: nat)
    requires |v| == |s| && p <= |s| && forall q :: 0 <= q < |s| ==> s[q] < |x|
    ensures LanePrefix(s, v, x, 0, p) == Sum(LaneTerms(s, v, x), p)
  {
    if p > 0 {
      LanePrefixIsSum(s, v, x, p - 1);
    }
  }

  lemma {:induction false} SumZeroRange(b: seq<real>, lo: nat, hi: nat)
    requires lo <= hi <= |b|
    requires forall q :: lo <= q < hi ==> b[q] == 0.0
    ensures Sum(b, hi) == Sum(b, lo)
  {
    if hi > lo {
      SumZeroRange(b, lo, hi - 1);
    }
  }

  /** Summing the stored terms a of the first p lane positions is summing the dense terms b up
      to just past the p-th stored column, when b vanishes between stored columns. */
  lemma {:induction false} SparseSum(s: seq<nat>, a: seq<real>, b: seq<real>, p: nat)
    requires Increasing(s) && |a| == |s| && p <= |s|
    requires forall q :: 0 <= q < |s| ==> s[q] < |b| && a[q] == b[s[q]]
    requires forall q, c :: 0 <= q < |s| && Past(s, q) <= c < s[q] ==> b[c] == 0.0
    ensures Past(s, p) <= |b|
    ensures Sum(a, p) == Sum(b, Past(s, p))
  {
    if p > 0 {
      SparseSum(s, a, b, p - 1);
      if p > 1 {
        assert s[p - 2] < s[p - 1];
      }
      SumZeroRange(b, Past(s, p - 1), s[p - 1]);
    }
  }

  /** A column before the first stored one, between two consecutive stored ones, or after the
      last, is not stored. */
  lemma GapNotStored(s: seq<nat>, q: nat, c: nat)
    requires Increasing(s) && q <= |s|
    requires Past(s, q) <= c && (q == |s| || c < s[q])
    ensures Find(s, c) == |s|
  {
    forall f | 0 <= f < |s|
      ensures s[f] != c
    {
      if f < q {
        assert s[f] <= s[q - 1];
      } else {
        assert s[q] <= s[f];
      }
    }
  }

  /** The sparse dot product over the first p stored entries is the dense dot product of the
      densified lane up to just past the p-th stored column. */
  lemma SparseDot(s: seq<nat>, v: seq<real>, x: seq<real>, n: nat, p: nat)
    requires Increasing(s) && |v| == |s| && |x| == n && p <= |s|
    requires forall q :: 0 <= q < |s| ==> s[q] < n
    ensures Past(s, p) <= n
    ensures LanePrefix(s, v, x, 0, p) == Dot(Densify(s, v, n), x, Past(s, p))
  {
    var c := Densify(s, v, n);
    var a, b := LaneTerms(s, v, x), Pointwise(c, x, n);
    forall q | 0 <= q < |s|
      ensures a[q] == b[s[q]]
    {
      FindIncreasing(s, q);
    }
    forall q, k | 0 <= q < |s| && Past(s, q) <= k < s[q]
      ensures b[k] == 0.0
    {
      GapNotStored(s, q, k);
    }
    LanePrefixIsSum(s, v, x, p);
    SparseSum(s, a, b, p);
    DotIsSum(c, x, n, Past(s, p));
  }

  /** Past the last stored column the densified lane is zero. */
  lemma SparseTail(s: seq<nat>, v: seq<real>, x: seq<real>, n: nat)
    requires Increasing(s) && |v| == |s| && |x| == n
    requires forall q :: 0 <= q < |s| ==> s[q] < n
    ensures Past(s, |s|) <= n
    ensures Dot(Densify(s, v, n), x, n) == Dot(Densify(s, v, n), x, Past(s, |s|))
  {
    if |s| > 0 {
      assert s[|s| - 1] < n;
    }
    forall k | Past(s, |s|) <= k < n
      ensures Densify(s, v, n)[k] == 0.0
    {
      GapNotStored(s, |s|, k);
    }
    DotZeroRange(Densify(s, v, n), x, Past(s, |s|), n);
  }

  /** A lane sum from position lo is the sum up to hi minus the sum up to lo. */
  lemma {:induction false} LanePrefixSplit(s: seq<nat>, v: seq<real>, x: seq<real>, lo: nat, hi: nat)
    requires lo <= hi <= |s| && |s| <= |v|
    requires forall q :: 0 <= q < hi ==> s[q] < |x|
    ensures LanePrefix(s, v, x, lo, hi) == LanePrefix(s, v, x, 0, hi) - LanePrefix(s, v, x, 0, lo)
  {
    if hi > lo {
      LanePrefixSplit(s, v, x, lo, hi - 1);
    }
  }

  /** Dot from a to k only depends on c[a..k]. */
  lemma {:induction false} DotRangeAgree(c: seq<real>, c': seq<real>, x: seq<real>, a: nat, k: nat)
    requires a <= k <= |c| && k <= |c'| && k <= |x|
    requires forall q :: a <= q < k ==> c[q] == c'[q]
    ensures Dot(c, x, k) - Dot(c, x, a) == Dot(c', x, k) - Dot(c', x, a)
    decreases k
  {
    if k > a {
      DotRangeAgree(c, c', x, a, k - 1);
    }
  }

  /** The stored entries of lane s past its diagonal position d, summed in lane order, are row
      s[d] of u summed over the columns past the diagonal. */
  lemma PastDiagonal(u: Dense.Matrix, n: nat, s: seq<nat>, v: seq<real>, d: nat, x: seq<real>)
    requires Dense.IsMatrix(u, n, n) && |x| == n && |v| == |s|
    requires Increasing(s) && d < |s| && s[d] < n
    requires forall q :: 0 <= q < |s| ==> s[q] < n
    requires RowFromLane(u, n, s[d], s, v)
    ensures LanePrefix(s, v, x, d + 1, |s|) == Dot(u[s[d]], x, n) - Dot(u[s[d]], x, s[d] + 1)
  {
    var i := s[d];
    LaneTail(s, v, x, n, d);
    DensifyIsRow(u, n, s, v, i);
    DotRangeAgree(Densify(s, v, n), u[i], x, i + 1, n);
  }

  /** The stored entries of lane s past position d, summed in lane order, are the densified
      lane summed over the columns past s[d]. */
  lemma LaneTail(s: seq<nat>, v: seq<real>, x: seq<real>, n: nat, d: nat)
    requires Increasing(s) && |v| == |s| && |x| == n && d < |s|
    requires forall q :: 0 <= q < |s| ==> s[q] < n
    ensures s[d] + 1 <= n
    ensures LanePrefix(s, v, x, d + 1, |s|) == Dot(Densify(s, v, n), x, n) - Dot(Densify(s, v, n), x, s[d] + 1)
  {
    LanePrefixSplit(s, v, x, d + 1, |s|);
    SparseDot(s, v, x, n, |s|);
    SparseTail(s, v, x, n);
    SparseDot(s, v, x, n, d + 1);
  }

  /** From the diagonal on, the densified lane is the row read from it. */
  lemma DensifyIsRow(u: Dense.Matrix, n: nat, s: seq<nat>, v: seq<real>, i: nat)
    requires Dense.IsMatrix(u, n, n) && i < n && |v| == |s|
    requires RowFromLane(u, n, i, s, v)
    ensures forall q :: i <= q < n ==> Densify(s, v, n)[q] == u[i][q]
  {
  }

  /** After backward substitution has reached row i (rows i .. n - 1 done): those rows are
      solved, and the rows above still hold their right-hand side. */
  predicate BackwardInv(u: Dense.Matrix, x: seq<real>, b0: seq<real>, n: nat, i: nat)
    requires Dense.IsMatrix(u, n, n) && |x| == n && |b0| == n && i <= n
  {
    && (forall r :: i <= r < n ==> Solved(u, x, b0, r, n))
    && (forall r :: 0 <= r < i ==> x[r] == b0[r])
  }

  /** sum is the part of row c past position i against x. */
  predicate TailSum(c: seq<real>, x: seq<real>, i: nat, n: nat, sum: real)
    requires i < n <= |c| && n <= |x|
  {
    Dot(c, x, n) - Dot(c, x, i + 1) == sum
  }

  /** y solves piv * y == r. */
  predicate Pivot(piv: real, y: real, r: real)
  {
    piv * y == r
  }

  /** Row c is zero before position i. */
  predicate ZeroPrefix(c: seq<real>, i: nat)
    requires i <= |c|
  {
    forall q :: 0 <= q < i ==> c[q] == 0.0
  }

  /** Setting x_i to a y with piv * y == xo_i - sum, where sum is row c beyond the diagonal
      against xo and piv its diagonal entry, makes row c solve b = xo_i when c is zero before
      the diagonal. */
  lemma DiagonalRowSolved(c: seq<real>, n: nat, i: nat, sum: real, b: real, xo: seq<real>, x: seq<real>, piv: real, y: real)
    requires |c| == n && |xo| == n && i < n
    requires ZeroPrefix(c, i)
    requires TailSum(c, xo, i, n, sum)
    requires c[i] == piv && xo[i] == b
    requires x == xo[i := y] && Pivot(piv, y, xo[i] - sum)
    ensures Dot(c, x, n) == b
  {
    DotRangeFrame(c, x, xo, i + 1, n);
    DotZeroRange(c, x, 0, i);
    assert Dot(c, x, i + 1) == c[i] * y;
  }

  /** Dividing by a nonzero pivot solves the pivot equation. */
  lemma DivPivot(a: real, c: real)
    requires c != 0.0
    ensures Pivot(c, a / c, a)
  {
  }

  /** What row s[d] of u, which is lane s, contributes to the backward step: its part past
      the diagonal is the lane's residual sum, its diagonal entry is v[d], and it is zero
      before the diagonal. */
  lemma RowFacts(u: Dense.Matrix, n: nat, s: seq<nat>, v: seq<real>, d: nat, xo: seq<real>)
    requires Dense.IsMatrix(u, n, n) && UpperTriangular(u, n) && |xo| == n && |v| == |s|
    requires Increasing(s) && d < |s| && s[d] < n
    requires forall q :: 0 <= q < |s| ==> s[q] < n
    requires RowFromLane(u, n, s[d], s, v)
    ensures TailSum(u[s[d]], xo, s[d], n, LanePrefix(s, v, xo, d + 1, |s|))
    ensures u[s[d]][s[d]] == v[d]
    ensures ZeroPrefix(u[s[d]], s[d])
  {
    PastDiagonal(u, n, s, v, d, xo);
    LaneDiagonal(u, n, s, v, d);
    ZeroBeforeDiagonal(u, n, s[d]);
  }

  /** The diagonal entry of a row read from lane s is the value at the diagonal position. */
  lemma LaneDiagonal(u: Dense.Matrix, n: nat, s: seq<nat>, v: seq<real>, d: nat)
    requires Dense.IsMatrix(u, n, n) && |v| == |s| && Increasing(s) && d < |s| && s[d] < n
    requires RowFromLane(u, n, s[d], s, v)
    ensures u[s[d]][s[d]] == v[d]
  {
    FindIncreasing(s, d);
  }

  /** Row i of an upper-triangular matrix is zero before its diagonal. */
  lemma ZeroBeforeDiagonal(u: Dense.Matrix, n: nat, i: nat)
    requires Dense.IsMatrix(u, n, n) && UpperTriangular(u, n) && i < n
    ensures ZeroPrefix(u[i], i)
  {
  }

  /** Changing unknown i leaves the solved rows below it solved, since they are zero in
      column i. */
  lemma BackwardRest(u: Dense.Matrix, n: nat, i: nat, xo: seq<real>, x: seq<real>, b0: seq<real>)
    requires Dense.IsMatrix(u, n, n) && UpperTriangular(u, n) && |xo| == n && |x| == n && |b0| == n
    requires i < n && BackwardInv(u, xo, b0, n, i + 1)
    requires forall r :: 0 <= r < n && r != i ==> x[r] == xo[r]
    ensures forall r :: i < r < n ==> Solved(u, x, b0, r, n)
    ensures forall r :: 0 <= r < i ==> x[r] == b0[r]
  {
    forall r | i < r < n
      ensures Solved(u, x, b0, r, n)
    {
      assert Solved(u, xo, b0, r, n);
      DotFrame(u[r], x, xo, n);
    }
  }

  /** One step of backward substitution on row i of the upper-triangular u, whose row i is
      lane s with the diagonal at position d, keeps BackwardInv. */
  lemma BackwardStep(u: Dense.Matrix, n: nat, s: seq<nat>, v: seq<real>, d: nat, xo: seq<real>, x: seq<real>, b0: seq<real>, y: real)
    requires Dense.IsMatrix(u, n, n) && UpperTriangular(u, n) && |xo| == n && |b0| == n && |v| == |s|
    requires Increasing(s) && d < |s| && s[d] < n && v[d] != 0.0
    requires forall q :: 0 <= q < |s| ==> s[q] < n
    requires RowFromLane(u, n, s[d], s, v)
    requires BackwardInv(u, xo, b0, n, s[d] + 1)
    requires x == xo[s[d] := y] && Pivot(v[d], y, xo[s[d]] - LanePrefix(s, v, xo, d + 1, |s|))
    ensures BackwardInv(u, x, b0, n, s[d])
  {
    RowFacts(u, n, s, v, d, xo);
    DiagonalRowSolved(u[s[d]], n, s[d], LanePrefix(s, v, xo, d + 1, |s|), b0[s[d]], xo, x, v[d], y);
    BackwardRest(u, n, s[d], xo, x, b0);
  }

  /** Rows with backward substitution complete solve the whole column. */
  lemma BackwardDone(u: Dense.Matrix, n: nat, x: seq<real>, b0: seq<real>)
    requires Dense.IsMatrix(u, n, n) && |x| == n && |b0| == n
    requires BackwardInv(u, x, b0, n, 0)
    ensures SolvesColumn(u, x, b0, n)
  {
  }

  /** x_ii minus the stored entries of a lane past position d against column j of b: the
      inner loop of backward substitution, which only reads b. */
  method LaneResidual(lane: seq<nat>, vals: seq<real>, d: nat, xii: real, b: array2<real>, j: nat) returns (r: real)
    requires |vals| == |lane| && d < |lane| && j < b.Length1
    requires forall q :: 0 <= q < |lane| ==> lane[q] < b.Length0
    ensures r == xii - LanePrefix(lane, vals, Column(b, j), d + 1, |lane|)
  {
    r := xii;
    var p := d + 1;
    while p < |lane|
      invariant d + 1 <= p <= |lane|
      invariant r == xii - LanePrefix(lane, vals, Column(b, j), d + 1, p)
    {
      var k := lane[p];
      r := r - vals[p] * b[k, j];
      p := p + 1;
    }
  }

  /** Solves column j of b in place by backward substitution with the transposed lower
      triangle of l. */
  method SolveUpperColumn(l: CsMatrix, b: array2<real>, j: nat) returns (ok: bool)
    requires Square(l) && b.Length0 == l.nmajor && j < b.Length1
    modifies b
    ensures ok <==> NonSingular(l)
    ensures ok ==> SolvesColumn(Dense.Transpose(LowerTriangle(l), l.nmajor, l.nmajor), Column(b, j), old(Column(b, j)), l.nmajor)
    ensures forall i, j' :: 0 <= i < b.Length0 && 0 <= j' < b.Length1 && j' != j ==> b[i, j'] == old(b[i, j'])
  {
    var n := l.nmajor;
    ghost var u := Dense.Transpose(LowerTriangle(l), n, n);
    TransposedTriangleIsUpper(l);
    ghost var b0 := Column(b, j);
    ghost var x := b0;
    var i: nat := n;
    while i > 0
      invariant i <= n
      invariant forall k' :: i <= k' < n ==> DiagonalOk(l, k')
      invariant x == Column(b, j)
      invariant BackwardInv(u, x, b0, n, i)
      invariant forall r, j' :: 0 <= r < n && 0 <= j' < b.Length1 && j' != j ==> b[r, j'] == old(b[r, j'])
    {
      i := i - 1;
      var lane, vals := LaneIndices(l, i), LaneValues(l, i);
      LaneBounds(l, i);
      var d := Find(lane, i);
      if d == |lane| {
        assert !DiagonalOk(l, i);
        return false;
      }
      var lii := vals[d];
      if lii == 0.0 {
        assert !DiagonalOk(l, i);
        return false;
      }
      assert DiagonalOk(l, i);
      var xii := LaneResidual(lane, vals, d, b[i, j], b, j);
      b[i, j] := xii / lii;
      DivPivot(xii, lii);
      assert Column(b, j) == x[i := xii / lii];
      UpperRow(l, i);
      BackwardStep(u, n, lane, vals, d, x, Column(b, j), b0, xii / lii);
      x := Column(b, j);
    }
    BackwardDone(u, n, x, b0);
    return true;
  }

  // ---------------------------------------------------------------------------
  // All columns.

  /** Column j of a dense n-row matrix. */
  function ColumnOf(g: Dense.Matrix, n: nat, j: nat): (x: seq<real>)
    requires |g| == n && forall i :: 0 <= i < n ==> j < |g[i]|
    ensures |x| == n && forall i :: 0 <= i < n ==> x[i] == g[i][j]
  {
    seq(n, i requires 0 <= i < n => g[i][j])
  }

  /** Entry (i, j) of t g, summed up to k, is row i of t against column j of g. */
  lemma {:induction false} MulAtIsDot(t: Dense.Matrix, g: Dense.Matrix, n: nat, m: nat, i: nat, j: nat, k: nat)
    requires Dense.IsMatrix(t, n, n) && Dense.IsMatrix(g, n, m) && i < n && j < m && k <= n
    ensures Dense.MulAt(t, g, i, j, k) == Dot(t[i], ColumnOf(g, n, j), k)
  {
    if k > 0 {
      MulAtIsDot(t, g, n, m, i, j, k - 1);
    }
  }

  /** When every column of g solves t x = g0's column, t g = g0. */
  lemma ColumnsToProduct(t: Dense.Matrix, g: Dense.Matrix, g0: Dense.Matrix, n: nat, m: nat)
    requires Dense.IsMatrix(t, n, n) && Dense.IsMatrix(g, n, m) && Dense.IsMatrix(g0, n, m)
    requires forall j :: 0 <= j < m ==> SolvesColumn(t, ColumnOf(g, n, j), ColumnOf(g0, n, j), n)
    ensures Dense.Mul(t, g, n, n, m) == g0
  {
    var p := Dense.Mul(t, g, n, n, m);
    forall i, j | 0 <= i < n && 0 <= j < m
      ensures p[i][j] == g0[i][j]
    {
      MulAtIsDot(t, g, n, m, i, j, n);
      assert Solved(t, ColumnOf(g, n, j), ColumnOf(g0, n, j), i, n);
    }
    Dense.Extensional(p, g0, n, m);
  }

  /** Column j of the array is column j of its grid. */
  lemma ColumnOfGrid(b: array2<real>, j: nat)
    requires j < b.Length1
    ensures Column(b, j) == ColumnOf(Grid(b), b.Length0, j)
  {
  }

  /** Solves L X = B in place, column by column, by forward substitution. */
  method SolveNoTranspose(l: CsMatrix, b: array2<real>) returns (r: Result<(), SolveError>)
    requires Square(l) && b.Length0 == l.nmajor
    modifies b
    ensures r.Failure? <==> b.Length1 > 0 && !NonSingular(l)
    ensures r.Failure? ==> r.error == SolveError(Singular, ZeroDiagonalMessage)
    ensures r.Failure? ==> forall i, j :: 0 <= i < b.Length0 && 1 <= j < b.Length1 ==> b[i, j] == old(b[i, j])
    ensures r.Success? ==> Dense.Mul(LowerTriangle(l), Grid(b), l.nmajor, l.nmajor, b.Length1) == old(Grid(b))
  {
    var n, m := l.nmajor, b.Length1;
    ghost var t := LowerTriangle(l);
    ghost var g0 := Grid(b);
    var j := 0;
    while j < m
      invariant j <= m
      invariant j > 0 ==> NonSingular(l)
      invariant forall j' :: 0 <= j' < j ==> SolvesColumn(t, Column(b, j'), ColumnOf(g0, n, j'), n)
      invariant forall i, j' :: 0 <= i < n && j <= j' < m ==> b[i, j'] == g0[i][j']
    {
      label before:
      assert Column(b, j) == ColumnOf(g0, n, j);
      var ok := SolveLowerColumn(l, b, j);
      if !ok {
        assert j == 0;
        return Failure(SolveError(Singular, ZeroDiagonalMessage));
      }
      forall j' | 0 <= j' < j
        ensures Column(b, j') == old@before(Column(b, j'))
      {
      }
      j := j + 1;
    }
    forall j' | 0 <= j' < m
      ensures SolvesColumn(t, ColumnOf(Grid(b), n, j'), ColumnOf(g0, n, j'), n)
    {
      ColumnOfGrid(b, j');
    }
    ColumnsToProduct(t, Grid(b), g0, n, m);
    return Success(());
  }

  /** Solves L^T X = B in place, column by column, by backward substitution. */
  method SolveTranspose(l: CsMatrix, b: array2<real>) returns (r: Result<(), SolveError>)
    requires Square(l) && b.Length0 == l.nmajor
    modifies b
    ensures r.Failure? <==> b.Length1 > 0 && !NonSingular(l)
    ensures r.Failure? ==> r.error == SolveError(Singular, ZeroDiagonalMessage)
    ensures r.Failure? ==> forall i, j :: 0 <= i < b.Length0 && 1 <= j < b.Length1 ==> b[i, j] == old(b[i, j])
    ensures r.Success? ==>
      Dense.Mul(Dense.Transpose(LowerTriangle(l), l.nmajor, l.nmajor), Grid(b), l.nmajor, l.nmajor, b.Length1) == old(Grid(b))
  {
    var n, m := l.nmajor, b.Length1;
    ghost var u := Dense.Transpose(LowerTriangle(l), n, n);
    ghost var g0 := Grid(b);
    var j := 0;
    while j < m
      invariant j <= m
      invariant j > 0 ==> NonSingular(l)
      invariant forall j' :: 0 <= j' < j ==> SolvesColumn(u, Column(b, j'), ColumnOf(g0, n, j'), n)
      invariant forall i, j' :: 0 <= i < n && j <= j' < m ==> b[i, j'] == g0[i][j']
    {
      label before:
      assert Column(b, j) == ColumnOf(g0, n, j);
      var ok := SolveUpperColumn(l, b, j);
      if !ok {
        assert j == 0;
        return Failure(SolveError(Singular, ZeroDiagonalMessage));
      }
      forall j' | 0 <= j' < j
        ensures Column(b, j') == old@before(Column(b, j'))
      {
      }
      j := j + 1;
    }
    forall j' | 0 <= j' < m
      ensures SolvesColumn(u, ColumnOf(Grid(b), n, j'), ColumnOf(g0, n, j'), n)
    {
      ColumnOfGrid(b, j');
    }
    ColumnsToProduct(u, Grid(b), g0, n, m);
    return Success(());
  }

  /** Solves op(L) X = B in place for a square CSC matrix L of which only the lower triangle
      is read, B having as many rows as L.  Fails, after possibly changing the first column of
      B, when B has a column and some diagonal entry of L is missing or zero. */
  method SpsolveCscLowerTriangular(l: Op<CscMatrix>, b: array2<real>) returns (r: Result<(), SolveError>)
    requires Square(l.inner.cs) && b.Length0 == l.inner.cs.nmajor
    modifies b
    ensures r.Failure? <==> b.Length1 > 0 && !NonSingular(l.inner.cs)
    ensures r.Failure? ==> r.error == SolveError(Singular, ZeroDiagonalMessage)
    ensures r.Failure? ==> forall i, j :: 0 <= i < b.Length0 && 1 <= j < b.Length1 ==> b[i, j] == old(b[i, j])
    ensures r.Success? ==> Dense.Mul(Triangle(OpCs(l)), Grid(b), b.Length0, b.Length0, b.Length1) == old(Grid(b))
  {
    if l.NoOp? {
      r := SolveNoTranspose(l.inner.cs, b);
    } else {
      r := SolveTranspose(l.inner.cs, b);
    }
  }
}
