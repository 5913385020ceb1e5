/**
 * The sparse Cholesky factorisation A = L L^T of a square matrix stored by
 * columns.  The symbolic phase stores the pattern of the upper triangle of A,
 * the pattern U of L^T and the pattern of L; the numeric phase fills the values
 * of L column by column with an up-looking triangular solve, and fails as soon
 * as a diagonal entry would not be positive.
 */
module Cholesky {
  import opened Wrappers
  import opened Compressed
  import opened CholeskyPattern
  import Flatten
  import CscSolve

  // ---------------------------------------------------------------------------
  // Facts about the symbolic analysis.

  /** Lane k of u holds only indices up to k: an upper-triangular pattern stored by columns. */
  ghost predicate Upper(u: CsMatrix)
    requires Shaped(u)
  {
    forall k, x :: 0 <= k < u.nmajor && x in LaneIndices(u, k) ==> x <= k
  }

  /** The pattern of the original matrix with the sentinel: op[k]..op[k+1] is column k of it. */
  predicate OriginalPattern(op: seq<nat>, oi: seq<nat>, olen: nat, n: nat)
  {
    && |op| == n + 1 && op[0] == 0 && op[n] == olen == |oi|
    && (forall k, k' :: 0 <= k <= k' <= n ==> op[k] <= op[k'])
    && (forall p :: 0 <= p < |oi| ==> oi[p] < n)
  }

  /** Every row r <= k stored in column k of the original matrix is in column k of u. */
  ghost predicate Covers(op: seq<nat>, oi: seq<nat>, u: CsMatrix)
    requires Shaped(u) && OriginalPattern(op, oi, |oi|, u.nmajor)
  {
    forall k, p :: 0 <= k < u.nmajor && op[k] <= p < op[k + 1] && oi[p] <= k ==> oi[p] in LaneIndices(u, k)
  }

  /** o and ix lay out the transposed pattern of u: lane c runs from o[c] to o[c + 1] and
      lists, in ascending order, the lanes of u that hold c. */
  ghost predicate Layout(u: CsMatrix, o: seq<nat>, ix: seq<nat>)
    requires Shaped(u)
  {
    && |o| == u.nminor + 1 && o[0] == 0 && o[u.nminor] == |ix|
    && (forall c, c' :: 0 <= c <= c' <= u.nminor ==> o[c] <= o[c'])
    && (forall c :: 0 <= c < u.nminor ==> ix[o[c]..o[c + 1]] == TLane(u, c, u.nmajor))
  }

  /** The transposed pattern is laid out as Layout says. */
  lemma LayoutOfTranspose(u: CsMatrix)
    requires Shaped(u)
    ensures Layout(u, PatternTranspose(u).offsets, PatternTranspose(u).indices)
  {
    PatternTransposeLanes(u);
  }

  /** What the symbolic phase leaves behind: the original pattern with its length, and L laid
      out as the transpose of u with one value per slot. */
  ghost predicate Symbolic(op: seq<nat>, oi: seq<nat>, olen: nat, u: CsMatrix, l: CsMatrix)
  {
    && olen == |oi| && Prepared(op, oi, u, l.offsets, l.indices)
    && l.nmajor == u.nmajor && l.nminor == u.nmajor && |l.values| == |l.indices| && Shaped(l)
  }

  /** What the numeric phase needs of the symbolic one: the original pattern, the pattern u
      of L^T (upper, without repetition, covering the upper triangle of the original), and
      the layout o, ix of L as the transpose of u. */
  ghost predicate Prepared(op: seq<nat>, oi: seq<nat>, u: CsMatrix, o: seq<nat>, ix: seq<nat>)
  {
    && Shaped(u) && u.nmajor == u.nminor
    && OriginalPattern(op, oi, |oi|, u.nmajor)
    && Upper(u)
    && (forall k :: 0 <= k < u.nmajor ==> NoDuplicates(LaneIndices(u, k)))
    && Covers(op, oi, u)
    && Layout(u, o, ix)
    && (forall p :: 0 <= p < |ix| ==> ix[p] < u.nmajor)
  }

  /** Every column c of l starts with its diagonal entry, which is positive. */
  predicate Factored(l: CsMatrix)
    requires Shaped(l)
  {
    forall c :: 0 <= c < l.nmajor ==>
      l.offsets[c] < l.offsets[c + 1] && l.indices[l.offsets[c]] == c && l.values[l.offsets[c]] > 0.0
  }

  /** The row indices of the transposed pattern are below the dimension. */
  lemma TransposeIndicesBelow(u: CsMatrix)
    requires Shaped(u)
    ensures forall p :: 0 <= p < |PatternTranspose(u).indices| ==> PatternTranspose(u).indices[p] < u.nmajor
  {
    var lanes := TLanes(u);
    forall p | 0 <= p < |PatternTranspose(u).indices|
      ensures PatternTranspose(u).indices[p] < u.nmajor
    {
      var x := Flatten.Concat(lanes)[p];
      Flatten.ConcatElement(lanes, x);
      var c :| 0 <= c < |lanes| && x in lanes[c];
      CholeskyPattern.TLaneFacts(u, c, u.nmajor);
    }
  }

  /** The pattern computed from a square matrix is what the numeric phase needs. */
  lemma SymbolicOfPattern(m: CsMatrix, tree: seq<nat>, u: CsMatrix, l: CsMatrix)
    requires SquarePattern(m) && IsForest(tree) && |tree| == m.nmajor
    requires Shaped(u) && u.nmajor == m.nmajor && u.nminor == m.nminor
    requires forall i :: 0 <= i < u.nmajor ==> ColumnOk(m, tree, i, LaneIndices(u, i))
    requires l.nmajor == m.nmajor && l.nminor == m.nmajor
    requires l.offsets == PatternTranspose(u).offsets && l.indices == PatternTranspose(u).indices
    requires |l.values| == |l.indices|
    ensures Symbolic(m.offsets, m.indices, |m.indices|, u, l)
  {
    var n := m.nmajor;
    forall k, p | 0 <= k < n && m.offsets[k] <= p < m.offsets[k + 1] && m.indices[p] <= k
      ensures m.indices[p] in LaneIndices(u, k)
    {
      var rows := LaneIndices(m, k);
      assert rows[p - m.offsets[k]] == m.indices[p];
      ReachSetBounds(tree, rows, k);
      assert ColumnOk(m, tree, k, LaneIndices(u, k));
    }
    LayoutOfTranspose(u);
    TransposeIndicesBelow(u);
  }

  /** L is lower triangular with ascending rows in each column, and its row indices are in
      bounds: the factor is a matrix the triangular solve accepts. */
  lemma FactorPatternLower(u: CsMatrix, l: CsMatrix)
    requires Shaped(u) && u.nmajor == u.nminor && Upper(u)
    requires l.nmajor == u.nmajor && l.nminor == u.nmajor && |l.values| == |l.indices|
    requires Layout(u, l.offsets, l.indices) && forall p :: 0 <= p < |l.indices| ==> l.indices[p] < u.nmajor
    ensures CscSolve.Square(l) && CscSolve.StoresLowerOnly(l)
  {
    forall c | 0 <= c < l.nmajor
      ensures Increasing(LaneIndices(l, c))
      ensures forall t :: 0 <= t < |LaneIndices(l, c)| ==> c <= LaneIndices(l, c)[t]
    {
      var lane := LaneIndices(l, c);
      assert lane == TLane(u, c, u.nmajor);
      CholeskyPattern.TLaneFacts(u, c, u.nmajor);
      forall t | 0 <= t < |lane|
        ensures c <= lane[t]
      {
        assert lane[t] in lane;
        assert c in LaneIndices(u, lane[t]);
      }
    }
    forall k, i | 0 <= i < k < l.nmajor
      ensures !Has(l, k, i)
    {
      var lane := LaneIndices(l, k);
      assert forall t :: 0 <= t < |lane| ==> k <= lane[t];
    }
  }

  /** A factor whose columns start with positive diagonal entries is non-singular, so the
      triangular solves with it succeed. */
  lemma FactorSolvable(u: CsMatrix, l: CsMatrix)
    requires Shaped(u) && u.nmajor == u.nminor && Upper(u)
    requires l.nmajor == u.nmajor && l.nminor == u.nmajor && |l.values| == |l.indices|
    requires Layout(u, l.offsets, l.indices) && forall p :: 0 <= p < |l.indices| ==> l.indices[p] < u.nmajor
    requires Factored(l)
    ensures CscSolve.Square(l) && CscSolve.StoresLowerOnly(l) && CscSolve.NonSingular(l)
  {
    FactorPatternLower(u, l);
    forall k | 0 <= k < l.nmajor
      ensures CscSolve.DiagonalOk(l, k)
    {
      var lane := LaneIndices(l, k);
      assert lane[0] == k;
      assert Find(lane, k) == 0;
    }
  }

  /** No lane before k holds k in an upper pattern. */
  lemma {:induction false} NoEarlierLane(u: CsMatrix, k: nat, k': nat)
    requires Shaped(u) && Upper(u) && k' <= k && k' <= u.nmajor
    ensures TLane(u, k, k') == []
  {
    if k' > 0 {
      NoEarlierLane(u, k, k' - 1);
      assert k !in LaneIndices(u, k' - 1);
    }
  }

  /** The slot of column c of L that receives the entry of row k, when u stores c in lane k:
      it follows the |TLane(u, c, k)| slots already filled, lies inside column c, and holds k. */
  lemma NextSlot(u: CsMatrix, o: seq<nat>, ix: seq<nat>, c: nat, k: nat)
    requires Shaped(u) && u.nmajor == u.nminor && c < u.nmajor && k < u.nmajor
    requires Layout(u, o, ix) && c in LaneIndices(u, k)
    ensures o[c] + |TLane(u, c, k)| < o[c + 1] && ix[o[c] + |TLane(u, c, k)|] == k
    ensures |TLane(u, c, k + 1)| == |TLane(u, c, k)| + 1
  {
    TLanePrefix(u, c, k + 1, u.nmajor);
    var lane := TLane(u, c, u.nmajor);
    var f := TLane(u, c, k);
    assert TLane(u, c, k + 1) == f + [k];
    assert lane[..|f| + 1] == f + [k];
    assert lane[|f|] == k;
    assert ix[o[c]..o[c + 1]] == lane;
  }

  // ---------------------------------------------------------------------------
  // Bookkeeping of the numeric phase.

  /** work_c at the start of step k: column c of L has its first |TLane(u, c, k)| slots filled. */
  ghost predicate Counted(u: CsMatrix, o: seq<nat>, wc: seq<nat>, k: nat)
    requires Shaped(u) && k <= u.nmajor && |o| > u.nmajor
  {
    |wc| == u.nmajor && forall c :: 0 <= c < u.nmajor ==> wc[c] == o[c] + |TLane(u, c, k)|
  }

  /** work_c during step k, after the first q entries of lane k of u. */
  ghost predicate RowCounted(u: CsMatrix, o: seq<nat>, wc: seq<nat>, k: nat, lane: seq<nat>, q: nat)
    requires Shaped(u) && k <= u.nmajor && |o| > u.nmajor && q <= |lane|
  {
    |wc| == u.nmajor && forall c :: 0 <= c < u.nmajor ==>
      wc[c] == o[c] + |TLane(u, c, k)| + (if c < k && c in lane[..q] then 1 else 0)
  }

  /** The columns before k have their positive diagonal entry in their first slot. */
  ghost predicate DiagonalsDone(u: CsMatrix, o: seq<nat>, lv: seq<real>, k: nat)
    requires Shaped(u) && k <= u.nmajor && |o| > u.nmajor
  {
    forall c :: 0 <= c < k ==> c in LaneIndices(u, c) && o[c] < o[c + 1] && o[c] < |lv| && lv[o[c]] > 0.0
  }

  /** A column c < k that holds its diagonal has it among its first |TLane(u, c, k)| slots. */
  lemma FilledDiagonal(u: CsMatrix, c: nat, k: nat)
    requires Shaped(u) && c < k <= u.nmajor && c in LaneIndices(u, c)
    ensures |TLane(u, c, k)| >= 1
  {
    CholeskyPattern.TLaneFacts(u, c, k);
    assert c in TLane(u, c, k);
  }

  lemma RowStep(u: CsMatrix, o: seq<nat>, wc: seq<nat>, k: nat, lane: seq<nat>, q: nat)
    requires Shaped(u) && k < u.nmajor && |o| > u.nmajor && q < |lane| && NoDuplicates(lane)
    requires RowCounted(u, o, wc, k, lane, q)
    ensures lane[q] < k ==> wc[lane[q]] == o[lane[q]] + |TLane(u, lane[q], k)|
    ensures lane[q] < k ==> RowCounted(u, o, wc[lane[q] := wc[lane[q]] + 1], k, lane, q + 1)
    ensures lane[q] >= k ==> RowCounted(u, o, wc, k, lane, q + 1)
  {
    assert lane[..q + 1] == lane[..q] + [lane[q]];
    forall t | 0 <= t < q
      ensures lane[t] != lane[q]
    {
    }
  }

  /** After lane k of u and the diagonal, work_c is as at the start of step k + 1. */
  lemma ColumnCounted(u: CsMatrix, o: seq<nat>, wc: seq<nat>, k: nat)
    requires Shaped(u) && u.nmajor == u.nminor && Upper(u) && k < u.nmajor && |o| > u.nmajor
    requires k in LaneIndices(u, k)
    requires RowCounted(u, o, wc, k, LaneIndices(u, k), |LaneIndices(u, k)|)
    ensures wc[k] == o[k] && TLane(u, k, k) == []
    ensures Counted(u, o, wc[k := wc[k] + 1], k + 1)
  {
    var lane := LaneIndices(u, k);
    assert lane[..|lane|] == lane;
    NoEarlierLane(u, k, k);
    forall c | 0 <= c < u.nmajor
      ensures wc[k := wc[k] + 1][c] == o[c] + |TLane(u, c, k + 1)|
    {
      if c > k {
        assert c !in lane;
      }
    }
  }

  /** At the end every column of L has all its slots filled. */
  lemma AllCounted(u: CsMatrix, o: seq<nat>, ix: seq<nat>, wc: seq<nat>)
    requires Shaped(u) && u.nmajor == u.nminor && Layout(u, o, ix)
    requires Counted(u, o, wc, u.nmajor)
    ensures forall c :: 0 <= c < u.nmajor ==> wc[c] == o[c + 1]
  {
    forall c | 0 <= c < u.nmajor
      ensures wc[c] == o[c + 1]
    {
      assert |ix[o[c]..o[c + 1]]| == o[c + 1] - o[c];
    }
  }

  /** At the end every column of L starts with its diagonal entry. */
  lemma DiagonalsFirst(u: CsMatrix, o: seq<nat>, ix: seq<nat>)
    requires Shaped(u) && u.nmajor == u.nminor && Upper(u) && Layout(u, o, ix)
    requires forall c :: 0 <= c < u.nmajor ==> c in LaneIndices(u, c)
    ensures forall c :: 0 <= c < u.nmajor ==> o[c] < o[c + 1] && ix[o[c]] == c
  {
    forall c | 0 <= c < u.nmajor
      ensures o[c] < o[c + 1] && ix[o[c]] == c
    {
      DiagonalFirst(u, c);
      assert ix[o[c]..o[c + 1]] == TLane(u, c, u.nmajor);
    }
  }

  /** Writing into the slot s of column c, strictly after its first slot, leaves the first
      slot of every column alone. */
  lemma OtherDiagonals(u: CsMatrix, o: seq<nat>, lv: seq<real>, k: nat, c: nat, s: nat, v: real)
    requires Shaped(u) && k <= u.nmajor && |o| > u.nmajor && c < u.nmajor
    requires forall a, b :: 0 <= a <= b <= u.nmajor ==> o[a] <= o[b]
    requires o[c] < s < o[c + 1] && s < |lv|
    requires DiagonalsDone(u, o, lv, k)
    ensures DiagonalsDone(u, o, lv[s := v], k)
  {
    forall a | 0 <= a < k
      ensures o[a] != s
    {
      if a <= c {
        assert o[a] <= o[c];
      } else {
        assert o[c + 1] <= o[a];
      }
    }
  }

  /** The value that the slots lo..hi of a column leave in row r when each slot holding r
      writes its value in turn over d: the value of the last such slot, or d if there is none. */
  function LastWrite(oi: seq<nat>, values: seq<real>, lo: nat, hi: nat, r: nat, d: real): (v: real)
    requires lo <= hi <= |oi| && hi <= |values|
    ensures (exists p :: lo <= p < hi && oi[p] == r) ==>
      exists p :: lo <= p < hi && oi[p] == r && v == values[p] && forall q :: p < q < hi ==> oi[q] != r
    ensures (forall p :: lo <= p < hi ==> oi[p] != r) ==> v == d
    decreases hi - lo
  {
    if hi == lo then d
    else if oi[hi - 1] == r then values[hi - 1]
    else LastWrite(oi, values, lo, hi - 1, r, d)
  }

  /** Scatters column k of the original matrix into x: row k is cleared first, then each
      stored row r <= k takes, in storage order, the value of its slot; rows below k are kept. */
  method ScatterColumn(op: seq<nat>, oi: seq<nat>, values: seq<real>, n: nat, k: nat, x: seq<real>)
    returns (x': seq<real>)
    requires OriginalPattern(op, oi, |oi|, n) && |values| >= |oi| && k < n && |x| == n
    ensures |x'| == n
    ensures forall r :: k < r < n ==> x'[r] == x[r]
    ensures forall r :: 0 <= r <= k ==>
      x'[r] == LastWrite(oi, values, op[k], op[k + 1], r, if r == k then 0.0 else x[r])
  {
    x' := x[k := 0.0];
    var p := op[k];
    assert op[k] <= op[k + 1] <= |oi|;
    while p < op[k + 1]
      invariant op[k] <= p <= op[k + 1] && |x'| == n
      invariant forall r :: k < r < n ==> x'[r] == x[r]
      invariant forall r :: 0 <= r <= k ==>
        x'[r] == LastWrite(oi, values, op[k], p, r, if r == k then 0.0 else x[r])
    {
      var irow := oi[p];
      if irow <= k {
        x' := x'[irow := values[p]];
      }
      p := p + 1;
    }
  }

  /** The slots from s on hold what they held before. */
  ghost predicate KeptFrom(lv: seq<real>, lv': seq<real>, s: nat)
  {
    |lv'| == |lv| && forall p :: s <= p < |lv| ==> lv'[p] == lv[p]
  }

  lemma SquareNonNegative(a: real)
    ensures a * a >= 0.0
  {
  }

  /** Writing into a slot the index it already holds changes nothing. */
  lemma RewriteSame(s: seq<nat>, i: nat, v: nat)
    requires i < |s| && s[i] == v
    ensures s[i := v] == s
  {
  }

  /** What the slots lo..hi of a column of L, scaled by lki, take off row r: the sum of
      lv[p] * lki over the slots p that hold r. */
  function Subtracted(ix: seq<nat>, lv: seq<real>, lo: nat, hi: nat, r: nat, lki: real): (s: real)
    requires lo <= hi <= |ix| && |lv| == |ix|
    ensures (forall p :: lo <= p < hi ==> ix[p] != r) ==> s == 0.0
    decreases hi - lo
  {
    if hi == lo then 0.0
    else Subtracted(ix, lv, lo, hi - 1, r, lki) + (if ix[hi - 1] == r then lv[hi - 1] * lki else 0.0)
  }

  /** Subtracts lki times the slots lo..hi of a column of L from x, at their rows. */
  method SubtractColumn(x: seq<real>, ix: seq<nat>, lv: seq<real>, lo: nat, hi: nat, lki: real, n: nat)
    returns (x': seq<real>)
    requires |x| == n && lo <= hi <= |ix| && |lv| == |ix|
    requires forall p :: lo <= p < hi ==> ix[p] < n
    ensures |x'| == n
    ensures forall r :: 0 <= r < n ==> x'[r] == x[r] - Subtracted(ix, lv, lo, hi, r, lki)
    ensures forall r :: 0 <= r < n && r !in ix[lo..hi] ==> x'[r] == x[r]
  {
    x' := x;
    var p := lo;
    while p < hi
      invariant lo <= p <= hi && |x'| == n
      invariant forall r :: 0 <= r < n ==> x'[r] == x[r] - Subtracted(ix, lv, lo, p, r, lki)
    {
      x' := x'[ix[p] := x'[ix[p]] - lv[p] * lki];
      p := p + 1;
    }
    forall r | 0 <= r < n && r !in ix[lo..hi]
      ensures x'[r] == x[r]
    {
      forall p | lo <= p < hi
        ensures ix[p] != r
      {
        assert ix[p] == ix[lo..hi][p - lo];
      }
    }
  }

  /** Slot p of L belongs to the slots filled before step k: it is among the first
      |TLane(u, c, k)| slots of some column c. */
  ghost predicate Written(u: CsMatrix, o: seq<nat>, k: nat, p: nat)
    requires Shaped(u) && k <= u.nmajor && |o| > u.nmajor
  {
    exists c :: 0 <= c < u.nmajor && o[c] <= p < o[c] + |TLane(u, c, k)|
  }

  /** A slot not filled before step k' was not filled before any earlier step k either. */
  lemma NotWrittenBefore(u: CsMatrix, o: seq<nat>, k: nat, k': nat, p: nat)
    requires Shaped(u) && k <= k' <= u.nmajor && |o| > u.nmajor
    requires !Written(u, o, k', p)
    ensures !Written(u, o, k, p)
  {
    forall c | 0 <= c < u.nmajor
      ensures !(o[c] <= p < o[c] + |TLane(u, c, k)|)
    {
      TLanePrefix(u, c, k, k');
    }
  }

  /** lv' differs from lv only in slots filled before step k. */
  ghost predicate KeptOutside(u: CsMatrix, o: seq<nat>, lv: seq<real>, lv': seq<real>, k: nat)
    requires Shaped(u) && k <= u.nmajor && |o| > u.nmajor
  {
    |lv'| == |lv| && forall p :: 0 <= p < |lv| && !Written(u, o, k, p) ==> lv'[p] == lv[p]
  }

  /** The slots after the first of a column c that holds its diagonal store rows below c. */
  lemma BelowDiagonal(u: CsMatrix, o: seq<nat>, ix: seq<nat>, c: nat, p: nat)
    requires Shaped(u) && u.nmajor == u.nminor && Upper(u) && c < u.nmajor && Layout(u, o, ix)
    requires c in LaneIndices(u, c) && o[c] < p < o[c + 1]
    ensures ix[p] > c
  {
    var lane := TLane(u, c, u.nmajor);
    DiagonalFirst(u, c);
    CholeskyPattern.TLaneFacts(u, c, u.nmajor);
    assert ix[o[c]..o[c + 1]] == lane;
    assert ix[p] == lane[p - o[c]];
  }

  /** One row irow < k of the triangular solve of step k: the entry lki of row k of L in column
      irow is computed, subtracted from the rows below irow, taken off the diagonal as
      lki * lki, and written into the next free slot of column irow. */
  method EliminateRow(u: CsMatrix, o: seq<nat>, ix: seq<nat>, k: nat, irow: nat, x: seq<real>, wc: seq<nat>,
                      lv: seq<real>, diag: real)
    returns (x': seq<real>, wc': seq<nat>, ix': seq<nat>, lv': seq<real>, diag': real)
    requires Shaped(u) && u.nmajor == u.nminor && Upper(u) && irow < k < u.nmajor && irow in LaneIndices(u, k)
    requires Layout(u, o, ix) && forall p :: 0 <= p < |ix| ==> ix[p] < u.nmajor
    requires |lv| == |ix| && |x| == u.nmajor && |wc| == u.nmajor
    requires wc[irow] == o[irow] + |TLane(u, irow, k)| && DiagonalsDone(u, o, lv, k)
    ensures ix' == ix && diag' == diag - (x[irow] / lv[o[irow]]) * (x[irow] / lv[o[irow]]) && diag' <= diag
    ensures wc' == wc[irow := wc[irow] + 1] && o[irow] < wc[irow] < o[irow + 1] <= |lv|
    ensures lv' == lv[wc[irow] := x[irow] / lv[o[irow]]] && Written(u, o, k + 1, wc[irow])
    ensures |x'| == u.nmajor && x'[irow] == 0.0
    ensures forall r :: 0 <= r < u.nmajor ==>
      x'[r] == (if r == irow then 0.0 else x[r]) - Subtracted(ix, lv, o[irow] + 1, wc[irow], r, x[irow] / lv[o[irow]])
    ensures DiagonalsDone(u, o, lv', k) && KeptFrom(lv, lv', o[k])
  {
    var slot := wc[irow];
    NextSlot(u, o, ix, irow, k);
    FilledDiagonal(u, irow, k);
    assert o[irow] < slot < o[irow + 1];
    assert ix[slot] == k;
    assert o[irow + 1] <= o[k];
    var lki := x[irow] / lv[o[irow]];
    x' := x[irow := 0.0];
    x' := SubtractColumn(x', ix, lv, o[irow] + 1, slot, lki, u.nmajor);
    forall p | o[irow] + 1 <= p < slot
      ensures ix[p] != irow
    {
      BelowDiagonal(u, o, ix, irow, p);
    }
    SquareNonNegative(lki);
    diag' := diag - lki * lki;
    wc' := wc[irow := slot + 1];
    OtherDiagonals(u, o, lv, k, irow, slot, lki);
    RewriteSame(ix, slot, k);
    ix' := ix[slot := k];
    lv' := lv[slot := lki];
  }

  /** The triangular solve of step k, over the rows stored in lane k of u; row k itself is
      skipped. */
  method EliminateRows(u: CsMatrix, o: seq<nat>, ix: seq<nat>, k: nat, x: seq<real>, wc: seq<nat>, lv: seq<real>, diag: real)
    returns (x': seq<real>, wc': seq<nat>, ix': seq<nat>, lv': seq<real>, diag': real)
    requires Shaped(u) && u.nmajor == u.nminor && Upper(u) && k < u.nmajor
    requires NoDuplicates(LaneIndices(u, k)) && Layout(u, o, ix)
    requires forall p :: 0 <= p < |ix| ==> ix[p] < u.nmajor
    requires |lv| == |ix| && |x| == u.nmajor
    requires Counted(u, o, wc, k) && DiagonalsDone(u, o, lv, k)
    ensures ix' == ix && |x'| == u.nmajor && |lv'| == |lv| && diag' <= diag
    ensures RowCounted(u, o, wc', k, LaneIndices(u, k), |LaneIndices(u, k)|)
    ensures DiagonalsDone(u, o, lv', k) && KeptFrom(lv, lv', o[k])
    ensures KeptOutside(u, o, lv, lv', k + 1)
  {
    x', wc', ix', lv', diag' := x, wc, ix, lv, diag;
    var lane := LaneIndices(u, k);
    var q := 0;
    while q < |lane|
      invariant q <= |lane| && |x'| == u.nmajor && |lv'| == |ix| && ix' == ix && diag' <= diag
      invariant RowCounted(u, o, wc', k, lane, q)
      invariant DiagonalsDone(u, o, lv', k) && KeptFrom(lv, lv', o[k])
      invariant KeptOutside(u, o, lv, lv', k + 1)
    {
      var irow := lane[q];
      RowStep(u, o, wc', k, lane, q);
      if irow < k {
        x', wc', ix', lv', diag' := EliminateRow(u, o, ix', k, irow, x', wc', lv', diag');
      }
      q := q + 1;
    }
  }

  /** A slot outside those filled before step k + 1 still holds its first value, when step k
      wrote only among them and the earlier steps only among the slots filled before k. */
  lemma FrameAfterRows(u: CsMatrix, o: seq<nat>, lv: seq<real>, lvA: seq<real>, lvB: seq<real>, k: nat)
    requires Shaped(u) && k < u.nmajor && |o| > u.nmajor
    requires KeptOutside(u, o, lv, lvA, k) && KeptOutside(u, o, lvA, lvB, k + 1)
    ensures KeptOutside(u, o, lv, lvB, k + 1)
  {
    forall p | 0 <= p < |lv| && !Written(u, o, k + 1, p)
      ensures lvB[p] == lv[p]
    {
      NotWrittenBefore(u, o, k, k + 1, p);
    }
  }

  /** The numeric phase stopped at column k: the columns before k have their positive
      diagonal first, the slots of column k and after are untouched, and so is every slot
      outside those filled before step k + 1. */
  ghost predicate FailedAt(u: CsMatrix, o: seq<nat>, lv: seq<real>, lv': seq<real>, k: nat)
    requires Shaped(u) && |o| > u.nmajor
  {
    && k < u.nmajor && DiagonalsDone(u, o, lv', k)
    && KeptFrom(lv, lv', o[k]) && KeptOutside(u, o, lv, lv', k + 1)
  }

  /** Storing the positive pivot v into the first slot of column k finishes step k: the
      cursors, the diagonals and the frame are as the step k + 1 expects them. */
  lemma DiagonalStep(u: CsMatrix, o: seq<nat>, ix: seq<nat>, lv0: seq<real>, lv: seq<real>, wc: seq<nat>,
                     k: nat, v: real)
    requires Shaped(u) && u.nmajor == u.nminor && Upper(u) && k < u.nmajor && Layout(u, o, ix)
    requires k in LaneIndices(u, k) && |lv| == |ix| && v > 0.0
    requires RowCounted(u, o, wc, k, LaneIndices(u, k), |LaneIndices(u, k)|)
    requires DiagonalsDone(u, o, lv, k) && KeptFrom(lv0, lv, o[k]) && KeptOutside(u, o, lv0, lv, k + 1)
    ensures wc[k] == o[k] < o[k + 1] && ix[o[k]] == k
    ensures Counted(u, o, wc[k := o[k] + 1], k + 1)
    ensures DiagonalsDone(u, o, lv[o[k] := v], k + 1) && KeptFrom(lv0, lv[o[k] := v], o[k + 1])
    ensures KeptOutside(u, o, lv0, lv[o[k] := v], k + 1)
  {
    ColumnCounted(u, o, wc, k);
    NextSlot(u, o, ix, k, k);
    assert Written(u, o, k + 1, o[k]) by {
      assert o[k] <= o[k] < o[k] + |TLane(u, k, k + 1)|;
    }
  }

  /** The loop of the numeric phase over the columns k of L, on the arrays of the factor:
      scatter column k of the original matrix, solve for row k of L, and store the square
      root of what is left on the diagonal, stopping when that is not positive. */
  method NumericPhase(op: seq<nat>, oi: seq<nat>, u: CsMatrix, o: seq<nat>, ix: seq<nat>, lv: seq<real>,
                      x: seq<real>, values: seq<real>, sqrt: real -> real)
    returns (b: bool, x': seq<real>, wc: seq<nat>, ix': seq<nat>, lv': seq<real>)
    requires Prepared(op, oi, u, o, ix) && |lv| == |ix| && |x| == u.nmajor && |values| >= |oi|
    requires forall v :: v > 0.0 ==> sqrt(v) > 0.0
    ensures ix' == ix && |x'| == u.nmajor && |wc| == u.nmajor && |lv'| == |lv|
    ensures b ==> forall c :: 0 <= c < u.nmajor ==> o[c] < o[c + 1] && ix[o[c]] == c && lv'[o[c]] > 0.0
    ensures b ==> forall c :: 0 <= c < u.nmajor ==> wc[c] == o[c + 1]
    ensures !b ==> exists k :: FailedAt(u, o, lv, lv', k)
  {
    var n := u.nmajor;
    x', ix', lv' := x, ix, lv;
    wc := o[..n];
    var k := 0;
    while k < n
      invariant k <= n && |x'| == n && |lv'| == |ix| && ix' == ix
      invariant Counted(u, o, wc, k)
      invariant DiagonalsDone(u, o, lv', k) && KeptFrom(lv, lv', o[k])
      invariant KeptOutside(u, o, lv, lv', k)
    {
      x' := ScatterColumn(op, oi, values, n, k, x');
      var diag0 := x'[k];
      x' := x'[k := 0.0];
      var diag, lvA := 0.0, lv';
      x', wc, ix', lv', diag := EliminateRows(u, o, ix', k, x', wc, lv', diag0);
      FrameAfterRows(u, o, lv, lvA, lv', k);
      if diag <= 0.0 {
        assert FailedAt(u, o, lv, lv', k);
        return false, x', wc, ix', lv';
      }
      assert k in LaneIndices(u, k) by {
        assert diag0 != 0.0;
        var p :| op[k] <= p < op[k + 1] && oi[p] == k;
        assert Covers(op, oi, u);
      }
      DiagonalStep(u, o, ix, lv, lv', wc, k, sqrt(diag));
      var slot := wc[k];
      wc := wc[k := slot + 1];
      RewriteSame(ix', slot, k);
      ix' := ix'[slot := k];
      lv' := lv'[slot := sqrt(diag)];
      k := k + 1;
    }
    AllCounted(u, o, ix, wc);
    DiagonalsFirst(u, o, ix);
    b := true;
  }

  class CsCholesky {
    /** Column offsets of the original matrix, with the number of stored entries at the end. */
    var originalP: seq<nat>
    var originalI: seq<nat>
    /** Number of values the original matrix stores. */
    var originalLen: nat
    /** The factor. */
    var l: CsMatrix
    /** The pattern of L^T, kept for the numeric phase. */
    var u: CsMatrix
    /** Whether the last numeric phase succeeded. */
    var ok: bool
    var workX: seq<real>
    var workC: seq<nat>
    /** The elimination tree of the original matrix. */
    ghost var etree: seq<nat>

    ghost predicate Valid()
      reads this
    {
      && Symbolic(originalP, originalI, originalLen, u, l)
      && |workX| == u.nmajor && |workC| == u.nmajor
      && (ok ==> Factored(l))
    }

    /** The symbolic analysis of m: its pattern, the elimination tree, the pattern U of L^T
        (column i holding the tree nodes up to i reachable from the rows of column i of m)
        and L laid out as its transpose.  No value of m is read. */
    constructor NewSymbolic(m: CsMatrix)
      requires SquarePattern(m)
      ensures Valid() && !ok
      ensures originalP == m.offsets[..m.nmajor] + [|m.indices|] && originalI == m.indices
      ensures originalLen == |m.indices|
      ensures IsForest(etree) && |etree| == m.nmajor
      ensures u.nmajor == m.nmajor && u.nminor == m.nminor
      ensures forall i :: 0 <= i < u.nmajor ==> ColumnOk(m, etree, i, LaneIndices(u, i))
      ensures l == PatternTranspose(u)
    {
      var n := m.nmajor;
      var l0, u0, t := NonzeroPattern(m);
      assert m.offsets[..n] + [|m.indices|] == m.offsets;
      SymbolicOfPattern(m, t, u0, l0);
      assert Symbolic(m.offsets, m.indices, |m.indices|, u0, l0);
      originalP := m.offsets[..n] + [|m.indices|];
      originalI := m.indices;
      originalLen := |m.indices|;
      l := l0;
      u := u0;
      ok := false;
      workX := seq(n, r => 0.0);
      var wc: seq<nat> := seq(n, c => 0);
      workC := wc;
      etree := t;
    }

    /** The symbolic analysis of m followed by the numeric phase with the values m stores. */
    static method New(m: CsMatrix, sqrt: real -> real) returns (c: CsCholesky)
      requires SquarePattern(m)
      requires forall v :: v > 0.0 ==> sqrt(v) > 0.0
      ensures fresh(c) && c.Valid()
      ensures c.originalI == m.indices && c.u.nmajor == m.nmajor
      ensures IsForest(c.etree) && |c.etree| == m.nmajor
      ensures forall i :: 0 <= i < c.u.nmajor ==> ColumnOk(m, c.etree, i, LaneIndices(c.u, i))
      ensures c.l.offsets == PatternTranspose(c.u).offsets && c.l.indices == PatternTranspose(c.u).indices
      ensures c.ok ==> Factored(c.l)
    {
      c := new CsCholesky.NewSymbolic(m);
      var b := c.Decompose(m.values, sqrt);
    }

    /** The factor, when the last numeric phase succeeded. */
    function L(): (r: Option<CsMatrix>)
      requires Valid()
      reads this
      ensures r.Some? <==> ok
      ensures r.Some? ==> r.value == l
      ensures r.Some? ==> CscSolve.Square(r.value) && CscSolve.StoresLowerOnly(r.value) && CscSolve.NonSingular(r.value)
    {
      if ok then
        FactorSolvable(u, l);
        Some(l)
      else None
    }

    /** The numeric phase with the given values of the original matrix.  It fills L within the
        pattern of the symbolic phase and reports whether every diagonal entry came out
        positive; sqrt stands for the square root of the scalar type. */
    method Decompose(values: seq<real>, sqrt: real -> real) returns (b: bool)
      requires Valid() && |values| >= originalLen
      requires forall v :: v > 0.0 ==> sqrt(v) > 0.0
      modifies this
      ensures Valid()
      ensures originalP == old(originalP) && originalI == old(originalI) && originalLen == old(originalLen)
      ensures u == old(u) && etree == old(etree)
      ensures l.nmajor == old(l.nmajor) && l.nminor == old(l.nminor)
      ensures l.offsets == old(l.offsets) && l.indices == old(l.indices)
      ensures b == ok
      ensures b ==> Factored(l) && forall c :: 0 <= c < l.nmajor ==> workC[c] == l.offsets[c + 1]
      ensures !b ==> exists k :: FailedAt(u, l.offsets, old(l.values), l.values, k)
    {
      var x, wc, ix, lv;
      b, x, wc, ix, lv := NumericPhase(originalP, originalI, u, l.offsets, l.indices, l.values, workX, values, sqrt);
      workX, workC := x, wc;
      l := l.(indices := ix, values := lv);
      ok := b;
    }
  }
}
