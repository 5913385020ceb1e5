/**
 * The coordinate (COO) format: a sparse matrix kept as three parallel
 * arrays of row indices, column indices and values, one triplet per stored
 * entry.  Indices must lie inside the matrix; duplicate coordinates are
 * allowed and are summed when the matrix is made dense.
 */
module Coo {
  import opened Wrappers

  datatype SparseFormatError =
    | InvalidStructure(message: string)
    | IndexOutOfBounds(message: string)

  const RowColLengthMessage: string := "Number of row and col indices must be the same."
  const ColValueLengthMessage: string := "Number of col indices and values must be the same."
  const RowBoundsMessage: string := "Row index out of bounds."
  const ColBoundsMessage: string := "Col index out of bounds."

  /** Every index in idx is below bound. */
  predicate AllBelow(idx: seq<nat>, bound: nat)
  {
    forall k :: 0 <= k < |idx| ==> idx[k] < bound
  }

  /** Three arrays of one length whose indices lie inside an nrows-by-ncols matrix. */
  predicate Triplets(nrows: nat, ncols: nat, rows: seq<nat>, cols: seq<nat>, vals: seq<real>)
  {
    |rows| == |cols| == |vals| && AllBelow(rows, nrows) && AllBelow(cols, ncols)
  }

  /** The first problem with the given arrays, in the order they are looked for: the two
      length checks, then row bounds, then column bounds. */
  function TripletError(nrows: nat, ncols: nat, rows: seq<nat>, cols: seq<nat>, vals: seq<real>): (e: Option<SparseFormatError>)
    ensures e.None? <==> Triplets(nrows, ncols, rows, cols, vals)
  {
    if |rows| != |cols| then Some(InvalidStructure(RowColLengthMessage))
    else if |cols| != |vals| then Some(InvalidStructure(ColValueLengthMessage))
    else if !AllBelow(rows, nrows) then Some(IndexOutOfBounds(RowBoundsMessage))
    else if !AllBelow(cols, ncols) then Some(IndexOutOfBounds(ColBoundsMessage))
    else None
  }

  /** Arrays of different lengths are reported as a structure error whatever their indices. */
  lemma LengthsCheckedFirst(nrows: nat, ncols: nat, rows: seq<nat>, cols: seq<nat>, vals: seq<real>)
    requires |rows| != |cols| || |cols| != |vals|
    ensures TripletError(nrows, ncols, rows, cols, vals).Some?
    ensures TripletError(nrows, ncols, rows, cols, vals).value.InvalidStructure?
    ensures TripletError(nrows, ncols, rows, cols, vals).value.message ==
      if |rows| != |cols| then RowColLengthMessage else ColValueLengthMessage
  {
  }

  /** With equal lengths, a row index out of bounds is reported before a column index out of
      bounds, and a column index out of bounds only when all rows are in bounds. */
  lemma BoundsCheckOrder(nrows: nat, ncols: nat, rows: seq<nat>, cols: seq<nat>, vals: seq<real>)
    requires |rows| == |cols| == |vals|
    ensures (exists k :: 0 <= k < |rows| && rows[k] >= nrows) ==>
      TripletError(nrows, ncols, rows, cols, vals) == Some(IndexOutOfBounds(RowBoundsMessage))
    ensures AllBelow(rows, nrows) && (exists k :: 0 <= k < |cols| && cols[k] >= ncols) ==>
      TripletError(nrows, ncols, rows, cols, vals) == Some(IndexOutOfBounds(ColBoundsMessage))
  {
  }

  /** The dense value at (i, j) of the first n triplets: the sum of the values of those
      triplets that sit at (i, j). */
  function EntrySum(rows: seq<nat>, cols: seq<nat>, vals: seq<real>, i: nat, j: nat, n: nat): real
    requires n <= |rows| && n <= |cols| && n <= |vals|
  {
    if n == 0 then 0.0
    else EntrySum(rows, cols, vals, i, j, n - 1) + (if rows[n - 1] == i && cols[n - 1] == j then vals[n - 1] else 0.0)
  }

  /** A cell no triplet touches is zero. */
  lemma {:induction false} UntouchedCellIsZero(rows: seq<nat>, cols: seq<nat>, vals: seq<real>, i: nat, j: nat, n: nat)
    requires n <= |rows| && n <= |cols| && n <= |vals|
    requires forall k :: 0 <= k < n ==> rows[k] != i || cols[k] != j
    ensures EntrySum(rows, cols, vals, i, j, n) == 0.0
  {
    if n > 0 {
      UntouchedCellIsZero(rows, cols, vals, i, j, n - 1);
    }
  }

  /** The dense value of a triplet sequence split in two is the sum of the two parts' values:
      the order in which triplets are added does not matter between the parts. */
  lemma {:induction false} EntrySumAppend(rows: seq<nat>, cols: seq<nat>, vals: seq<real>,
                                          rows': seq<nat>, cols': seq<nat>, vals': seq<real>, i: nat, j: nat, n': nat)
    requires |rows| == |cols| == |vals| && n' <= |rows'| && n' <= |cols'| && n' <= |vals'|
    ensures EntrySum(rows + rows', cols + cols', vals + vals', i, j, |rows| + n')
         == EntrySum(rows, cols, vals, i, j, |rows|) + EntrySum(rows', cols', vals', i, j, n')
  {
    if n' == 0 {
      EntrySumPrefix(rows, cols, vals, rows', cols', vals', i, j, |rows|);
    } else {
      EntrySumAppend(rows, cols, vals, rows', cols', vals', i, j, n' - 1);
    }
  }

  /** Appending triplets does not change the sum over a prefix. */
  lemma {:induction false} EntrySumPrefix(rows: seq<nat>, cols: seq<nat>, vals: seq<real>,
                                          rows': seq<nat>, cols': seq<nat>, vals': seq<real>, i: nat, j: nat, n: nat)
    requires n <= |rows| && n <= |cols| && n <= |vals|
    ensures EntrySum(rows + rows', cols + cols', vals + vals', i, j, n) == EntrySum(rows, cols, vals, i, j, n)
  {
    if n > 0 {
      EntrySumPrefix(rows, cols, vals, rows', cols', vals', i, j, n - 1);
    }
  }

  class CooMatrix {
    var nrows: nat
    var ncols: nat
    var rowIndices: seq<nat>
    var colIndices: seq<nat>
    var values: seq<real>

    /** The three arrays have one length and every index is in bounds. */
    ghost predicate Valid()
      reads this
    {
      Triplets(nrows, ncols, rowIndices, colIndices, values)
    }

    /** The zero matrix of the given size: no stored triplets. */
    constructor (nrows: nat, ncols: nat)
      ensures Valid()
      ensures this.nrows == nrows && this.ncols == ncols
      ensures rowIndices == [] && colIndices == [] && values == []
    {
      this.nrows, this.ncols := nrows, ncols;
      rowIndices, colIndices, values := [], [], [];
    }

    /** Takes the arrays as they are; the caller has checked them. */
    constructor FromParts(nrows: nat, ncols: nat, rows: seq<nat>, cols: seq<nat>, vals: seq<real>)
      requires Triplets(nrows, ncols, rows, cols, vals)
      ensures Valid()
      ensures this.nrows == nrows && this.ncols == ncols
      ensures rowIndices == rows && colIndices == cols && values == vals
    {
      this.nrows, this.ncols := nrows, ncols;
      rowIndices, colIndices, values := rows, cols, vals;
    }

    /** The stored triplets (i, j, v), in storage order. */
    function TripletIter(): (t: seq<(nat, nat, real)>)
      requires Valid()
      reads this
      ensures |t| == |values|
      ensures forall k :: 0 <= k < |t| ==> t[k] == (rowIndices[k], colIndices[k], values[k])
    {
      var rows, cols, vals := rowIndices, colIndices, values;
      seq(|vals|, k requires 0 <= k < |vals| => (rows[k], cols[k], vals[k]))
    }

    /** The three arrays. */
    function Disassemble(): (r: (seq<nat>, seq<nat>, seq<real>))
      reads this
    {
      (rowIndices, colIndices, values)
    }

    /** Appends the triplet (i, j, v). */
    method Push(i: nat, j: nat, v: real)
      requires Valid() && i < nrows && j < ncols
      modifies this
      ensures Valid()
      ensures nrows == old(nrows) && ncols == old(ncols)
      ensures rowIndices == old(rowIndices) + [i]
      ensures colIndices == old(colIndices) + [j]
      ensures values == old(values) + [v]
    {
      rowIndices := rowIndices + [i];
      colIndices := colIndices + [j];
      values := values + [v];
    }

    /** The dense matrix in which every cell holds the sum of the values stored at it. */
    method ToDense() returns (d: array2<real>)
      requires Valid()
      ensures fresh(d)
      ensures d.Length0 == nrows && d.Length1 == ncols
      ensures forall i, j :: 0 <= i < nrows && 0 <= j < ncols ==>
        d[i, j] == EntrySum(rowIndices, colIndices, values, i, j, |values|)
    {
      d := new real[nrows, ncols]((i, j) => 0.0);
      var k := 0;
      while k < |values|
        invariant k <= |values|
        invariant forall i, j :: 0 <= i < nrows && 0 <= j < ncols ==>
          d[i, j] == EntrySum(rowIndices, colIndices, values, i, j, k)
      {
        var i, j := rowIndices[k], colIndices[k];
        d[i, j] := d[i, j] + values[k];
        k := k + 1;
      }
    }
  }

  /** Checks the arrays and, if they describe an nrows-by-ncols COO matrix, stores them
      unchanged; otherwise reports the first problem found. */
  method TryFromTriplets(nrows: nat, ncols: nat, rows: seq<nat>, cols: seq<nat>, vals: seq<real>)
    returns (r: Result<CooMatrix, SparseFormatError>)
    ensures r.Failure? <==> TripletError(nrows, ncols, rows, cols, vals).Some?
    ensures r.Failure? ==> r.error == TripletError(nrows, ncols, rows, cols, vals).value
    ensures r.Success? ==> fresh(r.value) && r.value.Valid()
    ensures r.Success? ==> r.value.nrows == nrows && r.value.ncols == ncols
    ensures r.Success? ==> r.value.Disassemble() == (rows, cols, vals)
  {
    var e := TripletError(nrows, ncols, rows, cols, vals);
    if e.Some? {
      return Failure(e.value);
    }
    var m := new CooMatrix.FromParts(nrows, ncols, rows, cols, vals);
    return Success(m);
  }

  /** Pushing (i, j, v) adds v to cell (i, j) of the dense matrix and leaves the other cells
      as they were. */
  lemma PushAddsToCell(rows: seq<nat>, cols: seq<nat>, vals: seq<real>, i: nat, j: nat, v: real, a: nat, b: nat)
    requires |rows| == |cols| == |vals|
    ensures EntrySum(rows + [i], cols + [j], vals + [v], a, b, |rows| + 1)
         == EntrySum(rows, cols, vals, a, b, |rows|) + (if a == i && b == j then v else 0.0)
  {
    EntrySumAppend(rows, cols, vals, [i], [j], [v], a, b, 1);
  }

  /** The example of the disassemble documentation: a 2-by-3 matrix with entries (0, 1) and
      (1, 2) is accepted, and disassembling it gives its three arrays back. */
  method DisassembleExample() returns (rows: seq<nat>, cols: seq<nat>, vals: seq<real>)
    ensures rows == [0, 1] && cols == [1, 2] && vals == [1.0, 2.0]
  {
    assert AllBelow([0, 1], 2);
    assert AllBelow([1, 2], 3);
    var r := TryFromTriplets(2, 3, [0, 1], [1, 2], [1.0, 2.0]);
    if r.Failure? {
      assert false;
      return [], [], [];
    }
    var m := r.value;
    rows, cols, vals := m.Disassemble().0, m.Disassemble().1, m.Disassemble().2;
  }
}
