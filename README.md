# nalgebra sparse core, modelled in Dafny

This project models the sparse-matrix part of nalgebra and proves properties of the model.
It also models a small dense dynamic vector. The pieces are:

- **COO triplet store** (`CooMatrix`). It keeps three parallel arrays: row indices, column
  indices and values. Their lengths are equal and every index lies inside the matrix.
  - `try_from_triplets` checks the arrays and reports the first problem in a fixed order.
  - `push` appends one triplet.
  - `to_dense` sums duplicate triplets into a dense matrix.
- **Compressed storage** (`CsMatrix`). A CSR or CSC matrix stores lane offsets, minor indices
  and values. The operand tag `Op` is `NoOp` or `Transpose`.
  - The shared kernels of `ops/serial/cs.rs` are not part of this model. They are stated by
    what they compute: `C <- beta*C + alpha*op(A)*op(B)` or `C <- beta*C + alpha*op(A)`, or an
    `InvalidPattern` error when C's sparsity pattern has no slot for an entry of the result.
- **CSR and CSC operations**. These route the operand tags for the product and the sum.
  - A transposed operand is materialised, and the product runs again once, untagged.
  - CSC swaps the operands of the product kernel.
  - The CSC dense product flips A's tag.
  - The CSC lower-triangular solve comes in two forms, plain and transposed. Both overwrite B
    column by column and return a `Singular` error when a diagonal entry is missing or zero.
- **Sparse Cholesky** (`CsCholesky`).
  - The symbolic phase computes the elimination tree, the `reach` of every column and the
    nonzero pattern U of `L^T`. It lays L out as the transpose of U.
  - The numeric phase `decompose` is the left-looking loop. Per-column write cursors
    (`work_c`) place each computed entry into the next free slot of its column of L. A dense
    workspace (`work_x`) holds the scattered column.
  - Its body stops at the column whose pivot is not positive; the contract does not prove that
    it stops there, nor that it ever succeeds. What is proved on failure is that there is a
    column k before which every column keeps a positive pivot, that no slot of k or of a later
    column is written, and that every slot written lies among the slots the cursors had filled
    by the end of step k. `l()` returns the factor only after a successful decomposition.
- **Dense vector** (`DVec`): constructors, element-wise and scalar arithmetic, `dot` and
  `sub_dot`, the canonical basis, `from_iterator` and the `Translation` operations.

Dense matrices are `seq<seq<real>>` (module `Dense`). Scalars are `real`. The Rust code is
generic over the scalar type, and the model fixes it to exact arithmetic.

Modules and files:

| module | file |
|---|---|
| `Wrappers` | `wrappers.dfy` |
| `Flatten` | `flatten.dfy` |
| `Dense` | `dense.dfy` |
| `Compressed` | `compressed.dfy` |
| `CsrOps` | `csr_ops.dfy` |
| `CscOps` | `csc_ops.dfy` |
| `CscSolve` | `csc_solve.dfy` |
| `Coo` | `coo.dfy` |
| `CholeskyPattern` | `cholesky_pattern.dfy` |
| `Cholesky` | `cholesky.dfy` |
| `DVector` | `dvec.dfy` |

## Model

| member | source | states |
|---|---|---|
| Coo.TripletError | nalgebra-sparse/src/coo.rs:79-99 | no error exactly when the three lengths agree and every row and column index is in bounds |
| Coo.LengthsCheckedFirst | nalgebra-sparse/src/coo.rs:79-87 | unequal lengths give `InvalidStructure`, whatever the indices; the message says which pair differs, rows against columns first |
| Coo.BoundsCheckOrder | nalgebra-sparse/src/coo.rs:89-99 | with equal lengths, a row index out of bounds gives the row message even when a column index is also out of bounds; the column message comes only when all rows are in bounds |
| Coo.TryFromTriplets | nalgebra-sparse/src/coo.rs:72-109 | fails exactly when the arrays are invalid, with the first error; on success the matrix is valid and `disassemble` gives back the input arrays unchanged |
| Coo.CooMatrix.constructor | nalgebra-sparse/src/coo.rs:56-64 | `new` stores the dimensions, leaves all three arrays empty and establishes the invariant |
| Coo.CooMatrix.FromParts | nalgebra-sparse/src/coo.rs:100-108 | the accepted arrays are stored as given and the invariant holds |
| Coo.CooMatrix.TripletIter | nalgebra-sparse/src/coo.rs:113-119 | one triplet per stored entry, element k being `(row_indices[k], col_indices[k], values[k])` in storage order |
| Coo.CooMatrix.Push | nalgebra-sparse/src/coo.rs:130-136 | needs `i < nrows` and `j < ncols`; appends one element to each array, keeps earlier triplets and the dimensions, and keeps the invariant |
| Coo.CooMatrix.ToDense | nalgebra-sparse/src/coo.rs:190-201 | the result is `nrows` by `ncols` and cell (i, j) is the sum of the values of all triplets stored at (i, j) |
| Coo.UntouchedCellIsZero | nalgebra-sparse/src/coo.rs:190-201 | a cell that no triplet touches is zero in the dense matrix |
| Coo.EntrySumAppend | nalgebra-sparse/src/coo.rs:187-189 | the dense value of two concatenated triplet lists is the sum of their dense values, so duplicates add up whatever their order |
| Coo.PushAddsToCell | nalgebra-sparse/src/coo.rs:121-123 | after `push(i, j, v)` the dense matrix gains v at (i, j) and no other cell changes |
| Coo.DisassembleExample | nalgebra-sparse/src/coo.rs:171-181 | the documentation example: `try_from_triplets(2, 3, [0, 1], [1, 2], [1.0, 2.0])` succeeds, and `disassemble` gives back `[0, 1]`, `[1, 2]` and `[1.0, 2.0]` |
| Compressed.Find | nalgebra-sparse/src/ops/serial/csc.rs:159 | the first position holding x, or the length when x does not occur: `position(i == k)` |
| Compressed.CsrView | nalgebra-sparse/src/ops/serial/csr.rs:11 | the dense matrix a CSR matrix stands for: the stored value where a slot exists, zero elsewhere |
| Compressed.CscView | nalgebra-sparse/src/ops/serial/csc.rs:32 | the dense matrix a CSC matrix stands for, with lanes read as columns |
| Compressed.CscViewIsTransposedCsrView | nalgebra-sparse/src/ops/serial/csc.rs:32 | the same storage read as CSC is the transpose of its CSR reading |
| Compressed.Op.Transposed | nalgebra-sparse/src/ops/serial/csc.rs:33 | keeps the operand and flips the tag |
| Compressed.Op.MapSameOp | nalgebra-sparse/src/ops/serial/csr.rs:58 | applies the function to the operand and keeps the tag; `CsrOps.OpCs` and `CscOps.OpCs` are its instances for the closure that takes `a.cs`, written out because the storage they take lives in a class field |
| Compressed.OpCsrView | nalgebra-sparse/src/ops/serial/csr.rs:11 | the dense `op(a)` with a read as CSR, of the tagged shape |
| Compressed.TransposeCs | nalgebra-sparse/src/ops/serial/csr.rs:147-149 | `transpose()` swaps the major and minor dimensions |
| Compressed.TransposeLanes | nalgebra-sparse/src/ops/serial/csr.rs:147-149 | the transpose is well formed, and its lane r lists in ascending order the old lanes that store r |
| Compressed.TransposeEntries | nalgebra-sparse/src/ops/serial/csr.rs:147-149 | the transpose stores (i, j) exactly when the matrix stores (j, i), with the same value |
| Compressed.TransposeViews | nalgebra-sparse/src/ops/serial/csc.rs:83-85 | in either orientation, the transpose's dense matrix is the transposed dense matrix |
| Compressed.Materialize | nalgebra-sparse/src/ops/serial/csr.rs:143-151 | the `Cow` chosen for an operand: borrowed when NoOp, an owned transpose when Transpose, with the shape of `op(a)` |
| Compressed.MaterializeFacts | nalgebra-sparse/src/ops/serial/csr.rs:143-151 | the materialised operand stores exactly what `op(a)` stores and reads as `op(a)` |
| Compressed.Restrict | nalgebra-sparse/src/ops/serial/csr.rs:61-65 | the kernels' result keeps C's offsets and indices and changes only the values |
| Compressed.RestrictView | nalgebra-sparse/src/ops/serial/csr.rs:61-65 | read back, the result is the target whenever the target vanishes outside C's pattern |
| Compressed.ProductOutsidePattern | nalgebra-sparse/src/ops/serial/csr.rs:92-94 | when C's pattern holds A*B, every entry of A*B without a slot in C is zero |
| Compressed.SpmmCheckedComputes | nalgebra-sparse/src/ops/serial/csr.rs:84-87 | the checked product kernel fails exactly when C's pattern lacks a slot; otherwise C keeps its pattern and reads as `beta*C + alpha*A*B` |
| Compressed.SpmmFits | nalgebra-sparse/src/ops/serial/csr.rs:111-114 | with a fitting pattern, the stored result reads back as `beta*C + alpha*A*B` |
| Compressed.SpaddComputes | nalgebra-sparse/src/ops/serial/csr.rs:38-58 | the sum kernel fails exactly when C's pattern lacks a slot for an entry of `op(A)`; otherwise C keeps its pattern and reads as `beta*C + alpha*op(A)` |
| CsrOps.OpCs | nalgebra-sparse/src/ops/serial/csr.rs:58 | `map_same_op(\|a\| &a.cs)` keeps the tag and takes the storage |
| CsrOps.CheckedProduct | nalgebra-sparse/src/ops/serial/csr.rs:70-90 | two NoOp operands go to the checked kernel in the order (a, b), and any other tags go through `do_transposes`; the only error is `InvalidPattern`, and on success C keeps its dimensions, offsets and indices |
| CsrOps.UncheckedProduct | nalgebra-sparse/src/ops/serial/csr.rs:97-117 | routes like the checked product but to the unchecked kernel; it never reports an error, and C keeps its dimensions, offsets and indices |
| CsrOps.DoTransposes | nalgebra-sparse/src/ops/serial/csr.rs:119-153 | replaces each Transpose operand by an owned transpose, keeps each NoOp operand, and calls the given product once with both tags NoOp; called from the unchecked product it never fails, otherwise its only error is `InvalidPattern`; C keeps its pattern |
| CsrOps.Sum | nalgebra-sparse/src/ops/serial/csr.rs:48-59 | the sum kernel with A's tag kept; the only error is `InvalidPattern`, and on success C keeps its pattern |
| CsrOps.DenseProduct | nalgebra-sparse/src/ops/serial/csr.rs:25-36 | `spmm_csr_dense_` passes both tags to the kernel unchanged; the new C is `beta*C + alpha*op(A)*op(B)` with A read as CSR |
| CsrOps.CheckedProductComputes | nalgebra-sparse/src/ops/serial/csr.rs:70-90 | `spmm_csr_prealloc_checked` fails with `InvalidPattern` exactly when C's pattern cannot hold `op(A)*op(B)`; otherwise C keeps its pattern and reads as `beta*C + alpha*op(A)*op(B)` |
| CsrOps.UncheckedProductComputes | nalgebra-sparse/src/ops/serial/csr.rs:92-117 | on every input the unchecked product succeeds, keeps C's pattern and gives each slot the value of `beta*C + alpha*op(A)*op(B)` at it; with a fitting pattern it gives what the checked product gives |
| CsrOps.ProductOfFit | nalgebra-sparse/src/ops/serial/csr.rs:92-94 | the restriction to C's pattern is well formed, and with a fitting pattern it reads back as the whole `beta*C + alpha*op(A)*op(B)` |
| CsrOps.MaterializedOperands | nalgebra-sparse/src/ops/serial/csr.rs:141-152 | the untagged operands passed to the single recursive call store and read exactly what the tagged operands do |
| CsrOps.FitsUntagged | nalgebra-sparse/src/ops/serial/csr.rs:84-87 | with both tags NoOp, the operands go to the kernel in the given order (a, b), and the fit is the kernel's fit |
| CsrOps.SumComputes | nalgebra-sparse/src/ops/serial/csr.rs:48-59 | `spadd_csr_prealloc` keeps A's tag; it fails exactly when C's pattern lacks a slot, and otherwise C reads as `beta*C + alpha*op(A)` |
| CsrOps.DenseProductTransposeTag | nalgebra-sparse/src/ops/serial/csr.rs:25-36 | `spmm_csr_dense_` with a Transpose tag on A computes what the untagged transpose of A gives |
| CsrOps.SpmmCsrPreallocChecked | nalgebra-sparse/src/ops/serial/csr.rs:70-90 | needs compatible dimensions; the return value and C's new value are those of the checked product; after an error C is still a well-formed matrix |
| CsrOps.SpmmCsrPreallocUnchecked | nalgebra-sparse/src/ops/serial/csr.rs:92-117 | needs compatible dimensions only; it always returns `Ok`, C keeps its offsets and indices and each slot takes the value of `beta*C + alpha*op(A)*op(B)` at it, so with a fitting pattern C reads as that product |
| CsrOps.SpaddCsrPrealloc | nalgebra-sparse/src/ops/serial/csr.rs:48-59 | needs compatible dimensions; the return value and C's new value are those of the sum; after an error C is still a well-formed matrix |
| CscOps.OpCs | nalgebra-sparse/src/ops/serial/csc.rs:50 | `map_same_op(\|a\| &a.cs)` keeps the tag and takes the storage |
| CscOps.OpCscView | nalgebra-sparse/src/ops/serial/csc.rs:32-33 | the dense `op(a)` with a read as CSC, of the tagged shape |
| CscOps.OpCscViewIsFlippedCsr | nalgebra-sparse/src/ops/serial/csc.rs:32-33 | `op(a)` read as CSC is the CSR reading with the opposite tag, so flipping the tag lets the CSR kernel serve CSC |
| CscOps.OpCscViewIsTransposedCsr | nalgebra-sparse/src/ops/serial/csc.rs:32-33 | `op(a)` read as CSC is the transpose of `op(a)` read as CSR |
| CscOps.MaterializedOperands | nalgebra-sparse/src/ops/serial/csc.rs:74-90 | the untagged operands of the single recursive call store and read exactly what the tagged operands do |
| CscOps.MaterializedOperand | nalgebra-sparse/src/ops/serial/csc.rs:79-87 | one materialised operand keeps the CSC shape, the stored entries and the dense reading of `op(a)` |
| CscOps.FitsSwapped | nalgebra-sparse/src/ops/serial/csc.rs:69-73 | with both tags NoOp, C's fit for A*B is the CSR kernel's fit for the swapped operands (b, a) |
| CscOps.SwappedKernelComputes | nalgebra-sparse/src/ops/serial/csc.rs:69-73 | the kernel called on (b, a) leaves C reading as CSC as `beta*C + alpha*A*B` |
| CscOps.Product | nalgebra-sparse/src/ops/serial/csc.rs:55-92 | two NoOp operands go to the checked kernel swapped, as (b, a); otherwise the Transpose operands are materialised and the product is taken once more with both tags NoOp; the only error is `InvalidPattern`, and on success C keeps its pattern |
| CscOps.Sum | nalgebra-sparse/src/ops/serial/csc.rs:41-51 | the sum kernel with A's tag kept; the only error is `InvalidPattern`, and on success C keeps its pattern |
| CscOps.ProductComputes | nalgebra-sparse/src/ops/serial/csc.rs:55-92 | `spmm_csc_prealloc` fails with `InvalidPattern` exactly when C's pattern cannot hold `op(A)*op(B)`; otherwise C keeps its pattern and reads as `beta*C + alpha*op(A)*op(B)` |
| CscOps.SumComputes | nalgebra-sparse/src/ops/serial/csc.rs:41-51 | `spadd_csc_prealloc` keeps A's tag; it fails exactly when C's pattern lacks a slot, and otherwise C reads as `beta*C + alpha*op(A)`, all read as CSC |
| CscOps.DenseProduct | nalgebra-sparse/src/ops/serial/csc.rs:23-35 | `spmm_csc_dense_` flips A's tag for the CSR kernel, and the result is `beta*C + alpha*op(A)*op(B)` with A read as CSC |
| CscOps.SpmmCscPrealloc | nalgebra-sparse/src/ops/serial/csc.rs:55-92 | needs compatible dimensions; the return value and C's new value are those of the product; after an error C is still a well-formed matrix |
| CscOps.SpaddCscPrealloc | nalgebra-sparse/src/ops/serial/csc.rs:41-51 | needs compatible dimensions; the return value and C's new value are those of the sum; after an error C is still a well-formed matrix |
| CscSolve.LowerTriangle | nalgebra-sparse/src/ops/serial/csc.rs:118-120 | the matrix the solve uses: L's entries on and below the diagonal, read as CSC, and zero above it |
| CscSolve.TriangleOfLowerIsView | nalgebra-sparse/src/ops/serial/csc.rs:118-120 | for a matrix that stores nothing above its diagonal, the triangle solved against is `op(L)` itself |
| CscSolve.TransposedTriangleIsUpper | nalgebra-sparse/src/ops/serial/csc.rs:207-208 | the transposed solve works on an upper-triangular matrix |
| CscSolve.SubtractLane | nalgebra-sparse/src/ops/serial/csc.rs:169-176 | subtracts `l_ik * x_kj` from the rows stored after the diagonal in column k, and leaves the other columns of B alone |
| CscSolve.SolveLowerColumn | nalgebra-sparse/src/ops/serial/csc.rs:151-185 | succeeds exactly when every diagonal entry is stored and nonzero; then the new column x satisfies `L x = b` for the old column b; other columns are unchanged |
| CscSolve.ForwardDone | nalgebra-sparse/src/ops/serial/csc.rs:151-185 | once the forward loop has passed every k, the column solves the lower-triangular system |
| CscSolve.LaneResidual | nalgebra-sparse/src/ops/serial/csc.rs:224-233 | `x_ii` minus the sum of `l_ki * x_kj` over the entries stored after the diagonal |
| CscSolve.SolveUpperColumn | nalgebra-sparse/src/ops/serial/csc.rs:210-242 | succeeds exactly when every diagonal entry is stored and nonzero; then the new column x satisfies `L^T x = b`; other columns are unchanged |
| CscSolve.BackwardDone | nalgebra-sparse/src/ops/serial/csc.rs:210-242 | once the backward loop has reached i = 0, the column solves the upper-triangular system |
| CscSolve.ColumnsToProduct | nalgebra-sparse/src/ops/serial/csc.rs:147-149 | solving every column of B solves the whole system, `T X = B` |
| CscSolve.SolveNoTranspose | nalgebra-sparse/src/ops/serial/csc.rs:140-194 | returns `Singular` with the zero-diagonal message exactly when B has a column and some diagonal entry is missing or zero, leaving every column after the first untouched; otherwise `L X = B_old` |
| CscSolve.SolveTranspose | nalgebra-sparse/src/ops/serial/csc.rs:196-246 | as the plain solve, with `L^T X = B_old` on success |
| CscSolve.SpsolveCscLowerTriangular | nalgebra-sparse/src/ops/serial/csc.rs:125-138 | needs L square and `L.nrows() == B.nrows()`; dispatches on the tag and gives `op(L) X = B_old`, or the `Singular` error |
| CholeskyPattern.EliminationTree | src/sparse/cs_matrix_cholesky.rs:154-178 | one parent per node; every parent is the sentinel or a larger node `i < forest[i] < n` |
| CholeskyPattern.UpIncreases | src/sparse/cs_matrix_cholesky.rs:154-178 | in such a forest, going up one or more steps reaches a strictly larger node |
| CholeskyPattern.Acyclic | src/sparse/cs_matrix_cholesky.rs:154-178 | so no walk up the tree returns to where it started |
| CholeskyPattern.ChainBounds | src/sparse/cs_matrix_cholesky.rs:197-201 | the walk from a node collects only nodes between it and `max_j`, and the node itself when it is at most `max_j` |
| CholeskyPattern.ReachSetBounds | src/sparse/cs_matrix_cholesky.rs:195-205 | the reach holds only nodes up to `max_j` and every stored row up to `max_j` |
| CholeskyPattern.WalkStep | src/sparse/cs_matrix_cholesky.rs:197-201 | marking `curr` and pushing it keeps marks in step with the collected nodes, with no node twice |
| CholeskyPattern.WalkEnd | src/sparse/cs_matrix_cholesky.rs:203-204 | when the walk stops, the nodes collected are the old ones plus the chain from `irow`, and they are closed under going up |
| CholeskyPattern.WalkUp | src/sparse/cs_matrix_cholesky.rs:196-204 | one row of `reach`: no node twice, only nodes up to `max_j`, marks match the collected nodes, and the collection is the old one plus the chain from `irow` |
| CholeskyPattern.Reach | src/sparse/cs_matrix_cholesky.rs:180-208 | keeps `out`'s existing contents; appends, each once, exactly the tree nodes up to `max_j` reachable from the rows of column j; marks are reset and end up telling which nodes were appended |
| CholeskyPattern.PatternTranspose | src/sparse/cs_matrix_cholesky.rs:240-241 | `u.transpose()` on the pattern: dimensions swapped |
| CholeskyPattern.TLaneFacts | src/sparse/cs_matrix_cholesky.rs:240-241 | lane c of the transposed pattern is ascending and holds exactly the lanes of u that store c |
| CholeskyPattern.PatternTransposeLanes | src/sparse/cs_matrix_cholesky.rs:240-241 | the transposed pattern is shaped and its lanes are those lists |
| CholeskyPattern.PatternTransposeStores | src/sparse/cs_matrix_cholesky.rs:240-241 | L stores (c, k) exactly when U stores (k, c); every lane of L is ascending and in bounds |
| CholeskyPattern.DiagonalFirst | src/sparse/cs_matrix_cholesky.rs:124 | for an upper pattern that stores (c, c), column c of L starts with row c, the slot read as the pivot |
| CholeskyPattern.BuiltStep | src/sparse/cs_matrix_cholesky.rs:221-224 | appending the reach of the next column keeps the columns built so far and non-decreasing column offsets |
| CholeskyPattern.BuiltPattern | src/sparse/cs_matrix_cholesky.rs:226-239 | the finished `cols`, `rows` and one value per row form U, whose column i is what `reach` appended for i |
| CholeskyPattern.NonzeroPattern | src/sparse/cs_matrix_cholesky.rs:210-244 | U is shaped and column i of U holds, once each, exactly the tree nodes up to i reachable from column i of m, so U is upper triangular; L is the transpose of U's pattern |
| Cholesky.LayoutOfTranspose | src/sparse/cs_matrix_cholesky.rs:240-241 | L's offsets and indices lay out the transposed pattern column by column |
| Cholesky.SymbolicOfPattern | src/sparse/cs_matrix_cholesky.rs:55-72 | the results of the symbolic phase meet everything the numeric phase relies on |
| Cholesky.FactorPatternLower | src/sparse/cs_matrix_cholesky.rs:219-241 | L is square, well formed with ascending rows, and stores nothing above its diagonal |
| Cholesky.FactorSolvable | src/sparse/cs_matrix_cholesky.rs:138-147 | a factor whose columns start with a positive diagonal is non-singular, so both triangular solves accept it |
| Cholesky.NextSlot | src/sparse/cs_matrix_cholesky.rs:132-135 | at step k, the cursor of column c points inside column c at the slot whose pattern row is k, and the cursor then moves on by one |
| Cholesky.FilledDiagonal | src/sparse/cs_matrix_cholesky.rs:124 | the pivot slot of an earlier column is already filled when row k reads it |
| Cholesky.RowStep | src/sparse/cs_matrix_cholesky.rs:119-122 | rows of lane k at or after k are skipped and leave the cursors alone; row `irow < k` finds its cursor at the next unfilled slot |
| Cholesky.ColumnCounted | src/sparse/cs_matrix_cholesky.rs:144-145 | the diagonal of column k goes to the first slot of column k, and the cursors are then ready for step k + 1 |
| Cholesky.AllCounted | src/sparse/cs_matrix_cholesky.rs:148-151 | after the last column every cursor stands at the end of its column, so every slot of L was written |
| Cholesky.DiagonalsFirst | src/sparse/cs_matrix_cholesky.rs:143-147 | every column of L holds row c in its first slot |
| Cholesky.OtherDiagonals | src/sparse/cs_matrix_cholesky.rs:134-135 | a write after the first slot of a column leaves every column's pivot alone |
| Cholesky.LastWrite | src/sparse/cs_matrix_cholesky.rs:106-113 | the value a run of slots leaves in row r: that of a slot holding r with no later slot holding r, or the old value when no slot holds r |
| Cholesky.ScatterColumn | src/sparse/cs_matrix_cholesky.rs:104-113 | clears row k, then each row r at most k ends with the value of the last slot of column k that stores r, or its old value if none does; rows below k are untouched |
| Cholesky.Subtracted | src/sparse/cs_matrix_cholesky.rs:127-129 | the amount a run of slots, scaled by `lki`, takes off row r; zero when no slot of the run stores r |
| Cholesky.SubtractColumn | src/sparse/cs_matrix_cholesky.rs:127-129 | every row r ends as `x[r]` minus the sum of `vals[p] * lki` over the slots p of the run that store r; rows the run does not store are unchanged |
| Cholesky.NotWrittenBefore | src/sparse/cs_matrix_cholesky.rs:132-135 | a slot outside those the cursors have filled before step k' (`Written`: among the first `|TLane(u, c, k')|` slots of some column c) was not filled before any earlier step either |
| Cholesky.BelowDiagonal | src/sparse/cs_matrix_cholesky.rs:127-128 | the slots after the pivot of column c store rows below c, so the subtraction never touches row c |
| Cholesky.EliminateRow | src/sparse/cs_matrix_cholesky.rs:124-135 | `lki = x[irow] / vals[p[irow]]` is written into slot `work_c[irow]` and nowhere else, that slot is in column `irow` and is filled by step k + 1, and the cursor moves on by one; `x[irow]` is cleared and every row r loses `Subtracted` of the filled part of column `irow`; diag loses `lki * lki`; the pattern rows are unchanged and earlier pivots stay positive |
| Cholesky.EliminateRows | src/sparse/cs_matrix_cholesky.rs:119-136 | the triangular solve of step k moves the cursor of each column `irow < k` of lane k by one, keeps the pattern, leaves earlier pivots and the columns from k on unchanged, and writes only slots filled by step k + 1 |
| Cholesky.FrameAfterRows | src/sparse/cs_matrix_cholesky.rs:102-136 | the steps up to k together write only slots filled by step k + 1 |
| Cholesky.DiagonalStep | src/sparse/cs_matrix_cholesky.rs:143-147 | the pivot goes to the first slot of column k, which holds row k; afterwards the cursors, the positive pivots and the frame are as step k + 1 expects |
| Cholesky.NumericPhase | src/sparse/cs_matrix_cholesky.rs:98-151 | on success every column starts with its positive diagonal and every cursor ends at its column's end; on failure there is a column k such that every column before k has its positive diagonal in its first slot, no slot of column k or a later column was written, and no slot outside those filled by step k + 1 was written |
| Cholesky.CsCholesky.NewSymbolic | src/sparse/cs_matrix_cholesky.rs:49-73 | needs a square matrix; `original_p` is m's offsets plus `i.len()`, `original_len == i.len()`, `ok == false`, the tree is a forest and U and L are the nonzero pattern |
| Cholesky.CsCholesky.New | src/sparse/cs_matrix_cholesky.rs:41-45 | the symbolic phase followed by `decompose` with m's own values; a factor, when there is one, has positive diagonals first |
| Cholesky.CsCholesky.L | src/sparse/cs_matrix_cholesky.rs:75-89 | `Some(l)` exactly when `ok`; the factor then is a non-singular lower-triangular CSC matrix |
| Cholesky.CsCholesky.Decompose | src/sparse/cs_matrix_cholesky.rs:92-152 | needs `values.len() >= original_len`; keeps the symbolic data and L's pattern; returns `ok`; on success L's columns start with a positive diagonal and every slot is written; on failure there is a column k whose predecessors keep positive pivots in their first slots while no slot of k or a later column, and no slot outside those filled by step k + 1, is written |
| DVector.FromElem | src/dvec.rs:93-95 | dimension d with every component e |
| DVector.FromFn | src/dvec.rs:101-103 | dimension d with component i equal to f(i) |
| DVector.FromElemIsFromFn | src/dvec.rs:93-103 | `from_elem(d, e)` is `from_fn(d, \|_\| e)` |
| DVector.IsZero | src/dvec.rs:46-48 | true exactly when every component is zero, that is, exactly when the vector is `from_elem` of zero at its dimension |
| DVector.NewZeros | src/dvec.rs:40-42 | dimension d and `is_zero` holds |
| DVector.ZeroIsNewZeros | src/dvec.rs:46-48 | a vector for which `is_zero` holds is `new_zeros` of its dimension |
| DVector.NewOnes | src/dvec.rs:64-66 | dimension d with every component one |
| DVector.Add | src/dvec.rs:194-202 | needs equal dimensions; `r[i] == a[i] + b[i]` |
| DVector.Sub | src/dvec.rs:204-212 | needs equal dimensions; `r[i] == a[i] - b[i]` |
| DVector.Neg | src/dvec.rs:214-219 | `r[i] == -a[i]` |
| DVector.SubIsAddNeg | src/dvec.rs:204-219 | `a - b == a + (-b)` |
| DVector.SubThenAdd | src/dvec.rs:194-212 | `(a - b) + b == a` |
| DVector.ScalarMul | src/dvec.rs:334-343 | every component times the scalar |
| DVector.ScalarAdd | src/dvec.rs:356-365 | every component plus the scalar |
| DVector.ScalarSub | src/dvec.rs:367-376 | every component minus the scalar |
| DVector.ScalarSubUndoesAdd | src/dvec.rs:356-376 | subtracting a scalar undoes adding it |
| DVector.Dot | src/dvec.rs:221-233 | needs equal dimensions; the accumulating loop returns the sum of `a[i]*b[i]` |
| DVector.SubDot | src/dvec.rs:236-244 | needs `a` and `b` at least as long as self; returns the sum of `(self[i] - a[i])*b[i]` over self's dimension |
| DVector.SubDotIsDotOfSub | src/dvec.rs:236-244 | for equal dimensions, `sub_dot(a, b) == (self - a).dot(b)` |
| DVector.DotCommutes | src/dvec.rs:221-233 | `a.dot(b) == b.dot(a)` |
| DVector.DotScales | src/dvec.rs:221-233 | `(a * s).dot(b) == s * a.dot(b)` |
| DVector.DotAdds | src/dvec.rs:221-233 | `(a + a').dot(b) == a.dot(b) + a'.dot(b)` |
| DVector.DotSelfNonNegative | src/dvec.rs:276-278 | a vector's dot product with itself is never negative |
| DVector.SqNorm | src/dvec.rs:276-278 | `sqnorm` is `self.dot(self)` and is never negative |
| DVector.CanonicalBasisWithDim | src/dvec.rs:144-156 | d vectors of dimension d; vector i is one at index i and zero elsewhere |
| DVector.CanonicalBasisOrthonormal | src/dvec.rs:141-143 | the basis vectors are mutually orthogonal and each has dot product one with itself |
| DVector.FromIterator | src/dvec.rs:127-138 | the components are the yielded elements, in order and in number |
| DVector.Translation | src/dvec.rs:249-251 | the translation of a vector is a copy of it |
| DVector.InvTranslation | src/dvec.rs:254-256 | the inverse translation is the negation, component by component |
| DVector.Translated | src/dvec.rs:264-266 | `translated(t)` is `self + t`, component by component |
| DVector.TranslateBy | src/dvec.rs:259-261 | `translate_by(t)` leaves the vector equal to `translated(t)` |
| DVector.SetTranslation | src/dvec.rs:269-271 | after `set_translation(t)` the translation is t |
| DVector.TranslationRoundTrip | src/dvec.rs:247-272 | translating by t and then by `t.inv_translation()` gives the vector back |
| DVector.InverseOfTranslation | src/dvec.rs:247-272 | a translation followed by its inverse gives the zero vector |

## Left out

- The shared kernels of `ops/serial/cs.rs` and the `CsMatrix`, `CscMatrix`, `CsrMatrix` and `Op` definitions are not part of this model. The kernels are functions that compute the stated result, and `InvalidPattern` carries a message chosen here, because the kernel lives in `ops/serial/cs.rs`, outside the modelled files. `transpose()` is modelled by its result, not by its algorithm. `Compressed.WellFormed` adopts nalgebra-sparse's pattern invariant as an assumption about every input: the minor indices are in bounds and strictly ascending in each lane. The solves rely on it, since they take the entries after the diagonal position to be the ones below the diagonal (nalgebra-sparse/src/ops/serial/csc.rs:172), and `CscSolve.LowerTriangle` agrees with them only because of it.
- Assertions and index panics are preconditions, because a failing one panics instead of returning. They are:
  - the dimension assertions of the sparse operations (`assert_compatible_spmm_dims!`, `assert_compatible_spadd_dims!`, `assert_eq!` in the solve);
  - Cholesky's squareness assertion (src/sparse/cs_matrix_cholesky.rs:50-53), now `SquarePattern(m)` on `NewSymbolic`;
  - Cholesky's value-count assertion (src/sparse/cs_matrix_cholesky.rs:93-96), now `|values| >= originalLen` on `Decompose`;
  - the equal-length assertions of DVec addition, subtraction and `dot` (src/dvec.rs:197, 207, 224);
  - the out-of-bounds panic of `sub_dot` when `a` or `b` is shorter than self (src/dvec.rs:240), now `Len(a) >= Len(self) && Len(b) >= Len(self)`.
- Cholesky's `diag.sqrt()` is a function parameter `sqrt`. The model uses only that it is positive on positive arguments, because no square root over `real` is available.
- Cholesky.CsCholesky.Decompose: the model does not state `L * L^T == A` for the values. It states the value and the slot of each single write (`Cholesky.EliminateRow`), that each step writes only the slots its cursors fill, and that the diagonals are positive. It does not give the final value of each slot as a function of A. Floating-point rounding makes the exact identity false in the source anyway.
- Cholesky.CsCholesky.Decompose: on failure the model states that there is a column k whose predecessors have positive pivots in their first slots and from which on no slot of L was written, and that no slot outside those the cursors had filled by the end of step k was written. It does not state that the pivot of column k came out non-positive, because that value is the one the model does not relate to A. So the contract never forces success: a body that failed at column 0 on every non-empty matrix would meet it too.
- Cholesky.NumericPhase: the same gap. Its failure clause does not say that the pivot of the failing column is non-positive, so no input is ever promised a factor.
- Compressed.SpmmCsPreallocUnchecked: the kernel of `ops/serial/cs.rs` is not part of this model. For a pattern that does not hold the product, the model gives every slot of C the value of `beta*C + alpha*A*B` there and drops the product entries that have no slot. The model does not fix what the real kernel writes there.
- `column_counts`, `tree_postorder` and `dfs` (src/sparse/cs_matrix_cholesky.rs:246-329) are commented out, so they are not modelled.
- The uninitialised workspaces of `new_symbolic` and `nonzero_pattern` (`new_uninitialized_generic`, `set_len`) are modelled as zero-filled sequences, because their contents are never read before being written.
- `unwrap_l` is covered by `Cholesky.CsCholesky.L`, which returns the same value. Moving `self` out is not modelled.
- `elimination_tree`'s `ancestor` array has no contract of its own. The model proves only that the result is a forest with larger parents. It does not prove that the forest is the elimination tree of the matrix.
- The elimination tree is a ghost field of `CsCholesky`, because the source drops it after the symbolic phase.
- The COO accessors (`nrows`, `ncols`, `row_indices`, `col_indices`, `values`) are field reads. `disassemble` is `Coo.CooMatrix.Disassemble`, which has no contract of its own; `Coo.TryFromTriplets` states what it returns.
- The CSR and CSC operations change C in place through the kernel. The model states C's new value as a whole, not the order of the writes. The dense products (`spmm_csr_dense_`, `spmm_csc_dense_`) are functions returning the new dense C.
- DVector: the vector is a value. `translate_by` and `set_translation` take `&mut self`, and the model returns the new value.
- DVector: the integer instances of the scalar operations wrap or panic on overflow, and the model uses `real`. Scalar division (`scalar_div_impl`) is not modelled, because its meaning differs per scalar type and it fails on zero.
- DVector: `new_random` (randomness), `at_fast` and `new_uninitialized` (unsafe access), `norm`, `normalized`, `normalize` and `orthogonal_subspace_basis` (square roots) and `approx_eq*`/`approx_epsilon` (floating-point tolerance) are not modelled. `len`, `iter` and `mut_iter` are sequence length and iteration.
