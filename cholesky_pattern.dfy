/**
 * The symbolic phase of the sparse Cholesky factorisation: the elimination
 * tree of a square matrix stored by columns, the set of tree nodes reachable
 * from the stored rows of a column, and from these the nonzero pattern of the
 * factor.  Only the pattern of the matrix is read, never its values.
 */
module CholeskyPattern {
  import opened Compressed
  import Flatten

  /** usize::MAX, which marks a node without a parent. */
  const UsizeMax: nat := 0xFFFF_FFFF_FFFF_FFFF

  /** A square matrix stored by columns: lane k holds the row indices of column k, all of them
      below the dimension.  The lanes need not be sorted. */
  predicate SquarePattern(m: CsMatrix)
  {
    && Shaped(m)
    && m.nmajor == m.nminor
    && m.nmajor < UsizeMax
    && (forall p :: 0 <= p < |m.indices| ==> m.indices[p] < m.nminor)
  }

  /** Every node's parent is the sentinel or a node with a larger index. */
  predicate IsForest(tree: seq<nat>)
  {
    && |tree| < UsizeMax
    && (forall c :: 0 <= c < |tree| ==> tree[c] == UsizeMax || c < tree[c] < |tree|)
  }

  // ---------------------------------------------------------------------------
  // Elimination tree.

  /** The elimination tree of m as a parent array: forest[i] is the parent of node i, or the
      sentinel for a root. */
  method EliminationTree(m: CsMatrix) returns (forest: seq<nat>)
    requires SquarePattern(m)
    ensures |forest| == m.nmajor
    ensures IsForest(forest)
  {
    var n := m.nmajor;
    forest := seq(n, _ => UsizeMax);
    var ancestor: seq<nat> := seq(n, _ => UsizeMax);
    var k: nat := 0;
    while k < n
      invariant k <= n && |forest| == n && |ancestor| == n
      invariant IsForest(forest) && IsForest(ancestor)
      invariant forall c :: 0 <= c < n && ancestor[c] != UsizeMax ==> ancestor[c] < k
    {
      var p := m.offsets[k];
      assert m.offsets[k] <= m.offsets[k + 1];
      while p < m.offsets[k + 1]
        invariant p <= m.offsets[k + 1]
        invariant |forest| == n && |ancestor| == n
        invariant IsForest(forest) && IsForest(ancestor)
        invariant forall c :: 0 <= c < n && ancestor[c] != UsizeMax ==> ancestor[c] <= k
      {
        var i := m.indices[p];
        while i < k
          invariant i < n && |forest| == n && |ancestor| == n
          invariant IsForest(forest) && IsForest(ancestor)
          invariant forall c :: 0 <= c < n && ancestor[c] != UsizeMax ==> ancestor[c] <= k
          decreases n - i
        {
          var iAncestor := ancestor[i];
          ancestor := ancestor[i := k];
          if iAncestor == UsizeMax {
            forest := forest[i := k];
            break;
          }
          i := iAncestor;
        }
        p := p + 1;
      }
      k := k + 1;
    }
  }

  /** The node s steps above c (a root's parent is the sentinel, which stays put). */
  function Up(tree: seq<nat>, c: nat, s: nat): nat
    decreases s
  {
    if s == 0 || c >= |tree| then c else Up(tree, tree[c], s - 1)
  }

  /** Going up the tree always reaches a larger node. */
  lemma {:induction false} UpIncreases(tree: seq<nat>, c: nat, s: nat)
    requires IsForest(tree) && c < |tree| && s > 0
    ensures Up(tree, c, s) > c
    decreases s
  {
    if s > 1 && tree[c] < |tree| {
      UpIncreases(tree, tree[c], s - 1);
    }
  }

  /** A parent array with larger parents has no cycle. */
  lemma Acyclic(tree: seq<nat>, c: nat, s: nat)
    requires IsForest(tree) && c < |tree| && s > 0
    ensures Up(tree, c, s) != c
  {
    UpIncreases(tree, c, s);
  }

  // ---------------------------------------------------------------------------
  // Reach.

  /** The nodes from c up the tree, stopping before the first node above maxJ. */
  ghost function Chain(tree: seq<nat>, c: nat, maxJ: nat): set<nat>
    requires IsForest(tree)
    decreases if c < |tree| then |tree| - c else 0
  {
    if c >= |tree| || c > maxJ then {} else {c} + Chain(tree, tree[c], maxJ)
  }

  /** The union of the chains that start at the given rows. */
  ghost function ReachSet(tree: seq<nat>, rows: seq<nat>, maxJ: nat): set<nat>
    requires IsForest(tree)
  {
    if |rows| == 0 then {} else ReachSet(tree, rows[..|rows| - 1], maxJ) + Chain(tree, rows[|rows| - 1], maxJ)
  }

  lemma {:induction false} ChainBounds(tree: seq<nat>, c: nat, maxJ: nat)
    requires IsForest(tree)
    ensures forall x :: x in Chain(tree, c, maxJ) ==> x < |tree| && c <= x <= maxJ
    ensures c < |tree| && c <= maxJ ==> c in Chain(tree, c, maxJ)
    decreases if c < |tree| then |tree| - c else 0
  {
    if c < |tree| && c <= maxJ {
      ChainBounds(tree, tree[c], maxJ);
    }
  }

  /** Every stored row up to maxJ is reached, and only nodes up to maxJ are. */
  lemma {:induction false} ReachSetBounds(tree: seq<nat>, rows: seq<nat>, maxJ: nat)
    requires IsForest(tree)
    ensures forall x :: x in ReachSet(tree, rows, maxJ) ==> x < |tree| && x <= maxJ
    ensures forall q :: 0 <= q < |rows| && rows[q] < |tree| && rows[q] <= maxJ ==> rows[q] in ReachSet(tree, rows, maxJ)
  {
    if |rows| > 0 {
      var init := rows[..|rows| - 1];
      ReachSetBounds(tree, init, maxJ);
      ChainBounds(tree, rows[|rows| - 1], maxJ);
      forall q | 0 <= q < |rows| - 1
        ensures rows[q] == init[q]
      {
      }
    }
  }

  /** A set of nodes that contains the parent of each of its members up to maxJ. */
  ghost predicate Closed(tree: seq<nat>, s: set<nat>, maxJ: nat)
    requires IsForest(tree)
  {
    forall c :: c in s && c < |tree| && tree[c] < |tree| && tree[c] <= maxJ ==> tree[c] in s
  }

  /** A closed set holds the whole chain of each of its members. */
  lemma {:induction false} ChainInClosed(tree: seq<nat>, s: set<nat>, c: nat, maxJ: nat)
    requires IsForest(tree) && Closed(tree, s, maxJ) && (c in s || c >= |tree| || c > maxJ)
    ensures Chain(tree, c, maxJ) <= s
    decreases if c < |tree| then |tree| - c else 0
  {
    if c < |tree| && c <= maxJ {
      ChainInClosed(tree, s, tree[c], maxJ);
    }
  }

  predicate NoDuplicates(s: seq<nat>)
  {
    forall a, b :: 0 <= a < b < |s| ==> s[a] != s[b]
  }

  lemma NoDuplicatesInsert(a: seq<nat>, x: nat, b: seq<nat>)
    requires NoDuplicates(a + b) && x !in a + b
    ensures NoDuplicates(a + [x] + b)
  {
    var s, t := a + b, a + [x] + b;
    forall p, q | 0 <= p < q < |t|
      ensures t[p] != t[q]
    {
      var p' := if p < |a| then p else if p == |a| then -1 else p - 1;
      var q' := if q < |a| then q else if q == |a| then -1 else q - 1;
      if p == |a| {
        assert t[q] == s[q'];
      } else if q == |a| {
        assert t[p] == s[p'];
      } else {
        assert t[p] == s[p'] && t[q] == s[q'];
      }
    }
  }

  /** The marks say which nodes have been collected. */
  predicate MarksMatch(marks: seq<bool>, collected: seq<nat>)
  {
    forall c :: 0 <= c < |marks| ==> (marks[c] <==> c in collected)
  }

  /** The path tmp walked so far from irow, ending just before curr. */
  ghost predicate Walked(tree: seq<nat>, irow: nat, tmp: seq<nat>, curr: nat)
    requires IsForest(tree)
  {
    && (|tmp| == 0 ==> curr == irow)
    && (|tmp| > 0 ==> tmp[0] == irow && tmp[|tmp| - 1] < |tree| && tree[tmp[|tmp| - 1]] == curr)
    && (forall t :: 0 <= t < |tmp| - 1 ==> tmp[t] < |tree| && tree[tmp[t]] == tmp[t + 1])
    && (forall x :: x in tmp ==> x < curr)
  }

  /** The state of the walk up from irow: tmp is the path walked so far, curr the next node,
      and the marks cover the nodes collected before (res) and on the path. */
  ghost predicate WalkInv(tree: seq<nat>, maxJ: nat, irow: nat, res: seq<nat>, m: seq<bool>, tmp: seq<nat>, curr: nat)
    requires IsForest(tree)
  {
    && (curr == UsizeMax || curr < |tree|)
    && |m| == |tree| && MarksMatch(m, tmp + res)
    && Walked(tree, irow, tmp, curr)
    && NoDuplicates(tmp + res)
    && (forall x :: x in tmp ==> x <= maxJ)
    && (forall x :: x in tmp || x in Chain(tree, curr, maxJ) <==> x in Chain(tree, irow, maxJ))
  }

  /** Marking curr and moving to its parent keeps the walk's state. */
  lemma WalkStep(tree: seq<nat>, maxJ: nat, irow: nat, res: seq<nat>, m: seq<bool>, tmp: seq<nat>, curr: nat)
    requires IsForest(tree) && WalkInv(tree, maxJ, irow, res, m, tmp, curr)
    requires curr < |tree| && curr <= maxJ && !m[curr]
    ensures WalkInv(tree, maxJ, irow, res, m[curr := true], tmp + [curr], tree[curr])
  {
    assert curr !in tmp + res;
    NoDuplicatesInsert(tmp, curr, res);
    assert tmp + [curr] + res == (tmp + [curr]) + res;
    var tmp' := tmp + [curr];
    forall t | 0 <= t < |tmp'| - 1
      ensures tmp'[t] < |tree| && tree[tmp'[t]] == tmp'[t + 1]
    {
    }
  }

  /** When the walk stops, the nodes collected are the old ones and the chain from irow, and
      they form a closed set. */
  lemma WalkEnd(tree: seq<nat>, maxJ: nat, irow: nat, res: seq<nat>, m: seq<bool>, tmp: seq<nat>, curr: nat)
    requires IsForest(tree) && Closed(tree, (set x | x in res), maxJ)
    requires WalkInv(tree, maxJ, irow, res, m, tmp, curr)
    requires !(curr != UsizeMax && curr <= maxJ && !m[curr])
    ensures Closed(tree, (set x | x in tmp + res), maxJ)
    ensures forall x :: x in tmp + res <==> x in res || x in Chain(tree, irow, maxJ)
  {
    var s := set x | x in res;
    assert curr < |tree| && curr <= maxJ ==> curr in res by {
      if curr < |tree| && curr <= maxJ {
        assert curr in tmp + res;
      }
    }
    ChainInClosed(tree, s, curr, maxJ);
    var all := tmp + res;
    forall c | c in all && c < |tree| && tree[c] < |tree| && tree[c] <= maxJ
      ensures tree[c] in all
    {
      if c in tmp {
        var t :| 0 <= t < |tmp| && tmp[t] == c;
        if t < |tmp| - 1 {
          assert tmp[t + 1] in all;
        }
      }
    }
  }

  /** Walks up the tree from irow, collecting unmarked nodes up to maxJ, and puts the walked path
      in front of res: the body of the loop of reach over the rows of a column. */
  method WalkUp(tree: seq<nat>, maxJ: nat, irow: nat, marks: seq<bool>, res: seq<nat>)
    returns (marks': seq<bool>, res': seq<nat>)
    requires IsForest(tree) && irow < |tree| && |marks| == |tree|
    requires MarksMatch(marks, res) && NoDuplicates(res) && Closed(tree, (set x | x in res), maxJ)
    requires forall x :: x in res ==> x <= maxJ
    ensures |marks'| == |tree| && MarksMatch(marks', res') && NoDuplicates(res') && Closed(tree, (set x | x in res'), maxJ)
    ensures forall x :: x in res' ==> x <= maxJ
    ensures forall x :: x in res' <==> x in res || x in Chain(tree, irow, maxJ)
  {
    var m := marks;
    var tmp: seq<nat> := [];
    var curr := irow;
    while curr != UsizeMax && curr <= maxJ && !m[curr]
      invariant WalkInv(tree, maxJ, irow, res, m, tmp, curr)
      decreases if curr < |tree| then |tree| - curr else 0
    {
      WalkStep(tree, maxJ, irow, res, m, tmp, curr);
      m := m[curr := true];
      tmp := tmp + [curr];
      curr := tree[curr];
    }
    WalkEnd(tree, maxJ, irow, res, m, tmp, curr);
    res' := tmp + res;
    marks' := m;
  }

  /** The tree nodes up to maxJ reachable from the rows stored in column j, appended to out;
      marks ends up telling which nodes were collected. */
  method Reach(m: CsMatrix, j: nat, maxJ: nat, tree: seq<nat>, marks: seq<bool>, out: seq<nat>)
    returns (marks': seq<bool>, out': seq<nat>)
    requires SquarePattern(m) && j < m.nmajor && IsForest(tree) && |tree| == m.nmajor
    ensures |out'| >= |out| && out'[..|out|] == out
    ensures NoDuplicates(out'[|out|..])
    ensures forall x :: x in out'[|out|..] ==> x <= maxJ
    ensures forall x :: x in out'[|out|..] <==> x in ReachSet(tree, LaneIndices(m, j), maxJ)
    ensures |marks'| == |tree| && MarksMatch(marks', out'[|out|..])
  {
    var mk := seq(|tree|, c => false);
    var res: seq<nat> := [];
    var rows := LaneIndices(m, j);
    var q := 0;
    while q < |rows|
      invariant q <= |rows|
      invariant |mk| == |tree| && MarksMatch(mk, res) && NoDuplicates(res)
      invariant Closed(tree, (set x | x in res), maxJ)
      invariant forall x :: x in res ==> x <= maxJ
      invariant forall x :: x in res <==> x in ReachSet(tree, rows[..q], maxJ)
    {
      assert rows[q] in m.indices;
      assert rows[..q + 1][..q] == rows[..q];
      mk, res := WalkUp(tree, maxJ, rows[q], mk, res);
      q := q + 1;
    }
    assert rows[..q] == rows;
    marks' := mk;
    out' := out + res;
    assert out'[|out|..] == res;
  }

  // ---------------------------------------------------------------------------
  // Transposed pattern.

  /** The columns k' < k whose pattern holds row c, in ascending order: row c of the factor's
      transpose, i.e. column c of the factor. */
  function TLane(u: CsMatrix, c: nat, k: nat): (r: seq<nat>)
    requires Shaped(u) && k <= u.nmajor
  {
    if k == 0 then [] else TLane(u, c, k - 1) + (if c in LaneIndices(u, k - 1) then [k - 1] else [])
  }

  function TLanes(u: CsMatrix): seq<seq<nat>>
    requires Shaped(u)
  {
    seq(u.nminor, c requires 0 <= c < u.nminor => TLane(u, c, u.nmajor))
  }

  /** The transposed pattern: lane c lists, in ascending order, the lanes of u that hold c.
      The values are not set by the symbolic phase; they start at zero here. */
  function PatternTranspose(u: CsMatrix): (t: CsMatrix)
    requires Shaped(u)
    ensures t.nmajor == u.nminor && t.nminor == u.nmajor
  {
    var lanes := TLanes(u);
    CsMatrix(u.nminor, u.nmajor, Flatten.Offsets(lanes), Flatten.Concat(lanes),
             seq(|Flatten.Concat(lanes)|, p => 0.0))
  }

  lemma {:induction false} TLaneFacts(u: CsMatrix, c: nat, k: nat)
    requires Shaped(u) && k <= u.nmajor
    ensures Increasing(TLane(u, c, k))
    ensures forall t :: 0 <= t < |TLane(u, c, k)| ==> TLane(u, c, k)[t] < k
    ensures forall x: nat :: x in TLane(u, c, k) <==> x < k && c in LaneIndices(u, x)
  {
    if k > 0 {
      TLaneFacts(u, c, k - 1);
    }
  }

  /** The lanes up to k are a prefix of the lanes up to k' >= k. */
  lemma {:induction false} TLanePrefix(u: CsMatrix, c: nat, k: nat, k': nat)
    requires Shaped(u) && k <= k' <= u.nmajor
    ensures |TLane(u, c, k)| <= |TLane(u, c, k')|
    ensures TLane(u, c, k')[..|TLane(u, c, k)|] == TLane(u, c, k)
    decreases k'
  {
    if k' > k {
      TLanePrefix(u, c, k, k' - 1);
      var s := TLane(u, c, k' - 1);
      assert TLane(u, c, k')[..|s|] == s;
    }
  }

  /** The transposed pattern is shaped, and lane c of it is TLane(u, c, u.nmajor). */
  lemma PatternTransposeLanes(u: CsMatrix)
    requires Shaped(u)
    ensures Shaped(PatternTranspose(u))
    ensures forall c :: 0 <= c < u.nminor ==> LaneIndices(PatternTranspose(u), c) == TLane(u, c, u.nmajor)
  {
    var lanes := TLanes(u);
    var t := PatternTranspose(u);
    forall k, k' | 0 <= k <= k' <= t.nmajor
      ensures t.offsets[k] <= t.offsets[k']
    {
      Flatten.OffsetsMonotone(lanes, k, k');
    }
    assert Shaped(t);
    forall c | 0 <= c < u.nminor
      ensures LaneIndices(t, c) == TLane(u, c, u.nmajor)
    {
      Flatten.LaneSlice(lanes, c);
    }
  }

  /** The transposed pattern stores (c, k) exactly when u stores (k, c), every lane of it is
      ascending, and its row indices are in bounds. */
  lemma PatternTransposeStores(u: CsMatrix, c: nat, k: nat)
    requires Shaped(u) && c < u.nminor && k < u.nmajor
    ensures Shaped(PatternTranspose(u))
    ensures k in LaneIndices(PatternTranspose(u), c) <==> c in LaneIndices(u, k)
    ensures Increasing(LaneIndices(PatternTranspose(u), c))
    ensures forall x :: x in LaneIndices(PatternTranspose(u), c) ==> x < u.nmajor
  {
    PatternTransposeLanes(u);
    TLaneFacts(u, c, u.nmajor);
  }

  /** For an upper pattern that holds diagonal entry c, lane c of the transposed pattern
      starts with c itself. */
  lemma DiagonalFirst(u: CsMatrix, c: nat)
    requires Shaped(u) && c < u.nmajor
    requires forall k, x :: 0 <= k < u.nmajor && x in LaneIndices(u, k) ==> x <= k
    requires c in LaneIndices(u, c)
    ensures |TLane(u, c, u.nmajor)| > 0 && TLane(u, c, u.nmajor)[0] == c
  {
    var lane := TLane(u, c, u.nmajor);
    TLaneFacts(u, c, u.nmajor);
    assert c in lane;
    var t :| 0 <= t < |lane| && lane[t] == c;
    assert lane[0] <= lane[t];
    assert c in LaneIndices(u, lane[0]);
  }

  // ---------------------------------------------------------------------------
  // Nonzero pattern.

  /** Column a of the pattern built so far: from cols[a] to the next column's start, or to the
      end of rows for the last column. */
  function Column(rows: seq<nat>, cols: seq<nat>, a: nat): seq<nat>
    requires a < |cols| && forall b, b' :: 0 <= b <= b' < |cols| ==> cols[b] <= cols[b'] <= |rows|
  {
    rows[cols[a]..if a + 1 < |cols| then cols[a + 1] else |rows|]
  }

  /** Column a of U holds, without repetition, the nodes up to a reachable from column a of m. */
  ghost predicate ColumnOk(m: CsMatrix, tree: seq<nat>, a: nat, lane: seq<nat>)
    requires SquarePattern(m) && IsForest(tree) && a < m.nmajor
  {
    && NoDuplicates(lane)
    && (forall x :: x in lane ==> x <= a)
    && (forall x :: x in lane <==> x in ReachSet(tree, LaneIndices(m, a), a))
  }

  /** rows and cols hold the first |cols| columns of U, column a starting at cols[a]. */
  ghost predicate Built(m: CsMatrix, tree: seq<nat>, rows: seq<nat>, cols: seq<nat>)
    requires SquarePattern(m) && IsForest(tree) && |cols| <= m.nmajor
  {
    && (forall a, b :: 0 <= a <= b < |cols| ==> cols[a] <= cols[b] <= |rows|)
    && (if |cols| > 0 then cols[0] == 0 else rows == [])
    && (forall a :: 0 <= a < |cols| ==> ColumnOk(m, tree, a, Column(rows, cols, a)))
  }

  /** Appending the reach of the next column keeps the columns built so far. */
  lemma BuiltStep(m: CsMatrix, tree: seq<nat>, rows: seq<nat>, cols: seq<nat>, rows': seq<nat>)
    requires SquarePattern(m) && IsForest(tree) && |cols| < m.nmajor
    requires Built(m, tree, rows, cols)
    requires |rows'| >= |rows| && rows'[..|rows|] == rows
    requires ColumnOk(m, tree, |cols|, rows'[|rows|..])
    ensures Built(m, tree, rows', cols + [|rows|])
  {
    var cols' := cols + [|rows|];
    forall a | 0 <= a < |cols|
      ensures ColumnOk(m, tree, a, Column(rows', cols', a))
    {
      var lo, hi := cols[a], if a + 1 < |cols| then cols[a + 1] else |rows|;
      assert rows'[..|rows|][lo..hi] == rows'[lo..hi];
      assert Column(rows', cols', a) == Column(rows, cols, a);
    }
    assert Column(rows', cols', |cols|) == rows'[|rows|..];
  }

  /** All n columns built give the pattern U. */
  lemma BuiltPattern(m: CsMatrix, tree: seq<nat>, rows: seq<nat>, cols: seq<nat>, u: CsMatrix)
    requires SquarePattern(m) && IsForest(tree) && |cols| == m.nmajor
    requires Built(m, tree, rows, cols)
    requires u == CsMatrix(m.nmajor, m.nmajor, cols + [|rows|], rows, seq(|rows|, p => 0.0))
    ensures Shaped(u)
    ensures forall i :: 0 <= i < u.nmajor ==> LaneIndices(u, i) == Column(rows, cols, i)
  {
    forall i | 0 <= i < u.nmajor
      ensures LaneIndices(u, i) == Column(rows, cols, i)
    {
    }
  }

  /** The pattern of the factor's transpose U, column i holding the nodes reachable from the
      rows stored in column i of m, and the pattern of the factor L = U^T. */
  method NonzeroPattern(m: CsMatrix) returns (l: CsMatrix, u: CsMatrix, ghost tree: seq<nat>)
    requires SquarePattern(m)
    ensures IsForest(tree) && |tree| == m.nmajor
    ensures Shaped(u) && u.nmajor == m.nmajor && u.nminor == m.nminor
    ensures forall i :: 0 <= i < u.nmajor ==> ColumnOk(m, tree, i, LaneIndices(u, i))
    ensures l == PatternTranspose(u)
  {
    var n := m.nmajor;
    var etree := EliminationTree(m);
    tree := etree;
    var rows: seq<nat> := [];
    var cols: seq<nat> := [];
    var marks: seq<bool> := [];
    var i := 0;
    while i < n
      invariant i <= n && |cols| == i
      invariant Built(m, etree, rows, cols)
    {
      var rows';
      marks, rows' := Reach(m, i, i, etree, marks, rows);
      BuiltStep(m, etree, rows, cols, rows');
      cols := cols + [|rows|];
      rows := rows';
      i := i + 1;
    }
    u := CsMatrix(n, n, cols + [|rows|], rows, seq(|rows|, p => 0.0));
    BuiltPattern(m, etree, rows, cols, u);
    l := PatternTranspose(u);
  }
}
