/**
 * Dense matrices as sequences of rows, with the textbook definitions of
 * transpose, product and the scaled sum beta * C + alpha * D.  These are the
 * reference definitions the sparse operations are proved against.
 */
module Dense {

  type Matrix = seq<seq<real>>

  /** m has r rows of c entries each. */
  predicate IsMatrix(m: Matrix, r: nat, c: nat)
  {
    |m| == r && forall i :: 0 <= i < r ==> |m[i]| == c
  }

  function Zeros(r: nat, c: nat): (z: Matrix)
    ensures IsMatrix(z, r, c)
    ensures forall i, j :: 0 <= i < r && 0 <= j < c ==> z[i][j] == 0.0
  {
    seq(r, i => seq(c, j => 0.0))
  }

  function Transpose(m: Matrix, r: nat, c: nat): (t: Matrix)
    requires IsMatrix(m, r, c)
    ensures IsMatrix(t, c, r)
    ensures forall i, j :: 0 <= i < c && 0 <= j < r ==> t[i][j] == m[j][i]
  {
    seq(c, i requires 0 <= i < c => seq(r, j requires 0 <= j < r => m[j][i]))
  }

  /** Sum of a[i][k] * b[k][j] over k < n. */
  function MulAt(a: Matrix, b: Matrix, i: nat, j: nat, n: nat): real
    requires i < |a| && |a[i]| >= n && |b| >= n
    requires forall k :: 0 <= k < n ==> j < |b[k]|
  {
    if n == 0 then 0.0 else MulAt(a, b, i, j, n - 1) + a[i][n - 1] * b[n - 1][j]
  }

  /** The r-by-c product of an r-by-n and an n-by-c matrix. */
  function Mul(a: Matrix, b: Matrix, r: nat, n: nat, c: nat): (p: Matrix)
    requires IsMatrix(a, r, n) && IsMatrix(b, n, c)
    ensures IsMatrix(p, r, c)
    ensures forall i, j :: 0 <= i < r && 0 <= j < c ==> p[i][j] == MulAt(a, b, i, j, n)
  {
    seq(r, i requires 0 <= i < r => seq(c, j requires 0 <= j < c => MulAt(a, b, i, j, n)))
  }

  /** beta * c + alpha * d, entry by entry. */
  function Combine(beta: real, c: Matrix, alpha: real, d: Matrix, r: nat, n: nat): (s: Matrix)
    requires IsMatrix(c, r, n) && IsMatrix(d, r, n)
    ensures IsMatrix(s, r, n)
    ensures forall i, j :: 0 <= i < r && 0 <= j < n ==> s[i][j] == beta * c[i][j] + alpha * d[i][j]
  {
    seq(r, i requires 0 <= i < r => seq(n, j requires 0 <= j < n => beta * c[i][j] + alpha * d[i][j]))
  }

  /** Two r-by-c matrices that agree entry by entry are equal. */
  lemma Extensional(x: Matrix, y: Matrix, r: nat, c: nat)
    requires IsMatrix(x, r, c) && IsMatrix(y, r, c)
    requires forall i, j :: 0 <= i < r && 0 <= j < c ==> x[i][j] == y[i][j]
    ensures x == y
  {
    forall i | 0 <= i < r
      ensures x[i] == y[i]
    {
    }
  }

  lemma TransposeTwice(m: Matrix, r: nat, c: nat)
    requires IsMatrix(m, r, c)
    ensures Transpose(Transpose(m, r, c), c, r) == m
  {
    Extensional(Transpose(Transpose(m, r, c), c, r), m, r, c);
  }

  /** Entry (j, i) of B^T A^T is entry (i, j) of A B, for every prefix of the inner sum. */
  lemma {:induction false} MulAtTransposed(a: Matrix, b: Matrix, r: nat, n: nat, c: nat, i: nat, j: nat, k: nat)
    requires IsMatrix(a, r, n) && IsMatrix(b, n, c)
    requires i < r && j < c && k <= n
    ensures MulAt(Transpose(b, n, c), Transpose(a, r, n), j, i, k) == MulAt(a, b, i, j, k)
  {
    if k > 0 {
      MulAtTransposed(a, b, r, n, c, i, j, k - 1);
    }
  }

  /** (A B)^T = B^T A^T. */
  lemma TransposeOfProduct(a: Matrix, b: Matrix, r: nat, n: nat, c: nat)
    requires IsMatrix(a, r, n) && IsMatrix(b, n, c)
    ensures Mul(Transpose(b, n, c), Transpose(a, r, n), c, n, r) == Transpose(Mul(a, b, r, n, c), r, c)
  {
    var lhs := Mul(Transpose(b, n, c), Transpose(a, r, n), c, n, r);
    var rhs := Transpose(Mul(a, b, r, n, c), r, c);
    forall j, i | 0 <= j < c && 0 <= i < r
      ensures lhs[j][i] == rhs[j][i]
    {
      MulAtTransposed(a, b, r, n, c, i, j, n);
    }
    Extensional(lhs, rhs, c, r);
  }

  lemma TransposeOfCombine(beta: real, x: Matrix, alpha: real, y: Matrix, r: nat, c: nat)
    requires IsMatrix(x, r, c) && IsMatrix(y, r, c)
    ensures Transpose(Combine(beta, x, alpha, y, r, c), r, c)
         == Combine(beta, Transpose(x, r, c), alpha, Transpose(y, r, c), c, r)
  {
    Extensional(Transpose(Combine(beta, x, alpha, y, r, c), r, c),
                Combine(beta, Transpose(x, r, c), alpha, Transpose(y, r, c), c, r), c, r);
  }
}
