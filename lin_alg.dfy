/**
 * The numpy operations the conductivity helpers are built from, over exact
 * complex numbers: `np.dot` of two vectors and of a matrix with a vector,
 * `np.conj` of a vector and `np.multiply` of two vectors of equal length.
 * A vector is a sequence of entries, a matrix the sequence of its rows.
 */
module LinAlg {
  import opened ComplexArith

  type Vector = seq<Complex>
  type Matrix = seq<Vector>

  /** Every row of `m` has `n` entries: `m` is a |m| x n matrix. */
  predicate HasCols(m: Matrix, n: nat) {
    forall k :: 0 <= k < |m| ==> |m[k]| == n
  }

  /** `np.dot(u, v)` for two 1-D arrays: the sum of elementwise products, without conjugation. */
  function Dot(u: Vector, v: Vector): Complex
    requires |u| == |v|
  {
    if |u| == 0 then Zero else Add(Mul(u[0], v[0]), Dot(u[1..], v[1..]))
  }

  /** `np.dot(m, v)` for a 2-D array and a 1-D array: entry k is the dot product of row k with `v`. */
  function MatVec(m: Matrix, v: Vector): (r: Vector)
    requires HasCols(m, |v|)
    ensures |r| == |m|
  {
    seq(|m|, k requires 0 <= k < |m| => Dot(m[k], v))
  }

  /** `np.conj(u)`: entrywise conjugate. */
  function ConjVec(u: Vector): (r: Vector)
    ensures |r| == |u|
    ensures forall k :: 0 <= k < |u| ==> Conj(r[k]) == u[k]
  {
    seq(|u|, k requires 0 <= k < |u| => Conj(u[k]))
  }

  /** `np.multiply(m, v)` for two 1-D arrays of the same length: entrywise product. */
  function Hadamard(m: Vector, v: Vector): (r: Vector)
    requires |m| == |v|
    ensures |r| == |v|
    ensures forall k :: 0 <= k < |v| && (m[k] == Zero || v[k] == Zero) ==> r[k] == Zero
  {
    seq(|v|, k requires 0 <= k < |v| => Mul(m[k], v[k]))
  }

  /**
   * Row vector times matrix, u^T m, built row by row as the combination
   * sum_i u[i] * m[i]. It is the reference against which the column-wise
   * evaluation order of Dot(u, MatVec(m, v)) is checked (MatVecAssoc).
   */
  function VecMat(u: Vector, m: Matrix, n: nat): Vector
    requires |u| == |m| && HasCols(m, n)
  {
    if |m| == 0 then ZeroVec(n) else VAdd(Scale(u[0], m[0]), VecMat(u[1..], m[1..], n))
  }

  function ZeroVec(n: nat): Vector {
    seq(n, k => Zero)
  }

  function ZeroMat(rows: nat, cols: nat): Matrix {
    seq(rows, k => ZeroVec(cols))
  }

  function VAdd(u: Vector, v: Vector): Vector
    requires |u| == |v|
  {
    seq(|u|, k requires 0 <= k < |u| => Add(u[k], v[k]))
  }

  function Scale(a: Complex, u: Vector): Vector {
    seq(|u|, k requires 0 <= k < |u| => Mul(a, u[k]))
  }

  function MAdd(m1: Matrix, m2: Matrix): Matrix
    requires |m1| == |m2|
    requires forall k :: 0 <= k < |m1| ==> |m1[k]| == |m2[k]|
  {
    seq(|m1|, k requires 0 <= k < |m1| => VAdd(m1[k], m2[k]))
  }

  function MScale(a: Complex, m: Matrix): Matrix {
    seq(|m|, k requires 0 <= k < |m| => Scale(a, m[k]))
  }

  /** The square matrix with `d` on its diagonal and zeros elsewhere (`np.diag(d)`). */
  function Diag(d: Vector): Matrix {
    seq(|d|, i requires 0 <= i < |d| => seq(|d|, j requires 0 <= j < |d| => if i == j then d[i] else Zero))
  }

  // ---------------------------------------------------------------------
  // Linearity of the dot product

  lemma {:induction false} DotAddLeft(u1: Vector, u2: Vector, v: Vector)
    requires |u1| == |u2| == |v|
    ensures Dot(VAdd(u1, u2), v) == Add(Dot(u1, v), Dot(u2, v))
  {
    if |v| > 0 {
      var w := VAdd(u1, u2);
      assert w[0] == Add(u1[0], u2[0]);
      assert w[1..] == VAdd(u1[1..], u2[1..]);
      DotAddLeft(u1[1..], u2[1..], v[1..]);
      MulAddLeft(u1[0], u2[0], v[0]);
      AddOfProducts(Mul(Add(u1[0], u2[0]), v[0]), Mul(u1[0], v[0]), Mul(u2[0], v[0]),
                    Dot(w[1..], v[1..]), Dot(u1[1..], v[1..]), Dot(u2[1..], v[1..]));
    }
  }

  lemma {:induction false} DotAddRight(u: Vector, v1: Vector, v2: Vector)
    requires |u| == |v1| == |v2|
    ensures Dot(u, VAdd(v1, v2)) == Add(Dot(u, v1), Dot(u, v2))
  {
    if |u| > 0 {
      var w := VAdd(v1, v2);
      assert w[0] == Add(v1[0], v2[0]);
      assert w[1..] == VAdd(v1[1..], v2[1..]);
      DotAddRight(u[1..], v1[1..], v2[1..]);
      MulAddRight(u[0], v1[0], v2[0]);
      AddOfProducts(Mul(u[0], Add(v1[0], v2[0])), Mul(u[0], v1[0]), Mul(u[0], v2[0]),
                    Dot(u[1..], w[1..]), Dot(u[1..], v1[1..]), Dot(u[1..], v2[1..]));
    }
  }

  lemma {:induction false} DotScaleLeft(a: Complex, u: Vector, v: Vector)
    requires |u| == |v|
    ensures Dot(Scale(a, u), v) == Mul(a, Dot(u, v))
  {
    if |u| > 0 {
      assert Scale(a, u)[1..] == Scale(a, u[1..]);
      DotScaleLeft(a, u[1..], v[1..]);
      MulAssoc(a, u[0], v[0]);
      MulAddRight(a, Mul(u[0], v[0]), Dot(u[1..], v[1..]));
    }
  }

  lemma {:induction false} DotScaleRight(a: Complex, u: Vector, v: Vector)
    requires |u| == |v|
    ensures Dot(u, Scale(a, v)) == Mul(a, Dot(u, v))
  {
    if |u| > 0 {
      assert Scale(a, v)[1..] == Scale(a, v[1..]);
      DotScaleRight(a, u[1..], v[1..]);
      MulScaleSwap(a, u[0], v[0]);
      MulAddRight(a, Mul(u[0], v[0]), Dot(u[1..], v[1..]));
    }
  }

  /** Regrouping the first term and the rest of two sums: (p + q) + (r + s) == (p + r) + (q + s) as an identity on heads and tails. */
  lemma AddOfProducts(head: Complex, h1: Complex, h2: Complex, tail: Complex, t1: Complex, t2: Complex)
    requires head == Add(h1, h2) && tail == Add(t1, t2)
    ensures Add(head, tail) == Add(Add(h1, t1), Add(h2, t2))
  {}

  /** `np.dot` does not conjugate either argument, so it is symmetric. */
  lemma {:induction false} DotComm(u: Vector, v: Vector)
    requires |u| == |v|
    ensures Dot(u, v) == Dot(v, u)
  {
    if |u| > 0 {
      MulComm(u[0], v[0]);
      DotComm(u[1..], v[1..]);
    }
  }

  /** A dot product with a vector of zeros, on either side, is zero. */
  lemma {:induction false} DotZero(u: Vector, v: Vector)
    requires |u| == |v|
    requires u == ZeroVec(|u|) || v == ZeroVec(|v|)
    ensures Dot(u, v) == Zero
  {
    if |u| > 0 {
      assert u[1..] == ZeroVec(|u| - 1) || v[1..] == ZeroVec(|v| - 1);
      DotZero(u[1..], v[1..]);
    }
  }

  /** Only entry i of `u` is non-zero: the dot product picks out u[i] * v[i]. */
  lemma {:induction false} DotSingleEntry(u: Vector, v: Vector, i: nat)
    requires |u| == |v| && i < |u|
    requires forall j :: 0 <= j < |u| && j != i ==> u[j] == Zero
    ensures Dot(u, v) == Mul(u[i], v[i])
  {
    if i == 0 {
      assert u[1..] == ZeroVec(|u| - 1);
      DotZero(u[1..], v[1..]);
    } else {
      DotSingleEntry(u[1..], v[1..], i - 1);
    }
  }

  // ---------------------------------------------------------------------
  // The matrix-vector product

  /** Multiplying by a diagonal matrix is the entrywise product with its diagonal. */
  lemma MatVecDiag(d: Vector, v: Vector)
    requires |d| == |v|
    ensures HasCols(Diag(d), |v|)
    ensures MatVec(Diag(d), v) == Hadamard(d, v)
  {
    forall k | 0 <= k < |d|
      ensures Dot(Diag(d)[k], v) == Mul(d[k], v[k])
    {
      DotSingleEntry(Diag(d)[k], v, k);
    }
  }

  lemma MatVecAddMatrix(m1: Matrix, m2: Matrix, v: Vector)
    requires |m1| == |m2| && HasCols(m1, |v|) && HasCols(m2, |v|)
    ensures HasCols(MAdd(m1, m2), |v|)
    ensures MatVec(MAdd(m1, m2), v) == VAdd(MatVec(m1, v), MatVec(m2, v))
  {
    forall k | 0 <= k < |m1|
      ensures Dot(VAdd(m1[k], m2[k]), v) == Add(Dot(m1[k], v), Dot(m2[k], v))
    {
      DotAddLeft(m1[k], m2[k], v);
    }
  }

  lemma MatVecScaleMatrix(a: Complex, m: Matrix, v: Vector)
    requires HasCols(m, |v|)
    ensures HasCols(MScale(a, m), |v|)
    ensures MatVec(MScale(a, m), v) == Scale(a, MatVec(m, v))
  {
    forall k | 0 <= k < |m|
      ensures Dot(Scale(a, m[k]), v) == Mul(a, Dot(m[k], v))
    {
      DotScaleLeft(a, m[k], v);
    }
  }

  lemma MatVecAddVector(m: Matrix, v1: Vector, v2: Vector)
    requires |v1| == |v2| && HasCols(m, |v1|)
    ensures MatVec(m, VAdd(v1, v2)) == VAdd(MatVec(m, v1), MatVec(m, v2))
  {
    forall k | 0 <= k < |m|
      ensures Dot(m[k], VAdd(v1, v2)) == Add(Dot(m[k], v1), Dot(m[k], v2))
    {
      DotAddRight(m[k], v1, v2);
    }
  }

  lemma MatVecScaleVector(a: Complex, m: Matrix, v: Vector)
    requires HasCols(m, |v|)
    ensures MatVec(m, Scale(a, v)) == Scale(a, MatVec(m, v))
  {
    forall k | 0 <= k < |m|
      ensures Dot(m[k], Scale(a, v)) == Mul(a, Dot(m[k], v))
    {
      DotScaleRight(a, m[k], v);
    }
  }

  /** A zero matrix, or a zero vector, gives the zero vector. */
  lemma MatVecZero(m: Matrix, v: Vector)
    requires HasCols(m, |v|)
    requires m == ZeroMat(|m|, |v|) || v == ZeroVec(|v|)
    ensures MatVec(m, v) == ZeroVec(|m|)
  {
    forall k | 0 <= k < |m|
      ensures Dot(m[k], v) == Zero
    {
      DotZero(m[k], v);
    }
  }

  /**
   * (u^T m) v == u^T (m v): summing row by row and summing column by
   * column give the same double sum sum_i sum_j u[i] m[i][j] v[j].
   */
  lemma {:induction false} MatVecAssoc(u: Vector, m: Matrix, v: Vector)
    requires |u| == |m| && HasCols(m, |v|)
    ensures Dot(u, MatVec(m, v)) == Dot(VecMat(u, m, |v|), v)
  {
    if |m| == 0 {
      DotZero(ZeroVec(|v|), v);
    } else {
      assert MatVec(m, v)[1..] == MatVec(m[1..], v);
      MatVecAssoc(u[1..], m[1..], v);
      DotAddLeft(Scale(u[0], m[0]), VecMat(u[1..], m[1..], |v|), v);
      DotScaleLeft(u[0], m[0], v);
    }
  }

  // ---------------------------------------------------------------------
  // Conjugation and the entrywise product

  lemma ConjVecAdd(u1: Vector, u2: Vector)
    requires |u1| == |u2|
    ensures ConjVec(VAdd(u1, u2)) == VAdd(ConjVec(u1), ConjVec(u2))
  {}

  lemma ConjVecScale(a: Complex, u: Vector)
    ensures ConjVec(Scale(a, u)) == Scale(Conj(a), ConjVec(u))
  {
    forall k | 0 <= k < |u|
      ensures Conj(Mul(a, u[k])) == Mul(Conj(a), Conj(u[k]))
    {
      ConjMul(a, u[k]);
    }
  }

  lemma ConjVecZero(n: nat)
    ensures ConjVec(ZeroVec(n)) == ZeroVec(n)
  {}

  lemma HadamardAddVector(d: Vector, v1: Vector, v2: Vector)
    requires |d| == |v1| == |v2|
    ensures Hadamard(d, VAdd(v1, v2)) == VAdd(Hadamard(d, v1), Hadamard(d, v2))
  {
    forall k | 0 <= k < |d|
      ensures Mul(d[k], Add(v1[k], v2[k])) == Add(Mul(d[k], v1[k]), Mul(d[k], v2[k]))
    {
      MulAddRight(d[k], v1[k], v2[k]);
    }
  }

  lemma HadamardScaleVector(a: Complex, d: Vector, v: Vector)
    requires |d| == |v|
    ensures Hadamard(d, Scale(a, v)) == Scale(a, Hadamard(d, v))
  {
    forall k | 0 <= k < |d|
      ensures Mul(d[k], Mul(a, v[k])) == Mul(a, Mul(d[k], v[k]))
    {
      MulScaleSwap(a, d[k], v[k]);
    }
  }
}
