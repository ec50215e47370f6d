/** The part of ndarray and of f64 arithmetic that the rating engine uses:
    dense matrices as sequences of rows over `real`, sums, dot products and
    the element-wise and matrix products, and an f64 value that can be NaN. */
module NdArray {

  /** An f64 result: an ordinary number, or the NaN that `0.0 / 0.0` gives. */
  datatype F64 = Num(val: real) | NaN

  /** f64 `x < t`: false whenever x is NaN. */
  predicate LessThan(x: F64, t: real) {
    x.Num? && x.val < t
  }

  type Vector = seq<real>
  type Matrix = seq<seq<real>>

  /** m is an Array2 of shape (rows, cols). */
  predicate IsMatrix(m: Matrix, rows: nat, cols: nat) {
    |m| == rows && forall i :: 0 <= i < rows ==> |m[i]| == cols
  }

  /** Number of columns of a rectangular matrix (zero when it has no rows). */
  function Cols(m: Matrix): nat {
    if m == [] then 0 else |m[0]|
  }

  /** Every row has the same length, as in every Array2. */
  predicate IsRect(m: Matrix) {
    IsMatrix(m, |m|, Cols(m))
  }

  predicate SameShape(a: Matrix, b: Matrix) {
    |a| == |b| && forall i :: 0 <= i < |a| ==> |a[i]| == |b[i]|
  }

  /** `sum()` of a one-dimensional array. */
  function Sum(s: Vector): real {
    if s == [] then 0.0 else Sum(s[..|s| - 1]) + s[|s| - 1]
  }

  /** `a.dot(&b)` of two one-dimensional arrays. */
  function Dot(a: Vector, b: Vector): real
    requires |a| == |b|
  {
    if a == [] then 0.0 else Dot(a[..|a| - 1], b[..|b| - 1]) + a[|a| - 1] * b[|b| - 1]
  }

  /** `sum()` of a two-dimensional array: all entries, row after row. */
  function MatSum(m: Matrix): real {
    if m == [] then 0.0 else MatSum(m[..|m| - 1]) + Sum(m[|m| - 1])
  }

  /** `m.map_axis(Axis(1), |v| v.dot(&v)).sum()`: the sum of the squares of all entries. */
  function SumSq(m: Matrix): real {
    if m == [] then 0.0 else SumSq(m[..|m| - 1]) + Dot(m[|m| - 1], m[|m| - 1])
  }

  /** Column c of m, `m.column(c)`. */
  function Column(m: Matrix, c: nat): (r: Vector)
    requires forall i :: 0 <= i < |m| ==> c < |m[i]|
    ensures |r| == |m| && forall i :: 0 <= i < |m| ==> r[i] == m[i][c]
  {
    seq(|m|, i requires 0 <= i < |m| => m[i][c])
  }

  /** `m.t()` of a matrix with `cols` columns. */
  function Transpose(m: Matrix, cols: nat): (r: Matrix)
    requires IsMatrix(m, |m|, cols)
    ensures IsMatrix(r, cols, |m|)
    ensures forall j :: 0 <= j < cols ==> r[j] == Column(m, j)
  {
    seq(cols, j requires 0 <= j < cols => Column(m, j))
  }

  /** `a.dot(&b)` of an (n, inner) and an (inner, p) matrix. */
  function Mul(a: Matrix, b: Matrix, inner: nat, p: nat): (r: Matrix)
    requires IsMatrix(a, |a|, inner) && IsMatrix(b, inner, p)
    ensures IsMatrix(r, |a|, p)
    ensures forall i, c :: 0 <= i < |a| && 0 <= c < p ==> r[i][c] == Dot(a[i], Column(b, c))
  {
    seq(|a|, i requires 0 <= i < |a| => seq(p, c requires 0 <= c < p => Dot(a[i], Column(b, c))))
  }

  /** `a.dot(&b.t())`: the rows of a against the rows of b. */
  function MulT(a: Matrix, b: Matrix, inner: nat): (r: Matrix)
    requires IsMatrix(a, |a|, inner) && IsMatrix(b, |b|, inner)
    ensures IsMatrix(r, |a|, |b|)
    ensures forall i, j :: 0 <= i < |a| && 0 <= j < |b| ==> r[i][j] == Dot(a[i], b[j])
  {
    seq(|a|, i requires 0 <= i < |a| => seq(|b|, j requires 0 <= j < |b| => Dot(a[i], b[j])))
  }

  /** `c * m`. Its entries are stated by ScaleRow, so that the products
      they involve are only in scope where they are needed. */
  function Scale(c: real, m: Matrix): (r: Matrix)
    ensures SameShape(r, m)
  {
    seq(|m|, i requires 0 <= i < |m| => seq(|m[i]|, j requires 0 <= j < |m[i]| => c * m[i][j]))
  }

  /** Row i of `c * m` is c times row i of m. */
  lemma {:induction false} ScaleRow(c: real, m: Matrix, i: nat)
    requires i < |m|
    ensures |Scale(c, m)[i]| == |m[i]|
    ensures forall j :: 0 <= j < |m[i]| ==> Scale(c, m)[i][j] == c * m[i][j]
  {
  }

  /** `a + b`. */
  function Add(a: Matrix, b: Matrix): (r: Matrix)
    requires SameShape(a, b)
    ensures SameShape(r, a)
    ensures forall i, j :: 0 <= i < |a| && 0 <= j < |a[i]| ==> r[i][j] == a[i][j] + b[i][j]
  {
    seq(|a|, i requires 0 <= i < |a| => seq(|a[i]|, j requires 0 <= j < |a[i]| => a[i][j] + b[i][j]))
  }

  /** `a - b`. */
  function Sub(a: Matrix, b: Matrix): (r: Matrix)
    requires SameShape(a, b)
    ensures SameShape(r, a)
    ensures forall i, j :: 0 <= i < |a| && 0 <= j < |a[i]| ==> r[i][j] == a[i][j] - b[i][j]
  {
    seq(|a|, i requires 0 <= i < |a| => seq(|a[i]|, j requires 0 <= j < |a[i]| => a[i][j] - b[i][j]))
  }

  /** `a * b`, the element-wise product. */
  function Hadamard(a: Matrix, b: Matrix): (r: Matrix)
    requires SameShape(a, b)
    ensures SameShape(r, a)
    ensures forall i, j :: 0 <= i < |a| && 0 <= j < |a[i]| ==> r[i][j] == a[i][j] * b[i][j]
  {
    seq(|a|, i requires 0 <= i < |a| => seq(|a[i]|, j requires 0 <= j < |a[i]| => a[i][j] * b[i][j]))
  }

  /** The dot product does not depend on the order of its arguments. */
  lemma {:induction false} DotCommutes(a: Vector, b: Vector)
    requires |a| == |b|
    ensures Dot(a, b) == Dot(b, a)
  {
    if a != [] {
      DotCommutes(a[..|a| - 1], b[..|b| - 1]);
    }
  }

  /** A vector's dot product with itself, its squared norm, is never negative. */
  lemma {:induction false} DotSelfNonNegative(a: Vector)
    ensures Dot(a, a) >= 0.0
  {
    if a != [] {
      DotSelfNonNegative(a[..|a| - 1]);
    }
  }

  /** The sum of squares of all entries of a matrix is never negative. */
  lemma {:induction false} SumSqNonNegative(m: Matrix)
    ensures SumSq(m) >= 0.0
  {
    if m != [] {
      SumSqNonNegative(m[..|m| - 1]);
      DotSelfNonNegative(m[|m| - 1]);
    }
  }

  /** Row i of `c * m` against w is c times row i of m against w. */
  lemma {:induction false} DotScaledRow(c: real, m: Matrix, i: nat, w: Vector)
    requires i < |m| && |m[i]| == |w|
    ensures Dot(Scale(c, m)[i], w) == c * Dot(m[i], w)
  {
    ScaleRow(c, m, i);
    DotScaleLeft(c, m[i], Scale(c, m)[i], w);
  }

  /** Column j of a matrix whose column j is c times that of m, against w,
      is c times column j of m against w. */
  lemma {:induction false} DotScaledColumn(c: real, m: Matrix, cm: Matrix, j: nat, w: Vector)
    requires |cm| == |m| == |w|
    requires forall i :: 0 <= i < |m| ==> j < |m[i]| && j < |cm[i]| && cm[i][j] == c * m[i][j]
    ensures Dot(Column(cm, j), w) == c * Dot(Column(m, j), w)
  {
    DotScaleLeft(c, Column(m, j), Column(cm, j), w);
  }

  /** Scaling one argument of a dot product scales the product. */
  lemma {:induction false} DotScaleLeft(c: real, a: Vector, ca: Vector, b: Vector)
    requires |a| == |b| == |ca|
    requires forall t :: 0 <= t < |a| ==> ca[t] == c * a[t]
    ensures Dot(ca, b) == c * Dot(a, b)
  {
    if a != [] {
      DotScaleLeft(c, a[..|a| - 1], ca[..|ca| - 1], b[..|b| - 1]);
    }
  }
}
