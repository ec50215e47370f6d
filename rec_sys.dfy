/** The free functions of the rating engine: the 0/1 mask of observed
    ratings, the regularised l2 cost of a factorisation, one full-batch
    gradient step, and the gradient-descent driver `matrix_factorization`.
    The random initial factors are parameters of the driver. */
module RecSys {
  import opened NdArray
  import opened Driver

  /** A user matrix u (users x K) and an item matrix v (items x K). */
  datatype Factors = Factors(u: Matrix, v: Matrix)

  // ---------------------------------------------------------------------
  // Masking

  /** One row of `get_mask`. */
  function MaskRow(row: Vector, maskValue: real): (r: Vector)
    ensures |r| == |row|
    ensures forall j :: 0 <= j < |row| ==> (r[j] == 1.0 <==> row[j] != maskValue)
    ensures forall j :: 0 <= j < |row| ==> (r[j] == 0.0 <==> row[j] == maskValue)
  {
    seq(|row|, j requires 0 <= j < |row| => if row[j] != maskValue then 1.0 else 0.0)
  }

  /** `get_mask`: 1.0 where the rating is not the sentinel, 0.0 where it is. */
  function GetMask(y: Matrix, maskValue: real): (mask: Matrix)
    ensures SameShape(mask, y)
    ensures forall i, j :: 0 <= i < |y| && 0 <= j < |y[i]| ==>
      (mask[i][j] == 1.0 <==> y[i][j] != maskValue) && (mask[i][j] == 0.0 <==> y[i][j] == maskValue)
  {
    seq(|y|, i requires 0 <= i < |y| => MaskRow(y[i], maskValue))
  }

  /** Every entry is 0.0 or 1.0. */
  predicate IsMask(m: Matrix) {
    forall i, j :: 0 <= i < |m| && 0 <= j < |m[i]| ==> m[i][j] == 0.0 || m[i][j] == 1.0
  }

  /** Every cell holds the sentinel: there is not a single rating. */
  predicate AllMissing(y: Matrix, maskValue: real) {
    forall i, j :: 0 <= i < |y| && 0 <= j < |y[i]| ==> y[i][j] == maskValue
  }

  /** Number of observed (non-sentinel) entries of a row. */
  function Observed(row: Vector, maskValue: real): nat {
    if row == [] then 0
    else Observed(row[..|row| - 1], maskValue) + (if row[|row| - 1] != maskValue then 1 else 0)
  }

  /** A row's mask sums to its number of observed entries. */
  lemma {:induction false} MaskRowSum(row: Vector, maskValue: real)
    ensures Sum(MaskRow(row, maskValue)) == Observed(row, maskValue) as real
  {
    if row != [] {
      var n := |row|;
      assert MaskRow(row, maskValue)[..n - 1] == MaskRow(row[..n - 1], maskValue);
      MaskRowSum(row[..n - 1], maskValue);
    }
  }

  /** Number of observed entries of a matrix. */
  function ObservedCount(y: Matrix, maskValue: real): nat {
    if y == [] then 0 else ObservedCount(y[..|y| - 1], maskValue) + Observed(y[|y| - 1], maskValue)
  }

  /** `count = mask.sum()` is the number of observed cells, so it is never
      negative and the `count < 0.` guard of `matrix_factorization` is dead. */
  lemma {:induction false} MaskSumIsObservedCount(y: Matrix, maskValue: real)
    ensures MatSum(GetMask(y, maskValue)) == ObservedCount(y, maskValue) as real
    ensures MatSum(GetMask(y, maskValue)) >= 0.0
  {
    if y != [] {
      var n := |y|;
      assert GetMask(y, maskValue)[..n - 1] == GetMask(y[..n - 1], maskValue);
      MaskSumIsObservedCount(y[..n - 1], maskValue);
      MaskRowSum(y[n - 1], maskValue);
    }
  }

  /** A row has no observed entry exactly when every entry is the sentinel. */
  lemma {:induction false} NoObservedInRow(row: Vector, maskValue: real)
    ensures Observed(row, maskValue) == 0 <==> forall j :: 0 <= j < |row| ==> row[j] == maskValue
  {
    if row != [] {
      var n := |row|;
      var front := row[..n - 1];
      NoObservedInRow(front, maskValue);
      if forall j :: 0 <= j < |row| ==> row[j] == maskValue {
        assert forall j :: 0 <= j < |front| ==> front[j] == maskValue;
      }
    }
  }

  /** The matrix has no observed cell exactly when every cell is the sentinel. */
  lemma {:induction false} NoObservationsIffAllMissing(y: Matrix, maskValue: real)
    ensures ObservedCount(y, maskValue) == 0 <==> AllMissing(y, maskValue)
  {
    if y != [] {
      var n := |y|;
      NoObservationsIffAllMissing(y[..n - 1], maskValue);
      NoObservedInRow(y[n - 1], maskValue);
      if AllMissing(y, maskValue) {
        assert AllMissing(y[..n - 1], maskValue);
      }
      if AllMissing(y[..n - 1], maskValue) && Observed(y[n - 1], maskValue) == 0 {
        forall i, j | 0 <= i < n && 0 <= j < |y[i]| ensures y[i][j] == maskValue {
          if i < n - 1 {
            assert y[..n - 1][i] == y[i];
          }
        }
      }
    }
  }

  // ---------------------------------------------------------------------
  // Regularised cost

  /** The masked residual and the cost, as `l2_cost` returns them. */
  datatype CostResult = CostResult(resid: Matrix, err: F64)

  /** The masked residual `(y - u·vᵗ) * mask` of `l2_cost`. */
  function Residual(u: Matrix, v: Matrix, y: Matrix, mask: Matrix, k: nat): (r: Matrix)
    requires IsMatrix(u, |y|, k) && IsMatrix(v, |v|, k)
    requires IsMatrix(y, |y|, |v|) && IsMatrix(mask, |y|, |v|)
    ensures IsMatrix(r, |y|, |v|)
    ensures forall i, j :: 0 <= i < |y| && 0 <= j < |v| ==> r[i][j] == (y[i][j] - Dot(u[i], v[j])) * mask[i][j]
  {
    Hadamard(Sub(y, MulT(u, v, k)), mask)
  }

  /** The error of `l2_cost` for a residual: `0.5 * (Σ resid² / count +
      reg_l2 * (Σ u² + Σ v²))`. The source documents that mask is the 0/1
      mask of y and count its sum; a zero count therefore means an all-zero
      residual, and `0.0 / 0.0` is NaN. */
  function L2Error(resid: Matrix, u: Matrix, v: Matrix, regL2: real, count: real): (r: F64)
    ensures r.NaN? <==> count == 0.0
  {
    if count == 0.0 then NaN
    else Num(0.5 * (SumSq(resid) / count + regL2 * (SumSq(u) + SumSq(v))))
  }

  /** `l2_cost`: the masked residual and the regularised error. */
  function L2Cost(u: Matrix, v: Matrix, y: Matrix, regL2: real, mask: Matrix, count: real, k: nat): (r: CostResult)
    requires IsMatrix(u, |y|, k) && IsMatrix(v, |v|, k)
    requires IsMatrix(y, |y|, |v|) && IsMatrix(mask, |y|, |v|)
    requires IsMask(mask) && count == MatSum(mask)
    ensures IsMatrix(r.resid, |y|, |v|)
    ensures forall i, j :: 0 <= i < |y| && 0 <= j < |v| && mask[i][j] == 0.0 ==> r.resid[i][j] == 0.0
    ensures forall i, j :: 0 <= i < |y| && 0 <= j < |v| && mask[i][j] == 1.0 ==>
      r.resid[i][j] == y[i][j] - Dot(u[i], v[j])
    ensures r.err.NaN? <==> count == 0.0
  {
    var ptDiff := Residual(u, v, y, mask, k);
    CostResult(ptDiff, L2Error(ptDiff, u, v, regL2, count))
  }

  function Square(x: real): real { x * x }

  /** Row i of `u.dot(&v.t())`: user row ui's prediction for every item. */
  function Predictions(ui: Vector, v: Matrix): (p: Vector)
    requires forall j :: 0 <= j < |v| ==> |v[j]| == |ui|
    ensures |p| == |v| && forall j :: 0 <= j < |v| ==> p[j] == Dot(ui, v[j])
  {
    seq(|v|, j requires 0 <= j < |v| => Dot(ui, v[j]))
  }

  /** Reference definition: the squared error summed over the observed
      cells among the first n columns of one row. */
  function RowObservedError(row: Vector, maskValue: real, pred: Vector, n: nat): real
    requires n <= |row| && n <= |pred|
  {
    if n == 0 then 0.0
    else
      var last := if row[n - 1] != maskValue then Square(row[n - 1] - pred[n - 1]) else 0.0;
      RowObservedError(row, maskValue, pred, n - 1) + last
  }

  /** Reference definition: the squared error summed over the observed
      cells of the first n rows. */
  function ObservedError(y: Matrix, maskValue: real, u: Matrix, v: Matrix, k: nat, n: nat): real
    requires n <= |y| && IsMatrix(y, |y|, |v|) && IsMatrix(u, |y|, k) && IsMatrix(v, |v|, k)
  {
    if n == 0 then 0.0
    else ObservedError(y, maskValue, u, v, k, n - 1) + RowObservedError(y[n - 1], maskValue, Predictions(u[n - 1], v), |v|)
  }

  lemma {:induction false} ResidualRowSquares(row: Vector, maskValue: real, pred: Vector, resid: Vector, n: nat)
    requires n <= |row| == |pred| == |resid|
    requires forall j :: 0 <= j < |row| ==> resid[j] == if row[j] != maskValue then row[j] - pred[j] else 0.0
    ensures Dot(resid[..n], resid[..n]) == RowObservedError(row, maskValue, pred, n)
  {
    if n > 0 {
      assert resid[..n][..n - 1] == resid[..n - 1];
      ResidualRowSquares(row, maskValue, pred, resid, n - 1);
    }
  }

  lemma {:induction false} ResidualSquares(y: Matrix, maskValue: real, u: Matrix, v: Matrix, k: nat,
                                           resid: Matrix, n: nat)
    requires n <= |y| && IsMatrix(y, |y|, |v|) && IsMatrix(u, |y|, k) && IsMatrix(v, |v|, k)
    requires IsMatrix(resid, |y|, |v|)
    requires forall i, j :: 0 <= i < |y| && 0 <= j < |v| ==>
      resid[i][j] == if y[i][j] != maskValue then y[i][j] - Dot(u[i], v[j]) else 0.0
    ensures SumSq(resid[..n]) == ObservedError(y, maskValue, u, v, k, n)
  {
    if n > 0 {
      assert resid[..n][..n - 1] == resid[..n - 1];
      ResidualSquares(y, maskValue, u, v, k, resid, n - 1);
      var i := n - 1;
      var pred := Predictions(u[i], v);
      ResidualRowSquares(y[i], maskValue, pred, resid[i], |v|);
      assert resid[i][..|v|] == resid[i];
    }
  }

  /** On the mask of y the residual is the prediction error at observed
      cells and 0 at the others. */
  lemma {:induction false} ResidualOnMask(u: Matrix, v: Matrix, y: Matrix, maskValue: real, k: nat)
    requires IsMatrix(u, |y|, k) && IsMatrix(v, |v|, k) && IsMatrix(y, |y|, |v|)
    ensures var resid := Residual(u, v, y, GetMask(y, maskValue), k);
      forall i, j :: 0 <= i < |y| && 0 <= j < |v| ==>
        resid[i][j] == if y[i][j] != maskValue then y[i][j] - Dot(u[i], v[j]) else 0.0
  {
    var mask := GetMask(y, maskValue);
    var resid := Residual(u, v, y, mask, k);
    forall i, j | 0 <= i < |y| && 0 <= j < |v|
      ensures resid[i][j] == if y[i][j] != maskValue then y[i][j] - Dot(u[i], v[j]) else 0.0
    {
      assert resid[i][j] == (y[i][j] - Dot(u[i], v[j])) * mask[i][j];
    }
  }

  /** On the mask of y, the cost of `l2_cost` is half of the squared error
      over the observed cells divided by their number, plus reg_l2 times the
      sum of squares of EVERY entry of u and v. */
  lemma {:induction false} L2CostIsObservedError(u: Matrix, v: Matrix, y: Matrix, regL2: real, maskValue: real, k: nat)
    requires IsMatrix(u, |y|, k) && IsMatrix(v, |v|, k) && IsMatrix(y, |y|, |v|)
    requires ObservedCount(y, maskValue) > 0
    ensures var mask := GetMask(y, maskValue);
      L2Cost(u, v, y, regL2, mask, MatSum(mask), k).err
      == Num(0.5 * (ObservedError(y, maskValue, u, v, k, |y|) / ObservedCount(y, maskValue) as real
                    + regL2 * (SumSq(u) + SumSq(v))))
  {
    L2CostError(u, v, y, regL2, GetMask(y, maskValue), MatSum(GetMask(y, maskValue)), k);
    ResidualErrorOnMask(u, v, y, regL2, maskValue, k);
  }

  /** The error of the residual on the mask of y, in terms of the observed
      cells. */
  lemma {:induction false} ResidualErrorOnMask(u: Matrix, v: Matrix, y: Matrix, regL2: real, maskValue: real, k: nat)
    requires IsMatrix(u, |y|, k) && IsMatrix(v, |v|, k) && IsMatrix(y, |y|, |v|)
    requires ObservedCount(y, maskValue) > 0
    ensures L2Error(Residual(u, v, y, GetMask(y, maskValue), k), u, v, regL2, MatSum(GetMask(y, maskValue)))
      == Num(0.5 * (ObservedError(y, maskValue, u, v, k, |y|) / ObservedCount(y, maskValue) as real
                    + regL2 * (SumSq(u) + SumSq(v))))
  {
    MaskSumIsObservedCount(y, maskValue);
    ResidualSquaresOnMask(u, v, y, maskValue, k);
    L2ErrorOf(Residual(u, v, y, GetMask(y, maskValue), k), u, v, regL2, MatSum(GetMask(y, maskValue)),
              ObservedError(y, maskValue, u, v, k, |y|), ObservedCount(y, maskValue) as real);
  }

  /** On the mask of y the squares of the residual add up to the squared
      error over the observed cells. */
  lemma {:induction false} ResidualSquaresOnMask(u: Matrix, v: Matrix, y: Matrix, maskValue: real, k: nat)
    requires IsMatrix(u, |y|, k) && IsMatrix(v, |v|, k) && IsMatrix(y, |y|, |v|)
    ensures SumSq(Residual(u, v, y, GetMask(y, maskValue), k)) == ObservedError(y, maskValue, u, v, k, |y|)
  {
    var resid := Residual(u, v, y, GetMask(y, maskValue), k);
    ResidualOnMask(u, v, y, maskValue, k);
    ResidualSquares(y, maskValue, u, v, k, resid, |y|);
    assert resid[..|y|] == resid;
  }

  /** The error `l2_cost` reports is the error of its residual. */
  lemma {:induction false} L2CostError(u: Matrix, v: Matrix, y: Matrix, regL2: real, mask: Matrix, count: real, k: nat)
    requires IsMatrix(u, |y|, k) && IsMatrix(v, |v|, k)
    requires IsMatrix(y, |y|, |v|) && IsMatrix(mask, |y|, |v|)
    requires IsMask(mask) && count == MatSum(mask)
    ensures L2Cost(u, v, y, regL2, mask, count, k).err == L2Error(Residual(u, v, y, mask, k), u, v, regL2, count)
  {
  }

  lemma {:induction false} L2ErrorOf(resid: Matrix, u: Matrix, v: Matrix, regL2: real, count: real, sq: real, n: real)
    requires SumSq(resid) == sq && count == n && n != 0.0
    ensures L2Error(resid, u, v, regL2, count) == Num(0.5 * (sq / n + regL2 * (SumSq(u) + SumSq(v))))
  {
  }

  /** With a positive count and a non-negative regularisation weight the
      error is a number and not negative. */
  lemma {:induction false} L2ErrorNonNegative(resid: Matrix, u: Matrix, v: Matrix, regL2: real, count: real)
    requires count > 0.0 && regL2 >= 0.0
    ensures L2Error(resid, u, v, regL2, count).Num? && L2Error(resid, u, v, regL2, count).val >= 0.0
  {
    SumSqNonNegative(resid);
    SumSqNonNegative(u);
    SumSqNonNegative(v);
    HalfCostNonNegative(SumSq(resid), count, regL2, SumSq(u) + SumSq(v));
  }

  lemma {:induction false} HalfCostNonNegative(sq: real, count: real, regL2: real, norms: real)
    requires sq >= 0.0 && count > 0.0 && regL2 >= 0.0 && norms >= 0.0
    ensures 0.5 * (sq / count + regL2 * norms) >= 0.0
  {
    assert sq / count >= 0.0;
    assert regL2 * norms >= 0.0;
  }

  /** With at least one observation and a non-negative regularisation
      weight the cost of `l2_cost` is a number and not negative. */
  lemma {:induction false} L2CostNonNegative(u: Matrix, v: Matrix, y: Matrix, regL2: real, mask: Matrix, count: real, k: nat)
    requires IsMatrix(u, |y|, k) && IsMatrix(v, |v|, k)
    requires IsMatrix(y, |y|, |v|) && IsMatrix(mask, |y|, |v|)
    requires IsMask(mask) && count == MatSum(mask)
    requires count > 0.0 && regL2 >= 0.0
    ensures L2Cost(u, v, y, regL2, mask, count, k).err.Num?
    ensures L2Cost(u, v, y, regL2, mask, count, k).err.val >= 0.0
  {
    var resid := Residual(u, v, y, mask, k);
    L2ErrorNonNegative(resid, u, v, regL2, count);
    assert L2Cost(u, v, y, regL2, mask, count, k).err == L2Error(resid, u, v, regL2, count);
  }

  // ---------------------------------------------------------------------
  // Gradient step

  /** One update of `matrix_factorization`, with the loop constants
      `scale_factor` (alpha / count) and `scale_reg` (alpha * reg_l2 * 0.5):
      both changes are computed from the factors before the step, then both
      factors are replaced. */
  function Step(u: Matrix, v: Matrix, delta: Matrix, scaleFactor: real, scaleReg: real, k: nat): (r: Factors)
    requires IsMatrix(u, |delta|, k) && IsMatrix(v, |v|, k) && IsMatrix(delta, |delta|, |v|)
    ensures IsMatrix(r.u, |u|, k) && IsMatrix(r.v, |v|, k)
  {
    var scaledDelta := Scale(scaleFactor, delta);
    var uChange := Sub(Mul(scaledDelta, v, |v|, k), Scale(scaleReg, u));
    var vChange := Sub(Mul(Transpose(scaledDelta, |v|), u, |u|, k), Scale(scaleReg, v));
    Factors(Add(u, uChange), Add(v, vChange))
  }

  /** The user update, entry by entry:
      u' = u + scale_factor·(delta·v) − scale_reg·u. */
  lemma {:induction false} StepUserEntry(u: Matrix, v: Matrix, delta: Matrix, scaleFactor: real, scaleReg: real, k: nat,
                      i: nat, c: nat)
    requires IsMatrix(u, |delta|, k) && IsMatrix(v, |v|, k) && IsMatrix(delta, |delta|, |v|)
    requires i < |u| && c < k
    ensures Step(u, v, delta, scaleFactor, scaleReg, k).u[i][c]
      == u[i][c] + scaleFactor * Dot(delta[i], Column(v, c)) - scaleReg * u[i][c]
  {
    var m := Mul(Scale(scaleFactor, delta), v, |v|, k);
    assert Step(u, v, delta, scaleFactor, scaleReg, k).u == Add(u, Sub(m, Scale(scaleReg, u)));
    AddSubScaledEntry(u, m, scaleReg, i, c);
    ScaledProduct(v, delta, scaleFactor, k, i, c);
  }

  /** The item update, entry by entry:
      v' = v + scale_factor·(deltaᵗ·u) − scale_reg·v, where u is the user
      matrix from BEFORE the step (both changes are computed first). */
  lemma {:induction false} StepItemEntry(u: Matrix, v: Matrix, delta: Matrix, scaleFactor: real, scaleReg: real, k: nat,
                      j: nat, c: nat)
    requires IsMatrix(u, |delta|, k) && IsMatrix(v, |v|, k) && IsMatrix(delta, |delta|, |v|)
    requires j < |v| && c < k
    ensures Step(u, v, delta, scaleFactor, scaleReg, k).v[j][c]
      == v[j][c] + scaleFactor * Dot(Column(delta, j), Column(u, c)) - scaleReg * v[j][c]
  {
    var m := Mul(Transpose(Scale(scaleFactor, delta), |v|), u, |u|, k);
    assert Step(u, v, delta, scaleFactor, scaleReg, k).v == Add(v, Sub(m, Scale(scaleReg, v)));
    AddSubScaledEntry(v, m, scaleReg, j, c);
    ScaledTransposeProduct(u, delta, scaleFactor, k, |v|, j, c);
  }

  /** Entry (j, c) of `a + (m - s * a)`. */
  lemma {:induction false} AddSubScaledEntry(a: Matrix, m: Matrix, s: real, j: nat, c: nat)
    requires SameShape(a, m) && j < |a| && c < |a[j]|
    ensures Add(a, Sub(m, Scale(s, a)))[j][c] == a[j][c] + m[j][c] - s * a[j][c]
  {
    ScaleRow(s, a, j);
  }

  /** Entry (i, c) of `(s * delta) · v` is s times row i of delta against
      column c of v. */
  lemma {:induction false} ScaledProduct(v: Matrix, delta: Matrix, s: real, k: nat, i: nat, c: nat)
    requires IsMatrix(v, |v|, k) && IsMatrix(delta, |delta|, |v|)
    requires i < |delta| && c < k
    ensures Mul(Scale(s, delta), v, |v|, k)[i][c] == s * Dot(delta[i], Column(v, c))
  {
    DotScaledRow(s, delta, i, Column(v, c));
  }

  /** Entry (j, c) of `(s * delta)ᵗ · u` is s times column j of delta
      against column c of u. */
  lemma {:induction false} ScaledTransposeProduct(u: Matrix, delta: Matrix, s: real, k: nat, items: nat, j: nat, c: nat)
    requires IsMatrix(u, |delta|, k) && IsMatrix(delta, |delta|, items)
    requires j < items && c < k
    ensures Mul(Transpose(Scale(s, delta), items), u, |u|, k)[j][c] == s * Dot(Column(delta, j), Column(u, c))
  {
    var sd := Scale(s, delta);
    forall i | 0 <= i < |delta|
      ensures j < |sd[i]| && sd[i][j] == s * delta[i][j]
    {
      ScaleRow(s, delta, i);
    }
    DotScaledColumn(s, delta, sd, j, Column(u, c));
  }

  // ---------------------------------------------------------------------
  // Gradient-descent driver

  /** The fixed inputs of one `matrix_factorization` run. */
  datatype Training = Training(y: Matrix, mask: Matrix, count: real, k: nat,
                               alpha: real, regL2: real, threshold: real)
  {
    /** mask is the 0/1 mask of y and count its sum, as the driver makes them. */
    predicate Valid() {
      IsMask(mask) && count == MatSum(mask)
    }

    /** u is users x K, v is items x K, and y and mask are users x items. */
    predicate Fits(f: Factors) {
      IsMatrix(f.u, |y|, k) && IsMatrix(f.v, |f.v|, k) && IsMatrix(y, |y|, |f.v|) && IsMatrix(mask, |y|, |f.v|)
    }

    /** The cost check of the loop body, `err < threshold`, on factors f.
        It never succeeds without an observation: the cost is then NaN. */
    predicate Converged(f: Factors)
      ensures Converged(f) ==> count != 0.0
    {
      Valid() && Fits(f) && LessThan(L2Cost(f.u, f.v, y, regL2, mask, count, k).err, threshold)
    }

    /** The factors after one pass of the loop body that does not exit.
        With no observed cell `alpha / count` is infinite (NaN when alpha is
        0). If y has a cell, its residual entry 0 times that is NaN and the
        source's factors turn to NaN, which reals cannot hold; if y has no
        cell, the source applies only the `scale_reg` decay. The model keeps
        the factors in both cases, which changes no outcome since every cost
        is then NaN. */
    function Next(f: Factors): (r: Factors)
      ensures Valid() && Fits(f) ==> Fits(r) && |r.v| == |f.v|
    {
      if Valid() && Fits(f) && count != 0.0 then
        Step(f.u, f.v, L2Cost(f.u, f.v, y, regL2, mask, count, k).resid, ScaleFactor(), ScaleReg(), k)
      else f
    }

    /** The loop constant `scale_factor = alpha / count`. With count 0 it is
        infinite in the source; Next does not use it then, and 0 stands in. */
    function ScaleFactor(): real {
      if count != 0.0 then alpha / count else 0.0
    }

    /** The loop constant `scale_reg = alpha * reg_l2 * 0.5`. */
    function ScaleReg(): real {
      alpha * regL2 * 0.5
    }

    /** What the driver returns from factors f with n passes left: factors
        that pass the cost check, if any. */
    function Train(f: Factors, n: nat): (r: Option<Factors>)
      ensures r.Some? ==> Converged(r.value)
    {
      RunSomeStops(Next, Converged, f, n);
      Run(Next, Converged, f, n)
    }

    /** The factors after t passes. */
    function Iterate(f: Factors, t: nat): Factors {
      Iter(Next, f, t)
    }

    /** Every pass keeps the shapes of the factors. */
    lemma {:induction false} IterateFits(f: Factors, t: nat)
      requires Valid() && Fits(f)
      ensures Fits(Iterate(f, t)) && |Iterate(f, t).v| == |f.v|
      decreases t
    {
      if t > 0 {
        IterateFits(Next(f), t - 1);
      }
    }

    /** The driver returns factors exactly when the cost check succeeds
        after some number t < n of passes. */
    lemma {:induction false} TrainSomeIff(f: Factors, n: nat)
      ensures Train(f, n).Some? <==> exists t :: 0 <= t < n && Converged(Iterate(f, t))
    {
      if Train(f, n).Some? {
        var t := RunSomeHasPass(Next, Converged, f, n);
        assert Converged(Iterate(f, t));
      }
      if t :| 0 <= t < n && Converged(Iterate(f, t)) {
        PassMakesRunSome(Next, Converged, f, n, t);
      }
    }

    /** The factors returned are those of the FIRST pass whose cost check
        succeeds, exactly as they were checked. */
    lemma {:induction false} TrainReturnsFirst(f: Factors, n: nat, t: nat)
      requires t < n && Converged(Iterate(f, t))
      requires forall r :: 0 <= r < t ==> !Converged(Iterate(f, r))
      ensures Train(f, n) == Some(Iterate(f, t))
    {
      forall r | 0 <= r < t
        ensures !Converged(Iter(Next, f, r))
      {
        assert Iterate(f, r) == Iter(Next, f, r);
      }
      RunReturnsFirst(Next, Converged, f, n, t);
    }

    /** With no observed cell every cost is NaN, which is never below the
        threshold, so the driver always returns None. */
    lemma {:induction false} TrainWithoutObservations(f: Factors, n: nat)
      requires count == 0.0
      ensures Train(f, n) == None
    {
      RunSomeIff(Next, Converged, f, n);
    }

    /** With at least one observation a pass that does not exit applies the
        update step to the residual of the cost check. */
    lemma {:induction false} NextIsStep(f: Factors, resid: Matrix, scaleFactor: real, scaleReg: real)
      requires Valid() && Fits(f) && count != 0.0
      requires resid == L2Cost(f.u, f.v, y, regL2, mask, count, k).resid
      requires scaleFactor == ScaleFactor() && scaleReg == ScaleReg()
      ensures Next(f) == Step(f.u, f.v, resid, scaleFactor, scaleReg, k)
    {
    }

    /** The cost check failed in each of the first n passes. */
    predicate NoneConvergedBefore(f: Factors, n: nat) {
      forall t :: 0 <= t < n ==> !Converged(Iterate(f, t))
    }

    /** If no pass before the n-th converges, the driver returns None. */
    lemma {:induction false} TrainNone(f: Factors, n: nat)
      requires NoneConvergedBefore(f, n)
      ensures Train(f, n) == None
    {
      TrainSomeIff(f, n);
    }

    lemma {:induction false} NoneConvergedExtend(f: Factors, n: nat)
      requires NoneConvergedBefore(f, n) && !Converged(Iterate(f, n))
      ensures NoneConvergedBefore(f, n + 1)
    {
    }

    /** f are the factors the loop holds at the start of pass i from f0:
        they have the right shapes, they are the i-th iterate, and no
        earlier pass passed the cost check. */
    predicate Reached(f0: Factors, i: nat, f: Factors) {
      Fits(f) && |f.v| == |f0.v| && f == Iterate(f0, i) && NoneConvergedBefore(f0, i)
    }

    /** The loop starts at pass 0 with the initial factors. */
    lemma {:induction false} ReachedStart(f0: Factors)
      requires Fits(f0)
      ensures Reached(f0, 0, f0)
    {
    }

    /** A pass whose cost check succeeds makes the driver return its factors. */
    lemma {:induction false} PassConverges(f0: Factors, n: nat, i: nat, f: Factors)
      requires i < n && Reached(f0, i, f) && Converged(f)
      ensures Train(f0, n) == Some(f)
    {
      TrainReturnsFirst(f0, n, i);
    }

    /** A pass whose cost check fails leads to pass i + 1 with Next(f). */
    lemma {:induction false} PassFails(f0: Factors, i: nat, f: Factors)
      requires Valid() && Reached(f0, i, f) && !Converged(f)
      ensures Reached(f0, i + 1, Next(f))
    {
      NoneConvergedExtend(f0, i);
      IterateNext(f0, i);
    }

    /** A pass whose cost check fails, with at least one observation,
        leads to pass i + 1 with the update step applied to its residual. */
    lemma {:induction false} PassSteps(f0: Factors, i: nat, f: Factors, resid: Matrix, scaleFactor: real, scaleReg: real)
      requires Valid() && Reached(f0, i, f) && !Converged(f) && count != 0.0
      requires resid == L2Cost(f.u, f.v, y, regL2, mask, count, k).resid
      requires scaleFactor == ScaleFactor() && scaleReg == ScaleReg()
      ensures Reached(f0, i + 1, Step(f.u, f.v, resid, scaleFactor, scaleReg, k))
    {
      PassFails(f0, i, f);
      NextIsStep(f, resid, scaleFactor, scaleReg);
    }

    /** A pass whose cost check fails, with no observation, leads to pass
        i + 1 with the same factors. */
    lemma {:induction false} PassKeeps(f0: Factors, i: nat, f: Factors)
      requires Valid() && Reached(f0, i, f) && !Converged(f) && count == 0.0
      ensures Reached(f0, i + 1, f)
    {
      PassFails(f0, i, f);
      NextWithoutObservations(f);
    }

    /** When all n passes fail the driver returns None. */
    lemma {:induction false} PassesExhausted(f0: Factors, n: nat, f: Factors)
      requires Reached(f0, n, f)
      ensures Train(f0, n) == None
    {
      TrainNone(f0, n);
    }

    /** Pass t + 1 applies Next to the factors of pass t. */
    lemma {:induction false} IterateNext(f: Factors, t: nat)
      ensures Iterate(f, t + 1) == Next(Iterate(f, t))
    {
      IterLast(Next, f, t);
    }

    /** With no observation the factors are kept (see Next). */
    lemma {:induction false} NextWithoutObservations(f: Factors)
      requires count == 0.0
      ensures Next(f) == f
    {
    }
  }

  /** The run `matrix_factorization` makes for these arguments. */
  function RunOf(y: Matrix, k: nat, alpha: real, regL2: real, threshold: real, maskValue: real): (tr: Training)
    ensures tr.Valid() && tr.y == y && tr.k == k && tr.mask == GetMask(y, maskValue)
  {
    var mask := GetMask(y, maskValue);
    Training(y, mask, MatSum(mask), k, alpha, regL2, threshold)
  }

  /** A rating matrix holding nothing but the sentinel never yields factors. */
  lemma {:induction false} NoRatingsNoFactors(y: Matrix, k: nat, alpha: real, regL2: real, threshold: real, maskValue: real,
                           f: Factors, n: nat)
    requires AllMissing(y, maskValue)
    ensures RunOf(y, k, alpha, regL2, threshold, maskValue).Train(f, n) == None
  {
    NoObservationsIffAllMissing(y, maskValue);
    MaskSumIsObservedCount(y, maskValue);
    RunOf(y, k, alpha, regL2, threshold, maskValue).TrainWithoutObservations(f, n);
  }

  /** `matrix_factorization`, with the random initial factors u0 (users x K)
      and v0 (items x K) passed in. */
  method MatrixFactorization(y: Matrix, k: nat, alpha: real, regL2: real, numIters: nat,
                             threshold: real, maskValue: real, u0: Matrix, v0: Matrix)
    returns (r: Option<Factors>)
    requires IsMatrix(y, |y|, |v0|) && IsMatrix(u0, |y|, k) && IsMatrix(v0, |v0|, k)
    ensures r == RunOf(y, k, alpha, regL2, threshold, maskValue).Train(Factors(u0, v0), numIters)
    ensures r.Some? ==> IsMatrix(r.value.u, |y|, k) && IsMatrix(r.value.v, |v0|, k)
  {
    var mask := GetMask(y, maskValue);
    var count := MatSum(mask);
    MaskSumIsObservedCount(y, maskValue);
    if count < 0.0 {
      // The source returns None here, but a count of cells is never negative.
      assert false;
    }
    ghost var tr := Training(y, mask, count, k, alpha, regL2, threshold);
    assert tr == RunOf(y, k, alpha, regL2, threshold, maskValue);
    ghost var f0 := Factors(u0, v0);
    // With count 0 the source's alpha / count is infinite; it is never used
    // then (see Training.Next), so any value stands in for it.
    var scaleFactor := if count != 0.0 then alpha / count else 0.0;
    var scaleReg := alpha * regL2 * 0.5;
    assert scaleFactor == tr.ScaleFactor() && scaleReg == tr.ScaleReg();
    tr.ReachedStart(f0);
    var u, v := u0, v0;
    var exitMode := false;
    for i := 0 to numIters
      invariant tr.Reached(f0, i, Factors(u, v))
      invariant !exitMode
    {
      assert tr.Fits(Factors(u, v));
      var c := L2Cost(u, v, y, regL2, mask, count, k);
      if LessThan(c.err, threshold) {
        tr.PassConverges(f0, numIters, i, Factors(u, v));
        exitMode := true;
        break;
      }
      // With count 0 the source's update yields NaN factors; see Training.Next.
      if count != 0.0 {
        tr.PassSteps(f0, i, Factors(u, v), c.resid, scaleFactor, scaleReg);
        var next := Step(u, v, c.resid, scaleFactor, scaleReg, k);
        u, v := next.u, next.v;
      } else {
        tr.PassKeeps(f0, i, Factors(u, v));
      }
    }
    if exitMode {
      r := Some(Factors(u, v));
    } else {
      tr.PassesExhausted(f0, numIters, Factors(u, v));
      r := None;
    }
  }
}
