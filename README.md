# rec_sys: a verified model of the rating engine

This project models `src/rec_sys.rs`, the core of a small recommender
library built on `ndarray`. It has two parts.

- **Matrix factorisation.** `matrix_factorization` factors a users × items
  rating matrix `y`, whose missing ratings hold a sentinel `mask_value`, into
  a user matrix `u` (users × K) and an item matrix `v` (items × K). It runs
  full-batch gradient descent on a regularised l2 cost. It returns the factors
  as soon as the cost drops below a threshold, and None when `num_iters`
  passes run out.
- **Similarity engine.** `RecEngine` keeps the ratings, their 0/1 mask and a
  row-centred copy. It computes the cosine similarity of two users' centred
  rows, the k users most similar to a user, and a prediction that is only
  implemented for fully observed matrices.

The Dafny files:

- `ndarray.dfy` (module `NdArray`): the part of `ndarray` that is used. It
  has matrices as sequences of rows over `real`, sums, dot products,
  products, transposes and element-wise operations. It also has `F64`, an
  f64 result that is a number or NaN.
- `driver.dfy` (module `Driver`): the control flow of the descent loop over
  any state, as the function `Run`. The loop makes at most n passes. Each
  pass checks the cost first and returns the state it checked.
- `rec_sys.dfy` (module `RecSys`): `get_mask`, `l2_cost`, the update step,
  the run as the function `Training.Train`, and the method
  `MatrixFactorization`. The method has the source's loop and is proved
  equal to `Train`.
- `ranking.dfy` (module `Ranking`): the order that `get_top_k_sim` sorts in.
  This is descending lexicographic order on (score, row). The module has an
  insertion sort, with proofs that it permutes, that it sorts, and that any
  descending permutation equals its result.
- `rec_engine.dfy` (module `Engine`): `mask_and_center`, `RecEngine`, `new`,
  `sim`, `get_top_k_sim`, `get_top_k_sim_users` and
  `get_prediction_cosine`.

Where the code differs from its own comments or from the obvious reading,
the model follows the code:

- **The no-ratings guard never fires.** The guard `count < 0.` is meant to
  catch "not a single rating", but a count of cells is never negative
  (`MaskSumIsObservedCount`). With no rating every cost is `0.0 / 0.0`, which
  is NaN. NaN never passes the check, so the function returns None after all
  passes (`TrainWithoutObservations`, `NoRatingsNoFactors`).
- **The loop ends in one of two ways.** It stops when the cost drops below
  the threshold, which returns the factors, or when `num_iters` passes run
  out, which returns None.
- **The row average includes the sentinel.** The centring average sums the
  whole row, sentinel entries included (`RowSumWithSentinel`), and divides by
  0.001 plus the number of observed entries. With sentinel 0, a centred row
  sums to 0.001 times its average rather than to 0
  (`CenteredRowSumZeroSentinel`).
- **The weight-decay factor is half the gradient.** The update subtracts
  `alpha * reg_l2 * 0.5 * u`, which is half of the gradient of the cost's
  `0.5 * reg_l2 * Σu²` term. The model keeps the source's factor
  (`StepUserEntry`, `StepItemEntry`).

A panic inside an operation is modelled as None when the input data decides
it. That covers the NaN comparison in the top-k sort and the `todo!()` in the
prediction. A panic that comes from a bad argument becomes a precondition:
`get_top_k_sim` with a user index out of range is one.

## Model

| member | source | states |
|---|---|---|
| RecSys.MaskRow | src/rec_sys.rs:30 | one mask row: 1.0 exactly where the rating is not the sentinel, 0.0 exactly where it is |
| RecSys.GetMask | src/rec_sys.rs:29-31 | the mask has y's shape, with 1.0 exactly at observed cells and 0.0 exactly at sentinel cells |
| RecSys.MaskRowSum | src/rec_sys.rs:46 | a mask row sums to the number of observed entries of the row |
| RecSys.MaskSumIsObservedCount | src/rec_sys.rs:45-50 | `count = mask.sum()` is the number of observed cells, so it is never negative and the `count < 0.` guard is dead |
| RecSys.NoObservedInRow | src/rec_sys.rs:47-49 | a row has no observed entry if and only if every entry is the sentinel |
| RecSys.NoObservationsIffAllMissing | src/rec_sys.rs:47-49 | count is 0 if and only if every cell holds the sentinel |
| RecSys.Residual | src/rec_sys.rs:14 | the residual is (y − u·vᵗ) times the mask, cell by cell, with y's shape |
| RecSys.L2Error | src/rec_sys.rs:16-21 | the error is NaN exactly when count is 0 (the source's `0.0 / 0.0`) |
| RecSys.L2Cost | src/rec_sys.rs:13-22 | the residual is 0 where the mask is 0 and y[i][j] − u[i]·v[j] where it is 1; the error is NaN if and only if count is 0 |
| RecSys.ResidualOnMask | src/rec_sys.rs:14 | on the mask of y the residual is the prediction error at observed cells and 0 at sentinel cells |
| RecSys.ResidualSquaresOnMask | src/rec_sys.rs:16 | the squared residual sums to the reference squared error over the observed cells |
| RecSys.L2CostIsObservedError | src/rec_sys.rs:13-22 | on the mask of y the cost is 0.5·(observed squared error / number of observed cells + reg_l2·(Σu² + Σv²)) |
| RecSys.ResidualErrorOnMask | src/rec_sys.rs:16-21 | on the mask of y the error of the residual is 0.5·(observed squared error / number of observed cells + reg_l2·(Σu² + Σv²)) |
| RecSys.L2ErrorNonNegative | src/rec_sys.rs:16-21 | with count > 0 and reg_l2 ≥ 0 the error is a number and not negative |
| RecSys.L2CostNonNegative | src/rec_sys.rs:13-22 | with at least one rating and reg_l2 ≥ 0 the cost is a number and not negative |
| RecSys.Step | src/rec_sys.rs:69-73 | the update keeps the shapes of u (users × K) and v (items × K) |
| RecSys.StepUserEntry | src/rec_sys.rs:69-72 | u' = u + scale_factor·(delta·v) − scale_reg·u, entry by entry |
| RecSys.StepItemEntry | src/rec_sys.rs:69-73 | v' = v + scale_factor·(deltaᵗ·u) − scale_reg·v, entry by entry, using u from before the step |
| RecSys.Training.Next | src/rec_sys.rs:61-73 | a pass that does not exit keeps the factor shapes |
| RecSys.Training.Converged | src/rec_sys.rs:61-63 | the check `err < threshold` never succeeds without a rating, since the cost is then NaN |
| RecSys.Training.Train | src/rec_sys.rs:58-83 | factors returned by the run pass the cost check |
| RecSys.Training.IterateFits | src/rec_sys.rs:59-75 | every number of passes keeps the factor shapes |
| RecSys.Training.TrainSomeIff | src/rec_sys.rs:58-83 | the run returns factors if and only if the cost check succeeds after some t < num_iters passes |
| RecSys.Training.TrainReturnsFirst | src/rec_sys.rs:59-78 | the run returns the factors of the first pass whose check succeeds, exactly as checked |
| RecSys.Training.TrainWithoutObservations | src/rec_sys.rs:46-67 | with count 0 the cost is NaN, which never passes the check, so the run returns None |
| RecSys.Training.TrainNone | src/rec_sys.rs:77-82 | if no pass before the n-th converges, the run returns None (num_iters = 0 included) |
| RecSys.Training.PassConverges | src/rec_sys.rs:63-67 | a pass whose check succeeds makes the run return that pass's factors |
| RecSys.Training.PassFails | src/rec_sys.rs:63-73 | a pass whose check fails leads to the next pass with the updated factors |
| RecSys.Training.PassSteps | src/rec_sys.rs:55-73 | with at least one rating, a failed check leads to the next pass with the step applied to this pass's residual |
| RecSys.Training.PassKeeps | src/rec_sys.rs:46-73 | with no rating, a failed check leads to the next pass, in which the model keeps the factors |
| RecSys.Training.PassesExhausted | src/rec_sys.rs:79-82 | when every pass has failed, the run returns None |
| RecSys.Training.IterateNext | src/rec_sys.rs:72-73 | pass t + 1 holds the update of pass t's factors |
| RecSys.RunOf | src/rec_sys.rs:45-46 | the run uses the mask of y and its sum as count |
| RecSys.NoRatingsNoFactors | src/rec_sys.rs:45-50 | a rating matrix that holds only the sentinel never yields factors |
| RecSys.MatrixFactorization | src/rec_sys.rs:41-84 | the method returns exactly what the run returns from the given initial factors, and returned factors have shapes users × K and items × K |
| Driver.IterLast | src/rec_sys.rs:59-75 | t + 1 passes apply one more step after t passes |
| Driver.RunSomeHasPass | src/rec_sys.rs:59-67 | if the loop returns a state, some pass t < n passed the check |
| Driver.RunSomeStops | src/rec_sys.rs:63-67 | a state the loop returns passed the check |
| Driver.PassMakesRunSome | src/rec_sys.rs:59-67 | if some pass t < n passes the check, the loop returns a state |
| Driver.RunSomeIff | src/rec_sys.rs:58-83 | the loop returns a state if and only if some pass t < n passes the check |
| Driver.RunReturnsFirst | src/rec_sys.rs:59-78 | the loop returns the state of the first pass that passes the check |
| Engine.RowMean | src/rec_sys.rs:104 | the row average times (0.001 + number of observed entries) is the sum of the whole row |
| Engine.Broadcast | src/rec_sys.rs:105 | each entry of row i of the broadcast column is the column's entry i |
| Engine.MaskAndCenter | src/rec_sys.rs:99-107 | returns the mask of y, and a centred matrix of y's shape that is 0 at sentinel cells and y[i][j] minus the row average elsewhere |
| Engine.RowSumWithSentinel | src/rec_sys.rs:104 | the row sum is the observed sum plus the sentinel once per missing entry |
| Engine.CenteredRowSum | src/rec_sys.rs:105 | a centred row sums to its observed sum minus the number of observed entries times the average |
| Engine.ZeroSentinelRowSum | src/rec_sys.rs:104-105 | with sentinel 0, a centred row sums to the row sum minus the number of observed entries times the average |
| Engine.ZeroSentinelMean | src/rec_sys.rs:104-105 | with sentinel 0, a row centred about its average sums to 0.001 times the average |
| Engine.ZeroSentinelCenteredSum | src/rec_sys.rs:104-105 | with sentinel 0, a row centred entry by entry about its average sums to 0.001 times the average |
| Engine.CenteredRowSumZeroSentinel | src/rec_sys.rs:99-107 | with sentinel 0, each row of the centred matrix sums to 0.001 times the row average: near zero, not zero |
| Engine.New | src/rec_sys.rs:94-97 | the engine keeps the ratings and boundary, with the mask and centred matrix of the ratings; it is valid, so the centred matrix is 0 wherever the mask is |
| Engine.RecEngine.SimSymmetric | src/rec_sys.rs:110-114 | sim(i, j) = sim(j, i) |
| Engine.RecEngine.Sim | src/rec_sys.rs:110-114 | sim(i, j) is NaN exactly when the product of the two norms is 0; otherwise sim(i, j) times that product is the dot product of the centred rows |
| Engine.RecEngine.SimSelf | src/rec_sys.rs:110-114 | sim(i, i) is NaN when the squared norm of the centred row is 0 and 1 otherwise |
| Engine.Candidates | src/rec_sys.rs:118-123 | after n rows the loop has pushed n − 1 pairs when i < n and n otherwise, each (score of row, row) for a row below n other than i |
| Engine.CandidatesIncreasing | src/rec_sys.rs:118-123 | the pairs are pushed in strictly increasing row order |
| Engine.CandidatesComplete | src/rec_sys.rs:118-123 | every row below n other than i has its pair among the pushed pairs |
| Engine.RecEngine.TopK | src/rec_sys.rs:117-128 | a result of `get_top_k_sim` that is not a panic has at most k entries |
| Engine.RecEngine.GetTopKSim | src/rec_sys.rs:117-128 | the method's loop collects exactly the candidates for the similarities of i to every row, and the result is their descending sort cut to k, or None where the sort panics |
| Engine.CandidatesNaN | src/rec_sys.rs:118-125 | some pushed pair has a NaN score exactly when some row other than i has one |
| Engine.CandidatesDominated | src/rec_sys.rs:118-126 | a row other than i that is left off the first k sorted pairs is behind each of them |
| Engine.SortedCandidates | src/rec_sys.rs:125 | unless the sort panics, the sorted candidates are a descending permutation of the candidates |
| Engine.RecEngine.TopKNoneIff | src/rec_sys.rs:125 | the sort panics if and only if there are at least 3 users and some other user's similarity to i is NaN |
| Engine.RecEngine.TopKLength | src/rec_sys.rs:119-126 | the list has min(k, rows − 1) entries (0 when there are no rows) |
| Engine.RecEngine.TopKPairs | src/rec_sys.rs:119-127 | every entry is (sim(i, row), row) for a row other than i, and no row appears twice |
| Engine.RecEngine.TopKSorted | src/rec_sys.rs:125 | the list is in strictly descending (similarity, row) order |
| Engine.RecEngine.TopKDominates | src/rec_sys.rs:125-126 | every listed user is ahead of every other user left off the list |
| Engine.RecEngine.TopKAnySort | src/rec_sys.rs:125-126 | the list is the first k entries of any descending permutation of the candidates, whatever the sort algorithm |
| Engine.RecEngine.Users | src/rec_sys.rs:132 | the map to `t.1`: the same length, and entry p is the row of pair p |
| Engine.RecEngine.GetTopKSimUsers | src/rec_sys.rs:131-133 | returns the row indices of the top-k list, in its order, and None exactly when it is None |
| Engine.RecEngine.TopKUsersDistinct | src/rec_sys.rs:131-133 | the returned users are distinct rows other than i |
| Engine.RecEngine.GetPredictionCosine | src/rec_sys.rs:136-151 | returns the ratings unchanged if and only if no cell is missing; otherwise it reaches `todo!()` (None) |
| Engine.PredictionNeedsNoMissing | src/rec_sys.rs:136-151 | for an engine built by `new`, the prediction has no missing cell if and only if no rating equals the mask value |
| Ranking.AboveTotal | src/rec_sys.rs:125 | two numeric pairs with different rows are ordered one way, and never both ways |
| Ranking.Truncate | src/rec_sys.rs:126 | `truncate(k)` keeps the first min(k, len) entries unchanged |
| Ranking.Sort | src/rec_sys.rs:125 | the sort keeps the number of pairs |
| Ranking.InsertPermutes | src/rec_sys.rs:125 | insertion adds exactly one copy of the element |
| Ranking.SortPermutes | src/rec_sys.rs:125 | sorting keeps the multiset of pairs |
| Ranking.InsertSorted | src/rec_sys.rs:125 | inserting a numeric pair with a new row into a descending list keeps it descending |
| Ranking.SortSorted | src/rec_sys.rs:125 | the sort of NaN-free pairs with distinct rows is strictly descending |
| Ranking.SortedUnique | src/rec_sys.rs:125 | two strictly descending lists with the same entries are equal |
| Ranking.SortIsUnique | src/rec_sys.rs:125 | any descending permutation of NaN-free pairs with distinct rows equals Sort's result |
| NdArray.DotCommutes | src/rec_sys.rs:113 | `a.dot(b) = b.dot(a)` |
| NdArray.SumSqNonNegative | src/rec_sys.rs:16-20 | the sum of squares of all entries is never negative |

## Left out

- Random initialisation (lines 53-54): the uniform random factors are parameters `u0`, `v0` of `MatrixFactorization`.
- Floating point: values are reals. Rounding, overflow and infinities are not modelled. NaN is modelled only where the source computes `0.0 / 0.0`: the cost with count 0, and `sim` with a zero-norm row.
- `f64::sqrt` is a parameter `sqrt` of the similarity members. `SimSelf` assumes only that it is a square root at the squared norm.
- Engine.RecEngine.SimSymmetric: the range of `sim` in [-1, 1] (Cauchy–Schwarz) is not proved.
- RecSys.Training.Next: with count 0, `alpha / count` is infinite (NaN when alpha is 0). If y has at least one cell, the update multiplies a zero residual entry by it, and the factors become NaN, which reals cannot hold. If y has no cell (0 rows or 0 columns), the residual is empty and the source's update is u' = u − scale_reg·u and v' = v − scale_reg·v. In both cases the model keeps the factors instead. The outcome, None, is the same, because every cost is then NaN (`TrainWithoutObservations`).
- PassKeeps: states the next pass under the same count-0 simplification as `Training.Next`; the source's factors after that pass are NaN or decayed by scale_reg, not unchanged.
- The `println!` messages (lines 62, 65, 80) are output only and are left out.
- Engine.RecEngine.GetTopKSim: a user index i ≥ rows with rows > 0 makes `index_axis` panic. It is a precondition, not a None.
- Engine.RecEngine.Sim: an index i or j ≥ rows makes `index_axis` in `sim` panic. It is a precondition, not a None.
- Engine.RecEngine.GetPredictionCosine: the cell write `pred[[i,j]] = 1.` just before `todo!()` is never returned and is not modelled.
- The stored `k` of `RecEngine` is kept by `New` but not used by any other member, as in the source.
- `src/rating.rs`, `src/user.rs` and `src/main.rs` are not part of this model.
