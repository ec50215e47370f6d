/** `RecEngine`: a rating matrix with its mask and its row-centred copy,
    the centred cosine similarity between two users, the top-k most similar
    users, and the cosine prediction. The engine is never changed after
    `new`, so it is a value. f64 `sqrt` is a parameter of the members that
    use it. */
module Engine {
  import opened NdArray
  import opened Driver
  import opened RecSys
  import opened Ranking

  // ---------------------------------------------------------------------
  // Centring

  /** Sum of the observed (non-sentinel) entries of a row. */
  function ObservedSum(row: Vector, maskValue: real): real {
    if row == [] then 0.0
    else
      var last := if row[|row| - 1] != maskValue then row[|row| - 1] else 0.0;
      ObservedSum(row[..|row| - 1], maskValue) + last
  }

  /** The row average of `mask_and_center`: the sum of the WHOLE row (the
      sentinel entries too) over 0.001 plus the row's mask sum. */
  function RowMean(row: Vector, maskValue: real): (m: real)
    ensures m * (0.001 + Observed(row, maskValue) as real) == Sum(row)
  {
    var count := Sum(MaskRow(row, maskValue));
    MaskRowSum(row, maskValue);
    DivTimes(Sum(row), 0.001 + count);
    Sum(row) / (0.001 + count)
  }

  lemma {:induction false} DivTimes(s: real, d: real)
    requires d != 0.0
    ensures s / d * d == s
  {
  }

  /** `insert_axis(Axis(1))` of a column of per-row values, broadcast over
      the shape of m. */
  function Broadcast(col: Vector, m: Matrix): (r: Matrix)
    requires |col| == |m|
    ensures SameShape(r, m)
    ensures forall i, j :: 0 <= i < |m| && 0 <= j < |m[i]| ==> r[i][j] == col[i]
  {
    seq(|m|, i requires 0 <= i < |m| => seq(|m[i]|, j requires 0 <= j < |m[i]| => col[i]))
  }

  /** `mask_and_center`: the mask of y, and y less its row averages, times
      the mask. */
  function MaskAndCenter(y: Matrix, maskValue: real): (r: (Matrix, Matrix))
    ensures r.0 == GetMask(y, maskValue)
    ensures SameShape(r.1, y)
    ensures forall i, j :: 0 <= i < |y| && 0 <= j < |y[i]| ==>
      r.1[i][j] == if y[i][j] == maskValue then 0.0 else y[i][j] - RowMean(y[i], maskValue)
  {
    var mask := GetMask(y, maskValue);
    var rowAvg := seq(|y|, i requires 0 <= i < |y| => RowMean(y[i], maskValue));
    (mask, Hadamard(Sub(y, Broadcast(rowAvg, y)), mask))
  }

  /** The row sum `sum_axis(Axis(1))` counts the sentinel entries as
      ratings: it is the observed sum plus the sentinel once per missing
      entry. With sentinel 0 it is the observed sum. */
  lemma {:induction false} RowSumWithSentinel(row: Vector, maskValue: real)
    ensures Sum(row) == ObservedSum(row, maskValue) + (|row| - Observed(row, maskValue)) as real * maskValue
  {
    if row != [] {
      var n := |row|;
      RowSumWithSentinel(row[..n - 1], maskValue);
    }
  }

  /** A centred row sums to its observed sum less the number of observed
      entries times the row average a. */
  lemma {:induction false} CenteredRowSum(row: Vector, c: Vector, maskValue: real, a: real)
    requires |c| == |row|
    requires forall j :: 0 <= j < |row| ==> c[j] == if row[j] == maskValue then 0.0 else row[j] - a
    ensures Sum(c) == ObservedSum(row, maskValue) - Observed(row, maskValue) as real * a
  {
    if row != [] {
      var n := |row|;
      CenteredRowSum(row[..n - 1], c[..n - 1], maskValue, a);
    }
  }

  /** The arithmetic behind CenteredRowSumZeroSentinel: if a·(0.001 + n)
      is s, then s − n·a is 0.001·a. */
  lemma {:induction false} CenteredMeanArith(s: real, n: real, a: real, sc: real)
    requires a * (0.001 + n) == s && sc == s - n * a
    ensures sc == 0.001 * a
  {
  }

  /** With sentinel 0 (as the program's own example uses), a centred row
      sums to 0.001 times its row average: close to zero, but not zero,
      because of the 0.001 guard in the denominator of the average. */
  lemma {:induction false} CenteredRowSumZeroSentinel(y: Matrix, i: nat)
    requires i < |y|
    ensures Sum(MaskAndCenter(y, 0.0).1[i]) == 0.001 * RowMean(y[i], 0.0)
  {
    CenteredRowEntries(y, i);
    ZeroSentinelCenteredSum(y[i], MaskAndCenter(y, 0.0).1[i], RowMean(y[i], 0.0));
  }

  /** Row i of the centred matrix, entry by entry, with sentinel 0. */
  lemma {:induction false} CenteredRowEntries(y: Matrix, i: nat)
    requires i < |y|
    ensures |MaskAndCenter(y, 0.0).1[i]| == |y[i]|
    ensures forall j :: 0 <= j < |y[i]| ==>
      MaskAndCenter(y, 0.0).1[i][j] == if y[i][j] == 0.0 then 0.0 else y[i][j] - RowMean(y[i], 0.0)
  {
  }

  /** CenteredRowSumZeroSentinel for one row, its average a and its
      centred copy c. */
  lemma {:induction false} ZeroSentinelCenteredSum(row: Vector, c: Vector, a: real)
    requires a == RowMean(row, 0.0)
    requires |c| == |row|
    requires forall j :: 0 <= j < |row| ==> c[j] == if row[j] == 0.0 then 0.0 else row[j] - a
    ensures Sum(c) == 0.001 * a
  {
    ZeroSentinelRowSum(row, c, a);
    ZeroSentinelMean(row, a, Sum(c));
  }

  /** The row sum less the observed count times the row average is 0.001
      times the average. */
  lemma {:induction false} ZeroSentinelMean(row: Vector, a: real, sc: real)
    requires a == RowMean(row, 0.0)
    requires sc == Sum(row) - Observed(row, 0.0) as real * a
    ensures sc == 0.001 * a
  {
    CenteredMeanArith(Sum(row), Observed(row, 0.0) as real, a, sc);
  }

  /** With sentinel 0, a row centred about a sums to the row sum less the
      number of observed entries times a. */
  lemma {:induction false} ZeroSentinelRowSum(row: Vector, c: Vector, a: real)
    requires |c| == |row|
    requires forall j :: 0 <= j < |row| ==> c[j] == if row[j] == 0.0 then 0.0 else row[j] - a
    ensures Sum(c) == Sum(row) - Observed(row, 0.0) as real * a
  {
    CenteredRowSum(row, c, 0.0, a);
    RowSumWithSentinel(row, 0.0);
  }

  // -------------------------------------------------------------------
  // The candidate list of `get_top_k_sim`

  /** The pairs (scores[row], row) that the loop of `get_top_k_sim` pushes
      for rows 0 .. n - 1: every row but i, in row order. */
  function Candidates(scores: seq<F64>, i: nat, n: nat): (r: seq<Scored>)
    requires n <= |scores|
    ensures |r| == if i < n then n - 1 else n
    ensures forall p :: 0 <= p < |r| ==> r[p].1 < n && r[p].1 != i && r[p].0 == scores[r[p].1]
    decreases n
  {
    if n == 0 then []
    else
      var front := Candidates(scores, i, n - 1);
      if n - 1 != i then front + [(scores[n - 1], n - 1)] else front
  }

  /** Rows strictly increase along s. */
  predicate RowsIncreasing(s: seq<Scored>) {
    forall p, q :: 0 <= p < q < |s| ==> s[p].1 < s[q].1
  }

  /** The candidates come in strictly increasing row order. */
  lemma {:induction false} CandidatesIncreasing(scores: seq<F64>, i: nat, n: nat)
    requires n <= |scores|
    ensures RowsIncreasing(Candidates(scores, i, n))
    decreases n
  {
    if n > 0 {
      CandidatesIncreasing(scores, i, n - 1);
      var front := Candidates(scores, i, n - 1);
      if n - 1 != i {
        var r := front + [(scores[n - 1], n - 1)];
        forall p, q | 0 <= p < q < |r|
          ensures r[p].1 < r[q].1
        {
          assert r[p] == front[p];
          if q < |front| {
            assert r[q] == front[q];
          }
        }
      }
    }
  }

  /** Every row but i has its pair among the candidates. */
  lemma {:induction false} CandidatesComplete(scores: seq<F64>, i: nat, n: nat)
    requires n <= |scores|
    ensures forall row :: 0 <= row < n && row != i ==> (scores[row], row) in Candidates(scores, i, n)
    decreases n
  {
    if n > 0 {
      CandidatesComplete(scores, i, n - 1);
    }
  }

  /** The sorted candidates are a descending permutation of the candidates
      whenever the sort does not panic. */
  lemma {:induction false} SortedCandidates(scores: seq<F64>, i: nat, n: nat)
    requires n <= |scores|
    requires var c := Candidates(scores, i, n); !(|c| >= 2 && HasNaN(c))
    ensures multiset(Sort(Candidates(scores, i, n))) == multiset(Candidates(scores, i, n))
    ensures SortedDesc(Sort(Candidates(scores, i, n)))
  {
    var c := Candidates(scores, i, n);
    SortPermutes(c);
    CandidatesIncreasing(scores, i, n);
    if |c| >= 2 {
      SortSorted(c);
    } else {
      assert |Sort(c)| == |multiset(c)| == |c|;
    }
  }

  /** Some candidate has a NaN score exactly when some row other than i
      has one. */
  lemma {:induction false} CandidatesNaN(scores: seq<F64>, i: nat, n: nat)
    requires n <= |scores|
    ensures HasNaN(Candidates(scores, i, n)) <==> exists row :: 0 <= row < n && row != i && scores[row].NaN?
  {
    var c := Candidates(scores, i, n);
    if row :| 0 <= row < n && row != i && scores[row].NaN? {
      CandidatesComplete(scores, i, n);
      assert (scores[row], row) in c;
      var p :| 0 <= p < |c| && c[p] == (scores[row], row);
      assert c[p].0.NaN?;
    }
  }

  /** A row other than i that is left off the first k sorted candidates is
      behind every one of them. */
  lemma {:induction false} CandidatesDominated(scores: seq<F64>, i: nat, n: nat, k: nat, row: nat)
    requires n <= |scores|
    requires var c := Candidates(scores, i, n); !(|c| >= 2 && HasNaN(c))
    requires row < n && row != i
    requires var r := Truncate(Sort(Candidates(scores, i, n)), k);
      forall p :: 0 <= p < |r| ==> r[p].1 != row
    ensures var r := Truncate(Sort(Candidates(scores, i, n)), k);
      forall p :: 0 <= p < |r| ==> Above(r[p], (scores[row], row))
  {
    var c := Candidates(scores, i, n);
    var r := Truncate(Sort(c), k);
    SortedCandidates(scores, i, n);
    CandidatesComplete(scores, i, n);
    assert (scores[row], row) in c;
    var p0 :| 0 <= p0 < |c| && c[p0] == (scores[row], row);
    var q := PermutationIndex(c, Sort(c), p0);
    assert q >= |r|;
  }

  // ---------------------------------------------------------------------
  // The engine

  /** `RecEngine`: the ratings, their mask, the centred ratings and the
      default k (stored and not used by the other members). */
  datatype RecEngine = RecEngine(rating: Matrix, mask: Matrix, centered: Matrix, k: nat)
  {
    /** What `new` establishes: rectangular ratings, a 0/1 mask and a
        centred matrix of the same shape, the latter 0 where the mask is. */
    predicate Valid() {
      IsRect(rating) && SameShape(mask, rating) && SameShape(centered, rating) && IsMask(mask) &&
      forall i, j :: 0 <= i < |mask| && 0 <= j < |mask[i]| && mask[i][j] == 0.0 ==> centered[i][j] == 0.0
    }

    /** `sim`: the cosine of the centred rows i and j, NaN when a norm is 0:
        otherwise the value times the product of the norms is the dot
        product of the rows. */
    function Sim(sqrt: real -> real, i: nat, j: nat): (r: F64)
      requires Valid() && i < |centered| && j < |centered|
      ensures r.NaN? <==> sqrt(Dot(centered[i], centered[i])) * sqrt(Dot(centered[j], centered[j])) == 0.0
      ensures r.Num? ==>
        r.val * (sqrt(Dot(centered[i], centered[i])) * sqrt(Dot(centered[j], centered[j]))) == Dot(centered[i], centered[j])
    {
      var vi := centered[i];
      var vj := centered[j];
      var den := sqrt(Dot(vi, vi)) * sqrt(Dot(vj, vj));
      if den == 0.0 then NaN
      else
        DivTimes(Dot(vi, vj), den);
        Num(Dot(vi, vj) / den)
    }

    /** Similarity does not depend on the order of the two users. */
    lemma {:induction false} SimSymmetric(sqrt: real -> real, i: nat, j: nat)
      requires Valid() && i < |centered| && j < |centered|
      ensures Sim(sqrt, i, j) == Sim(sqrt, j, i)
    {
      DotCommutes(centered[i], centered[j]);
    }

    /** A user compared with themself: NaN when their centred row is all
        zero, 1 otherwise (for a sqrt that is a square root at the squared
        norm). */
    lemma {:induction false} SimSelf(sqrt: real -> real, i: nat)
      requires Valid() && i < |centered|
      requires IsSqrtOf(sqrt, Dot(centered[i], centered[i]))
      ensures Sim(sqrt, i, i) == if Dot(centered[i], centered[i]) == 0.0 then NaN else Num(1.0)
    {
      var q := Dot(centered[i], centered[i]);
      var den := sqrt(q) * sqrt(q);
      assert den == q;
      assert Sim(sqrt, i, i) == if den == 0.0 then NaN else Num(q / den);
      if q != 0.0 {
        assert q / q == 1.0;
      }
    }

    // -------------------------------------------------------------------
    // Top-k similar users

    /** The similarity of user i to every row, in row order. */
    function SimRow(sqrt: real -> real, i: nat): (s: seq<F64>)
      requires Valid() && (i < |centered| || |centered| == 0)
      ensures |s| == |centered| && forall row :: 0 <= row < |centered| ==> s[row] == Sim(sqrt, i, row)
    {
      seq(|centered|, row requires 0 <= row < |centered| => Sim(sqrt, i, row))
    }

    /** The result of `get_top_k_sim(i, k)`: the other users' pairs sorted
        in descending order and cut to k; None where the sort's `unwrap`
        panics, that is when two or more pairs are compared and one of
        them has a NaN score. */
    function TopK(sqrt: real -> real, i: nat, k: nat): (r: Option<seq<Scored>>)
      requires Valid() && (i < |centered| || |centered| == 0)
      ensures r.Some? ==> |r.value| <= k
    {
      var c := Candidates(SimRow(sqrt, i), i, |centered|);
      if |c| >= 2 && HasNaN(c) then None else Some(Truncate(Sort(c), k))
    }

    /** `get_top_k_sim`: collect the pairs of the other users, then sort and
        truncate them. */
    method GetTopKSim(sqrt: real -> real, i: nat, k: nat) returns (r: Option<seq<Scored>>)
      requires Valid() && (i < |centered| || |centered| == 0)
      ensures r == TopK(sqrt, i, k)
    {
      ghost var scores := SimRow(sqrt, i);
      var output: seq<Scored> := [];
      for row := 0 to |centered|
        invariant output == Candidates(scores, i, row)
      {
        if row != i {
          output := output + [(Sim(sqrt, i, row), row)];
        }
      }
      if |output| >= 2 && HasNaN(output) {
        return None;
      }
      r := Some(Truncate(Sort(output), k));
    }

    /** `get_top_k_sim` panics exactly when at least three users exist (so
        that at least two pairs are compared) and some other user's
        similarity to i is NaN. */
    lemma {:induction false} TopKNoneIff(sqrt: real -> real, i: nat, k: nat)
      requires Valid() && (i < |centered| || |centered| == 0)
      ensures TopK(sqrt, i, k).None? <==>
        |centered| >= 3 && exists row :: 0 <= row < |centered| && row != i && Sim(sqrt, i, row).NaN?
    {
      var s := SimRow(sqrt, i);
      CandidatesNaN(s, i, |centered|);
      if row :| 0 <= row < |centered| && row != i && s[row].NaN? {
        assert Sim(sqrt, i, row).NaN?;
      }
      if row :| 0 <= row < |centered| && row != i && Sim(sqrt, i, row).NaN? {
        assert s[row].NaN?;
      }
    }

    /** The list holds min(k, rows - 1) users: every user but i, cut to k. */
    lemma {:induction false} TopKLength(sqrt: real -> real, i: nat, k: nat)
      requires Valid() && (i < |centered| || |centered| == 0)
      requires TopK(sqrt, i, k).Some?
      ensures |TopK(sqrt, i, k).value| ==
        if |centered| == 0 then 0 else if k < |centered| - 1 then k else |centered| - 1
    {
      var c := Candidates(SimRow(sqrt, i), i, |centered|);
      SortPermutes(c);
      assert |Sort(c)| == |multiset(c)| == |c|;
    }

    /** Each entry is another user's row with its similarity to i, and no
        user appears twice. */
    lemma {:induction false} TopKPairs(sqrt: real -> real, i: nat, k: nat)
      requires Valid() && (i < |centered| || |centered| == 0)
      requires TopK(sqrt, i, k).Some?
      ensures var r := TopK(sqrt, i, k).value;
        forall p :: 0 <= p < |r| ==> r[p].1 < |centered| && r[p].1 != i && r[p].0 == Sim(sqrt, i, r[p].1)
      ensures DistinctRows(TopK(sqrt, i, k).value)
    {
      var s := SimRow(sqrt, i);
      var c := Candidates(s, i, |centered|);
      var r := TopK(sqrt, i, k).value;
      SortedCandidates(s, i, |centered|);
      forall p | 0 <= p < |r|
        ensures r[p].1 < |centered| && r[p].1 != i && r[p].0 == Sim(sqrt, i, r[p].1)
      {
        var q := PermutationIndex(Sort(c), c, p);
      }
      forall p, q | 0 <= p < q < |r|
        ensures r[p].1 != r[q].1
      {
        assert Above(Sort(c)[p], Sort(c)[q]);
      }
    }

    /** The list is in descending (similarity, row) order. */
    lemma {:induction false} TopKSorted(sqrt: real -> real, i: nat, k: nat)
      requires Valid() && (i < |centered| || |centered| == 0)
      requires TopK(sqrt, i, k).Some?
      ensures SortedDesc(TopK(sqrt, i, k).value)
    {
      SortedCandidates(SimRow(sqrt, i), i, |centered|);
    }

    /** Every listed user is ahead, in (similarity, row) order, of every
        other user left off the list: the list holds the k best. */
    lemma {:induction false} TopKDominates(sqrt: real -> real, i: nat, k: nat, row: nat)
      requires Valid() && (i < |centered| || |centered| == 0)
      requires TopK(sqrt, i, k).Some?
      requires row < |centered| && row != i
      requires forall p :: 0 <= p < |TopK(sqrt, i, k).value| ==> TopK(sqrt, i, k).value[p].1 != row
      ensures forall p :: 0 <= p < |TopK(sqrt, i, k).value| ==>
        Above(TopK(sqrt, i, k).value[p], (Sim(sqrt, i, row), row))
    {
      var s := SimRow(sqrt, i);
      CandidatesDominated(s, i, |centered|, k, row);
      assert s[row] == Sim(sqrt, i, row);
    }

    /** The list is the first k entries of ANY descending permutation of
        the candidates, so it does not depend on the sorting algorithm. */
    lemma {:induction false} TopKAnySort(sqrt: real -> real, i: nat, k: nat, t: seq<Scored>)
      requires Valid() && (i < |centered| || |centered| == 0)
      requires TopK(sqrt, i, k).Some?
      requires multiset(t) == multiset(Candidates(SimRow(sqrt, i), i, |centered|)) && SortedDesc(t)
      ensures TopK(sqrt, i, k).value == Truncate(t, k)
    {
      var c := Candidates(SimRow(sqrt, i), i, |centered|);
      SortedCandidates(SimRow(sqrt, i), i, |centered|);
      SortedUnique(t, Sort(c));
    }

    /** The row indices of a list of pairs. */
    static function Users(s: seq<Scored>): (r: seq<nat>)
      ensures |r| == |s| && forall p :: 0 <= p < |s| ==> r[p] == s[p].1
    {
      seq(|s|, p requires 0 <= p < |s| => s[p].1)
    }

    /** `get_top_k_sim_users`: the rows of `get_top_k_sim`, in its order. */
    method GetTopKSimUsers(sqrt: real -> real, i: nat, k: nat) returns (r: Option<seq<nat>>)
      requires Valid() && (i < |centered| || |centered| == 0)
      ensures r.Some? <==> TopK(sqrt, i, k).Some?
      ensures r.Some? ==> r.value == Users(TopK(sqrt, i, k).value)
    {
      var t := GetTopKSim(sqrt, i, k);
      match t
      case None => r := None;
      case Some(s) => r := Some(Users(s));
    }

    /** The users listed are distinct rows other than i. */
    lemma {:induction false} TopKUsersDistinct(sqrt: real -> real, i: nat, k: nat)
      requires Valid() && (i < |centered| || |centered| == 0)
      requires TopK(sqrt, i, k).Some?
      ensures var u := Users(TopK(sqrt, i, k).value);
        (forall p :: 0 <= p < |u| ==> u[p] < |centered| && u[p] != i) &&
        (forall p, q :: 0 <= p < q < |u| ==> u[p] != u[q])
    {
      TopKPairs(sqrt, i, k);
    }

    // -------------------------------------------------------------------
    // Prediction

    /** No entry is missing. */
    predicate FullyObserved()
      requires Valid()
    {
      forall i, j :: 0 <= i < |mask| && 0 <= j < |mask[i]| ==> mask[i][j] != 0.0
    }

    /** `get_prediction_cosine`: a copy of the ratings, visited cell by cell;
        a missing cell reaches the unfinished `todo!()` branch, which
        panics, modelled as None. */
    method GetPredictionCosine() returns (r: Option<Matrix>)
      requires Valid()
      ensures r.Some? <==> FullyObserved()
      ensures r.Some? ==> r.value == rating
    {
      var pred := rating;
      var rowCount := |rating|;
      var colCount := Cols(rating);
      for i := 0 to rowCount
        invariant forall a, b :: 0 <= a < i && 0 <= b < colCount ==> mask[a][b] != 0.0
      {
        for j := 0 to colCount
          invariant forall a, b :: 0 <= a < i && 0 <= b < colCount ==> mask[a][b] != 0.0
          invariant forall b :: 0 <= b < j ==> mask[i][b] != 0.0
        {
          if mask[i][j] == 0.0 {
            return None;
          }
        }
      }
      r := Some(pred);
    }
  }

  /** sqrt is a square root at x. */
  predicate IsSqrtOf(sqrt: real -> real, x: real) {
    sqrt(x) >= 0.0 && sqrt(x) * sqrt(x) == x
  }

  /** `new`: mask and centre v, and keep the boundary as the default k. */
  function New(v: Matrix, maskValue: real, boundary: nat): (e: RecEngine)
    requires IsRect(v)
    ensures e.Valid()
    ensures e.rating == v && e.k == boundary
    ensures e.mask == GetMask(v, maskValue) && e.centered == MaskAndCenter(v, maskValue).1
  {
    var mc := MaskAndCenter(v, maskValue);
    RecEngine(v, mc.0, mc.1, boundary)
  }

  /** The prediction of an engine built with `new` returns the ratings
      exactly when no rating equals the mask value. */
  lemma {:induction false} PredictionNeedsNoMissing(v: Matrix, maskValue: real, boundary: nat)
    requires IsRect(v)
    ensures New(v, maskValue, boundary).FullyObserved() <==>
      forall i, j :: 0 <= i < |v| && 0 <= j < |v[i]| ==> v[i][j] != maskValue
  {
  }
}
