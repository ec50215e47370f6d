/** The order in which `get_top_k_sim` ranks users: `sort_by` with
    `b.partial_cmp(a).unwrap()` over (score, row) pairs, that is descending
    lexicographic order on the pair, defined only when no score is NaN.
    The library sort is modelled by an insertion sort; SortIsUnique shows
    that any sort that yields a descending permutation yields the same
    sequence, so the choice of algorithm does not matter. */
module Ranking {
  import opened NdArray

  /** A user's similarity score and row index. */
  type Scored = (F64, nat)

  /** a is strictly ahead of b in descending (score, row) order; both
      scores are numbers (a comparison with NaN has no answer). */
  predicate Above(a: Scored, b: Scored) {
    a.0.Num? && b.0.Num? && (a.0.val > b.0.val || (a.0.val == b.0.val && a.1 > b.1))
  }

  /** Every entry is strictly ahead of every later one. */
  predicate SortedDesc(s: seq<Scored>) {
    forall p, q :: 0 <= p < q < |s| ==> Above(s[p], s[q])
  }

  predicate AllNum(s: seq<Scored>) {
    forall p :: 0 <= p < |s| ==> s[p].0.Num?
  }

  predicate DistinctRows(s: seq<Scored>) {
    forall p, q :: 0 <= p < q < |s| ==> s[p].1 != s[q].1
  }

  predicate HasNaN(s: seq<Scored>) {
    exists p :: 0 <= p < |s| && s[p].0.NaN?
  }

  /** Two numbered pairs with different rows are always ordered one way
      or the other, and never both ways. */
  lemma {:induction false} AboveTotal(a: Scored, b: Scored)
    ensures a.0.Num? && b.0.Num? && a.1 != b.1 ==> Above(a, b) || Above(b, a)
    ensures !(Above(a, b) && Above(b, a))
  {
  }

  /** Insert x into a descending sequence. */
  function Insert(x: Scored, s: seq<Scored>): (r: seq<Scored>)
    ensures |r| == |s| + 1
  {
    if s == [] || Above(x, s[0]) then [x] + s else [s[0]] + Insert(x, s[1..])
  }

  /** The descending sort of s. */
  function Sort(s: seq<Scored>): (r: seq<Scored>)
    ensures |r| == |s|
  {
    if s == [] then [] else Insert(s[0], Sort(s[1..]))
  }

  /** `truncate(k)`: the first k entries, or all of them when there are fewer. */
  function Truncate<T>(s: seq<T>, k: nat): (r: seq<T>)
    ensures |r| == if k < |s| then k else |s|
    ensures forall p :: 0 <= p < |r| ==> r[p] == s[p]
  {
    if k < |s| then s[..k] else s
  }

  lemma {:induction false} InsertPermutes(x: Scored, s: seq<Scored>)
    ensures multiset(Insert(x, s)) == multiset(s) + multiset{x}
  {
    if s != [] && !Above(x, s[0]) {
      InsertPermutes(x, s[1..]);
      assert s == [s[0]] + s[1..];
    }
  }

  /** Sort only reorders: it keeps every entry, as often as it occurs. */
  lemma {:induction false} SortPermutes(s: seq<Scored>)
    ensures multiset(Sort(s)) == multiset(s)
  {
    if s != [] {
      SortPermutes(s[1..]);
      InsertPermutes(s[0], Sort(s[1..]));
      assert s == [s[0]] + s[1..];
    }
  }

  /** An entry of a permutation of b is an entry of b. */
  lemma {:induction false} PermutationIndex(a: seq<Scored>, b: seq<Scored>, p: nat) returns (q: nat)
    requires multiset(a) == multiset(b) && p < |a|
    ensures q < |b| && b[q] == a[p]
  {
    assert a[p] in multiset(b);
    q :| 0 <= q < |b| && b[q] == a[p];
  }

  lemma {:induction false} InsertSorted(x: Scored, s: seq<Scored>)
    requires x.0.Num? && AllNum(s) && SortedDesc(s)
    requires forall p :: 0 <= p < |s| ==> s[p].1 != x.1
    ensures SortedDesc(Insert(x, s))
  {
    if s != [] && !Above(x, s[0]) {
      AboveTotal(x, s[0]);
      var t := Insert(x, s[1..]);
      InsertSorted(x, s[1..]);
      InsertPermutes(x, s[1..]);
      forall q | 0 <= q < |t|
        ensures Above(s[0], t[q])
      {
        if t[q] != x {
          assert t[q] in multiset(t);
          assert t[q] in multiset(s[1..]);
          var r :| 0 <= r < |s[1..]| && s[1..][r] == t[q];
          assert s[r + 1] == t[q];
        }
      }
    }
  }

  /** The sort of distinct-row, NaN-free pairs is in strictly descending
      order. */
  lemma {:induction false} SortSorted(s: seq<Scored>)
    requires AllNum(s) && DistinctRows(s)
    ensures SortedDesc(Sort(s))
  {
    if s != [] {
      var t := Sort(s[1..]);
      SortSorted(s[1..]);
      SortPermutes(s[1..]);
      forall p | 0 <= p < |t|
        ensures t[p].0.Num? && t[p].1 != s[0].1
      {
        var q := PermutationIndex(t, s[1..], p);
      }
      InsertSorted(s[0], t);
    }
  }

  /** Two strictly descending sequences with the same entries are equal. */
  lemma {:induction false} SortedUnique(a: seq<Scored>, b: seq<Scored>)
    requires multiset(a) == multiset(b) && SortedDesc(a) && SortedDesc(b)
    ensures a == b
  {
    assert |a| == |multiset(a)| == |b|;
    if a != [] {
      var j := PermutationIndex(a, b, 0);
      var i := PermutationIndex(b, a, 0);
      AboveTotal(a[0], b[0]);
      assert a[0] == b[0];
      assert a == [a[0]] + a[1..];
      assert b == [b[0]] + b[1..];
      assert multiset(a) == multiset{a[0]} + multiset(a[1..]);
      assert multiset(b) == multiset{b[0]} + multiset(b[1..]);
      assert multiset(a[1..]) == multiset(a) - multiset{a[0]};
      assert multiset(b[1..]) == multiset(b) - multiset{b[0]};
      SortedTail(a);
      SortedTail(b);
      SortedUnique(a[1..], b[1..]);
    }
  }

  lemma {:induction false} SortedTail(s: seq<Scored>)
    requires s != [] && SortedDesc(s)
    ensures SortedDesc(s[1..])
  {
    forall p, q | 0 <= p < q < |s| - 1
      ensures Above(s[1..][p], s[1..][q])
    {
      assert s[1..][p] == s[p + 1] && s[1..][q] == s[q + 1];
    }
  }

  /** Whatever algorithm the library uses, a descending permutation of
      distinct-row, NaN-free pairs is Sort's result. */
  lemma {:induction false} SortIsUnique(s: seq<Scored>, t: seq<Scored>)
    requires AllNum(s) && DistinctRows(s)
    requires multiset(t) == multiset(s) && SortedDesc(t)
    ensures t == Sort(s)
  {
    SortPermutes(s);
    SortSorted(s);
    SortedUnique(t, Sort(s));
  }
}
