/** The control flow of the gradient-descent loop of `matrix_factorization`,
    over any state: at most n passes; each pass first checks whether the
    current state passes the cost test and, if so, returns it unchanged;
    otherwise it replaces the state by the next one. When the passes run out
    the answer is None. */
module Driver {

  datatype Option<T> = None | Some(value: T)

  /** The state after t steps. */
  function Iter<S>(next: S -> S, s: S, t: nat): S
    decreases t
  {
    if t == 0 then s else Iter(next, next(s), t - 1)
  }

  /** One more step after t steps is t + 1 steps. */
  lemma {:induction false} IterLast<S>(next: S -> S, s: S, t: nat)
    ensures Iter(next, s, t + 1) == next(Iter(next, s, t))
    decreases t
  {
    if t > 0 {
      IterLast(next, next(s), t - 1);
    }
  }

  /** The loop with n passes left, started from s. */
  function Run<S>(next: S -> S, stop: S -> bool, s: S, n: nat): Option<S>
    decreases n
  {
    if n == 0 then None
    else if stop(s) then Some(s)
    else Run(next, stop, next(s), n - 1)
  }

  /** If the loop returns a state, some pass t < n found the test satisfied. */
  lemma {:induction false} RunSomeHasPass<S>(next: S -> S, stop: S -> bool, s: S, n: nat) returns (t: nat)
    requires Run(next, stop, s, n).Some?
    ensures t < n && stop(Iter(next, s, t))
    decreases n
  {
    if stop(s) {
      t := 0;
    } else {
      var t' := RunSomeHasPass(next, stop, next(s), n - 1);
      t := t' + 1;
      assert Iter(next, s, t) == Iter(next, next(s), t');
    }
  }

  /** A state the loop returns passed the test. */
  lemma {:induction false} RunSomeStops<S>(next: S -> S, stop: S -> bool, s: S, n: nat)
    ensures Run(next, stop, s, n).Some? ==> stop(Run(next, stop, s, n).value)
    decreases n
  {
    if n > 0 && !stop(s) {
      RunSomeStops(next, stop, next(s), n - 1);
    }
  }

  /** If some pass t < n finds the test satisfied, the loop returns a state. */
  lemma {:induction false} PassMakesRunSome<S>(next: S -> S, stop: S -> bool, s: S, n: nat, t: nat)
    requires t < n && stop(Iter(next, s, t))
    ensures Run(next, stop, s, n).Some?
    decreases t
  {
    if t > 0 && !stop(s) {
      PassMakesRunSome(next, stop, next(s), n - 1, t - 1);
    }
  }

  /** The loop returns a state exactly when some pass t < n finds the test
      satisfied. */
  lemma {:induction false} RunSomeIff<S>(next: S -> S, stop: S -> bool, s: S, n: nat)
    ensures Run(next, stop, s, n).Some? <==> exists t :: 0 <= t < n && stop(Iter(next, s, t))
  {
    if Run(next, stop, s, n).Some? {
      var t := RunSomeHasPass(next, stop, s, n);
    }
    if t :| 0 <= t < n && stop(Iter(next, s, t)) {
      PassMakesRunSome(next, stop, s, n, t);
    }
  }

  /** What the loop returns is the state of the FIRST pass whose test
      succeeds, with no step applied after the test. */
  lemma {:induction false} RunReturnsFirst<S>(next: S -> S, stop: S -> bool, s: S, n: nat, t: nat)
    requires t < n && stop(Iter(next, s, t))
    requires forall r :: 0 <= r < t ==> !stop(Iter(next, s, r))
    ensures Run(next, stop, s, n) == Some(Iter(next, s, t))
    decreases t
  {
    if t > 0 {
      assert Iter(next, s, 0) == s;
      forall r | 0 <= r < t - 1 ensures !stop(Iter(next, next(s), r)) {
        assert Iter(next, s, r + 1) == Iter(next, next(s), r);
      }
      RunReturnsFirst(next, stop, next(s), n - 1, t - 1);
    }
  }
}
