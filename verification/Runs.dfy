// Runs of a state machine given by its step function.
module Runs {

  /** The state after the first `n` events of `es`. */
  function After<S, E>(step: (S, E) -> S, s0: S, es: seq<E>, n: nat): S
    requires n <= |es|
  {
    if n == 0 then s0 else step(After(step, s0, es, n - 1), es[n - 1])
  }

  /** The state after all of `es`. */
  function Folded<S, E>(step: (S, E) -> S, s0: S, es: seq<E>): S
    decreases |es|
  {
    if es == [] then s0 else Folded(step, step(s0, es[0]), es[1..])
  }

  lemma {:induction false} FoldedConcat<S, E>(step: (S, E) -> S, s0: S, a: seq<E>, b: seq<E>)
    ensures Folded(step, s0, a + b) == Folded(step, Folded(step, s0, a), b)
    decreases |a|
  {
    if a == [] {
      assert a + b == b;
    } else {
      FoldedConcat(step, step(s0, a[0]), a[1..], b);
      assert (a + b)[0] == a[0] && (a + b)[1..] == a[1..] + b;
    }
  }

  /** What holds at the start and is kept by every step holds throughout. */
  lemma {:induction false} Keeps<S(!new), E(!new)>(step: (S, E) -> S, inv: S -> bool, s0: S, es: seq<E>, n: nat)
    requires n <= |es| && inv(s0)
    requires forall s, e :: inv(s) ==> inv(step(s, e))
    ensures inv(After(step, s0, es, n))
  {
    if n > 0 {
      Keeps(step, inv, s0, es, n - 1);
    }
  }

  /** What every safe step keeps holds as long as the steps are safe. */
  lemma {:induction false} KeepsWhileSafe<S(!new), E(!new)>(
      step: (S, E) -> S, inv: S -> bool, safe: (S, E) -> bool, s0: S, es: seq<E>, n: nat)
    requires n <= |es| && inv(s0)
    requires forall s, e :: inv(s) && safe(s, e) ==> inv(step(s, e))
    requires forall i :: 0 <= i < n ==> safe(After(step, s0, es, i), es[i])
    ensures inv(After(step, s0, es, n))
  {
    if n > 0 {
      KeepsWhileSafe(step, inv, safe, s0, es, n - 1);
    }
  }

  ghost predicate Throughout<S, E>(step: (S, E) -> S, inv: S -> bool, s0: S, es: seq<E>) {
    forall n :: 0 <= n <= |es| ==> inv(After(step, s0, es, n))
  }

  ghost predicate AllSafe<S, E>(step: (S, E) -> S, safe: (S, E) -> bool, s0: S, es: seq<E>) {
    forall i :: 0 <= i < |es| ==> safe(After(step, s0, es, i), es[i])
  }

  /** If a step keeps the invariant exactly when it is safe, then the invariant holds
      throughout a run exactly when all of its steps are safe. */
  lemma HoldsThroughoutWhen<S(!new), E(!new)>(
      step: (S, E) -> S, inv: S -> bool, safe: (S, E) -> bool, s0: S, es: seq<E>)
    requires inv(s0) && forall s, e :: inv(s) ==> (inv(step(s, e)) <==> safe(s, e))
    ensures Throughout(step, inv, s0, es) <==> AllSafe(step, safe, s0, es)
  {
    if AllSafe(step, safe, s0, es) {
      forall n | 0 <= n <= |es| ensures inv(After(step, s0, es, n)) {
        KeepsWhileSafe(step, inv, safe, s0, es, n);
      }
    }
    if Throughout(step, inv, s0, es) {
      forall i | 0 <= i < |es| ensures safe(After(step, s0, es, i), es[i]) {
        var s := After(step, s0, es, i);
        assert inv(s) && inv(After(step, s0, es, i + 1));
        assert After(step, s0, es, i + 1) == step(s, es[i]);
      }
    }
  }

  /** What holds at one point of a run and is kept by every step holds from then on. */
  lemma {:induction false} KeepsFrom<S(!new), E(!new)>(step: (S, E) -> S, inv: S -> bool, s0: S, es: seq<E>,
                                                      n: nat, m: nat)
    requires n <= m <= |es| && inv(After(step, s0, es, n))
    requires forall s, e :: inv(s) ==> inv(step(s, e))
    ensures inv(After(step, s0, es, m))
  {
    if n < m {
      KeepsFrom(step, inv, s0, es, n, m - 1);
    }
  }

  /** What holds at a point of a run held at the start or was brought about by a step. */
  lemma {:induction false} Origin<S(!new), E(!new)>(step: (S, E) -> S, inv: S -> bool, has: S -> bool,
                                                   sets: (S, E) -> bool, s0: S, es: seq<E>, n: nat)
    returns (i: nat)
    requires n <= |es| && inv(s0) && has(After(step, s0, es, n))
    requires forall s, e :: inv(s) ==> inv(step(s, e))
    requires forall s, e :: inv(s) && has(step(s, e)) ==> has(s) || sets(s, e)
    ensures has(s0) || (i < n && inv(After(step, s0, es, i)) && sets(After(step, s0, es, i), es[i]))
  {
    i := 0;
    if n > 0 {
      Keeps(step, inv, s0, es, n - 1);
      if has(After(step, s0, es, n - 1)) {
        i := Origin(step, inv, has, sets, s0, es, n - 1);
      } else {
        i := n - 1;
      }
    }
  }

  /** What holds now but not at the start was brought about by a step and has held since. */
  lemma {:induction false} OriginSince<S(!new), E(!new)>(step: (S, E) -> S, has: S -> bool, sets: (S, E) -> bool,
                                                        s0: S, es: seq<E>, n: nat)
    returns (i: nat)
    requires n <= |es| && !has(s0) && has(After(step, s0, es, n))
    requires forall s, e :: has(step(s, e)) ==> has(s) || sets(s, e)
    ensures i < n && sets(After(step, s0, es, i), es[i])
    ensures forall j :: i < j <= n ==> has(After(step, s0, es, j))
  {
    i := n - 1;
    if has(After(step, s0, es, n - 1)) {
      i := OriginSince(step, has, sets, s0, es, n - 1);
    }
  }

  /** A run does not depend on the events after it. */
  lemma {:induction false} AfterPrefix<S, E>(step: (S, E) -> S, s0: S, es: seq<E>, more: seq<E>, n: nat)
    requires n <= |es|
    ensures After(step, s0, es + more, n) == After(step, s0, es, n)
  {
    if n > 0 {
      AfterPrefix(step, s0, es, more, n - 1);
      assert (es + more)[n - 1] == es[n - 1];
    }
  }

  lemma AfterSnoc<S, E>(step: (S, E) -> S, s0: S, es: seq<E>, e: E)
    ensures After(step, s0, es + [e], |es + [e]|) == step(After(step, s0, es, |es|), e)
  {
    AfterPrefix(step, s0, es, [e], |es|);
  }

  lemma AllSafeSnoc<S, E>(step: (S, E) -> S, safe: (S, E) -> bool, s0: S, es: seq<E>, e: E)
    requires AllSafe(step, safe, s0, es) && safe(After(step, s0, es, |es|), e)
    ensures AllSafe(step, safe, s0, es + [e])
  {
    forall i | 0 <= i < |es + [e]| ensures safe(After(step, s0, es + [e], i), (es + [e])[i]) {
      AfterPrefix(step, s0, es, [e], i);
    }
  }
}
