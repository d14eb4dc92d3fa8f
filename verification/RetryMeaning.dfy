/** What a run of `retried` is, read off how its calls go. */
module RetryMeaning {
  import opened Outcomes
  import opened Retry

  /** Nothing of a typing is to be seen on this screen, or the call only
      reads. */
  predicate LeftNothing(op: Op, screen: Option<string>) {
    match op
    case Reads => true
    case Types(unsent) => screen.Some? && unsent(screen.value)
  }

  /** The `i`th call is made again: a timeout with an attempt left that after
      the backoff had left nothing. */
  predicate MadeAgain(op: Op, n: nat, script: Script, i: nat) {
    i + 1 < n && script(i).answer == Failed(true) && LeftNothing(op, script(i).afterWait.screen)
  }

  /** What the last call, the `i`th, comes back as: its value, or a failure,
      effect-free when it timed out having left nothing; it is looked at after
      the backoff when an attempt was left, and else at once. */
  predicate ComesBack(op: Op, n: nat, script: Script, i: nat, r: Result<string, Failure>) {
    match script(i).answer
    case Done(value) => r == Ok(value)
    case Failed(timedOut) =>
      && r.Err? && r.error.timedOut == timedOut
      && (r.error.effectFree <==>
          timedOut &&
          LeftNothing(op, if i + 1 < n then script(i).afterWait.screen else script(i).atOnce.screen))
  }

  /** A run of `k` calls that comes back with `r`. */
  predicate IsRun(op: Op, n: nat, script: Script, k: nat, r: Result<string, Failure>) {
    && 1 <= k <= n
    && (forall i: nat :: i < k - 1 ==> MadeAgain(op, n, script, i))
    && !MadeAgain(op, n, script, k - 1)
    && ComesBack(op, n, script, k - 1, r)
  }

  lemma CallIs(op: Op, n: nat, script: Script, i: nat, r: Result<string, Failure>)
    ensures MadeAgain(op, n, script, i) <==> Repeats(op, n, script, i)
    ensures ComesBack(op, n, script, i, r) <==> r == EndOf(op, n, script, i)
  {
  }

  /** The run there is, and no other, is the one the calls give. */
  lemma RunExactly(op: Op, n: nat, script: Script, k: nat, r: Result<string, Failure>)
    requires n >= 1
    ensures IsRun(op, n, script, k, r) <==> k == Calls(op, n, script, 0) && r == ResultOf(op, n, script)
  {
    CallsAre(op, n, script, 0);
    var calls := Calls(op, n, script, 0);
    forall i: nat ensures MadeAgain(op, n, script, i) <==> Repeats(op, n, script, i) {
      CallIs(op, n, script, i, r);
    }
    if k >= 1 {
      CallIs(op, n, script, k - 1, r);
    }
  }

  function AtMost(n: nat, limit: nat): nat {
    if n < limit then n else limit
  }

  /** What goes on record of a run of `k` calls: for each made again its
      number and the backoff, `first` doubled each time up to the longest
      duration, and for one that failed in the end its number and none. */
  lemma RecordedAre(first: nat, of: nat, k: nat, failed: bool)
    requires first <= LONGEST && k >= 1
    ensures var records := Recorded(first, of, k - 1, failed);
      && |records| == (if failed then k else k - 1)
      && (forall i :: 0 <= i < k - 1 ==>
            records[i] == Attempt(i + 1, of, Some(AtMost(first * Pow2(i), 18_446_744_073_709_551_615_999_999_999))))
      && (failed ==> records[k - 1] == Attempt(k, of, None))
  {
    forall i: nat | i < k - 1
      ensures BackoffAt(first, i) == (if first * Pow2(i) < LONGEST then first * Pow2(i) else LONGEST)
    {
      BackoffDoubles(first, i);
    }
  }

  /** While no backoff reaches the longest duration, `k` of them take
      `first * (2^k - 1)`. */
  lemma {:induction false} WaitedExactly(first: nat, k: nat)
    requires k == 0 || first * Pow2(k - 1) <= LONGEST
    ensures Waited(first, k) == first * (Pow2(k) - 1)
  {
    if k > 0 {
      Twice(first, Pow2(k - 1));
      if k > 1 {
        Twice(first, Pow2(k - 2));
      }
      WaitedExactly(first, k - 1);
      BelowTwice(first, Pow2(k - 1));
      BackoffDoubles(first, k - 1);
    }
  }

  lemma BelowTwice(first: nat, p: nat)
    requires p >= 1
    ensures first <= first * p
  {
    assert first * p == first * (p - 1) + first;
  }
}
