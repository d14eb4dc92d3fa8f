/** `RecordingBackend::retried`: a call made again while nothing says that it
    got through. */
module Retry {
  import opened Outcomes

  // ----- How long it waits -----

  /** The longest duration there is, in nanoseconds: a 64 bit count of seconds
      and the nanoseconds below one. */
  const LONGEST: nat := 0x1_0000_0000_0000_0000 * 1_000_000_000 - 1

  function Doubled(backoff: nat): nat {
    if 2 * backoff < LONGEST then 2 * backoff else LONGEST
  }

  function Pow2(k: nat): (p: nat)
    ensures p >= 1
  {
    if k == 0 then 1 else 2 * Pow2(k - 1)
  }

  /** The backoff after the `k`-th retry, counted from 0. */
  function BackoffAt(first: nat, k: nat): nat {
    if k == 0 then first else Doubled(BackoffAt(first, k - 1))
  }

  lemma Twice(first: nat, p: nat)
    ensures first * (2 * p) == 2 * (first * p)
    ensures first * (p - 1) + first * p == first * (2 * p - 1)
  {
  }

  /** Every backoff doubles, up to the longest duration there is. */
  lemma {:induction false} BackoffDoubles(first: nat, k: nat)
    requires first <= LONGEST
    ensures BackoffAt(first, k) == (if first * Pow2(k) < LONGEST then first * Pow2(k) else LONGEST)
  {
    if k > 0 {
      BackoffDoubles(first, k - 1);
      Twice(first, Pow2(k - 1));
    }
  }

  function Waited(first: nat, k: nat): nat {
    if k == 0 then 0 else Waited(first, k - 1) + BackoffAt(first, k - 1)
  }

  lemma {:induction false} WaitedAtMost(first: nat, k: nat)
    requires first <= LONGEST
    ensures Waited(first, k) <= first * (Pow2(k) - 1)
  {
    if k > 0 {
      WaitedAtMost(first, k - 1);
      BackoffDoubles(first, k - 1);
      Twice(first, Pow2(k - 1));
    }
  }

  lemma {:induction false} WaitedGrows(first: nat, j: nat, k: nat)
    requires j <= k
    ensures Waited(first, j) <= Waited(first, k)
    decreases k
  {
    if j < k {
      WaitedGrows(first, j, k - 1);
    }
  }

  // ----- A run of calls as data -----

  /** What a call has done to the session: it got there, it may still get
      there, or it left nothing. */
  datatype Effect = Applied | InFlight | Nothing

  datatype Called = Done(value: string) | Failed(timedOut: bool)

  /** What a call has done when it is looked at, and the screen then, if it
      can be read. */
  datatype Sight = Sight(effect: Effect, screen: Option<string>)

  /** How one call goes: its answer, what is seen of it at once and what after
      the backoff, and whether it gets there sooner or later. */
  datatype Reply = Reply(answer: Called, atOnce: Sight, afterWait: Sight, gets: bool)

  /** How each of a run's calls goes, should it be made. */
  type Script = nat -> Reply

  /** A call that only reads, or one that types into the session, with what
      tells from the screen that the typing did not get there. */
  datatype Op = Reads | Types(unsent: string -> bool)

  datatype Attempt = Attempt(number: nat, of: nat, retryAfter: Option<nat>)

  const ONLY := Attempt(1, 1, None)

  /** A failed call as it is handed back: whether it is known to have left
      nothing behind. */
  datatype Failure = Failure(timedOut: bool, effectFree: bool)

  predicate TimedOut(reply: Reply) {
    reply.answer.Failed? && reply.answer.timedOut
  }

  /** A read is always effect-free, a typing when the screen says so. */
  predicate Free(op: Op, sight: Sight) {
    op.Reads? || (sight.screen.Some? && op.unsent(sight.screen.value))
  }

  /** A timeout with an attempt left is waited on. */
  predicate Waits(n: nat, script: Script, i: nat) {
    TimedOut(script(i)) && i + 1 < n
  }

  /** What there is to see when the `i`th call is judged. */
  function Seen(n: nat, script: Script, i: nat): Sight {
    if Waits(n, script, i) then script(i).afterWait else script(i).atOnce
  }

  predicate Judged(op: Op, n: nat, script: Script, i: nat) {
    TimedOut(script(i)) && Free(op, Seen(n, script, i))
  }

  /** The `i`th call is followed by another. */
  predicate Repeats(op: Op, n: nat, script: Script, i: nat) {
    Waits(n, script, i) && Judged(op, n, script, i)
  }

  /** How many of at most `n` calls are made, once the `i`th is. */
  function Calls(op: Op, n: nat, script: Script, i: nat): (calls: nat)
    requires i < n
    ensures i < calls <= n
    decreases n - i
  {
    if Repeats(op, n, script, i) then Calls(op, n, script, i + 1) else i + 1
  }

  /** Every call but the last is followed by another. */
  lemma {:induction false} CallsAre(op: Op, n: nat, script: Script, i: nat)
    requires i < n
    ensures !Repeats(op, n, script, Calls(op, n, script, i) - 1)
    ensures forall k :: i <= k < Calls(op, n, script, i) - 1 ==> Repeats(op, n, script, k)
    decreases n - i
  {
    if Repeats(op, n, script, i) {
      CallsAre(op, n, script, i + 1);
    }
  }

  function ResultOf(op: Op, n: nat, script: Script): Result<string, Failure>
    requires n >= 1
  {
    EndOf(op, n, script, Calls(op, n, script, 0) - 1)
  }

  /** What the `i`th call is handed back as, when it is the last. */
  function EndOf(op: Op, n: nat, script: Script, i: nat): Result<string, Failure> {
    match script(i).answer
    case Done(value) => Ok(value)
    case Failed(timedOut) => Err(Failure(timedOut, Judged(op, n, script, i)))
  }

  /** The attempts on record: one a retry, with the backoff before it, and the
      last one when the call failed in the end, with none. */
  function Recorded(first: nat, of: nat, retries: nat, failed: bool): seq<Attempt> {
    seq(retries + (if failed then 1 else 0), i requires i >= 0 =>
      Attempt(i + 1, of, if i < retries then Some(BackoffAt(first, i)) else None))
  }

  lemma RecordedGrows(before: seq<Attempt>, first: nat, of: nat, retries: nat)
    ensures before + Recorded(first, of, retries, false) +
        [Attempt(retries + 1, of, Some(BackoffAt(first, retries)))] ==
      before + Recorded(first, of, retries + 1, false)
    ensures before + Recorded(first, of, retries, false) + [Attempt(retries + 1, of, None)] ==
      before + Recorded(first, of, retries, true)
  {
    assert Recorded(first, of, retries, false) + [Attempt(retries + 1, of, Some(BackoffAt(first, retries)))] ==
      Recorded(first, of, retries + 1, false);
    assert Recorded(first, of, retries, false) + [Attempt(retries + 1, of, None)] == Recorded(first, of, retries, true);
  }

  /** The screen of a typing judged last could not be read. */
  predicate Unreadable(op: Op, n: nat, script: Script, i: nat) {
    op.Types? && TimedOut(script(i)) && Seen(n, script, i).screen.None?
  }

  // ----- The loop -----

  class Backend {
    const callAttempts: nat
    const retryBackoff: nat
    var now: Reply
    var waited: bool
    var calls: nat
    var slept: nat
    var records: seq<Attempt>
    var unread: seq<Attempt>

    constructor (callAttempts: nat, retryBackoff: nat, first: Reply)
      ensures this.callAttempts == callAttempts && this.retryBackoff == retryBackoff
      ensures now == first && !waited && calls == 0 && slept == 0 && records == [] && unread == []
    {
      this.callAttempts, this.retryBackoff, now := callAttempts, retryBackoff, first;
      waited, calls, slept, records, unread := false, 0, 0, [], [];
    }

    function Attempts(): (n: nat)
      ensures n >= 1 && n >= callAttempts && (n == 1 || n == callAttempts)
    {
      if callAttempts < 1 then 1 else callAttempts
    }

    method Call(reply: Reply) returns (answer: Called)
      modifies this`now, this`waited, this`calls
      ensures answer == reply.answer && now == reply && !waited && calls == old(calls) + 1
    {
      now, waited, calls := reply, false, calls + 1;
      answer := reply.answer;
    }

    method Sleep(backoff: nat)
      modifies this`waited, this`slept
      ensures waited && slept == old(slept) + backoff
    {
      waited, slept := true, slept + backoff;
    }

    /** The session's screen as it is at this moment. */
    method Capture() returns (screen: Option<string>)
      ensures screen == (if waited then now.afterWait else now.atOnce).screen
    {
      screen := (if waited then now.afterWait else now.atOnce).screen;
    }

    /** Whether the last call is judged to have left nothing behind: a read
        always, a typing by the screen, read once. */
    method EffectFree(op: Op) returns (free: bool)
      modifies this`unread
      ensures var sight := if waited then now.afterWait else now.atOnce;
        && free == Free(op, sight)
        && unread == old(unread) + (if op.Types? && sight.screen.None? then [ONLY] else [])
    {
      if op.Reads? { return true; }
      var screen := Capture();
      if screen.None? {
        unread := unread + [ONLY];
        return false;
      }
      return op.unsent(screen.value);
    }

    /** After a failed call: wait if there is an attempt left, and only then
        judge the call, so that one that got through during the wait is
        seen. */
    method Judge(op: Op, timedOut: bool, waits: bool, backoff: nat) returns (effectFree: bool)
      requires !waited && (waits ==> timedOut)
      modifies this`waited, this`slept, this`unread
      ensures slept == old(slept) + (if waits then backoff else 0)
      ensures var sight := if waits then now.afterWait else now.atOnce;
        && effectFree == (timedOut && Free(op, sight))
        && unread == old(unread) + (if timedOut && op.Types? && sight.screen.None? then [ONLY] else [])
    {
      if waits {
        Sleep(backoff);
      }
      effectFree := false;
      if timedOut {
        effectFree := EffectFree(op);
      }
    }

    /** The `i`th call, and what is done about its failure. */
    method Attempted(op: Op, script: Script, i: nat, backoff: nat) returns (ended: bool, r: Result<string, Failure>)
      requires i < Attempts()
      modifies this`now, this`waited, this`calls, this`slept, this`records, this`unread
      ensures ended <==> !Repeats(op, Attempts(), script, i)
      ensures r == EndOf(op, Attempts(), script, i)
      ensures calls == old(calls) + 1
      ensures slept == old(slept) + (if Waits(Attempts(), script, i) then backoff else 0)
      ensures unread == old(unread) + (if Unreadable(op, Attempts(), script, i) then [ONLY] else [])
      ensures records == old(records) +
        if r.Ok? then [] else [Attempt(i + 1, Attempts(), if ended then None else Some(backoff))]
    {
      var attempts := Attempts();
      var called := Call(script(i));
      if called.Done? {
        return true, Ok(called.value);
      }
      var waits := called.timedOut && i + 1 < attempts;
      var effectFree := Judge(op, called.timedOut, waits, backoff);
      var retry := waits && effectFree;
      records := records + [Attempt(i + 1, attempts, if retry then Some(backoff) else None)];
      return !retry, Err(Failure(called.timedOut, effectFree));
    }

    /** Make the call, again after a doubled backoff while it fails with a
        timeout judged to have left nothing behind. */
    method Retried(op: Op, script: Script) returns (r: Result<string, Failure>)
      modifies this`now, this`waited, this`calls, this`slept, this`records, this`unread
      ensures r == ResultOf(op, Attempts(), script)
      ensures calls == old(calls) + Calls(op, Attempts(), script, 0)
      ensures var k := Calls(op, Attempts(), script, 0);
        && records == old(records) + Recorded(retryBackoff, Attempts(), k - 1, r.Err?)
        && slept == old(slept) + Waited(retryBackoff, if Waits(Attempts(), script, k - 1) then k else k - 1)
        && unread == old(unread) + (if Unreadable(op, Attempts(), script, k - 1) then [ONLY] else [])
    {
      ghost var n := Attempts();
      var backoff := retryBackoff;
      var number := 1;
      while true
        invariant 1 <= number <= n && Calls(op, n, script, 0) == Calls(op, n, script, number - 1)
        invariant calls == old(calls) + number - 1 && unread == old(unread)
        invariant backoff == BackoffAt(retryBackoff, number - 1)
        invariant records == old(records) + Recorded(retryBackoff, n, number - 1, false)
        invariant slept == old(slept) + Waited(retryBackoff, number - 1)
        decreases n - number
      {
        RecordedGrows(old(records), retryBackoff, n, number - 1);
        NoScreenUnread(op, n, script, number - 1);
        var ended;
        ended, r := Attempted(op, script, number - 1, backoff);
        if ended {
          return;
        }
        backoff := Doubled(backoff);
        number := number + 1;
      }
    }
  }

  /** A call that is made again was judged by a screen, or needs none. */
  lemma NoScreenUnread(op: Op, n: nat, script: Script, i: nat)
    ensures Repeats(op, n, script, i) ==> TimedOut(script(i)) && !Unreadable(op, n, script, i) && i + 1 < n
    ensures Repeats(op, n, script, i) ==> EndOf(op, n, script, i).Err?
  {
  }

  /** A failure is handed back as effect-free exactly when every attempt was
      made, timed out and was judged to have left nothing. */
  lemma EffectFreeExactly(op: Op, n: nat, script: Script)
    requires n >= 1
    ensures ResultOf(op, n, script).Err? && ResultOf(op, n, script).error.effectFree <==>
      forall i: nat :: i < n ==> Judged(op, n, script, i)
  {
    var k := Calls(op, n, script, 0);
    CallsAre(op, n, script, 0);
    if forall i: nat :: i < n ==> Judged(op, n, script, i) {
      assert Judged(op, n, script, k - 1);
    }
    if Judged(op, n, script, k - 1) {
      forall i: nat | i < n ensures Judged(op, n, script, i) {
        assert i < k - 1 ==> Repeats(op, n, script, i);
      }
    }
  }

  /** What a run waits in all. */
  lemma WaitsAtMost(op: Op, n: nat, script: Script, first: nat)
    requires n >= 1 && first <= LONGEST
    ensures var k := Calls(op, n, script, 0);
      Waited(first, if Waits(n, script, k - 1) then k else k - 1) <= first * (Pow2(n - 1) - 1)
  {
    var k := Calls(op, n, script, 0);
    WaitedGrows(first, if Waits(n, script, k - 1) then k else k - 1, n - 1);
    WaitedAtMost(first, n - 1);
  }

  // ----- At most one effect -----

  /** How many of the first `k` calls get there. */
  function Effects(script: Script, k: nat): nat {
    if k == 0 then 0 else Effects(script, k - 1) + (if script(k - 1).gets then 1 else 0)
  }

  lemma {:induction false} NoEffects(script: Script, k: nat)
    ensures Effects(script, k) == 0 <==> forall i: nat :: i < k ==> !script(i).gets
  {
    if k > 0 {
      NoEffects(script, k - 1);
    }
  }

  /** If every call that was made again had left nothing, the run has at most
      one effect. */
  lemma RightJudgementOnce(op: Op, n: nat, script: Script)
    requires n >= 1
    requires forall i: nat :: i < n && Repeats(op, n, script, i) ==> !script(i).gets
    ensures Effects(script, Calls(op, n, script, 0)) <= 1
  {
    var k := Calls(op, n, script, 0);
    CallsAre(op, n, script, 0);
    forall i: nat | i < k - 1 ensures !script(i).gets {
      assert Repeats(op, n, script, i);
    }
    NoEffects(script, k - 1);
  }

  /** How a call can go. A read has no effect; a typing that is done got there;
      time takes a call in flight to its end and changes no other. A backend
      that `sees` shows on its screen what got there by then; one that
      `settles` has no call in flight after the backoff. */
  ghost predicate Lawful(op: Op, sees: bool, settles: bool, reply: Reply) {
    && (op.Reads? ==> reply.atOnce.effect.Nothing?)
    && (op.Types? && reply.answer.Done? ==> reply.atOnce.effect.Applied?)
    && (reply.afterWait.effect == reply.atOnce.effect || reply.atOnce.effect.InFlight?)
    && (reply.afterWait.effect.Applied? ==> reply.gets)
    && (reply.afterWait.effect.Nothing? ==> !reply.gets)
    && (settles ==> !reply.afterWait.effect.InFlight?)
    && (sees && op.Types? ==> Shows(op, reply.atOnce) && Shows(op, reply.afterWait))
  }

  predicate Shows(op: Op, sight: Sight)
    requires op.Types?
  {
    sight.effect.Applied? ==> !Free(op, sight)
  }

  ghost predicate AllLawful(op: Op, sees: bool, settles: bool, script: Script) {
    forall i: nat :: Lawful(op, sees, settles, script(i))
  }

  /** When a run cannot have two effects: a read, a single attempt, a typing
      never taken for unsent, or a backend that both sees and settles. */
  ghost predicate CannotRepeatAnEffect(op: Op, n: nat, sees: bool, settles: bool) {
    op.Reads? || n == 1 || (forall screen :: !op.unsent(screen)) || (sees && settles)
  }

  lemma OnceWhenSafe(op: Op, n: nat, sees: bool, settles: bool, script: Script)
    requires n >= 1 && AllLawful(op, sees, settles, script) && CannotRepeatAnEffect(op, n, sees, settles)
    ensures Effects(script, Calls(op, n, script, 0)) <= 1
  {
    forall i: nat | i < n && Repeats(op, n, script, i) ensures !script(i).gets {
      assert Lawful(op, sees, settles, script(i));
    }
    RightJudgementOnce(op, n, script);
  }

  /** The first call times out with `effect`, on a screen that looks as if it
      had not been typed, and gets there; the second one is done. */
  function TwoEffects(effect: Effect, screen: string): Script {
    var sight := Sight(effect, Some(screen));
    var done := Sight(Applied, None);
    i => if i == 0 then Reply(Failed(true), sight, sight, true) else Reply(Done(""), done, done, true)
  }

  lemma TwoEffectsHappen(op: Op, n: nat, effect: Effect, screen: string)
    requires n >= 2 && op.Types? && op.unsent(screen)
    ensures Effects(TwoEffects(effect, screen), Calls(op, n, TwoEffects(effect, screen), 0)) == 2
  {
    var script := TwoEffects(effect, screen);
    assert Repeats(op, n, script, 0) && !Repeats(op, n, script, 1);
    assert Calls(op, n, script, 0) == Calls(op, n, script, 1) == 2;
    assert Effects(script, 2) == Effects(script, 1) + 1 && Effects(script, 1) == Effects(script, 0) + 1;
  }

  /** A run of `retried` has at most one effect, whatever the backend does
      within its law, exactly when it cannot repeat one. */
  lemma AtMostOneExactly(op: Op, n: nat, sees: bool, settles: bool)
    requires n >= 1
    ensures (forall script: Script ::
               AllLawful(op, sees, settles, script) ==> Effects(script, Calls(op, n, script, 0)) <= 1) <==>
      CannotRepeatAnEffect(op, n, sees, settles)
  {
    if CannotRepeatAnEffect(op, n, sees, settles) {
      forall script: Script | AllLawful(op, sees, settles, script)
        ensures Effects(script, Calls(op, n, script, 0)) <= 1
      {
        OnceWhenSafe(op, n, sees, settles, script);
      }
    } else {
      var screen :| op.unsent(screen);
      var effect := if sees then InFlight else Applied;
      TwoEffectsHappen(op, n, effect, screen);
      assert AllLawful(op, sees, settles, TwoEffects(effect, screen));
    }
  }

  // ----- The callers -----

  /** A text is typed again only while the screen shows no trace of it: where
      that is right of every call made again, it is typed at most once. */
  method SendText(b: Backend, shown: string -> bool, script: Script) returns (r: Result<string, Failure>)
    modifies b`now, b`waited, b`calls, b`slept, b`records, b`unread
    ensures r == ResultOf(Types(screen => !shown(screen)), b.Attempts(), script)
    ensures old(b.calls) < b.calls <= old(b.calls) + b.Attempts()
    ensures (forall i: nat ::
               TimedOut(script(i)) && script(i).afterWait.screen.Some? && !shown(script(i).afterWait.screen.value) ==>
                 !script(i).gets) ==> Effects(script, b.calls - old(b.calls)) <= 1
  {
    var op := Types(screen => !shown(screen));
    r := b.Retried(op, script);
    if forall i: nat ::
         TimedOut(script(i)) && script(i).afterWait.screen.Some? && !shown(script(i).afterWait.screen.value) ==>
           !script(i).gets {
      RightJudgementOnce(op, b.Attempts(), script);
    }
  }

  /** An exit request that comes back as not sent was tried as often as a call
      may be, and each time timed out on a screen that shows it was not sent. */
  method SendExitWhen(b: Backend, unsent: string -> bool, script: Script) returns (r: Result<string, Failure>)
    modifies b`now, b`waited, b`calls, b`slept, b`records, b`unread
    ensures r == ResultOf(Types(unsent), b.Attempts(), script)
    ensures r.Err? && r.error.effectFree <==>
      forall i: nat :: i < b.Attempts() ==> Judged(Types(unsent), b.Attempts(), script, i)
  {
    r := b.Retried(Types(unsent), script);
    EffectFreeExactly(Types(unsent), b.Attempts(), script);
  }
}
