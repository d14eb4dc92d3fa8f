/** `hand_off`: have every live supervisor exec another binary, and wait for
    each. */
module Handoff {
  import opened Outcomes
  import opened Supervisors

  /** A supervisor handed over and the registration it took back. */
  datatype HandedOver = HandedOver(registration: Registration, current: Registration)

  datatype HandoffError =
    | BadPath
    | QueueFailed
    | CannotTake(registration: Registration)
    | Deregistered(registration: Registration)
    | StoppedHeartbeating(registration: Registration)
    | CameBackOtherwise(registration: Registration)
    | TimedOut(waiting: seq<Registration>)

  datatype Look = Took(current: Registration) | Waits | Fails(error: HandoffError)

  /** What a snapshot says of one supervisor asked to exec another binary. */
  function LookAt(x: Registration, s: Snapshot, version: string): Look {
    var serving := Serving(s.registrations, x.token, x.pid, version);
    if serving.None? then Fails(Deregistered(x)) else
    var current := serving.value;
    if current.handoffBinary.Some? then
      (if Fresh(current, s) then Waits else Fails(StoppedHeartbeating(x)))
    else if current.pid == x.pid && current.binaryVersion == Some(version) && Fresh(current, s) then Took(current)
    else Fails(CameBackOtherwise(x))
  }

  /** A look is decided by the registration the supervisor serves under: one
      with a request still on it is waited for while its process lives and its
      heartbeat is at most 30 seconds old; one without must be the same
      process, under the build asked for, living and heartbeating. */
  lemma LookAtMeans(x: Registration, s: Snapshot, version: string)
    ensures LookAt(x, s, version) == Fails(Deregistered(x)) <==>
      forall r :: r in s.registrations ==> r.token != x.token && !(r.pid == x.pid && r.binaryVersion == Some(version))
    ensures forall c :: Serves(s.registrations, x.token, x.pid, version, c) ==>
      ShowsLook(LookAt(x, s, version), x, c, c.pid in s.alive && s.now - c.heartbeatAt <= 30, version)
  {
    ServingIs(s.registrations, x.token, x.pid, version);
  }

  /** What a look at `x` says when it serves under `c`. */
  ghost predicate ShowsLook(look: Look, x: Registration, c: Registration, lively: bool, version: string) {
    && (look == Waits <==> c.handoffBinary != None && lively)
    && (look == Fails(StoppedHeartbeating(x)) <==> c.handoffBinary != None && !lively)
    && (look == Took(c) <==> c.handoffBinary == None && c.pid == x.pid && c.binaryVersion == Some(version) && lively)
    && (look == Fails(CameBackOtherwise(x)) <==>
        c.handoffBinary == None && !(c.pid == x.pid && c.binaryVersion == Some(version) && lively))
  }

  predicate IsPending(rows: seq<Registration>, token: string, binary: string) {
    exists r :: r in rows && r.token == token && r.handoffBinary == Some(binary)
  }

  /** No registration under the token takes a handoff. */
  predicate TakesNone(rows: seq<Registration>, token: string) {
    forall r :: r in rows && r.token == token ==> !r.handoffAccepted
  }

  /** Others may change the registrations in any way but one: nobody else asks
      a supervisor to exec this binary. */
  ghost predicate NoNewRequest(rows: seq<Registration>, next: seq<Registration>, binary: string) {
    forall token :: IsPending(next, token, binary) ==> IsPending(rows, token, binary)
  }

  function AskedRow(row: Registration, token: string, binary: string): Registration {
    if row.token == token && row.handoffAccepted then row.(handoffBinary := Some(binary)) else row
  }

  function WithdrawnRow(row: Registration, token: string, binary: string): Registration {
    if row.token == token && row.handoffBinary == Some(binary) then row.(handoffBinary := None) else row
  }

  function Asked(rows: seq<Registration>, token: string, binary: string): seq<Registration> {
    seq(|rows|, i requires 0 <= i < |rows| => AskedRow(rows[i], token, binary))
  }

  function Withdrawn(rows: seq<Registration>, token: string, binary: string): seq<Registration> {
    seq(|rows|, i requires 0 <= i < |rows| => WithdrawnRow(rows[i], token, binary))
  }

  lemma AskedOnly(rows: seq<Registration>, token: string, binary: string)
    ensures forall t :: t != token && IsPending(Asked(rows, token, binary), t, binary) ==> IsPending(rows, t, binary)
  {
    var asked := Asked(rows, token, binary);
    forall t | t != token && IsPending(asked, t, binary) ensures IsPending(rows, t, binary) {
      var i :| 0 <= i < |asked| && asked[i].token == t && asked[i].handoffBinary == Some(binary);
      assert rows[i] in rows && rows[i].token == t;
    }
  }

  lemma AskedStands(rows: seq<Registration>, token: string, binary: string)
    requires !TakesNone(rows, token)
    ensures IsPending(Asked(rows, token, binary), token, binary)
  {
    var i :| 0 <= i < |rows| && rows[i].token == token && rows[i].handoffAccepted;
    assert Asked(rows, token, binary)[i] in Asked(rows, token, binary);
  }

  lemma WithdrawnOnly(rows: seq<Registration>, token: string, binary: string)
    ensures !IsPending(Withdrawn(rows, token, binary), token, binary)
    ensures NoNewRequest(rows, Withdrawn(rows, token, binary), binary)
  {
    var left := Withdrawn(rows, token, binary);
    forall t | IsPending(left, t, binary) ensures IsPending(rows, t, binary) && t != token {
      var i :| 0 <= i < |left| && left[i].token == t && left[i].handoffBinary == Some(binary);
      assert rows[i] in rows;
    }
  }

  /** The queue's registrations, changed by the calls here and, between them,
      by everybody else; time goes on while the caller sleeps. */
  class Registry {
    var rows: seq<Registration>
    var clock: nat
    var failed: bool
    ghost var asked: seq<string>
    ghost var canceled: seq<string>

    constructor (rows: seq<Registration>, clock: nat)
      ensures this.rows == rows && this.clock == clock && !failed && asked == canceled == []
    {
      this.rows, this.clock, failed, asked, canceled := rows, clock, false, [], [];
    }

    method OthersAct(binary: string)
      modifies this`rows
      ensures NoNewRequest(old(rows), rows, binary)
    {
      var next: seq<Registration> := *;
      if forall r :: r in next && r.handoffBinary == Some(binary) ==> IsPending(rows, r.token, binary) {
        rows := next;
      }
    }

    /** `None` is a queue that cannot be written; `false` a supervisor that
        takes no handoff; `true` a request that stands on its registration. */
    method Request(token: string, binary: string) returns (taken: Option<bool>)
      modifies this`rows, this`failed, this`asked
      ensures asked == old(asked) + [token]
      ensures taken.None? ==> failed
      ensures forall t :: t != token && IsPending(rows, t, binary) ==> IsPending(old(rows), t, binary)
      ensures taken != Some(true) ==> NoNewRequest(old(rows), rows, binary)
      ensures taken == Some(false) ==> TakesNone(rows, token)
      ensures taken == Some(true) ==> IsPending(rows, token, binary)
    {
      OthersAct(binary);
      asked := asked + [token];
      var works: bool := *;
      if !works {
        failed := true;
        return None;
      }
      if !exists r :: r in rows && r.token == token && r.handoffAccepted { return Some(false); }
      AskedOnly(rows, token, binary);
      AskedStands(rows, token, binary);
      rows := Asked(rows, token, binary);
      return Some(true);
    }

    method Cancel(token: string, binary: string) returns (works: bool)
      modifies this`rows, this`canceled
      ensures canceled == old(canceled) + [token]
      ensures NoNewRequest(old(rows), rows, binary)
      ensures works ==> !IsPending(rows, token, binary)
    {
      OthersAct(binary);
      works := *;
      if works {
        WithdrawnOnly(rows, token, binary);
        rows := Withdrawn(rows, token, binary);
      }
      canceled := canceled + [token];
    }

    method Read(deadline: nat, binary: string) returns (s: Option<Snapshot>)
      modifies this`rows, this`failed
      ensures s.None? ==> failed
      ensures s.Some? ==> s.value.registrations == rows && (s.value.expired <==> clock >= deadline)
      ensures NoNewRequest(old(rows), rows, binary)
    {
      OthersAct(binary);
      var readable: bool, alive: set<nat>, now: int := *, *, *;
      s := if readable then Some(Snapshot(rows, alive, now, clock >= deadline)) else None;
      failed := failed || !readable;
    }

    method Sleep()
      modifies this`clock
      ensures clock > old(clock)
    {
      var passed :| passed > 0;
      clock := clock + passed;
    }
  }

  /** The tokens of `live`, in its order. */
  function Tokens(live: seq<Registration>): seq<string> {
    seq(|live|, i requires 0 <= i < |live| => live[i].token)
  }

  function Originals(done: seq<HandedOver>): seq<Registration> {
    seq(|done|, i requires 0 <= i < |done| => done[i].registration)
  }

  /** `d` was seen fresh under `version`, with the pid it had and the request
      cleared, in one of the snapshots. */
  ghost predicate SeenBack(d: HandedOver, history: seq<Snapshot>, version: string) {
    exists s :: s in history && LookAt(d.registration, s, version) == Took(d.current)
  }

  ghost predicate AllSeenBack(done: seq<HandedOver>, history: seq<Snapshot>, version: string) {
    forall d :: d in done ==> SeenBack(d, history, version)
  }

  lemma SeenBackMeans(d: HandedOver, s: Snapshot, version: string)
    requires LookAt(d.registration, s, version) == Took(d.current)
    ensures d.current in s.registrations && d.current.pid == d.registration.pid
    ensures d.current.binaryVersion == Some(version) && d.current.handoffBinary == None && Fresh(d.current, s)
    ensures d.current.token == d.registration.token ||
      forall r :: r in s.registrations ==> r.token != d.registration.token
  {
  }

  /** The pending supervisors are the ones handed over and the ones waited for,
      as a look at each shows, and none of them fails. */
  ghost predicate Parted(pending: seq<Registration>, done: seq<HandedOver>, waiting: seq<Registration>,
                         look: Registration -> Look) {
    && (forall x :: x in pending ==> !look(x).Fails?)
    && multiset(Originals(done)) + multiset(waiting) == multiset(pending)
    && (forall d :: d in done ==> look(d.registration) == Took(d.current))
    && (forall x :: x in waiting ==> look(x).Waits?)
  }

  lemma PartNext(pending: seq<Registration>, i: nat, done: seq<HandedOver>, waiting: seq<Registration>,
                 look: Registration -> Look)
    requires i < |pending| && Parted(pending[..i], done, waiting, look)
    ensures pending[i] in pending
    ensures look(pending[i]).Waits? ==> Parted(pending[..i + 1], done, waiting + [pending[i]], look)
    ensures look(pending[i]).Took? ==>
      Parted(pending[..i + 1], done + [HandedOver(pending[i], look(pending[i]).current)], waiting, look)
  {
    assert pending[..i + 1] == pending[..i] + [pending[i]];
    PartOneMore(pending[..i], pending[i], done, waiting, look);
  }

  lemma PartOneMore(pending: seq<Registration>, x: Registration, done: seq<HandedOver>, waiting: seq<Registration>,
                    look: Registration -> Look)
    requires Parted(pending, done, waiting, look)
    ensures look(x).Waits? ==> Parted(pending + [x], done, waiting + [x], look)
    ensures look(x).Took? ==> Parted(pending + [x], done + [HandedOver(x, look(x).current)], waiting, look)
  {
    if look(x).Took? {
      assert Originals(done + [HandedOver(x, look(x).current)]) == Originals(done) + [x];
    }
  }

  /** What one snapshot shows of each supervisor. */
  function Looking(s: Snapshot, version: string): Registration -> Look {
    x => LookAt(x, s, version)
  }

  /** One pass over the supervisors still asked: each is handed over, still
      waited for, or the end of the handoff. */
  method Pass(pending: seq<Registration>, look: Registration -> Look)
    returns (error: Option<HandoffError>, done: seq<HandedOver>, waiting: seq<Registration>)
    ensures error.None? ==> Parted(pending, done, waiting, look)
    ensures error.Some? ==> exists x :: x in pending && look(x) == Fails(error.value)
  {
    done, waiting := [], [];
    for i := 0 to |pending|
      invariant Parted(pending[..i], done, waiting, look)
    {
      var x := pending[i];
      PartNext(pending, i, done, waiting, look);
      match look(x) {
        case Fails(e) => return Some(e), done, waiting;
        case Waits => waiting := waiting + [x];
        case Took(current) => done := done + [HandedOver(x, current)];
      }
    }
    assert pending[..|pending|] == pending;
    return None, done, waiting;
  }

  /** Ask every live supervisor in turn, up to the first that cannot be
      asked. */
  method RequestAll(queue: Registry, live: seq<Registration>, binary: string) returns (error: Option<HandoffError>)
    modifies queue`rows, queue`failed, queue`asked
    ensures OnlyLiveAsked(old(queue.rows), queue.rows, live, binary)
    ensures error.Some? ==> IsTrue(error.value, live, queue.failed, queue.rows, [], "")
    ensures error.None? ==> queue.asked == old(queue.asked) + Tokens(live)
    ensures error.Some? ==> AskedUpTo(old(queue.asked), queue.asked, live)
    ensures error.Some? ==> IsRefusal(error.value, queue.asked)
  {
    for i := 0 to |live|
      invariant OnlyLiveAsked(old(queue.rows), queue.rows, live, binary)
      invariant queue.asked == old(queue.asked) + Tokens(live[..i])
    {
      var taken := queue.Request(live[i].token, binary);
      assert live[i] in live;
      assert Tokens(live[..i + 1]) == Tokens(live[..i]) + [live[i].token];
      if taken.None? { return Some(QueueFailed); }
      if !taken.value { return Some(CannotTake(live[i])); }
    }
    assert live[..|live|] == live;
    return None;
  }

  /** The requests added to `before` went to the first of the live
      supervisors, one each. */
  ghost predicate AskedUpTo(before: seq<string>, asked: seq<string>, live: seq<Registration>) {
    exists i :: 0 < i <= |live| && asked == before + Tokens(live[..i])
  }

  /** What stopped the requests: the queue, or the supervisor asked last. */
  ghost predicate IsRefusal(e: HandoffError, asked: seq<string>) {
    e == QueueFailed || (e.CannotTake? && asked != [] && asked[|asked| - 1] == e.registration.token)
  }

  /** Why a handoff ended: the queue did fail, a supervisor asked took none by
      the registrations `rows` of that moment, or the last snapshot shows
      it. */
  ghost predicate IsTrue(e: HandoffError, live: seq<Registration>, failed: bool, rows: seq<Registration>,
                         history: seq<Snapshot>, version: string) {
    match e
    case BadPath => false
    case QueueFailed => failed
    case CannotTake(x) => x in live && TakesNone(rows, x.token)
    case TimedOut(waiting) =>
      && history != [] && history[|history| - 1].expired && waiting != []
      && forall x :: x in waiting ==> x in live && LookAt(x, history[|history| - 1], version).Waits?
    case _ => history != [] && exists x :: x in live && LookAt(x, history[|history| - 1], version) == Fails(e)
  }

  /** A request for the binary that was not there before is a live
      supervisor's. */
  ghost predicate OnlyLiveAsked(before: seq<Registration>, rows: seq<Registration>, live: seq<Registration>,
                                binary: string) {
    forall token :: IsPending(rows, token, binary) ==>
      IsPending(before, token, binary) || exists x :: x in live && x.token == token
  }

  lemma AskedTransitive(before: seq<Registration>, rows: seq<Registration>, next: seq<Registration>,
                        live: seq<Registration>, binary: string)
    requires OnlyLiveAsked(before, rows, live, binary) && NoNewRequest(rows, next, binary)
    ensures OnlyLiveAsked(before, next, live, binary)
  {
  }

  /** Ask everybody, then look until nobody is waited for. In every pass the
      supervisors handed over and those still waited for are together exactly
      the live ones. */
  method WaitForHandoff(queue: Registry, live: seq<Registration>, binary: string, version: string, timeout: nat)
    returns (r: Result<seq<HandedOver>, HandoffError>, ghost history: seq<Snapshot>)
    modifies queue`rows, queue`failed, queue`clock, queue`asked
    ensures queue.asked == old(queue.asked) + Tokens(live) ||
      (r.Err? && IsRefusal(r.error, queue.asked) && AskedUpTo(old(queue.asked), queue.asked, live))
    ensures r.Ok? ==> queue.asked == old(queue.asked) + Tokens(live)
    ensures r.Err? && r.error.TimedOut? ==> queue.clock >= old(queue.clock) + timeout
    ensures queue.clock >= old(queue.clock) && NoneExpiredBefore(history)
    ensures r.Ok? ==> multiset(Originals(r.value)) == multiset(live) && AllSeenBack(r.value, history, version)
    ensures OnlyLiveAsked(old(queue.rows), queue.rows, live, binary)
    ensures queue.canceled == old(queue.canceled)
    ensures r.Err? ==> IsTrue(r.error, live, queue.failed, queue.rows, history, version)
  {
    history := [];
    var error := RequestAll(queue, live, binary);
    if error.Some? { return Err(error.value), history; }
    var deadline := queue.clock + timeout;
    var pending, done := live, [];
    assert Originals(done) == [];
    while true
      invariant Accounted(live, pending, done, history, version)
      invariant OnlyLiveAsked(old(queue.rows), queue.rows, live, binary)
      invariant queue.asked == old(queue.asked) + Tokens(live) && queue.clock >= old(queue.clock)
      invariant NoneExpiredBefore(history) && (history != [] ==> !history[|history| - 1].expired)
      decreases if queue.clock < deadline then deadline - queue.clock else 0
    {
      ghost var rows := queue.rows;
      var s := queue.Read(deadline, binary);
      AskedTransitive(old(queue.rows), rows, queue.rows, live, binary);
      if s.None? { return Err(QueueFailed), history; }
      var failed, more, waiting := Pass(pending, Looking(s.value, version));
      StillLive(pending, Originals(done), live);
      if failed.Some? { return Err(failed.value), history + [s.value]; }
      AccountedAfterPass(live, pending, done, history, more, waiting, s.value, version);
      done, history := done + more, history + [s.value];
      if waiting == [] {
        return Ok(done), history;
      }
      if s.value.expired { return Err(TimedOut(waiting)), history; }
      pending := waiting;
      queue.Sleep();
    }
  }

  /** The supervisors handed over, each seen back, and those still waited for
      are together exactly the live ones. */
  ghost predicate Accounted(live: seq<Registration>, pending: seq<Registration>, done: seq<HandedOver>,
                            history: seq<Snapshot>, version: string) {
    multiset(Originals(done)) + multiset(pending) == multiset(live) && AllSeenBack(done, history, version)
  }

  lemma AccountedAfterPass(live: seq<Registration>, pending: seq<Registration>, done: seq<HandedOver>,
                           history: seq<Snapshot>, more: seq<HandedOver>, waiting: seq<Registration>, s: Snapshot,
                           version: string)
    requires Accounted(live, pending, done, history, version)
    requires Parted(pending, more, waiting, Looking(s, version))
    ensures Accounted(live, waiting, done + more, history + [s], version)
    ensures forall x :: x in waiting ==> x in live
  {
    AddUp(live, pending, done, more, waiting);
    SeenBackTogether(done, more, history, s, version);
    StillLive(waiting, Originals(done + more), live);
  }

  lemma AddUp(live: seq<Registration>, pending: seq<Registration>, done: seq<HandedOver>, more: seq<HandedOver>,
              waiting: seq<Registration>)
    requires multiset(Originals(done)) + multiset(pending) == multiset(live)
    requires multiset(Originals(more)) + multiset(waiting) == multiset(pending)
    ensures multiset(Originals(done + more)) + multiset(waiting) == multiset(live)
  {
    assert Originals(done + more) == Originals(done) + Originals(more);
  }

  lemma StillLive(pending: seq<Registration>, done: seq<Registration>, live: seq<Registration>)
    requires multiset(done) + multiset(pending) == multiset(live)
    ensures forall x :: x in pending ==> x in live
  {
    forall x | x in pending ensures x in live {
      assert x in multiset(pending) && x in multiset(live);
    }
  }

  lemma SeenBackTogether(done: seq<HandedOver>, more: seq<HandedOver>, history: seq<Snapshot>, s: Snapshot,
                         version: string)
    requires AllSeenBack(done, history, version)
    requires forall d :: d in more ==> Looking(s, version)(d.registration) == Took(d.current)
    ensures AllSeenBack(done + more, history + [s], version)
  {
    forall d | d in done + more ensures SeenBack(d, history + [s], version) {
      if d in done {
        var t :| t in history && LookAt(d.registration, t, version) == Took(d.current);
        assert t in history + [s];
      } else {
        assert d in more && s in history + [s];
      }
    }
  }

  /** Hand every live supervisor over, or leave no request behind: a handoff
      that fails after it could ask issues a cancel for every one of `live`,
      and what it canceled is not pending any more. */
  method HandOff(queue: Registry, live: seq<Registration>, binary: Option<string>, version: string, timeout: nat)
    returns (r: Result<seq<HandedOver>, HandoffError>, ghost rows: seq<Registration>, ghost history: seq<Snapshot>,
             ghost works: seq<bool>)
    modifies queue
    ensures r.Ok? ==> multiset(Originals(r.value)) == multiset(live) && AllSeenBack(r.value, history, version)
    ensures r.Ok? ==> queue.asked == old(queue.asked) + Tokens(live) && queue.canceled == old(queue.canceled)
    ensures r.Err? && r.error.TimedOut? ==> queue.clock >= old(queue.clock) + timeout
    ensures NoneExpiredBefore(history)
    ensures r.Err? && binary.Some? && queue.asked != old(queue.asked) + Tokens(live) ==>
      IsRefusal(r.error, queue.asked) && AskedUpTo(old(queue.asked), queue.asked, live)
    ensures binary.None? ==> r == Err(BadPath) && queue.rows == old(queue.rows)
    ensures binary.None? ==> queue.asked == old(queue.asked) && queue.canceled == old(queue.canceled)
    ensures r.Err? && binary.Some? ==> IsTrue(r.error, live, queue.failed, rows, history, version)
    ensures r.Err? && binary.Some? ==> OnlyLiveAsked(old(queue.rows), rows, live, binary.value)
    ensures r.Err? && binary.Some? ==> queue.canceled == old(queue.canceled) + Tokens(live) && |works| == |live|
    ensures r.Err? && binary.Some? ==> forall i :: 0 <= i < |live| && works[i] ==>
      !IsPending(queue.rows, live[i].token, binary.value)
    ensures r.Err? && binary.Some? && (forall i :: 0 <= i < |works| ==> works[i]) ==>
      NoNewRequest(old(queue.rows), queue.rows, binary.value)
  {
    rows, history, works := queue.rows, [], [];
    if binary.None? {
      return Err(BadPath), rows, history, works;
    }
    var text := binary.value;
    r, history := WaitForHandoff(queue, live, text, version, timeout);
    rows := queue.rows;
    if r.Err? {
      ghost var asked, failed, requested, clock := queue.rows, queue.failed, queue.asked, queue.clock;
      for i := 0 to |live|
        invariant queue.canceled == old(queue.canceled) + Tokens(live[..i]) && |works| == i
        invariant forall k :: 0 <= k < i && works[k] ==> !IsPending(queue.rows, live[k].token, text)
        invariant NoNewRequest(asked, queue.rows, text)
        invariant queue.failed == failed && queue.asked == requested
        invariant queue.clock == clock
      {
        var worked := queue.Cancel(live[i].token, text);
        works := works + [worked];
        assert live[..i + 1] == live[..i] + [live[i]];
        assert Tokens(live[..i + 1]) == Tokens(live[..i]) + [live[i].token];
      }
      assert live[..|live|] == live;
    }
  }
}
