/** `watch` and repeated polls: over any growth of the log every event to
    deliver comes back exactly once. */
module EventWatch {
  import opened Outcomes
  import opened EventCursor
  import opened EventQueue
  import opened Supervisors

  const WATCH_LIMIT := 100

  /** The health of a registered supervisor that `watch` compares. */
  datatype Pulse = Pulse(token: string, pid: nat, alive: bool, stale: bool)

  function Pulses(s: Snapshot): seq<Pulse> {
    seq(|s.registrations|, i requires 0 <= i < |s.registrations| =>
      var r := s.registrations[i];
      var alive := r.pid in s.alive;
      Pulse(r.token, r.pid, alive, !alive || s.now - r.heartbeatAt > HEARTBEAT_TIMEOUT_SECS))
  }

  /** Two reads of the registrations show the same supervisors in the same
      health: the tokens, the pids, who lives and whose heartbeat is over 30
      seconds old. */
  ghost predicate SameHealth(s: Snapshot, t: Snapshot) {
    && |s.registrations| == |t.registrations|
    && forall i :: 0 <= i < |s.registrations| ==> PulseIsSame(s, t, i)
  }

  lemma PulsesCompareHealth(s: Snapshot, t: Snapshot)
    ensures Pulses(s) == Pulses(t) <==> SameHealth(s, t)
  {
    if Pulses(s) == Pulses(t) {
      assert |Pulses(s)| == |s.registrations| && |Pulses(t)| == |t.registrations|;
      forall i | 0 <= i < |s.registrations| ensures PulseIsSame(s, t, i) {
        assert Pulses(s)[i] == Pulses(t)[i];
      }
    }
    if SameHealth(s, t) {
      forall i | 0 <= i < |s.registrations| ensures Pulses(s)[i] == Pulses(t)[i] {
        assert PulseIsSame(s, t, i);
      }
    }
  }

  ghost predicate PulseIsSame(s: Snapshot, t: Snapshot, i: nat)
    requires i < |s.registrations| == |t.registrations|
  {
    var x, y := s.registrations[i], t.registrations[i];
    && x.token == y.token && x.pid == y.pid
    && (x.pid in s.alive <==> y.pid in t.alive)
    && (x.pid in s.alive ==> (s.now - x.heartbeatAt > 30 <==> t.now - y.heartbeatAt > 30))
  }

  function WatchQuery(): Query {
    Query(WATCH_LIMIT, false, None, _ => true)
  }

  /** What a poll from `after` may answer on `log`: exactly what there is to
      deliver up to its cursor, which does not fall back. */
  ghost predicate Delivers(log: Log, q: Query, role: Option<Role>, after: int, events: seq<Event>, cursor: int) {
    after <= cursor <= LatestId(log) && events == ToDeliver(log, q, role, after, cursor)
  }

  /** What there is to deliver up to the end of a log stays the same when the
      log grows. */
  lemma GrowthKeepsDelivery(log: Log, later: Log, q: Query, role: Option<Role>, after: int, upto: int)
    requires Grew(log, later) && upto <= LatestId(log)
    ensures ToDeliver(later, q, role, after, upto) == ToDeliver(log, q, role, after, upto)
  {
    GrowthKeepsMatching(log, later, q, after, upto);
  }

  lemma ToDeliverTogether(log: Log, q: Query, role: Option<Role>, after: int, mid: int, upto: int)
    requires InIdOrder(log) && after <= mid <= upto
    ensures ToDeliver(log, q, role, after, upto) ==
      ToDeliver(log, q, role, after, mid) + ToDeliver(log, q, role, mid, upto)
  {
    MatchingTogether(log, q, after, mid, upto);
    KeptTogether(Matching(log, q, after, mid), Matching(log, q, mid, upto), q, role);
  }

  /** One read up to the end of the log delivers, and delivers everything
      unless its limit was reached. */
  lemma ReadDelivers(log: Log, q: Query, role: Option<Role>, after: int, events: seq<Event>, cursor: int)
    requires InIdOrder(log) && after <= LatestId(log)
    requires IsRead(log, q, role, after, LatestId(log), events, cursor)
    requires events == ToDeliver(log, q, role, after, cursor)
    ensures Delivers(log, q, role, after, events, cursor)
    ensures |events| < Limit(q) ==> ToDeliver(log, q, role, cursor, LatestId(log)) == []
  {
    CursorMovesOn(log, q, role, after, LatestId(log), events, cursor);
    ToDeliverTogether(log, q, role, after, cursor, LatestId(log));
  }

  datatype Answer = Answer(events: seq<Event>, supervisorsChanged: bool, cursor: int)

  /** One read up to the latest event, while others append: before it,
      before each of its pages and after it. */
  method Look(queue: Queue, role: Option<Role>, start: int) returns (events: seq<Event>, cursor: int)
    requires InIdOrder(queue.log)
    modifies queue`log
    ensures Grew(old(queue.log), queue.log) && |events| <= WATCH_LIMIT
    ensures start <= LatestId(old(queue.log)) ==> Delivers(queue.log, WatchQuery(), role, start, events, cursor)
  {
    queue.OthersAppend();
    var upto := LatestId(queue.log);
    ghost var read := queue.log;
    events, cursor := ReadEvents(queue, WatchQuery(), role, start, upto);
    ghost var last := queue.log;
    queue.OthersAppend();
    GrewFurther(read, last, queue.log);
    GrewFurther(old(queue.log), read, queue.log);
    if start <= LatestId(old(queue.log)) {
      AnswerDelivers(old(queue.log), read, queue.log, role, start, events, cursor);
    }
  }

  lemma NothingDelivered(log: Log, role: Option<Role>, start: int)
    ensures start <= LatestId(log) ==> Delivers(log, WatchQuery(), role, start, [], start)
  {
    NothingBetween(log, role, start);
  }

  /** Wait for an event past the cursor or a change of the supervisors'
      health, or give up at the timeout with the cursor where it was. Whatever
      it comes back with, it delivers. */
  method Watch(queue: Queue, from: Option<int>, role: Option<Role>, timeout: nat)
    returns (answer: Answer, ghost after: int)
    requires InIdOrder(queue.log)
    modifies queue
    ensures after == (if from.Some? then from.value else LatestId(old(queue.log)))
    ensures Grew(old(queue.log), queue.log)
    ensures after <= LatestId(old(queue.log)) ==>
      Delivers(queue.log, WatchQuery(), role, after, answer.events, answer.cursor)
    ensures answer.events == [] && !answer.supervisorsChanged ==>
      answer.cursor == after && queue.clock >= old(queue.clock) + timeout
    ensures |queue.looks| >= |old(queue.looks)| + 2 && old(queue.looks) <= queue.looks
    ensures answer.supervisorsChanged <==>
      (role == None || role == Some(Inbox)) &&
      !SameHealth(queue.looks[|old(queue.looks)|], queue.looks[|queue.looks| - 1])
    ensures |answer.events| <= 100
  {
    var start := if from.Some? then from.value else LatestId(queue.log);
    after := start;
    var first := queue.Registrations();
    var baseline := Pulses(first);
    var deadline := queue.clock + timeout;
    while true
      invariant Grew(old(queue.log), queue.log)
      invariant old(queue.looks) + [first] <= queue.looks
      decreases if queue.clock < deadline then deadline - queue.clock else 0
    {
      ghost var before := queue.log;
      var events, cursor := Look(queue, role, start);
      GrewFurther(old(queue.log), before, queue.log);
      var registrations := queue.Registrations();
      var changed := ForRole(role) && Pulses(registrations) != baseline;
      PulsesCompareHealth(registrations, first);
      PulsesCompareHealth(first, registrations);
      if events != [] || changed || queue.clock >= deadline {
        NothingDelivered(queue.log, role, start);
        return Answer(events, changed, if events == [] && !changed then start else cursor), start;
      }
      queue.Sleep();
    }
  }

  lemma AnswerDelivers(first: Log, read: Log, log: Log, role: Option<Role>, after: int,
                       events: seq<Event>, cursor: int)
    requires InIdOrder(first) && Grew(first, read) && Grew(read, log) && after <= LatestId(first)
    requires IsRead(read, WatchQuery(), role, after, LatestId(read), events, cursor)
    requires events == ToDeliver(read, WatchQuery(), role, after, cursor)
    ensures Delivers(log, WatchQuery(), role, after, events, cursor)
  {
    GrewFurther(first, read, read);
    GrewFurther(read, log, log);
    ReadDelivers(read, WatchQuery(), role, after, events, cursor);
    GrowthKeepsDelivery(read, log, WatchQuery(), role, after, cursor);
  }

  lemma {:induction false} NothingBetween(log: Log, role: Option<Role>, after: int)
    ensures Matching(log, WatchQuery(), after, after) == []
    ensures ToDeliver(log, WatchQuery(), role, after, after) == []
  {
    if log != [] {
      NothingBetween(log[1..], role, after);
    }
  }

  // ----- Any number of polls -----

  function Flattened(answers: seq<seq<Event>>): seq<Event> {
    if answers == [] then [] else Flattened(answers[..|answers| - 1]) + answers[|answers| - 1]
  }

  /** Polls one after the other, each from the cursor of the one before, on a
      log that grows. */
  ghost predicate Polls(logs: seq<Log>, q: Query, role: Option<Role>, cursors: seq<int>, answers: seq<seq<Event>>) {
    && |cursors| == |logs| + 1 && |answers| == |logs| > 0
    && InIdOrder(logs[0])
    && (forall i :: 0 <= i < |logs| ==> Delivers(logs[i], q, role, cursors[i], answers[i], cursors[i + 1]))
    && (forall i :: 0 <= i < |logs| - 1 ==> Grew(logs[i], logs[i + 1]))
  }

  /** Together they deliver exactly what there is between the first cursor and
      the last, in order: every event once. */
  lemma {:induction false} PollsDeliverOnce(logs: seq<Log>, q: Query, role: Option<Role>,
                                            cursors: seq<int>, answers: seq<seq<Event>>)
    requires Polls(logs, q, role, cursors, answers)
    ensures var n := |logs|;
      && Flattened(answers) == ToDeliver(logs[n - 1], q, role, cursors[0], cursors[n])
      && cursors[0] <= cursors[n] <= LatestId(logs[n - 1])
      && InIdOrder(logs[n - 1]) && InIdOrder(Flattened(answers))
    decreases |logs|
  {
    var n := |logs|;
    if n == 1 {
      assert answers[..0] == [];
      assert Delivers(logs[0], q, role, cursors[0], answers[0], cursors[1]);
    } else {
      PollsDeliverOnce(logs[..n - 1], q, role, cursors[..n], answers[..n - 1]);
      var log, last := logs[n - 1], logs[n - 2];
      assert Grew(logs[n - 2], logs[n - 2 + 1]);
      assert Delivers(logs[n - 1], q, role, cursors[n - 1], answers[n - 1], cursors[n]);
      GrowthKeepsDelivery(last, log, q, role, cursors[0], cursors[n - 1]);
      ToDeliverTogether(log, q, role, cursors[0], cursors[n - 1], cursors[n]);
    }
    DeliveredInOrder(logs[n - 1], q, role, cursors[0], cursors[n]);
  }

  /** What there is to deliver, by the events alone: those past `after` up to
      `upto` the filter takes, which with no kinds asked for and without `all`
      are the attentions of an attention kind, for nobody or the inbox. */
  lemma DeliveredAre(log: Log, q: Query, role: Option<Role>, after: int, upto: int)
    ensures forall e :: e in ToDeliver(log, q, role, after, upto) <==>
      && e in log && after < e.id <= upto && q.other(e)
      && (if q.all || q.kinds != None then q.kinds == None || e.kind in q.kinds.value
          else e.kind in ATTENTION_KINDS && e.attention && (role == None || role == Some(Inbox)))
  {
    KeptAreMatching(Matching(log, q, after, upto), q, role);
    MatchingMembers(log, q, after, upto);
  }

  /** `watch` delivers the attentions past its cursor and nothing else. */
  lemma WatchDelivers(log: Log, role: Option<Role>, after: int, events: seq<Event>, cursor: int)
    requires InIdOrder(log) && Delivers(log, WatchQuery(), role, after, events, cursor)
    ensures InIdOrder(events)
    ensures forall e :: e in events <==>
      && e in log && after < e.id <= cursor && e.kind in ATTENTION_KINDS && e.attention
      && (role == None || role == Some(Inbox))
  {
    DeliveredAre(log, WatchQuery(), role, after, cursor);
    DeliveredInOrder(log, WatchQuery(), role, after, cursor);
  }

  /** How many events one read returns at most. */
  lemma ReadAtMost(log: Log, q: Query, role: Option<Role>, after: int, upto: int, events: seq<Event>, cursor: int)
    requires IsRead(log, q, role, after, upto, events, cursor)
    ensures |events| <= (if q.limit == 0 then 1 else q.limit)
    ensures |events| < (if q.limit == 0 then 1 else q.limit) <==>
      |ToDeliver(log, q, role, after, upto)| < (if q.limit == 0 then 1 else q.limit)
    ensures if |events| < (if q.limit == 0 then 1 else q.limit) then cursor == upto
            else cursor == events[|events| - 1].id
  {
  }

  lemma DeliveredInOrder(log: Log, q: Query, role: Option<Role>, after: int, upto: int)
    requires InIdOrder(log)
    ensures InIdOrder(ToDeliver(log, q, role, after, upto))
  {
    MatchingInOrder(log, q, after, upto);
    KeptInOrder(Matching(log, q, after, upto), q, role);
  }

  lemma {:induction false} KeptInOrder(events: seq<Event>, q: Query, role: Option<Role>)
    requires InIdOrder(events)
    ensures InIdOrder(Kept(events, q, role))
  {
    if events != [] {
      var init, last := events[..|events| - 1], events[|events| - 1];
      KeptInOrder(init, q, role);
      KeptAreMatching(init, q, role);
      var kept := Kept(init, q, role);
      forall i | 0 <= i < |kept| ensures kept[i].id < last.id {
        assert kept[i] in kept && kept[i] in init;
      }
    }
  }
}
