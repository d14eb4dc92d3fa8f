/** The queue's event log, which others append to while somebody reads it. */
module EventQueue {
  import opened Supervisors

  /** `attention` is whether the event's payload makes it an attention, for a
      kind that can be one. */
  datatype Event = Event(id: int, kind: string, attention: bool)

  /** The log in ID order. */
  type Log = seq<Event>

  ghost predicate InIdOrder(log: Log) {
    forall i, j :: 0 <= i < j < |log| ==> log[i].id < log[j].id
  }

  function LatestId(log: Log): int {
    if log == [] then 0 else log[|log| - 1].id
  }

  /** A log that only grew, at its end. */
  ghost predicate Grew(log: Log, later: Log) {
    log <= later && InIdOrder(later) && forall i :: |log| <= i < |later| ==> LatestId(log) < later[i].id
  }

  lemma GrewFurther(log: Log, later: Log, last: Log)
    requires InIdOrder(log) && Grew(log, later) && Grew(later, last)
    ensures Grew(log, last) && LatestId(log) <= LatestId(later)
  {
    if log != [] && |log| < |later| {
      assert log[|log| - 1] == later[|log| - 1];
    }
    forall i | |log| <= i < |last| ensures LatestId(log) < last[i].id {
      if i < |later| {
        assert later[i] == last[i];
      } else if |log| < |later| {
        assert LatestId(log) < later[|later| - 1].id;
      } else {
        assert log == later;
      }
    }
  }

  /** The queue as a reader finds it: others append events and change the
      registrations, and time goes on. */
  class Queue {
    var log: Log
    var clock: nat
    ghost var looks: seq<Snapshot>

    constructor (log: Log, clock: nat)
      ensures this.log == log && this.clock == clock && looks == []
    {
      this.log, this.clock, looks := log, clock, [];
    }

    method OthersAppend()
      requires InIdOrder(log)
      modifies this`log
      ensures Grew(old(log), log)
    {
      var count: nat :| count >= 0;
      for i := 0 to count
        invariant InIdOrder(log) && Grew(old(log), log)
      {
        var id :| id > LatestId(log);
        var kind: string, attention: bool := *, *;
        ghost var before := log;
        log := log + [Event(id, kind, attention)];
        assert Grew(before, log) by {
          assert forall k :: 0 <= k < |before| ==> before[k].id <= LatestId(before);
        }
        if before != old(log) {
          GrewFurther(old(log), before, log);
        }
      }
    }

    method Registrations() returns (s: Snapshot)
      modifies this`looks
      ensures looks == old(looks) + [s]
    {
      var registrations: seq<Registration>, alive: set<nat>, now: int := *, *, *;
      s := Snapshot(registrations, alive, now, false);
      looks := looks + [s];
    }

    method Sleep()
      modifies this`clock
      ensures clock > old(clock)
    {
      var passed :| passed > 0;
      clock := clock + passed;
    }
  }
}
