/** Watching the supervisors handed over after an update, and what becomes of
    the binary it replaced. */
module UpdateWatch {
  import opened Outcomes
  import opened Supervisors

  datatype Failure = Deregistered | Exited | OtherBuild | NoHeartbeat

  /** What the watch saw of one supervisor: the token it serves under now, the
      heartbeat it was first seen with there, and how it ended. */
  datatype Watched = Watched(
    token: string,
    pid: nat,
    now: string,
    first: Option<int>,
    done: bool,
    error: Option<Failure>)

  function Started(token: string, pid: nat): Watched {
    Watched(token, pid, token, None, false, None)
  }

  predicate Decided(w: Watched) {
    w.done || w.error.Some?
  }

  /** One look at a supervisor: done once it heartbeats on under `version`, an
      error when it cannot any more. */
  function Observe(s: Snapshot, w: Watched, version: string): Watched {
    var serving := Serving(s.registrations, w.now, w.pid, version);
    if serving.None? then w.(error := Some(Deregistered)) else
    var current := serving.value;
    var w := if current.token != w.now then w.(now := current.token, first := None) else w;
    if current.pid !in s.alive then w.(error := Some(Exited))
    else if current.binaryVersion != Some(version) then w.(error := Some(OtherBuild))
    else if w.first.Some? && current.heartbeatAt > w.first.value then w.(done := true)
    else
      var w := if w.first.None? then w.(first := Some(current.heartbeatAt)) else w;
      if s.expired then w.(error := Some(NoHeartbeat)) else w
  }

  /** A supervisor watched on its own over `history`: looked at in each
      snapshot until it is decided. */
  function Alone(history: seq<Snapshot>, w: Watched, version: string): Watched {
    if history == [] then w
    else
      var before := Alone(history[..|history| - 1], w, version);
      if Decided(before) then before else Observe(history[|history| - 1], before, version)
  }

  /** The registrations, the processes and the time as the watch reads them:
      each read may find anything, and time goes on between reads. */
  class Environment {
    var clock: nat
    var unreadable: bool

    constructor (clock: nat)
      ensures this.clock == clock && !unreadable
    {
      this.clock, unreadable := clock, false;
    }

    method Read(deadline: nat) returns (s: Option<Snapshot>)
      modifies this`unreadable
      ensures s.Some? ==> (s.value.expired <==> clock >= deadline)
      ensures unreadable <==> old(unreadable) || s.None?
    {
      var readable: bool, registrations: seq<Registration>, alive: set<nat>, now: int := *, *, *, *;
      s := if readable then Some(Snapshot(registrations, alive, now, clock >= deadline)) else None;
      unreadable := unreadable || !readable;
    }

    method Sleep()
      modifies this`clock
      ensures clock > old(clock)
    {
      var passed :| passed > 0;
      clock := clock + passed;
    }
  }

  /** Everybody not decided yet has been looked at. */
  ghost predicate Looked(before: seq<Watched>, after: seq<Watched>, s: Snapshot, version: string) {
    && |after| == |before|
    && forall k :: 0 <= k < |before| ==>
         after[k] == if Decided(before[k]) then before[k] else Observe(s, before[k], version)
  }

  /** Look at every supervisor not decided yet, in place. */
  method Pass(watched: array<Watched>, s: Snapshot, version: string)
    modifies watched
    ensures Looked(old(watched[..]), watched[..], s, version)
  {
    for i := 0 to watched.Length
      invariant forall k :: 0 <= k < i ==>
        watched[k] == if Decided(old(watched[k])) then old(watched[k]) else Observe(s, old(watched[k]), version)
      invariant forall k :: i <= k < watched.Length ==> watched[k] == old(watched[k])
    {
      if !Decided(watched[i]) {
        watched[i] := Observe(s, watched[i], version);
      }
    }
  }

  ghost predicate AllAlone(watched: seq<Watched>, handed: seq<(string, nat)>, history: seq<Snapshot>, version: string) {
    && |watched| == |handed|
    && forall k :: 0 <= k < |handed| ==> watched[k] == Alone(history, Started(handed[k].0, handed[k].1), version)
  }

  /** Watch every supervisor handed over. Whatever the snapshots, each is
      judged exactly as it would be watched alone over them, is decided by the
      first snapshot past the deadline at the latest, and is done or failed,
      not both. Only a queue that cannot be read ends the watch otherwise. */
  method Watch(env: Environment, handed: seq<(string, nat)>, version: string, timeout: nat)
    returns (r: Option<seq<Watched>>, ghost history: seq<Snapshot>)
    modifies env
    ensures r.Some? ==> AllAlone(r.value, handed, history, version)
    ensures r.Some? ==> forall k :: 0 <= k < |r.value| ==> (r.value[k].done <==> r.value[k].error.None?)
    ensures NoneExpiredBefore(history)
    ensures r.Some? ==> history != [] && (history[|history| - 1].expired <==> env.clock >= old(env.clock) + timeout)
    ensures r.None? ==> env.unreadable
  {
    var deadline := env.clock + timeout;
    var watched := new Watched[|handed|](k requires 0 <= k < |handed| => Started(handed[k].0, handed[k].1));
    history := [];
    while true
      invariant AllAlone(watched[..], handed, history, version)
      invariant NoneExpiredBefore(history)
      invariant env.clock >= old(env.clock)
      invariant history != [] ==> !history[|history| - 1].expired
      decreases if env.clock < deadline then deadline - env.clock else 0
    {
      var snapshot := env.Read(deadline);
      if snapshot.None? {
        return None, history;
      }
      ghost var before := watched[..];
      Pass(watched, snapshot.value, version);
      PassIsAlone(before, watched[..], handed, history, snapshot.value, version);
      history := history + [snapshot.value];
      if AllDecided(watched[..]) {
        DoneOrFailed(watched[..], handed, history, version);
        return Some(watched[..]), history;
      }
      UndecidedInTime(watched[..], handed, history, version);
      env.Sleep();
    }
  }

  predicate AllDecided(watched: seq<Watched>) {
    forall k :: 0 <= k < |watched| ==> Decided(watched[k])
  }

  lemma DoneOrFailed(watched: seq<Watched>, handed: seq<(string, nat)>, history: seq<Snapshot>, version: string)
    requires AllAlone(watched, handed, history, version) && AllDecided(watched)
    ensures forall k :: 0 <= k < |watched| ==> (watched[k].done <==> watched[k].error.None?)
  {
    forall k | 0 <= k < |watched| ensures watched[k].done <==> watched[k].error.None? {
      NeverBoth(history, Started(handed[k].0, handed[k].1), version);
    }
  }

  lemma UndecidedInTime(watched: seq<Watched>, handed: seq<(string, nat)>, history: seq<Snapshot>, version: string)
    requires AllAlone(watched, handed, history, version) && !AllDecided(watched) && history != []
    ensures !history[|history| - 1].expired
  {
    var k :| 0 <= k < |watched| && !Decided(watched[k]);
    ExpiryDecides(history, Started(handed[k].0, handed[k].1), version);
  }

  lemma PassIsAlone(before: seq<Watched>, after: seq<Watched>, handed: seq<(string, nat)>,
                    history: seq<Snapshot>, s: Snapshot, version: string)
    requires AllAlone(before, handed, history, version) && Looked(before, after, s, version)
    ensures AllAlone(after, handed, history + [s], version)
  {
    assert (history + [s])[..|history|] == history;
  }

  // ----- What being watched means -----

  /** A snapshot past the deadline decides whoever it finds undecided. */
  lemma ExpiryDecides(history: seq<Snapshot>, w: Watched, version: string)
    requires history != []
    ensures history[|history| - 1].expired ==> Decided(Alone(history, w, version))
  {
  }

  lemma {:induction false} NeverBoth(history: seq<Snapshot>, w: Watched, version: string)
    requires !Decided(w)
    ensures !(Alone(history, w, version).done && Alone(history, w, version).error.Some?)
    decreases |history|
  {
    if history != [] {
      NeverBoth(history[..|history| - 1], w, version);
    }
  }

  /** Once decided, nothing seen later changes it: a supervisor watched beside
      slower ones ends as it would have alone. */
  lemma {:induction false} DecisionStands(history: seq<Snapshot>, later: seq<Snapshot>, w: Watched, version: string)
    requires Decided(Alone(history, w, version))
    ensures Alone(history + later, w, version) == Alone(history, w, version)
    decreases |later|
  {
    if later == [] {
      assert history + later == history;
    } else {
      var init := later[..|later| - 1];
      assert (history + later)[..|history + later| - 1] == history + init;
      DecisionStands(history, init, w, version);
    }
  }

  /** A live sighting under a token and the new build. */
  ghost predicate Seen(history: seq<Snapshot>, i: int, token: string, version: string, heartbeat: int) {
    && 0 <= i < |history|
    && exists r :: r in history[i].registrations && r.token == token && r.pid in history[i].alive &&
         r.binaryVersion == Some(version) && r.heartbeatAt == heartbeat
  }

  ghost predicate SeenToBeatOn(history: seq<Snapshot>, token: string, version: string) {
    exists i, j, h, g :: i < j && h < g && Seen(history, i, token, version, h) && Seen(history, j, token, version, g)
  }

  lemma SeenLonger(history: seq<Snapshot>, s: Snapshot, i: int, token: string, version: string, heartbeat: int)
    requires Seen(history, i, token, version, heartbeat)
    ensures Seen(history + [s], i, token, version, heartbeat)
  {
    assert (history + [s])[i] == history[i];
  }

  lemma {:induction false} FirstWasSeen(history: seq<Snapshot>, token: string, pid: nat, version: string)
    ensures var w := Alone(history, Started(token, pid), version);
      && (w.first.Some? ==> exists i :: Seen(history, i, w.now, version, w.first.value))
      && (w.done ==> SeenToBeatOn(history, w.now, version))
    decreases |history|
  {
    if history != [] {
      var init, s := history[..|history| - 1], history[|history| - 1];
      assert history == init + [s];
      FirstWasSeen(init, token, pid, version);
      var before := Alone(init, Started(token, pid), version);
      var w := Alone(history, Started(token, pid), version);
      if before.first.Some? {
        var i :| Seen(init, i, before.now, version, before.first.value);
        SeenLonger(init, s, i, before.now, version, before.first.value);
      }
      if Decided(before) {
        if before.done {
          var i, j, h, g :|
            i < j && h < g && Seen(init, i, before.now, version, h) && Seen(init, j, before.now, version, g);
          SeenLonger(init, s, i, before.now, version, h);
          SeenLonger(init, s, j, before.now, version, g);
        }
      } else {
        var serving := Serving(s.registrations, before.now, before.pid, version);
        if serving.Some? && serving.value.pid in s.alive && serving.value.binaryVersion == Some(version) {
          assert Seen(history, |init|, serving.value.token, version, serving.value.heartbeatAt);
          assert w.now == serving.value.token;
        }
      }
    }
  }

  /** A supervisor that is done was seen alive twice under one token and the
      new build, the second time with a strictly later heartbeat. */
  lemma DoneMeansTwoSightings(history: seq<Snapshot>, token: string, pid: nat, version: string)
    requires Alone(history, Started(token, pid), version).done
    ensures SeenToBeatOn(history, Alone(history, Started(token, pid), version).now, version)
  {
    FirstWasSeen(history, token, pid, version);
  }

  // ----- What becomes of the binary -----

  datatype Binary = Kept | PutBack | NotTheReplaced

  function Failures(watched: seq<Watched>): seq<Watched> {
    if watched == [] then []
    else (if watched[0].error.Some? then [watched[0]] else []) + Failures(watched[1..])
  }

  /** The binary is one file for every supervisor: it goes back only when none
      of them runs the new build, and only when `.previous` is the build it
      replaced (`kept` is that file's version, if it is there). */
  function BinaryAfter(watched: seq<Watched>, kept: Option<string>, replaced: Option<string>): Binary {
    if Failures(watched) == [] || |Failures(watched)| != |watched| then Kept
    else if kept.None? || kept != replaced then NotTheReplaced
    else PutBack
  }

  lemma {:induction false} FailuresCount(watched: seq<Watched>)
    ensures |Failures(watched)| <= |watched|
    ensures |Failures(watched)| == |watched| <==> forall w :: w in watched ==> w.error.Some?
  {
    if watched != [] {
      FailuresCount(watched[1..]);
      assert forall w :: w in watched <==> w == watched[0] || w in watched[1..];
    }
  }

  /** The old binary goes back exactly when somebody was watched, everybody
      failed and the replaced build is what is kept: never under a supervisor
      that runs the new one. */
  lemma PutBackOnlyWhenAllFailed(watched: seq<Watched>, kept: Option<string>, replaced: Option<string>)
    ensures BinaryAfter(watched, kept, replaced).PutBack? <==>
      watched != [] && (forall w :: w in watched ==> w.error.Some?) && kept.Some? && kept == replaced
    ensures BinaryAfter(watched, kept, replaced).Kept? <==>
      watched == [] || exists w :: w in watched && w.error.None?
  {
    FailuresCount(watched);
  }
}
