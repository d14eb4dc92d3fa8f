/** What the health report says of a supervisor, field by field. */
module JoinMeaning {
  import opened Outcomes
  import opened Supervisors
  import opened SupervisorJoin

  /** The runs leased under `token`, each once, in the order of the leases. */
  ghost predicate AreRunsOf(runs: seq<string>, leases: seq<Lease>, token: string) {
    exists at: seq<nat> :: IsAt(at, runs, leases, token)
  }

  ghost predicate IsAt(at: seq<nat>, runs: seq<string>, leases: seq<Lease>, token: string) {
    && |at| == |runs|
    && (forall a, b :: 0 <= a < b < |at| ==> at[a] < at[b])
    && (forall a :: 0 <= a < |at| ==>
          at[a] < |leases| && leases[at[a]].token == token && leases[at[a]].runId == runs[a])
    && (forall k: nat :: k < |leases| && leases[k].token == token ==> k in at)
  }

  lemma {:induction false} RunsOfAre(leases: seq<Lease>, token: string)
    ensures AreRunsOf(RunsOf(leases, token), leases, token)
  {
    if leases == [] {
      assert IsAt([], [], leases, token);
    } else {
      var init := leases[..|leases| - 1];
      RunsOfAre(init, token);
      var at :| IsAt(at, RunsOf(init, token), init, token);
      OneMoreAt(at, RunsOf(init, token), leases, token);
    }
  }

  lemma OneMoreAt(at: seq<nat>, runs: seq<string>, leases: seq<Lease>, token: string)
    requires leases != [] && IsAt(at, runs, leases[..|leases| - 1], token)
    ensures var last := leases[|leases| - 1];
      AreRunsOf(runs + (if last.token == token then [last.runId] else []), leases, token)
  {
    var k, last := |leases| - 1, leases[|leases| - 1];
    if last.token == token {
      assert IsAt(at + [k], runs + [last.runId], leases, token);
    } else {
      assert runs + [] == runs;
      assert IsAt(at, runs, leases, token);
    }
  }

  /** The report's row of registration `i`: what was registered, whether its
      process lives, how old its heartbeat is and whether that is over 30
      seconds or the process dead; the runs are the first's of its token. */
  ghost predicate ShowsRegistration(h: Health, registrations: seq<Registration>, i: nat, leases: seq<Lease>, m: Moment)
    requires i < |registrations|
  {
    var r := registrations[i];
    && h.registered && h.pid == r.pid && h.mode == r.mode && h.workspaceId == r.workspaceId
    && h.binaryVersion == r.binaryVersion && h.parallel == Some(r.parallel) && h.autoUpdate == r.autoUpdate
    && h.startedAt == Some(r.startedAt) && h.heartbeatAt == r.heartbeatAt
    && h.heartbeatAge == m.now - r.heartbeatAt
    && (h.alive <==> r.pid in m.alive)
    && (h.stale <==> r.pid !in m.alive || m.now - r.heartbeatAt > 30)
    && (if exists k :: 0 <= k < i && registrations[k].token == r.token then h.runIds == []
        else AreRunsOf(h.runIds, leases, r.token))
  }

  /** The row of a token nobody registered: the process of its first lease,
      with the latest heartbeat of all of them, and nothing of what only a
      registration has. */
  ghost predicate ShowsLeases(h: Health, first: Lease, leases: seq<Lease>, m: Moment) {
    && !h.registered && h.pid == first.pid && !h.autoUpdate
    && h.mode == None && h.workspaceId == None && h.binaryVersion == None && h.parallel == None && h.startedAt == None
    && (exists i :: 0 <= i < |leases| && leases[i].token == first.token && leases[i].heartbeatAt == h.heartbeatAt)
    && (forall i :: 0 <= i < |leases| && leases[i].token == first.token ==> leases[i].heartbeatAt <= h.heartbeatAt)
    && h.heartbeatAge == m.now - h.heartbeatAt
    && (h.alive <==> first.pid in m.alive)
    && (h.stale <==> first.pid !in m.alive || m.now - h.heartbeatAt > 30)
    && AreRunsOf(h.runIds, leases, first.token)
  }

  /** A registration's row comes in the registrations' order. */
  lemma RegistrationRow(entries: seq<Entry>, registrations: seq<Registration>, leases: seq<Lease>, m: Moment, i: nat)
    requires IsJoin(entries, registrations, leases, m) && i < |registrations|
    ensures ShowsRegistration(HealthOf(entries)[i], registrations, i, leases, m)
  {
    assert JoinsRegistration(entries[..|registrations|][i], registrations, i, leases, m);
    RunsOfAre(leases, registrations[i].token);
  }

  /** Behind them stand the rows of the other leases. */
  lemma LeasesRow(entries: seq<Entry>, registrations: seq<Registration>, leases: seq<Lease>, m: Moment, i: nat)
    requires IsJoin(entries, registrations, leases, m) && |registrations| <= i < |entries|
    ensures ShowsLeases(HealthOf(entries)[i], FirstLeases(registrations, leases)[i - |registrations|], leases, m)
  {
    var j := i - |registrations|;
    var first := FirstLeases(registrations, leases)[j];
    assert JoinsLeases(entries[|registrations|..][j], first, leases, m);
    JoinedRow(entries[i], first, leases, m);
  }

  lemma JoinedRow(e: Entry, first: Lease, leases: seq<Lease>, m: Moment)
    requires JoinsLeases(e, first, leases, m)
    ensures ShowsLeases(e.health, first, leases, m)
  {
    RunsOfAre(leases, first.token);
    var i :| 0 <= i < |leases| && leases[i].token == first.token && leases[i].heartbeatAt == e.health.heartbeatAt;
  }
}
