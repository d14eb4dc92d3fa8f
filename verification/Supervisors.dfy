/** Registered supervisors as the queue keeps them, and how long a heartbeat
    counts. */
module Supervisors {
  import opened Outcomes

  const HEARTBEAT_TIMEOUT_SECS := 30

  datatype SupervisorMode = Launchd | InCmux

  datatype Registration = Registration(
    token: string,
    pid: nat,
    parallel: nat,
    mode: Option<SupervisorMode>,
    workspaceId: Option<string>,
    binaryVersion: Option<string>,
    handoffAccepted: bool,
    handoffBinary: Option<string>,
    autoUpdate: bool,
    startedAt: int,
    heartbeatAt: int)

  /** One read of the registrations: with them, which processes live, the
      time and whether the caller's deadline has passed. */
  datatype Snapshot = Snapshot(registrations: seq<Registration>, alive: set<nat>, now: int, expired: bool)

  /** The watch ends with the first snapshot past its deadline. */
  ghost predicate NoneExpiredBefore(history: seq<Snapshot>) {
    forall i :: 0 <= i < |history| - 1 ==> !history[i].expired
  }

  /** The first registration under `token`. */
  function WithToken(registrations: seq<Registration>, token: string): (r: Option<Registration>)
    ensures r.Some? ==> r.value in registrations && r.value.token == token
    ensures r.None? <==> forall x :: x in registrations ==> x.token != token
  {
    if registrations == [] then None
    else if registrations[0].token == token then Some(registrations[0])
    else WithToken(registrations[1..], token)
  }

  /** The first registration of process `pid` under build `version`. */
  function WithPid(registrations: seq<Registration>, pid: nat, version: string): (r: Option<Registration>)
    ensures r.Some? ==> r.value in registrations && r.value.pid == pid && r.value.binaryVersion == Some(version)
    ensures r.None? <==> forall x :: x in registrations ==> x.pid != pid || x.binaryVersion != Some(version)
  {
    if registrations == [] then None
    else if registrations[0].pid == pid && registrations[0].binaryVersion == Some(version) then Some(registrations[0])
    else WithPid(registrations[1..], pid, version)
  }

  /** The registration a supervisor serves under: its token's, or once that is
      gone one the same process made under `version`. */
  function Serving(registrations: seq<Registration>, token: string, pid: nat, version: string): Option<Registration> {
    if WithToken(registrations, token).Some? then WithToken(registrations, token)
    else WithPid(registrations, pid, version)
  }

  /** `current` is the first registration under `token`, or with none there the
      first of the process `pid` under build `version`. */
  ghost predicate Serves(registrations: seq<Registration>, token: string, pid: nat, version: string,
                         current: Registration) {
    exists i: nat ::
      i < |registrations| && IsServingAt(registrations, i, token, pid, version) && registrations[i] == current
  }

  ghost predicate FirstUnder(registrations: seq<Registration>, i: int, token: string) {
    && 0 <= i < |registrations| && registrations[i].token == token
    && forall j :: 0 <= j < i ==> registrations[j].token != token
  }

  ghost predicate FirstOf(registrations: seq<Registration>, i: int, pid: nat, version: string) {
    && 0 <= i < |registrations| && registrations[i].pid == pid && registrations[i].binaryVersion == Some(version)
    && forall j :: 0 <= j < i ==> !(registrations[j].pid == pid && registrations[j].binaryVersion == Some(version))
  }

  ghost predicate IsServingAt(registrations: seq<Registration>, i: nat, token: string, pid: nat, version: string) {
    || FirstUnder(registrations, i, token)
    || ((forall r :: r in registrations ==> r.token != token) && FirstOf(registrations, i, pid, version))
  }

  /** `Serving` finds exactly that registration. */
  lemma ServingIs(registrations: seq<Registration>, token: string, pid: nat, version: string)
    ensures forall current :: Serving(registrations, token, pid, version) == Some(current) <==>
      Serves(registrations, token, pid, version, current)
    ensures Serving(registrations, token, pid, version) == None <==>
      forall r :: r in registrations ==> r.token != token && !(r.pid == pid && r.binaryVersion == Some(version))
  {
    WithTokenIsFirst(registrations, token);
    WithPidIsFirst(registrations, pid, version);
    forall i: nat, j: nat | IsServingAt(registrations, i, token, pid, version) &&
      IsServingAt(registrations, j, token, pid, version)
      ensures i == j
    {
      assert FirstUnder(registrations, i, token) ==> registrations[i] in registrations;
      assert FirstUnder(registrations, j, token) ==> registrations[j] in registrations;
    }
  }

  lemma {:induction false} WithTokenIsFirst(registrations: seq<Registration>, token: string)
    ensures WithToken(registrations, token).Some? ==>
      exists i :: FirstUnder(registrations, i, token) && WithToken(registrations, token) == Some(registrations[i])
  {
    if registrations != [] && registrations[0].token == token {
      assert FirstUnder(registrations, 0, token);
    } else if WithToken(registrations, token).Some? {
      WithTokenIsFirst(registrations[1..], token);
      var i :| FirstUnder(registrations[1..], i, token) &&
        WithToken(registrations[1..], token) == Some(registrations[1..][i]);
      assert FirstUnder(registrations, i + 1, token);
    }
  }

  lemma {:induction false} WithPidIsFirst(registrations: seq<Registration>, pid: nat, version: string)
    ensures WithPid(registrations, pid, version).Some? ==> exists i ::
      FirstOf(registrations, i, pid, version) && WithPid(registrations, pid, version) == Some(registrations[i])
  {
    if registrations != [] && registrations[0].pid == pid && registrations[0].binaryVersion == Some(version) {
      assert FirstOf(registrations, 0, pid, version);
    } else if WithPid(registrations, pid, version).Some? {
      WithPidIsFirst(registrations[1..], pid, version);
      var i :| FirstOf(registrations[1..], i, pid, version) &&
        WithPid(registrations[1..], pid, version) == Some(registrations[1..][i]);
      assert FirstOf(registrations, i + 1, pid, version);
    }
  }

  predicate Fresh(r: Registration, s: Snapshot) {
    r.pid in s.alive && s.now - r.heartbeatAt <= HEARTBEAT_TIMEOUT_SECS
  }
}
