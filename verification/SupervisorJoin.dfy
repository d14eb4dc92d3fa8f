/** The health report's supervisors: registrations and leases joined by their
    token. */
module SupervisorJoin {
  import opened Outcomes
  import opened Supervisors

  datatype Lease = Lease(runId: string, token: string, pid: nat, heartbeatAt: int)

  datatype Health = Health(
    pid: nat,
    alive: bool,
    registered: bool,
    mode: Option<SupervisorMode>,
    workspaceId: Option<string>,
    binaryVersion: Option<string>,
    parallel: Option<nat>,
    autoUpdate: bool,
    startedAt: Option<int>,
    heartbeatAt: int,
    heartbeatAge: int,
    stale: bool,
    runIds: seq<string>)

  datatype Entry = Entry(token: string, health: Health)

  /** When the report is made and which processes live then. */
  datatype Moment = Moment(now: int, alive: set<nat>)

  predicate HeartbeatStale(alive: bool, age: int) {
    !alive || age > HEARTBEAT_TIMEOUT_SECS
  }

  predicate LeaseIsStale(l: Lease, m: Moment) {
    l.pid !in m.alive || m.now - l.heartbeatAt > HEARTBEAT_TIMEOUT_SECS
  }

  function Registered(r: Registration, m: Moment): Entry {
    var alive, age := r.pid in m.alive, m.now - r.heartbeatAt;
    Entry(r.token, Health(r.pid, alive, true, r.mode, r.workspaceId, r.binaryVersion, Some(r.parallel),
                          r.autoUpdate, Some(r.startedAt), r.heartbeatAt, age, HeartbeatStale(alive, age), []))
  }

  function Unregistered(l: Lease, m: Moment): Entry {
    var alive, age := l.pid in m.alive, m.now - l.heartbeatAt;
    Entry(l.token, Health(l.pid, alive, false, None, None, None, None,
                          false, None, l.heartbeatAt, age, HeartbeatStale(alive, age), []))
  }

  // ----- What the join of a lease list is -----

  /** The runs leased under `token`, in lease order. */
  function RunsOf(leases: seq<Lease>, token: string): seq<string> {
    if leases == [] then []
    else
      var last := leases[|leases| - 1];
      RunsOf(leases[..|leases| - 1], token) + (if last.token == token then [last.runId] else [])
  }

  predicate IsRegistered(registrations: seq<Registration>, token: string) {
    exists i :: 0 <= i < |registrations| && registrations[i].token == token
  }

  /** The first lease of each token nobody registered, in lease order. */
  function FirstLeases(registrations: seq<Registration>, leases: seq<Lease>): seq<Lease> {
    if leases == [] then []
    else
      var last := leases[|leases| - 1];
      var before := FirstLeases(registrations, leases[..|leases| - 1]);
      if IsRegistered(registrations, last.token) || HasToken(before, last.token) then before else before + [last]
  }

  predicate HasToken(leases: seq<Lease>, token: string) {
    exists i :: 0 <= i < |leases| && leases[i].token == token
  }

  /** `heartbeat` is the latest of the leases under `token`. */
  ghost predicate IsLatest(leases: seq<Lease>, token: string, heartbeat: int) {
    && (exists i :: 0 <= i < |leases| && leases[i].token == token && leases[i].heartbeatAt == heartbeat)
    && (forall i :: 0 <= i < |leases| && leases[i].token == token ==> leases[i].heartbeatAt <= heartbeat)
  }

  /** The entry of registration `i`: the runs of its token go to the first
      registration under it, and nothing else changes. */
  ghost predicate JoinsRegistration(e: Entry, registrations: seq<Registration>, i: nat, leases: seq<Lease>, m: Moment)
    requires i < |registrations|
  {
    var r := registrations[i];
    var first := forall k :: 0 <= k < i ==> registrations[k].token != r.token;
    && e.token == r.token
    && e.health == Registered(r, m).health.(runIds := if first then RunsOf(leases, r.token) else [])
  }

  /** The entry of a token nobody registered: the process of its first lease
      under the latest heartbeat of all of them. */
  ghost predicate JoinsLeases(e: Entry, first: Lease, leases: seq<Lease>, m: Moment) {
    && e.token == first.token
    && IsLatest(leases, first.token, e.health.heartbeatAt)
    && e.health == Unregistered(first.(heartbeatAt := e.health.heartbeatAt), m).health
                   .(runIds := RunsOf(leases, first.token))
  }

  ghost predicate IsJoin(entries: seq<Entry>, registrations: seq<Registration>, leases: seq<Lease>, m: Moment) {
    && |entries| == |registrations| + |FirstLeases(registrations, leases)|
    && RegistrationsJoined(entries[..|registrations|], registrations, leases, m)
    && LeasesJoined(entries[|registrations|..], FirstLeases(registrations, leases), leases, m)
  }

  ghost predicate RegistrationsJoined(entries: seq<Entry>, registrations: seq<Registration>, leases: seq<Lease>,
                                      m: Moment) {
    && |entries| == |registrations|
    && forall i :: 0 <= i < |registrations| ==> JoinsRegistration(entries[i], registrations, i, leases, m)
  }

  ghost predicate LeasesJoined(entries: seq<Entry>, firsts: seq<Lease>, leases: seq<Lease>, m: Moment) {
    && |entries| == |firsts|
    && forall j :: 0 <= j < |firsts| ==> JoinsLeases(entries[j], firsts[j], leases, m)
  }

  // ----- The join, lease by lease -----

  function Position(entries: seq<Entry>, token: string): (k: nat)
    ensures k <= |entries|
    ensures k < |entries| ==> entries[k].token == token
    ensures forall i :: 0 <= i < k ==> entries[i].token != token
  {
    if entries == [] || entries[0].token == token then 0 else 1 + Position(entries[1..], token)
  }

  /** One more lease of an entry's token. */
  function Joined(h: Health, l: Lease, m: Moment): Health {
    var with := h.(runIds := h.runIds + [l.runId]);
    var age := m.now - l.heartbeatAt;
    if !h.registered && age < h.heartbeatAge then
      with.(heartbeatAt := l.heartbeatAt, heartbeatAge := age, stale := HeartbeatStale(h.alive, age))
    else with
  }

  function Entered(entries: seq<Entry>, l: Lease, m: Moment): (r: seq<Entry>)
    ensures Position(entries, l.token) < |r| && |entries| <= |r|
  {
    if Position(entries, l.token) < |entries| then entries else entries + [Unregistered(l, m)]
  }

  function JoinLease(entries: seq<Entry>, l: Lease, m: Moment): seq<Entry> {
    var k := Position(entries, l.token);
    var with := Entered(entries, l, m);
    with[k := Entry(with[k].token, Joined(with[k].health, l, m))]
  }

  /** The entries of the registrations, to which each lease is joined in
      turn. */
  method JoinSupervisors(registrations: seq<Registration>, leases: seq<Lease>, m: Moment)
    returns (report: seq<Health>, ghost joined: seq<Entry>)
    ensures IsJoin(joined, registrations, leases, m) && report == HealthOf(joined)
    ensures multiset(AllRuns(report)) == multiset(RunIds(leases))
  {
    var entries := seq(|registrations|, i requires 0 <= i < |registrations| => Registered(registrations[i], m));
    StartJoins(registrations, m);
    assert leases[..0] == [];
    for k := 0 to |leases|
      invariant JoinsUpTo(entries, registrations, leases, k, m)
    {
      var lease := leases[k];
      JoinLeaseKeeps(entries, registrations, leases, k, m);
      entries := AddLease(entries, lease, m);
    }
    assert leases[..|leases|] == leases;
    report, joined := HealthOf(entries), entries;
  }

  /** The lease's entry, opened if there is none yet, updated in its place. */
  method AddLease(before: seq<Entry>, lease: Lease, m: Moment) returns (entries: seq<Entry>)
    ensures entries == JoinLease(before, lease, m)
  {
    entries := before;
    var index := Position(entries, lease.token);
    if index == |entries| {
      entries := entries + [Unregistered(lease, m)];
    }
    var health := entries[index].health.(runIds := entries[index].health.runIds + [lease.runId]);
    if !health.registered {
      var age := m.now - lease.heartbeatAt;
      if age < health.heartbeatAge {
        health := health.(heartbeatAt := lease.heartbeatAt, heartbeatAge := age,
                          stale := HeartbeatStale(health.alive, age));
      }
    }
    entries := entries[index := Entry(entries[index].token, health)];
  }

  /** The entries are the join of the first `k` leases and hold the runs of
      exactly those. */
  ghost predicate JoinsUpTo(entries: seq<Entry>, registrations: seq<Registration>, leases: seq<Lease>, k: nat,
                            m: Moment) {
    && k <= |leases|
    && IsJoin(entries, registrations, leases[..k], m)
    && multiset(AllRuns(HealthOf(entries))) == multiset(RunIds(leases[..k]))
  }

  lemma JoinLeaseKeeps(entries: seq<Entry>, registrations: seq<Registration>, leases: seq<Lease>, k: nat, m: Moment)
    requires k < |leases| && JoinsUpTo(entries, registrations, leases, k, m)
    ensures JoinsUpTo(JoinLease(entries, leases[k], m), registrations, leases, k + 1, m)
  {
    assert leases[..k + 1] == leases[..k] + [leases[k]];
    JoinLeaseJoins(entries, registrations, leases[..k], leases[k], m);
    JoinLeaseConserves(entries, leases[k], m);
    RunIdsGrow(leases[..k], leases[k]);
  }

  function HealthOf(entries: seq<Entry>): seq<Health> {
    seq(|entries|, i requires 0 <= i < |entries| => entries[i].health)
  }

  // ----- Each lease's run is in exactly one entry -----

  function RunIds(leases: seq<Lease>): seq<string> {
    seq(|leases|, i requires 0 <= i < |leases| => leases[i].runId)
  }

  lemma RunIdsGrow(leases: seq<Lease>, l: Lease)
    ensures RunIds(leases + [l]) == RunIds(leases) + [l.runId]
  {
  }

  /** The runs of all entries, one entry after the other. */
  function AllRuns(report: seq<Health>): seq<string> {
    if report == [] then [] else report[0].runIds + AllRuns(report[1..])
  }

  lemma {:induction false} AllRunsSplit(a: seq<Health>, b: seq<Health>)
    ensures AllRuns(a + b) == AllRuns(a) + AllRuns(b)
  {
    if a == [] {
      assert a + b == b;
    } else {
      assert (a + b)[1..] == a[1..] + b;
      AllRunsSplit(a[1..], b);
    }
  }

  lemma AllRunsAt(report: seq<Health>, k: nat)
    requires k < |report|
    ensures AllRuns(report) == AllRuns(report[..k]) + (report[k].runIds + AllRuns(report[k + 1..]))
  {
    assert report == report[..k] + report[k..];
    AllRunsSplit(report[..k], report[k..]);
  }

  lemma EnteredAddsNoRun(entries: seq<Entry>, l: Lease, m: Moment)
    ensures AllRuns(HealthOf(Entered(entries, l, m))) == AllRuns(HealthOf(entries))
  {
    var with := HealthOf(Entered(entries, l, m));
    if Position(entries, l.token) == |entries| {
      var added := [Unregistered(l, m).health];
      assert with == HealthOf(entries) + added;
      AllRunsSplit(HealthOf(entries), added);
      assert AllRuns(added) == [];
    }
  }

  lemma OneMoreRun(report: seq<Health>, later: seq<Health>, k: nat, run: string)
    requires k < |report| == |later| && later == report[k := later[k]]
    requires later[k].runIds == report[k].runIds + [run]
    ensures multiset(AllRuns(later)) == multiset(AllRuns(report)) + multiset{run}
  {
    AllRunsAt(report, k);
    AllRunsAt(later, k);
    assert later[..k] == report[..k] && later[k + 1..] == report[k + 1..];
  }

  lemma JoinLeaseConserves(entries: seq<Entry>, l: Lease, m: Moment)
    ensures multiset(AllRuns(HealthOf(JoinLease(entries, l, m)))) ==
      multiset(AllRuns(HealthOf(entries))) + multiset{l.runId}
  {
    var with, after := HealthOf(Entered(entries, l, m)), HealthOf(JoinLease(entries, l, m));
    EnteredAddsNoRun(entries, l, m);
    OneMoreRun(with, after, Position(entries, l.token), l.runId);
  }

  // ----- One lease keeps the join -----

  lemma StartJoins(registrations: seq<Registration>, m: Moment)
    ensures var entries := seq(|registrations|, i requires 0 <= i < |registrations| => Registered(registrations[i], m));
      forall leases :: JoinsUpTo(entries, registrations, leases, 0, m)
  {
    var entries := seq(|registrations|, i requires 0 <= i < |registrations| => Registered(registrations[i], m));
    NoRuns(HealthOf(entries));
    assert IsJoin(entries, registrations, [], m);
    forall leases: seq<Lease> ensures JoinsUpTo(entries, registrations, leases, 0, m) {
      assert leases[..0] == [] && RunIds([]) == [];
    }
  }

  lemma {:induction false} NoRuns(report: seq<Health>)
    requires forall i :: 0 <= i < |report| ==> report[i].runIds == []
    ensures AllRuns(report) == []
  {
    if report != [] {
      NoRuns(report[1..]);
    }
  }

  /** The unregistered tokens with a lease are those of the first leases, each
      once. */
  lemma {:induction false} FirstLeasesCover(registrations: seq<Registration>, leases: seq<Lease>, token: string)
    ensures HasToken(FirstLeases(registrations, leases), token) <==>
      HasToken(leases, token) && !IsRegistered(registrations, token)
    ensures var firsts := FirstLeases(registrations, leases);
      forall i, j :: 0 <= i < j < |firsts| ==> firsts[i].token != firsts[j].token
  {
    if leases != [] {
      var init, last := leases[..|leases| - 1], leases[|leases| - 1];
      FirstLeasesCover(registrations, init, token);
      var before, firsts := FirstLeases(registrations, init), FirstLeases(registrations, leases);
      HasTokenGrows(init, last, token);
      HasTokenGrows(before, last, token);
      assert leases == init + [last];
    }
  }

  lemma HasTokenGrows(leases: seq<Lease>, l: Lease, token: string)
    ensures HasToken(leases + [l], token) <==> HasToken(leases, token) || l.token == token
  {
    var more := leases + [l];
    assert more[|leases|] == l;
    if HasToken(leases, token) {
      var i :| 0 <= i < |leases| && leases[i].token == token;
      assert more[i].token == token;
    }
  }

  lemma JoinLeaseJoins(entries: seq<Entry>, registrations: seq<Registration>, leases: seq<Lease>, l: Lease, m: Moment)
    requires IsJoin(entries, registrations, leases, m)
    ensures IsJoin(JoinLease(entries, l, m), registrations, leases + [l], m)
  {
    PositionOf(entries, registrations, leases, l, m);
    RegistrationsJoin(entries, registrations, leases, l, m);
    LeasesJoin(entries, registrations, leases, l, m);
  }

  /** Where the lease goes: to the first registration of its token, else to
      the token's first lease, else behind all entries. */
  lemma PositionOf(entries: seq<Entry>, registrations: seq<Registration>, leases: seq<Lease>, l: Lease, m: Moment)
    requires IsJoin(entries, registrations, leases, m)
    ensures |JoinLease(entries, l, m)| == |registrations| + |FirstLeases(registrations, leases + [l])|
    ensures var firsts, later := FirstLeases(registrations, leases), FirstLeases(registrations, leases + [l]);
      var k, n := Position(entries, l.token), |registrations|;
      && (k < n <==> IsRegistered(registrations, l.token))
      && (k < n ==> later == firsts && registrations[k].token == l.token)
      && (n <= k < |entries| ==> later == firsts && firsts[k - n].token == l.token)
      && (k == |entries| ==> later == firsts + [l] && !HasToken(leases, l.token))
      && (forall i :: 0 <= i < k && i < n ==> registrations[i].token != l.token)
      && (forall j :: 0 <= j < |firsts| && n + j < k ==> firsts[j].token != l.token)
  {
    var firsts := FirstLeases(registrations, leases);
    var k, n := Position(entries, l.token), |registrations|;
    assert (leases + [l])[..|leases|] == leases;
    FirstLeasesCover(registrations, leases, l.token);
    TokensOfJoin(entries, registrations, leases, m);
  }

  lemma TokensOfJoin(entries: seq<Entry>, registrations: seq<Registration>, leases: seq<Lease>, m: Moment)
    requires IsJoin(entries, registrations, leases, m)
    ensures forall i :: 0 <= i < |registrations| ==> entries[i].token == registrations[i].token
    ensures var firsts := FirstLeases(registrations, leases);
      forall i :: |registrations| <= i < |entries| ==> entries[i].token == firsts[i - |registrations|].token
  {
    var firsts, n := FirstLeases(registrations, leases), |registrations|;
    forall i | 0 <= i < n ensures entries[i].token == registrations[i].token {
      assert JoinsRegistration(entries[..n][i], registrations, i, leases, m);
    }
    forall i | n <= i < |entries| ensures entries[i].token == firsts[i - n].token {
      assert JoinsLeases(entries[n..][i - n], firsts[i - n], leases, m);
    }
  }

  lemma RegistrationsJoin(entries: seq<Entry>, registrations: seq<Registration>, leases: seq<Lease>, l: Lease,
                          m: Moment)
    requires IsJoin(entries, registrations, leases, m)
    ensures |registrations| <= |JoinLease(entries, l, m)|
    ensures RegistrationsJoined(JoinLease(entries, l, m)[..|registrations|], registrations, leases + [l], m)
  {
    var after, n := JoinLease(entries, l, m), |registrations|;
    PositionOf(entries, registrations, leases, l, m);
    forall i | 0 <= i < n ensures JoinsRegistration(after[..n][i], registrations, i, leases + [l], m) {
      RegistrationJoinsAt(entries, registrations, leases, l, m, i);
    }
  }

  lemma RegistrationJoinsAt(entries: seq<Entry>, registrations: seq<Registration>, leases: seq<Lease>, l: Lease,
                            m: Moment, i: nat)
    requires IsJoin(entries, registrations, leases, m) && i < |registrations|
    ensures JoinsRegistration(JoinLease(entries, l, m)[i], registrations, i, leases + [l], m)
  {
    PositionOf(entries, registrations, leases, l, m);
    assert JoinsRegistration(entries[..|registrations|][i], registrations, i, leases, m);
    RunsOfGrows(leases, l, registrations[i].token);
  }

  lemma LeasesJoin(entries: seq<Entry>, registrations: seq<Registration>, leases: seq<Lease>, l: Lease, m: Moment)
    requires IsJoin(entries, registrations, leases, m)
    ensures |registrations| <= |JoinLease(entries, l, m)|
    ensures LeasesJoined(JoinLease(entries, l, m)[|registrations|..], FirstLeases(registrations, leases + [l]),
                         leases + [l], m)
  {
    var after, n, later := JoinLease(entries, l, m), |registrations|, FirstLeases(registrations, leases + [l]);
    PositionOf(entries, registrations, leases, l, m);
    forall j | 0 <= j < |later| ensures JoinsLeases(after[n..][j], later[j], leases + [l], m) {
      assert after[n..][j] == after[n + j];
      LeasesJoinAt(entries, registrations, leases, l, m, j);
    }
  }

  lemma LeasesJoinAt(entries: seq<Entry>, registrations: seq<Registration>, leases: seq<Lease>, l: Lease,
                     m: Moment, j: nat)
    requires IsJoin(entries, registrations, leases, m) && j < |FirstLeases(registrations, leases + [l])|
    requires |JoinLease(entries, l, m)| == |registrations| + |FirstLeases(registrations, leases + [l])|
    ensures var first := FirstLeases(registrations, leases + [l])[j];
      JoinsLeases(JoinLease(entries, l, m)[|registrations| + j], first, leases + [l], m)
  {
    PositionOf(entries, registrations, leases, l, m);
    if j < |FirstLeases(registrations, leases)| {
      EntryJoinsAt(entries, registrations, leases, l, m, j);
    } else {
      LeaseOpensEntry(leases, l, m);
    }
  }

  /** The entry of a token that is there already: the lease joins it or leaves
      it. */
  lemma EntryJoinsAt(entries: seq<Entry>, registrations: seq<Registration>, leases: seq<Lease>, l: Lease,
                     m: Moment, j: nat)
    requires IsJoin(entries, registrations, leases, m) && j < |FirstLeases(registrations, leases)|
    ensures |registrations| + j < |JoinLease(entries, l, m)|
    ensures JoinsLeases(JoinLease(entries, l, m)[|registrations| + j], FirstLeases(registrations, leases)[j],
                        leases + [l], m)
  {
    var first, i := FirstLeases(registrations, leases)[j], |registrations| + j;
    JoinedEntry(entries, registrations, leases, m, j);
    LeaseJoinsEntry(entries[i], first, leases, l, m);
    TokenPosition(entries, registrations, leases, l, m, j);
    JoinLeaseAt(entries, l, m, i);
  }

  lemma JoinedEntry(entries: seq<Entry>, registrations: seq<Registration>, leases: seq<Lease>, m: Moment, j: nat)
    requires IsJoin(entries, registrations, leases, m) && j < |FirstLeases(registrations, leases)|
    ensures JoinsLeases(entries[|registrations| + j], FirstLeases(registrations, leases)[j], leases, m)
  {
    assert JoinsLeases(entries[|registrations|..][j], FirstLeases(registrations, leases)[j], leases, m);
  }

  lemma TokenPosition(entries: seq<Entry>, registrations: seq<Registration>, leases: seq<Lease>, l: Lease,
                      m: Moment, j: nat)
    requires IsJoin(entries, registrations, leases, m) && j < |FirstLeases(registrations, leases)|
    ensures |registrations| + j == Position(entries, l.token) <==>
      FirstLeases(registrations, leases)[j].token == l.token
  {
    var firsts := FirstLeases(registrations, leases);
    PositionOf(entries, registrations, leases, l, m);
    FirstLeasesCover(registrations, leases, l.token);
    assert firsts[j].token == l.token ==> HasToken(firsts, l.token);
  }

  lemma JoinLeaseAt(entries: seq<Entry>, l: Lease, m: Moment, i: nat)
    requires i < |entries|
    ensures i < |JoinLease(entries, l, m)|
    ensures JoinLease(entries, l, m)[i] ==
      if i == Position(entries, l.token) then Entry(entries[i].token, Joined(entries[i].health, l, m)) else entries[i]
  {
  }

  lemma LeaseJoinsEntry(e: Entry, first: Lease, leases: seq<Lease>, l: Lease, m: Moment)
    requires JoinsLeases(e, first, leases, m)
    ensures l.token != first.token ==> JoinsLeases(e, first, leases + [l], m)
    ensures l.token == first.token ==> JoinsLeases(Entry(e.token, Joined(e.health, l, m)), first, leases + [l], m)
  {
    LatestGrows(leases, l, first.token, e.health.heartbeatAt);
    RunsOfGrows(leases, l, first.token);
  }

  lemma LeaseOpensEntry(leases: seq<Lease>, l: Lease, m: Moment)
    requires !HasToken(leases, l.token)
    ensures JoinsLeases(Entry(l.token, Joined(Unregistered(l, m).health, l, m)), l, leases + [l], m)
  {
    RunsOfNone(leases, l.token);
    RunsOfGrows(leases, l, l.token);
    LatestOfFirst(leases, l);
  }

  lemma RunsOfGrows(leases: seq<Lease>, l: Lease, token: string)
    ensures RunsOf(leases + [l], token) == RunsOf(leases, token) + (if l.token == token then [l.runId] else [])
  {
    assert (leases + [l])[..|leases|] == leases;
  }

  lemma LatestGrows(leases: seq<Lease>, l: Lease, token: string, heartbeat: int)
    requires IsLatest(leases, token, heartbeat)
    ensures IsLatest(leases + [l], token,
                     if l.token == token && l.heartbeatAt > heartbeat then l.heartbeatAt else heartbeat)
  {
    var more := leases + [l];
    assert more[|leases|] == l;
    var i :| 0 <= i < |leases| && leases[i].token == token && leases[i].heartbeatAt == heartbeat;
    assert more[i] == leases[i];
  }

  lemma LatestOfFirst(leases: seq<Lease>, l: Lease)
    requires !HasToken(leases, l.token)
    ensures IsLatest(leases + [l], l.token, l.heartbeatAt)
  {
    assert (leases + [l])[|leases|] == l;
  }

  lemma {:induction false} RunsOfNone(leases: seq<Lease>, token: string)
    requires !HasToken(leases, token)
    ensures RunsOf(leases, token) == []
  {
    if leases != [] {
      assert leases[|leases| - 1].token != token;
      RunsOfNone(leases[..|leases| - 1], token);
    }
  }

  // ----- What the report says -----

  ghost predicate DistinctTokens(registrations: seq<Registration>) {
    forall i, j :: 0 <= i < j < |registrations| ==> registrations[i].token != registrations[j].token
  }

  /** With one registration a token, there is exactly one entry for a lease's
      token, and it holds the runs leased under it in lease order. */
  lemma EveryLeaseHasItsEntry(entries: seq<Entry>, registrations: seq<Registration>, leases: seq<Lease>, m: Moment,
                              token: string) returns (i: nat)
    requires DistinctTokens(registrations) && IsJoin(entries, registrations, leases, m) && HasToken(leases, token)
    ensures i < |entries| && entries[i].token == token && entries[i].health.runIds == RunsOf(leases, token)
    ensures forall j :: 0 <= j < |entries| && j != i ==> entries[j].token != token
  {
    var n, firsts := |registrations|, FirstLeases(registrations, leases);
    TokensOfJoin(entries, registrations, leases, m);
    FirstLeasesCover(registrations, leases, token);
    if IsRegistered(registrations, token) {
      i :| 0 <= i < n && registrations[i].token == token;
      RunsOfRegistration(entries, registrations, leases, m, i);
    } else {
      var j :| 0 <= j < |firsts| && firsts[j].token == token;
      i := n + j;
      assert JoinsLeases(entries[n..][j], firsts[j], leases, m);
    }
  }

  lemma RunsOfRegistration(entries: seq<Entry>, registrations: seq<Registration>, leases: seq<Lease>, m: Moment, i: nat)
    requires DistinctTokens(registrations) && IsJoin(entries, registrations, leases, m) && i < |registrations|
    ensures entries[i].health.runIds == RunsOf(leases, registrations[i].token)
  {
    assert JoinsRegistration(entries[..|registrations|][i], registrations, i, leases, m);
  }

  /** An entry nobody registered is stale exactly when no lease of it still
      works, if all of them name one process. */
  lemma StaleWhenEveryLeaseIs(entries: seq<Entry>, registrations: seq<Registration>, leases: seq<Lease>, m: Moment,
                              i: nat)
    requires IsJoin(entries, registrations, leases, m) && |registrations| <= i < |entries|
    requires forall k :: 0 <= k < |leases| && leases[k].token == entries[i].token ==>
      leases[k].pid == entries[i].health.pid
    ensures entries[i].health.stale <==>
      forall k :: 0 <= k < |leases| && leases[k].token == entries[i].token ==> LeaseIsStale(leases[k], m)
  {
    var firsts, j := FirstLeases(registrations, leases), i - |registrations|;
    assert JoinsLeases(entries[|registrations|..][j], firsts[j], leases, m);
    var h := entries[i].health;
    var w :| 0 <= w < |leases| && leases[w].token == entries[i].token && leases[w].heartbeatAt == h.heartbeatAt;
    assert LeaseIsStale(leases[w], m) <==> h.stale;
  }

  /** The leases that open an entry are in lease order, each the first of its
      token: no lease before it has that token. */
  lemma {:induction false} FirstLeasesInOrder(registrations: seq<Registration>, leases: seq<Lease>, j: nat)
      returns (at: seq<nat>)
    requires j == |FirstLeases(registrations, leases)|
    ensures |at| == j
    ensures forall a, b :: 0 <= a < b < j ==> at[a] < at[b]
    ensures forall a :: 0 <= a < j ==> at[a] < |leases| && FirstLeases(registrations, leases)[a] == leases[at[a]]
    ensures forall a, k :: 0 <= a < j && 0 <= k < at[a] ==> leases[k].token != leases[at[a]].token
  {
    if leases == [] {
      return [];
    }
    var init, last := leases[..|leases| - 1], leases[|leases| - 1];
    var before := FirstLeases(registrations, init);
    at := FirstLeasesInOrder(registrations, init, |before|);
    if j > |before| {
      FirstLeasesCover(registrations, init, last.token);
      forall k | 0 <= k < |init| ensures leases[k].token != last.token {
        assert init[k] == leases[k];
      }
      at := at + [|leases| - 1];
    }
  }
}
