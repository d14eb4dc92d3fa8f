/** How the watch of one supervisor ends, read off the snapshots alone. */
module UpdateEnds {
  import opened Outcomes
  import opened Supervisors
  import opened UpdateWatch

  /** `cs[i]` opens the last stretch of `cs` under one token. */
  ghost predicate Opens(cs: seq<Registration>, i: int) {
    && 0 <= i < |cs|
    && (i == 0 || cs[i - 1].token != cs[i].token)
    && forall k :: i <= k < |cs| ==> cs[k].token == cs[i].token
  }

  /** The last registration shows a later heartbeat than the first one under
      its token. */
  ghost predicate BeatsOn(cs: seq<Registration>) {
    exists i :: Opens(cs, i) && cs[i].heartbeatAt < cs[|cs| - 1].heartbeatAt
  }

  /** The process behind `c` lives and runs the build. */
  ghost predicate Runs(s: Snapshot, c: Registration, version: string) {
    c.pid in s.alive && c.binaryVersion == Some(version)
  }

  /** The token served under before `cs[k]`. */
  function TokenAt(cs: seq<Registration>, k: nat, token: string): string
    requires k <= |cs|
  {
    if k == 0 then token else cs[k - 1].token
  }

  /** `s` shows the last of `cs` under `token`, running, with no later
      heartbeat yet and time left. */
  ghost predicate GoesOn(s: Snapshot, token: string, pid: nat, version: string, cs: seq<Registration>) {
    && cs != [] && Serves(s.registrations, token, pid, version, cs[|cs| - 1])
    && Runs(s, cs[|cs| - 1], version) && !BeatsOn(cs) && !s.expired
  }

  /** Over `history` the supervisor served under `cs`, one registration a
      snapshot, and none of them decided. */
  ghost predicate Undecided(history: seq<Snapshot>, token: string, pid: nat, version: string, cs: seq<Registration>) {
    && |cs| == |history|
    && forall k :: 0 <= k < |history| ==> GoesOn(history[k], TokenAt(cs, k, token), pid, version, cs[..k + 1])
  }

  /** `s` decides a supervisor that served under `cs` and then `token`: with
      `None` it is done, with an error it failed. */
  ghost predicate Decides(s: Snapshot, token: string, pid: nat, version: string, cs: seq<Registration>,
                          error: Option<Failure>) {
    match error
    case Some(Deregistered) =>
      forall r :: r in s.registrations ==> r.token != token && !(r.pid == pid && r.binaryVersion == Some(version))
    case Some(Exited) =>
      exists c :: Serves(s.registrations, token, pid, version, c) && c.pid !in s.alive
    case Some(OtherBuild) =>
      exists c :: Serves(s.registrations, token, pid, version, c) && c.pid in s.alive &&
        c.binaryVersion != Some(version)
    case Some(NoHeartbeat) =>
      exists c :: Serves(s.registrations, token, pid, version, c) && Runs(s, c, version) && !BeatsOn(cs + [c]) &&
        s.expired
    case None =>
      exists c :: Serves(s.registrations, token, pid, version, c) && Runs(s, c, version) && BeatsOn(cs + [c])
  }

  /** What the watch keeps of a supervisor it has not decided. */
  ghost predicate Keeps(w: Watched, token: string, pid: nat, cs: seq<Registration>) {
    && w.pid == pid && w.now == TokenAt(cs, |cs|, token) && !Decided(w)
    && (w.first.None? <==> cs == [])
    && forall i :: Opens(cs, i) ==> w.first == Some(cs[i].heartbeatAt)
  }

  lemma OpensNext(cs: seq<Registration>, c: Registration)
    ensures cs != [] && c.token == cs[|cs| - 1].token ==>
      forall i :: i < |cs| ==> (Opens(cs + [c], i) <==> Opens(cs, i))
    ensures cs == [] || c.token != cs[|cs| - 1].token ==> forall i :: Opens(cs + [c], i) <==> i == |cs|
    ensures cs != [] && c.token == cs[|cs| - 1].token ==> !Opens(cs + [c], |cs|)
  {
    var next := cs + [c];
    forall i | i < |cs| && Opens(cs, i) && c.token == cs[|cs| - 1].token ensures Opens(next, i) {
      assert cs[|cs| - 1].token == cs[i].token;
    }
    forall i | i < |cs| && Opens(next, i) ensures Opens(cs, i) && c.token == cs[|cs| - 1].token {
      assert next[|cs|] == c && next[|cs| - 1] == cs[|cs| - 1];
      forall k | i <= k < |cs| ensures cs[k].token == cs[i].token {
        assert next[k].token == next[i].token;
      }
    }
  }

  lemma {:induction false} HasOpening(cs: seq<Registration>)
    requires cs != []
    ensures exists i :: Opens(cs, i)
  {
    var init, c := cs[..|cs| - 1], cs[|cs| - 1];
    assert cs == init + [c];
    OpensNext(init, c);
    if init != [] && c.token == init[|init| - 1].token {
      HasOpening(init);
      var i :| Opens(init, i);
      assert Opens(cs, i);
    } else {
      assert Opens(cs, |init|);
    }
  }

  /** A later heartbeat is one later than the heartbeat kept, under the token
      it was kept for. */
  lemma BeatsOnIs(w: Watched, token: string, pid: nat, cs: seq<Registration>, c: Registration)
    requires Keeps(w, token, pid, cs)
    ensures BeatsOn(cs + [c]) <==> w.first.Some? && c.token == w.now && c.heartbeatAt > w.first.value
    ensures forall i :: Opens(cs + [c], i) ==>
      (cs + [c])[i].heartbeatAt == if w.first.Some? && c.token == w.now then w.first.value else c.heartbeatAt
  {
    OpensNext(cs, c);
    HasOpening(cs + [c]);
    var next := cs + [c];
    assert next[|next| - 1] == c;
    forall i | Opens(next, i)
      ensures next[i].heartbeatAt == if w.first.Some? && c.token == w.now then w.first.value else c.heartbeatAt
    {
      if w.first.Some? && c.token == w.now {
        assert i < |cs| && Opens(cs, i) && next[i] == cs[i];
      }
    }
    var i :| Opens(next, i);
  }

  /** What one look makes of an undecided supervisor that serves under `c`. */
  ghost predicate LooksAt(o: Watched, s: Snapshot, version: string, cs: seq<Registration>, c: Registration) {
    && (o.done <==> Runs(s, c, version) && BeatsOn(cs + [c]))
    && (o.error == Some(Exited) <==> c.pid !in s.alive)
    && (o.error == Some(OtherBuild) <==> c.pid in s.alive && c.binaryVersion != Some(version))
    && (o.error == Some(NoHeartbeat) <==> Runs(s, c, version) && !BeatsOn(cs + [c]) && s.expired)
    && o.error != Some(Deregistered) && !(o.done && o.error.Some?)
  }

  lemma ObserveUnder(s: Snapshot, w: Watched, token: string, pid: nat, version: string, cs: seq<Registration>,
                     c: Registration)
    requires Keeps(w, token, pid, cs)
    requires Serving(s.registrations, w.now, pid, version) == Some(c)
    ensures LooksAt(Observe(s, w, version), s, version, cs, c)
    ensures !Decided(Observe(s, w, version)) ==> Keeps(Observe(s, w, version), token, pid, cs + [c])
  {
    BeatsOnIs(w, token, pid, cs, c);
  }

  /** What one look makes of it, by how it was decided. */
  ghost predicate DecidedAs(s: Snapshot, version: string, cs: seq<Registration>, c: Registration,
                            error: Option<Failure>) {
    match error
    case Some(Deregistered) => false
    case Some(Exited) => c.pid !in s.alive
    case Some(OtherBuild) => c.pid in s.alive && c.binaryVersion != Some(version)
    case Some(NoHeartbeat) => Runs(s, c, version) && !BeatsOn(cs + [c]) && s.expired
    case None => Runs(s, c, version) && BeatsOn(cs + [c])
  }

  lemma DecidedAsLooked(o: Watched, s: Snapshot, version: string, cs: seq<Registration>, c: Registration,
                        error: Option<Failure>)
    requires LooksAt(o, s, version, cs, c)
    ensures Decided(o) && o.error == error <==> DecidedAs(s, version, cs, c, error)
  {
  }

  lemma OneServes(registrations: seq<Registration>, token: string, pid: nat, version: string, c: Registration)
    requires Serving(registrations, token, pid, version) == Some(c)
    ensures Serves(registrations, token, pid, version, c)
    ensures forall d :: Serves(registrations, token, pid, version, d) ==> d == c
    ensures exists r :: r in registrations && (r.token == token || (r.pid == pid && r.binaryVersion == Some(version)))
  {
    ServingIs(registrations, token, pid, version);
    assert c in registrations;
  }

  lemma DecidesUnder(s: Snapshot, token: string, pid: nat, version: string, cs: seq<Registration>, c: Registration,
                     error: Option<Failure>)
    requires Serving(s.registrations, token, pid, version) == Some(c)
    ensures Decides(s, token, pid, version, cs, error) <==> DecidedAs(s, version, cs, c, error)
  {
    OneServes(s.registrations, token, pid, version, c);
  }

  lemma GoesOnUnder(s: Snapshot, token: string, pid: nat, version: string, cs: seq<Registration>, c: Registration)
    requires Serving(s.registrations, token, pid, version) == Some(c)
    ensures GoesOn(s, token, pid, version, cs + [c]) <==> Runs(s, c, version) && !BeatsOn(cs + [c]) && !s.expired
    ensures forall d :: d != c ==> !GoesOn(s, token, pid, version, cs + [d])
  {
    OneServes(s.registrations, token, pid, version, c);
    assert forall d :: (cs + [d])[|cs|] == d;
  }

  /** One look at an undecided supervisor decides it just as the snapshot
      says. */
  lemma ObserveDecides(s: Snapshot, w: Watched, token: string, pid: nat, version: string, cs: seq<Registration>,
                       error: Option<Failure>)
    requires Keeps(w, token, pid, cs)
    ensures Decided(Observe(s, w, version)) && Observe(s, w, version).error == error <==>
      Decides(s, TokenAt(cs, |cs|, token), pid, version, cs, error)
  {
    var serving := Serving(s.registrations, w.now, pid, version);
    if serving.Some? {
      ObserveUnder(s, w, token, pid, version, cs, serving.value);
      DecidedAsLooked(Observe(s, w, version), s, version, cs, serving.value, error);
      DecidesUnder(s, w.now, pid, version, cs, serving.value, error);
    } else {
      NobodyServes(s, w.now, pid, version, cs);
    }
  }

  /** Or it goes on under the registration shown. */
  lemma ObserveGoesOn(s: Snapshot, w: Watched, token: string, pid: nat, version: string, cs: seq<Registration>,
                      c: Registration)
    requires Keeps(w, token, pid, cs)
    ensures !Decided(Observe(s, w, version)) && Serving(s.registrations, w.now, pid, version) == Some(c) <==>
      GoesOn(s, TokenAt(cs, |cs|, token), pid, version, cs + [c])
    ensures GoesOn(s, TokenAt(cs, |cs|, token), pid, version, cs + [c]) ==>
      Keeps(Observe(s, w, version), token, pid, cs + [c])
    ensures !Decided(Observe(s, w, version)) ==> Serving(s.registrations, w.now, pid, version).Some?
  {
    var serving := Serving(s.registrations, w.now, pid, version);
    if serving.Some? {
      ObserveUnder(s, w, token, pid, version, cs, serving.value);
      DecidedAsLooked(Observe(s, w, version), s, version, cs, serving.value, Observe(s, w, version).error);
      GoesOnUnder(s, w.now, pid, version, cs, serving.value);
    } else {
      NobodyServes(s, w.now, pid, version, cs);
    }
  }

  lemma NobodyServes(s: Snapshot, token: string, pid: nat, version: string, cs: seq<Registration>)
    requires Serving(s.registrations, token, pid, version) == None
    ensures forall c :: !GoesOn(s, token, pid, version, cs + [c])
    ensures forall e: Option<Failure> :: Decides(s, token, pid, version, cs, e) <==> e == Some(Deregistered)
  {
    ServingIs(s.registrations, token, pid, version);
  }

  /** While nothing decides, the watch keeps the token last served under and
      the first heartbeat shown under it. */
  lemma {:induction false} UndecidedKeeps(history: seq<Snapshot>, token: string, pid: nat, version: string,
                                          cs: seq<Registration>)
    requires Undecided(history, token, pid, version, cs)
    ensures Keeps(Alone(history, Started(token, pid), version), token, pid, cs)
    decreases |history|
  {
    if history == [] {
      assert cs == [];
    } else {
      UndecidedBefore(history, token, pid, version, cs);
      UndecidedKeeps(history[..|history| - 1], token, pid, version, cs[..|cs| - 1]);
      AloneNext(history, |history| - 1, Started(token, pid), version);
      assert history[..|history| - 1 + 1] == history;
      KeepsNext(history[|history| - 1], Alone(history[..|history| - 1], Started(token, pid), version), token, pid,
                version, cs);
    }
  }

  lemma KeepsNext(s: Snapshot, w: Watched, token: string, pid: nat, version: string, cs: seq<Registration>)
    requires cs != [] && Keeps(w, token, pid, cs[..|cs| - 1])
    requires GoesOn(s, TokenAt(cs, |cs| - 1, token), pid, version, cs)
    ensures Keeps(Observe(s, w, version), token, pid, cs)
  {
    var earlier, c := cs[..|cs| - 1], cs[|cs| - 1];
    assert cs == earlier + [c] && TokenAt(cs, |cs| - 1, token) == TokenAt(earlier, |earlier|, token);
    ObserveGoesOn(s, w, token, pid, version, earlier, c);
  }

  lemma AloneNext(history: seq<Snapshot>, n: nat, w: Watched, version: string)
    requires n < |history| && !Decided(Alone(history[..n], w, version))
    ensures Alone(history[..n + 1], w, version) == Observe(history[n], Alone(history[..n], w, version), version)
  {
    assert history[..n + 1][..n] == history[..n];
  }

  /** And whoever is undecided was shown so. */
  lemma {:induction false} UndecidedShown(history: seq<Snapshot>, token: string, pid: nat, version: string)
      returns (cs: seq<Registration>)
    requires !Decided(Alone(history, Started(token, pid), version))
    ensures Undecided(history, token, pid, version, cs)
    decreases |history|
  {
    if history == [] {
      return [];
    }
    var init, s := history[..|history| - 1], history[|history| - 1];
    var before := Alone(init, Started(token, pid), version);
    cs := UndecidedShown(init, token, pid, version);
    UndecidedKeeps(init, token, pid, version, cs);
    var serving := Serving(s.registrations, before.now, pid, version);
    if serving.Some? {
      ObserveGoesOn(s, before, token, pid, version, cs, serving.value);
      UndecidedNext(history, token, pid, version, cs, serving.value);
      cs := cs + [serving.value];
    }
  }

  lemma UndecidedBefore(history: seq<Snapshot>, token: string, pid: nat, version: string, cs: seq<Registration>)
    requires history != [] && Undecided(history, token, pid, version, cs)
    ensures Undecided(history[..|history| - 1], token, pid, version, cs[..|cs| - 1])
    ensures GoesOn(history[|history| - 1], TokenAt(cs, |cs| - 1, token), pid, version, cs)
  {
    var init, earlier := history[..|history| - 1], cs[..|cs| - 1];
    forall k | 0 <= k < |init| ensures GoesOn(init[k], TokenAt(earlier, k, token), pid, version, earlier[..k + 1]) {
      assert init[k] == history[k] && earlier[..k + 1] == cs[..k + 1];
      assert TokenAt(earlier, k, token) == TokenAt(cs, k, token);
    }
    assert GoesOn(history[|init|], TokenAt(cs, |init|, token), pid, version, cs[..|init| + 1]);
    assert cs[..|cs| - 1 + 1] == cs;
  }

  lemma UndecidedNext(history: seq<Snapshot>, token: string, pid: nat, version: string, cs: seq<Registration>,
                      c: Registration)
    requires history != [] && Undecided(history[..|history| - 1], token, pid, version, cs)
    requires GoesOn(history[|history| - 1], TokenAt(cs, |cs|, token), pid, version, cs + [c])
    ensures Undecided(history, token, pid, version, cs + [c])
  {
    var next := cs + [c];
    forall k | 0 <= k < |history| ensures GoesOn(history[k], TokenAt(next, k, token), pid, version, next[..k + 1]) {
      assert TokenAt(next, k, token) == TokenAt(cs, k, token);
      if k < |cs| {
        assert next[..k + 1] == cs[..k + 1] && history[k] == history[..|history| - 1][k];
      } else {
        assert next[..k + 1] == next;
      }
    }
  }

  /** Snapshot `n` decides: the ones before it did not, and it shows why. */
  ghost predicate DecidesAt(history: seq<Snapshot>, n: nat, token: string, pid: nat, version: string,
                            cs: seq<Registration>, error: Option<Failure>) {
    && n < |history| && Undecided(history[..n], token, pid, version, cs)
    && Decides(history[n], TokenAt(cs, n, token), pid, version, cs, error)
  }

  ghost predicate EndsAs(history: seq<Snapshot>, token: string, pid: nat, version: string, error: Option<Failure>) {
    exists n: nat, cs :: DecidesAt(history, n, token, pid, version, cs, error)
  }

  /** A supervisor is done, or fails with an error, exactly when some snapshot
      shows it after none before had decided. */
  lemma {:induction false} EndsExactly(history: seq<Snapshot>, token: string, pid: nat, version: string,
                                       error: Option<Failure>)
    ensures var w := Alone(history, Started(token, pid), version);
      Decided(w) && w.error == error <==> EndsAs(history, token, pid, version, error)
    decreases |history|
  {
    var w := Alone(history, Started(token, pid), version);
    if Decided(w) && w.error == error {
      ShownAt(history, token, pid, version, error);
    }
    if n: nat, cs :| DecidesAt(history, n, token, pid, version, cs, error) {
      EndsThere(history, n, token, pid, version, cs, error);
    }
  }

  lemma EndsThere(history: seq<Snapshot>, n: nat, token: string, pid: nat, version: string, cs: seq<Registration>,
                  error: Option<Failure>)
    requires DecidesAt(history, n, token, pid, version, cs, error)
    ensures var w := Alone(history, Started(token, pid), version); Decided(w) && w.error == error
  {
    var start := Started(token, pid);
    UndecidedKeeps(history[..n], token, pid, version, cs);
    ObserveDecides(history[n], Alone(history[..n], start, version), token, pid, version, cs, error);
    AloneNext(history, n, start, version);
    Stands(history, n + 1, start, version);
  }

  lemma Stands(history: seq<Snapshot>, n: nat, w: Watched, version: string)
    requires n <= |history| && Decided(Alone(history[..n], w, version))
    ensures Alone(history, w, version) == Alone(history[..n], w, version)
  {
    assert history == history[..n] + history[n..];
    DecisionStands(history[..n], history[n..], w, version);
  }

  lemma DecidesLonger(history: seq<Snapshot>, m: nat, n: nat, token: string, pid: nat, version: string,
                      cs: seq<Registration>, error: Option<Failure>)
    requires m <= |history| && DecidesAt(history[..m], n, token, pid, version, cs, error)
    ensures DecidesAt(history, n, token, pid, version, cs, error)
  {
    assert history[..m][..n] == history[..n] && history[..m][n] == history[n];
  }

  lemma {:induction false} ShownAt(history: seq<Snapshot>, token: string, pid: nat, version: string,
                                   error: Option<Failure>)
    requires Decided(Alone(history, Started(token, pid), version))
    requires Alone(history, Started(token, pid), version).error == error
    ensures EndsAs(history, token, pid, version, error)
    decreases |history|
  {
    var m := |history| - 1;
    var before := Alone(history[..m], Started(token, pid), version);
    if Decided(before) {
      ShownAt(history[..m], token, pid, version, error);
      var n: nat, cs :| DecidesAt(history[..m], n, token, pid, version, cs, error);
      DecidesLonger(history, m, n, token, pid, version, cs, error);
    } else {
      var cs := UndecidedShown(history[..m], token, pid, version);
      UndecidedKeeps(history[..m], token, pid, version, cs);
      ObserveDecides(history[m], before, token, pid, version, cs, error);
      assert DecidesAt(history, m, token, pid, version, cs, error);
    }
  }
}
