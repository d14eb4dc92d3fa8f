/** `integrate`: the single integration slot, the landings it holds, and any
    sequence of them. */
module Integration {
  import opened Outcomes
  import opened Sequences
  import opened Renumbering
  import opened Receipts
  import opened Landing
  import opened LandingMeaning

  type RunId = string

  datatype RunStatus =
    | Claimed | Starting | Running | Validating | AwaitingIntegration | Integrating
    | NeedsSession | Integrated | Succeeded | FailedRun | Interrupted

  predicate Beginnable(status: RunStatus) {
    status.AwaitingIntegration? || status.NeedsSession?
  }

  /** A run that holds the slot: the status it returns to when the landing
      stops before main moves, and the main it lands on. */
  datatype Begun = Begun(run: RunId, previous: RunStatus, main: Commit)

  /** The task's runs as the queue lists them, or the oldest run awaiting
      integration. */
  datatype Target = TaskRuns(runs: seq<RunId>) | Next(oldest: Option<RunId>)

  /** What the queue answers one `begin`: the repository it is bound to, and
      whether somebody holds the run (a live lease stops before the approval,
      any other lease at the slot). */
  datatype BeginReplies = BeginReplies(
    readable: bool,
    bound: Option<string>,
    heldBySupervisor: bool,
    recordable: bool,
    mainReadable: bool,
    leasedByOther: bool)

  datatype BeginError = Unbound | OtherRepository | AlreadyIntegrating | NothingToLand | Held | PortFailed

  /** The first run of `ids` that can be landed. */
  function FirstBeginnable(ids: seq<RunId>, runs: map<RunId, RunStatus>): (r: Option<RunId>)
    ensures r.Some? ==> r.value in ids && r.value in runs && runs[r.value] in {AwaitingIntegration, NeedsSession}
    ensures r.Some? ==> exists i :: IsFirst(i, ids, runs) && ids[i] == r.value
    ensures r.None? ==> forall id :: id in ids && id in runs ==> runs[id] !in {AwaitingIntegration, NeedsSession}
  {
    if ids == [] then None
    else if ids[0] in runs && Beginnable(runs[ids[0]]) then
      assert IsFirst(0, ids, runs);
      Some(ids[0])
    else
      var rest := FirstBeginnable(ids[1..], runs);
      assert forall i :: IsFirst(i, ids[1..], runs) ==> IsFirst(i + 1, ids, runs);
      rest
  }

  /** `ids[i]` is the first run that awaits integration or a session. */
  ghost predicate IsFirst(i: int, ids: seq<RunId>, runs: map<RunId, RunStatus>) {
    && 0 <= i < |ids| && ids[i] in runs && runs[ids[i]] in {AwaitingIntegration, NeedsSession}
    && forall j :: 0 <= j < i && ids[j] in runs ==> runs[ids[j]] !in {AwaitingIntegration, NeedsSession}
  }

  predicate AnyIntegrating(runs: map<RunId, RunStatus>) {
    exists id :: id in runs && runs[id].Integrating?
  }

  datatype Outcome = IntegratedOutcome | NeedsSessionOutcome(reason: Reason) | FailedOutcome | ErrorOutcome

  // ----- The states of the slot and of main -----

  /** A run main moved for, and how. */
  datatype LandedAs = LandedAs(run: RunId, landed: Landed)

  /** `history` is each run's own history under its ref, `holder` the run a
      `Begun` was handed out for and not used yet, and `landings` what main
      moved for, in order. */
  datatype State = State(
    main: Commit,
    history: map<RunId, Commit>,
    runs: map<RunId, RunStatus>,
    holder: Option<RunId>,
    landings: seq<LandedAs>)

  /** One commit with the tree of `source`, a head that descends from the main
      it lands on. */
  ghost predicate IsOneCommit(landed: Landed) {
    landed.commit == Commit(landed.source.tree, [landed.mainBefore]) && IsAncestor(landed.mainBefore, landed.source)
  }

  ghost predicate Begins(s: State, t: State) {
    exists run ::
      && !AnyIntegrating(s.runs) && run in s.runs && Beginnable(s.runs[run])
      && t == s.(runs := s.runs[run := Integrating], holder := Some(run))
  }

  /** A landing that moved main: by one commit on top of it. The run is
      integrated, or left integrating when that could not be recorded. */
  ghost predicate MovesMain(s: State, t: State, landed: Landed) {
    && s.holder.Some? && s.holder.value in s.runs && s.runs[s.holder.value].Integrating?
    && IsOneCommit(landed) && landed.mainBefore == s.main && t.main == landed.commit
    && t.history == s.history[s.holder.value := landed.source]
    && (t.runs == s.runs[s.holder.value := Integrated] || t.runs == s.runs)
    && t.holder == None && t.landings == s.landings + [LandedAs(s.holder.value, landed)]
  }

  /** A landing that stopped before main moved. */
  ghost predicate Leaves(s: State, t: State) {
    && s.holder.Some? && s.holder.value in s.runs && s.runs[s.holder.value].Integrating?
    && t.main == s.main && t.holder == None && t.landings == s.landings
    && (forall id :: id in s.history && id != s.holder.value ==> id in t.history && t.history[id] == s.history[id])
    && exists status :: t.runs == s.runs[s.holder.value := status] && !status.Integrated?
  }

  ghost predicate Step(s: State, t: State) {
    t == s || Begins(s, t) || (exists landed :: MovesMain(s, t, landed)) || Leaves(s, t)
  }

  /** Which of a task's runs is landed: none while one is integrating. */
  function PickOf(ids: seq<RunId>, runs: map<RunId, RunStatus>): Result<Option<RunId>, BeginError> {
    if exists id :: id in ids && id in runs && runs[id].Integrating? then Err(AlreadyIntegrating)
    else if FirstBeginnable(ids, runs).None? then Err(NothingToLand)
    else Ok(FirstBeginnable(ids, runs))
  }

  function Picked(target: Target, runs: map<RunId, RunStatus>): Result<Option<RunId>, BeginError> {
    match target
    case Next(oldest) => Ok(oldest)
    case TaskRuns(ids) => PickOf(ids, runs)
  }

  /** Of a task's runs the first that awaits integration or a session is picked,
      exactly while none of them is integrating. */
  lemma PickedExactly(ids: seq<RunId>, runs: map<RunId, RunStatus>)
    ensures Picked(TaskRuns(ids), runs) == Err(AlreadyIntegrating) <==>
      exists id :: id in ids && id in runs && runs[id] == Integrating
    ensures Picked(TaskRuns(ids), runs) == Err(NothingToLand) <==>
      forall id :: id in ids && id in runs ==> runs[id] !in {AwaitingIntegration, NeedsSession, Integrating}
    ensures Picked(TaskRuns(ids), runs).Ok? ==>
      exists i :: IsFirst(i, ids, runs) && Picked(TaskRuns(ids), runs) == Ok(Some(ids[i]))
  {
  }

  lemma OneCommitLands(run: LandedRun, task: LandedTask, main: Commit, now: Commit, r: Replies,
                       renumbering: Renumbering)
    requires Decision(run, task, main, now, r, renumbering).Lands?
    ensures var landed := Decision(run, task, main, now, r, renumbering).landed;
      && IsOneCommit(landed) && landed.mainBefore == main == now
      && landed.commit != main && landed.commit.parents == [main]
  {
    LandedCommit(run, task, main, now, r, renumbering);
  }

  lemma LandingIsStep(s: State, t: State, run: RunId, landed: Landed, recorded: bool)
    requires s.holder == Some(run) && run in s.runs && s.runs[run].Integrating?
    requires IsOneCommit(landed) && landed.mainBefore == s.main
    requires t.main == landed.commit && t.history == s.history[run := landed.source]
    requires t.runs == (if recorded then s.runs[run := Integrated] else s.runs)
    requires t.holder == None && t.landings == s.landings + [LandedAs(run, landed)]
    ensures Step(s, t)
  {
    assert MovesMain(s, t, landed);
  }

  /** A landing changes only its own run's history, and has it under its ref
      when the run landed. */
  ghost predicate IsHistoryAfter(before: map<RunId, Commit>, after: map<RunId, Commit>, run: RunId, verdict: Verdict) {
    && (verdict.Lands? ==> after == before[run := verdict.landed.source])
    && forall id :: id in before && id != run ==> id in after && after[id] == before[id]
  }

  /** What a landing leaves is a step: of a run that landed, and of one that
      did not. */
  lemma VerdictIsStep(s: State, t: State, b: Begun, run: LandedRun, task: LandedTask, r: Replies,
                      renumbering: Renumbering, recorded: bool)
    requires s.holder == Some(b.run) && b.run in s.runs && s.runs[b.run].Integrating? && Beginnable(b.previous)
    requires t.holder == None && run.id == b.run
    requires var verdict := Decision(run, task, b.main, s.main, r, renumbering);
      && IsHistoryAfter(s.history, t.history, b.run, verdict)
      && t.main == (if verdict.Lands? then verdict.landed.commit else s.main)
      && t.landings == s.landings + (if verdict.Lands? then [LandedAs(b.run, verdict.landed)] else [])
      && t.runs == (if recorded then s.runs[b.run := Resting(b, verdict)] else s.runs)
    ensures Step(s, t)
  {
    var verdict := Decision(run, task, b.main, s.main, r, renumbering);
    if verdict.Lands? {
      OneCommitLands(run, task, b.main, s.main, r, renumbering);
      LandingIsStep(s, t, b.run, verdict.landed, recorded);
    } else {
      var status := if recorded then Resting(b, verdict) else Integrating;
      assert t.runs == s.runs[b.run := status] && t.landings == s.landings;
      StopIsStep(s, t, b.run, status);
    }
  }

  lemma StopIsStep(s: State, t: State, run: RunId, status: RunStatus)
    requires s.holder == Some(run) && run in s.runs && s.runs[run].Integrating? && !status.Integrated?
    requires t.main == s.main && t.holder == None && t.landings == s.landings
    requires forall id :: id in s.history && id != run ==> id in t.history && t.history[id] == s.history[id]
    requires t.runs == s.runs[run := status]
    ensures Step(s, t)
  {
    assert Leaves(s, t);
  }

  // ----- The calls -----

  class Integrator {
    const git: Landings
    var runs: map<RunId, RunStatus>
    var approved: set<RunId>
    ghost var holder: Option<RunId>
    ghost var landings: seq<LandedAs>

    constructor (git: Landings, runs: map<RunId, RunStatus>)
      ensures this.git == git && this.runs == runs && approved == {} && holder == None && landings == []
    {
      this.git, this.runs, approved, holder, landings := git, runs, {}, None, [];
    }

    ghost function Now(): State
      reads this, git
    {
      State(git.main, git.history, runs, holder, landings)
    }

    method Pick(target: Target) returns (r: Result<Option<RunId>, BeginError>)
      ensures r == Picked(target, runs)
    {
      match target {
        case Next(oldest) => r := Ok(oldest);
        case TaskRuns(ids) =>
          if exists id :: id in ids && id in runs && runs[id].Integrating? {
            return Err(AlreadyIntegrating);
          }
          var first := FirstBeginnable(ids, runs);
          r := if first.None? then Err(NothingToLand) else Ok(first);
      }
    }

    /** Pick the run, record the call as the approval to land it and take the
        slot. Only a call that returns a `Begun` changes a run, and it takes
        the slot only while nobody has it. */
    method Begin(target: Target, commonDir: string, q: BeginReplies) returns (r: Result<Option<Begun>, BeginError>)
      modifies this
      ensures r.Ok? && r.value.Some? ==>
        var b := r.value.value;
        && !AnyIntegrating(old(runs)) && b.run in old(runs) && b.previous == old(runs)[b.run] && Beginnable(b.previous)
        && runs == old(runs)[b.run := Integrating] && holder == Some(b.run) && landings == old(landings)
        && b.main == git.main && b.run in approved && q.bound == Some(commonDir)
        && (target.Next? ==> target.oldest == Some(b.run))
        && (target.TaskRuns? ==> FirstBeginnable(target.runs, old(runs)) == Some(b.run))
      ensures r.Ok? && r.value.Some? <==> HandsOut(target, commonDir, q, old(runs))
      ensures r == Ok(None) <==> q.readable && q.bound == Some(commonDir) && target == Next(None)
      ensures r.Err? ==> IsWhy(r.error, target, commonDir, q, old(runs))
      ensures approved == old(approved) + if Approves(target, commonDir, q, old(runs))
        then {Picked(target, old(runs)).value.value} else {}
      ensures !(r.Ok? && r.value.Some?) ==> runs == old(runs) && holder == old(holder) && landings == old(landings)
      ensures Step(old(Now()), Now())
    {
      if !q.readable { return Err(PortFailed); }
      if q.bound.None? { return Err(Unbound); }
      if q.bound.value != commonDir { return Err(OtherRepository); }
      var picked := Pick(target);
      if picked.Err? { return Err(picked.error); }
      if picked.value.None? { return Ok(None); }
      var run := picked.value.value;
      if q.heldBySupervisor { return Err(Held); }
      if !q.recordable { return Err(PortFailed); }
      approved := approved + {run};
      if !q.mainReadable { return Err(PortFailed); }
      if AnyIntegrating(runs) || run !in runs { return Err(AlreadyIntegrating); }
      if !Beginnable(runs[run]) { return Err(NothingToLand); }
      if q.leasedByOther { return Err(Held); }
      var previous := runs[run];
      runs := runs[run := Integrating];
      holder := Some(run);
      return Ok(Some(Begun(run, previous, git.main)));
    }

    /** The landing itself, for main, its runs' histories and its verdict. */
    method LandInSlot(run: LandedRun, task: LandedTask, main: Commit, r: Replies)
      returns (verdict: Verdict, ghost renumbering: Renumbering)
      modifies git
      ensures verdict == Decision(run, task, main, old(git.main), r, renumbering)
      ensures git.main == if verdict.Lands? then verdict.landed.commit else old(git.main)
      ensures IsHistoryAfter(old(git.history), git.history, run.id, verdict)
      ensures IsRenumbered(run, task, main, r, renumbering)
    {
      verdict, renumbering := git.Land(run, task, main, r);
    }

    /** Land a run that holds the slot and record the outcome. An error before
        main moved gives the slot back and returns the run to the status it
        had; a landing that cannot be recorded leaves it integrating. */
    method LandIntegrating(b: Begun, branch: string, task: LandedTask, r: Replies, recordable: bool)
      returns (outcome: Outcome, ghost renumbering: Renumbering)
      requires holder == Some(b.run) && b.run in runs && runs[b.run].Integrating? && Beginnable(b.previous)
      modifies this, git
      ensures var verdict := Decision(LandedRun(b.run, branch), task, b.main, old(git.main), r, renumbering);
        && git.main == (if verdict.Lands? then verdict.landed.commit else old(git.main))
        && holder == None
        && landings == old(landings) + (if verdict.Lands? then [LandedAs(b.run, verdict.landed)] else [])
        && runs == (if recordable then old(runs)[b.run := Resting(b, verdict)] else old(runs))
        && outcome == OutcomeOf(verdict, recordable)
      ensures approved == old(approved) && IsRenumbered(LandedRun(b.run, branch), task, b.main, r, renumbering)
      ensures Step(old(Now()), Now())
    {
      ghost var before := Now();
      var verdict;
      verdict, renumbering := LandInSlot(LandedRun(b.run, branch), task, b.main, r);
      holder := None;
      if verdict.Lands? {
        landings := landings + [LandedAs(b.run, verdict.landed)];
      }
      if recordable {
        runs := runs[b.run := Resting(b, verdict)];
      }
      VerdictIsStep(before, Now(), b, LandedRun(b.run, branch), task, r, renumbering, recordable);
      outcome := OutcomeOf(verdict, recordable);
    }

    /** `integrate`: begin, then land. A call that stops with an error and
        records it leaves every run and main as they were; main moves exactly
        in a call that integrates a run, or one that could not record it. */
    method Integrate(target: Target, commonDir: string, q: BeginReplies, branch: string, task: LandedTask,
                     r: Replies, recordable: bool)
      returns (outcome: Option<Outcome>, ghost run: Option<RunId>, ghost renumbering: Renumbering)
      modifies this, git
      ensures run.Some? <==> HandsOut(target, commonDir, q, old(runs))
      ensures outcome.Some? <==> run.Some?
      ensures run.Some? ==> Picked(target, old(runs)) == Ok(run) && run.value in old(runs) && run.value in runs
      ensures run.Some? && recordable ==>
        var verdict := Decision(LandedRun(run.value, branch), task, old(git.main), old(git.main), r, renumbering);
        IsOutcome(outcome.value, runs[run.value], old(runs)[run.value], verdict)
      ensures run.Some? ==> IsRenumbered(LandedRun(run.value, branch), task, old(git.main), r, renumbering)
      ensures run.Some? && !recordable ==> outcome == Some(ErrorOutcome)
      ensures outcome.None? ==> runs == old(runs) && git.main == old(git.main)
      ensures outcome == Some(ErrorOutcome) && recordable ==> runs == old(runs) && git.main == old(git.main)
      ensures outcome == Some(IntegratedOutcome) <==> recordable && git.main != old(git.main)
      ensures git.main != old(git.main) ==> git.main.parents == [old(git.main)] && !AnyIntegrating(old(runs))
      ensures outcome == Some(ErrorOutcome) && !recordable ==>
        exists run :: run in old(runs) && Beginnable(old(runs)[run]) && runs == old(runs)[run := Integrating]
    {
      ghost var before, main := runs, git.main;
      var begun := Begin(target, commonDir, q);
      if begun.Err? || begun.value.None? {
        return None, None, Unchanged;
      }
      var b := begun.value.value;
      var result;
      result, renumbering := LandIntegrating(b, branch, task, r, recordable);
      ghost var verdict := Decision(LandedRun(b.run, branch), task, b.main, main, r, renumbering);
      if verdict.Lands? {
        OneCommitLands(LandedRun(b.run, branch), task, b.main, main, r, renumbering);
      }
      OutcomeIs(b, verdict);
      assert before[b.run := Integrating][b.run := b.previous] == before;
      return Some(result), Some(b.run), renumbering;
    }
  }

  /** A call records its approval: everything up to that can be read, it is the
      queue's own repository, there is a run to land and nobody holds it. */
  ghost predicate Approves(target: Target, commonDir: string, q: BeginReplies, runs: map<RunId, RunStatus>) {
    && q.readable && q.bound == Some(commonDir) && q.recordable && !q.heldBySupervisor
    && Picked(target, runs).Ok? && Picked(target, runs).value.Some?
  }

  /** And the slot is handed out: main can be read, nobody has the slot or a
      lease, and the run can still be landed. */
  ghost predicate HandsOut(target: Target, commonDir: string, q: BeginReplies, runs: map<RunId, RunStatus>) {
    && Approves(target, commonDir, q, runs) && q.mainReadable && !q.leasedByOther
    && (forall id :: id in runs ==> runs[id] != Integrating)
    && var run := Picked(target, runs).value.value; run in runs && runs[run] in {AwaitingIntegration, NeedsSession}
  }

  /** Why a call does not begin is true. */
  ghost predicate IsWhy(e: BeginError, target: Target, commonDir: string, q: BeginReplies,
                        runs: map<RunId, RunStatus>) {
    match e
    case Unbound => q.readable && q.bound == None
    case OtherRepository => q.readable && q.bound.Some? && q.bound.value != commonDir
    case AlreadyIntegrating =>
      || (exists id :: id in runs && runs[id] == Integrating)
      || (target.Next? && target.oldest.Some? && target.oldest.value !in runs)
    case NothingToLand =>
      (match target
       case Next(oldest) =>
         oldest.Some? && oldest.value in runs && runs[oldest.value] !in {AwaitingIntegration, NeedsSession}
       case TaskRuns(ids) =>
         forall id :: id in ids && id in runs ==> runs[id] !in {AwaitingIntegration, NeedsSession, Integrating})
    case Held => q.heldBySupervisor || q.leasedByOther
    case PortFailed => !q.readable || !q.recordable || !q.mainReadable
  }

  /** How a recorded landing leaves its run, and what it reports. */
  ghost predicate IsOutcome(outcome: Outcome, status: RunStatus, previous: RunStatus, verdict: Verdict) {
    match verdict
    case Lands(_) => outcome == IntegratedOutcome && status == Integrated
    case Stops(Deferred(reason)) => outcome == NeedsSessionOutcome(reason) && status == NeedsSession
    case Stops(ReceiptFailed) => outcome == FailedOutcome && status == FailedRun
    case Stops(Error) => outcome == ErrorOutcome && status == previous
  }

  lemma OutcomeIs(b: Begun, verdict: Verdict)
    ensures IsOutcome(OutcomeOf(verdict, true), Resting(b, verdict), b.previous, verdict)
    ensures OutcomeOf(verdict, false) == ErrorOutcome
  {
  }

  /** The status a landing leaves its run in once that is recorded. */
  function Resting(b: Begun, verdict: Verdict): RunStatus {
    match verdict
    case Lands(_) => Integrated
    case Stops(Error) => b.previous
    case Stops(Deferred(_)) => NeedsSession
    case Stops(ReceiptFailed) => FailedRun
  }

  function OutcomeOf(verdict: Verdict, recordable: bool): Outcome {
    if !recordable then ErrorOutcome
    else match verdict
      case Lands(_) => IntegratedOutcome
      case Stops(Error) => ErrorOutcome
      case Stops(Deferred(reason)) => NeedsSessionOutcome(reason)
      case Stops(ReceiptFailed) => FailedOutcome
  }

  // ----- Any sequence of calls -----

  /** From `first` main advanced to `main` by exactly the landed commits, each
      with the tree of its source and the one before it as its parent. */
  ghost predicate IsLine(first: Commit, landings: seq<LandedAs>, main: Commit) {
    if landings == [] then main == first
    else
      var last := landings[|landings| - 1].landed;
      && main == last.commit && IsOneCommit(last)
      && IsLine(first, landings[..|landings| - 1], last.mainBefore)
  }

  function RunsOf(landings: seq<LandedAs>): (runs: seq<RunId>)
    ensures |runs| == |landings| && forall i :: 0 <= i < |landings| ==> runs[i] == landings[i].run
  {
    seq(|landings|, i requires 0 <= i < |landings| => landings[i].run)
  }

  /** Before the first call no run has the slot and none is integrated. */
  ghost predicate Starts(s: State) {
    && s.holder == None && s.landings == []
    && forall id :: id in s.runs ==> !s.runs[id].Integrating? && !s.runs[id].Integrated?
  }

  /** What every call keeps: at most one run has the slot; a run main moved
      for is integrated, or still integrating, and never has the slot handed
      out again; the integrated runs are among those; main is the line of the
      landed commits; and each landed run's own history is kept. */
  ghost predicate Sound(first: Commit, s: State) {
    && OneHolds(s) && LandedOnce(s)
    && IsLine(first, s.landings, s.main)
    && forall x :: x in s.landings ==> x.run in s.history && s.history[x.run] == x.landed.source
  }

  ghost predicate OneHolds(s: State) {
    && (forall x, y :: x in s.runs && y in s.runs && s.runs[x].Integrating? && s.runs[y].Integrating? ==> x == y)
    && (s.holder.Some? ==>
          && s.holder.value in s.runs && s.runs[s.holder.value].Integrating?
          && s.holder.value !in RunsOf(s.landings))
  }

  ghost predicate LandedOnce(s: State) {
    && (forall id :: id in RunsOf(s.landings) ==> id in s.runs && (s.runs[id].Integrated? || s.runs[id].Integrating?))
    && (forall id :: id in s.runs && s.runs[id].Integrated? ==> id in RunsOf(s.landings))
    && Distinct(RunsOf(s.landings))
  }

  lemma LandsKeepsSound(first: Commit, s: State, t: State, landed: Landed)
    requires Sound(first, s) && MovesMain(s, t, landed)
    ensures Sound(first, t)
  {
    var run := s.holder.value;
    assert RunsOf(t.landings) == RunsOf(s.landings) + [run];
    assert t.landings[..|s.landings|] == s.landings;
    DistinctTogether(RunsOf(s.landings), [run]);
    forall x | x in t.landings ensures x.run in t.history && t.history[x.run] == x.landed.source {
      assert x in s.landings ==> x.run in RunsOf(s.landings) by {
        RunIsListed(s.landings, x);
      }
    }
  }

  lemma RunIsListed(landings: seq<LandedAs>, x: LandedAs)
    ensures x in landings ==> x.run in RunsOf(landings)
  {
    if x in landings {
      var i :| 0 <= i < |landings| && landings[i] == x;
      assert RunsOf(landings)[i] == x.run;
    }
  }

  lemma LeavesKeepsSound(first: Commit, s: State, t: State)
    requires Sound(first, s) && Leaves(s, t)
    ensures Sound(first, t)
  {
    var status :| t.runs == s.runs[s.holder.value := status] && !status.Integrated?;
    forall x | x in t.landings ensures x.run in t.history && t.history[x.run] == x.landed.source {
      RunIsListed(s.landings, x);
    }
  }

  lemma StepKeepsSound(first: Commit, s: State, t: State)
    requires Sound(first, s) && Step(s, t)
    ensures Sound(first, t)
  {
    if Begins(s, t) {
      var run :|
        run in s.runs && Beginnable(s.runs[run]) && t == s.(runs := s.runs[run := Integrating], holder := Some(run));
    } else if landed :| MovesMain(s, t, landed) {
      LandsKeepsSound(first, s, t, landed);
    } else if Leaves(s, t) {
      LeavesKeepsSound(first, s, t);
    }
  }

  predicate IsSettled(status: RunStatus) {
    status.Integrating? || status.Integrated?
  }

  /** What everybody else does to the queue between two calls: runs are added,
      claimed, validated, resumed or ended. Only `integrate` takes the slot,
      gives it back and integrates a run. */
  ghost predicate OthersMove(s: State, t: State) {
    && t == s.(runs := t.runs)
    && (forall id :: id in s.runs && IsSettled(s.runs[id]) ==> id in t.runs && t.runs[id] == s.runs[id])
    && (forall id :: id in t.runs && IsSettled(t.runs[id]) ==> id in s.runs && s.runs[id] == t.runs[id])
  }

  lemma OthersKeepSound(first: Commit, s: State, t: State)
    requires Sound(first, s) && OthersMove(s, t)
    ensures Sound(first, t)
  {
  }

  /** A history of the queue: calls, each in its two steps, and everybody
      else's moves between any two steps. */
  ghost predicate Trace(states: seq<State>) {
    && |states| > 0 && Starts(states[0])
    && forall i :: 0 <= i < |states| - 1 ==> Step(states[i], states[i + 1]) || OthersMove(states[i], states[i + 1])
  }

  /** Over any such history main stays a straight line: exactly the landed
      commits, each with its source's tree, each run at most once, one run at a
      time. */
  lemma {:induction false} MainStaysStraight(states: seq<State>, k: nat)
    requires Trace(states) && k < |states|
    ensures Sound(states[0].main, states[k])
  {
    if k > 0 {
      MainStaysStraight(states, k - 1);
      var i := k - 1;
      assert Step(states[i], states[i + 1]) || OthersMove(states[i], states[i + 1]);
      if Step(states[i], states[i + 1]) {
        StepKeepsSound(states[0].main, states[k - 1], states[k]);
      } else {
        OthersKeepSound(states[0].main, states[k - 1], states[k]);
      }
    }
  }

  /** From an empty queue: a run is added and made ready, takes the slot and
      lands. */
  lemma EmptyQueueLands(first: Commit, run: RunId, source: Commit)
    requires IsAncestor(first, source)
    ensures exists states: seq<State> ::
      && Trace(states) && |states| == 4 && states[0] == State(first, map[], map[], None, [])
      && states[3].runs == map[run := Integrated] && states[3].main == Commit(source.tree, [first])
  {
    var landed := Landed(Commit(source.tree, [first]), source, first);
    var empty := State(first, map[], map[], None, []);
    var ready := empty.(runs := map[run := AwaitingIntegration]);
    var taken := ready.(runs := ready.runs[run := Integrating], holder := Some(run));
    var done := State(landed.commit, map[run := source], map[run := Integrated], None, [LandedAs(run, landed)]);
    var states := [empty, ready, taken, done];
    assert OthersMove(empty, ready);
    assert Beginnable(ready.runs[run]) && Begins(ready, taken);
    assert taken.runs[run := Integrated] == done.runs && empty.history[run := source] == done.history;
    assert MovesMain(taken, done, landed);
    assert Trace(states);
  }
}
