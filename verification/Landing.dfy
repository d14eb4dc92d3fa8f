/** `land`: rebase a validated run onto main, check it again, and put one
    commit on main. */
module Landing {
  import opened Outcomes
  import opened Paths
  import opened Renumbering
  import opened Receipts
  import opened Sequences

  /** The calls that can fail, in the order a landing makes them. */
  datatype Port =
    | RunPaths
    | RepairWorktree
    | RebaseInProgress
    | AbortLeftRebase
    | RecordAborted
    | CurrentBranch
    | WorktreeHead
    | ReadReceipt
    | RecordReceipt
    | StatusBefore
    | Rebase
    | RebaseStopped
    | AbortRebase
    | RebasedHead
    | RecordRebased
    | DescendsFromMain
    | StatusAfter
    | MigrationPaths
    | RenameMigration
    | RecordRenumbered
    | ChangedByRun
    | EnvPrograms
    | RunEnv
    | RunCommand(index: nat)
    | RecordCommand(index: nat)
    | TreeOf
    | CommitTree
    | UpdateRef
    | AdvanceMain

  datatype ReceiptFile = NoReceipt | MalformedReceipt | ReceiptFile(receipt: Receipt)

  /** What the environment answers one landing: the ports that fail, the
      worktree as it is found, the head a rebase leaves (none for a conflict)
      and how each command exits (no code for a signal). */
  datatype Replies = Replies(
    faults: set<Port>,
    isDir: bool,
    rebaseLeft: bool,
    branch: Option<string>,
    head: Commit,
    receipt: ReceiptFile,
    cleanBefore: bool,
    rebased: Option<Commit>,
    stoppedRebase: bool,
    cleanAfter: bool,
    missingProgram: bool,
    exits: nat -> Option<int>)

  /** The task as a landing reads it: the paths its globs allow (none is no
      limit), the evidence it demands and its verification commands. */
  datatype LandedTask = LandedTask(
    paths: Option<set<Path>>,
    required: seq<EvidenceCheck>,
    commands: seq<string>)

  datatype LandedRun = LandedRun(id: string, branch: string)

  datatype Reason =
    | CommitMismatch
    | ReceiptMissing
    | BadReceipt(error: ReceiptError)
    | EvidenceMissing
    | WorktreeDirty
    | RebaseConflict
    | RebaseEmpty
    | MigrationNumberTaken
    | ScopeViolation
    | VerificationFailed(index: nat)

  /** Where a landing stops short of main. */
  datatype Stop = Error | Deferred(reason: Reason) | ReceiptFailed

  /** `source` is the head that landed, `commit` what main advanced to. */
  datatype Landed = Landed(commit: Commit, source: Commit, mainBefore: Commit)

  datatype Verdict = Lands(landed: Landed) | Stops(stop: Stop)

  /** The first of two stops, in order. */
  function Then(first: Option<Stop>, second: Option<Stop>): Option<Stop> {
    if first.Some? then first else second
  }

  function On(condition: bool, stop: Stop): Option<Stop> {
    if condition then Some(stop) else None
  }

  function Fails(r: Replies, port: Port): Option<Stop> {
    On(port in r.faults, Error)
  }

  function ExitCode(r: Replies, index: nat): int {
    if r.exits(index).Some? then r.exits(index).value else 128
  }

  /** `a` is `d` or an ancestor of it. */
  predicate IsAncestor(a: Commit, d: Commit) {
    a == d || exists i :: 0 <= i < |d.parents| && IsAncestor(a, d.parents[i])
  }

  // ----- Where a landing stops, stage by stage -----

  function WorktreeStops(run: LandedRun, r: Replies): Option<Stop> {
    Then(Fails(r, RunPaths),
    Then(On(!r.isDir, Error),
    Then(Fails(r, RepairWorktree),
    Then(Fails(r, RebaseInProgress),
    Then(On(r.rebaseLeft && (AbortLeftRebase in r.faults || RecordAborted in r.faults), Error),
    Then(Fails(r, CurrentBranch),
    Then(On(r.branch != Some(run.branch), Deferred(CommitMismatch)),
         Fails(r, WorktreeHead))))))))
  }

  function ReceiptStops(run: LandedRun, task: LandedTask, r: Replies): Option<Stop> {
    Then(Fails(r, ReadReceipt),
    match r.receipt
    case NoReceipt => Some(Deferred(ReceiptMissing))
    case MalformedReceipt => Some(Deferred(BadReceipt(Malformed)))
    case ReceiptFile(receipt) =>
      var error := CheckRequiring(receipt, run.id, task.required);
      Then(On(!receipt.succeeded, ReceiptFailed),
      Then(if error.Some? then Some(Deferred(BadReceipt(error.value))) else None,
      Then(On(MissingEvidence(receipt, task.required) != [], Deferred(EvidenceMissing)),
      Then(Fails(r, RecordReceipt),
      Then(On(receipt.commit != Some(r.head), Deferred(CommitMismatch)),
      Then(Fails(r, StatusBefore),
           On(!r.cleanBefore, Deferred(WorktreeDirty)))))))))
  }

  function RebaseStops(main: Commit, r: Replies): Option<Stop> {
    Then(Fails(r, Rebase),
    match r.rebased
    case None =>
      Then(Fails(r, RebaseStopped),
      Then(On(r.stoppedRebase && AbortRebase in r.faults, Error),
           Some(Deferred(RebaseConflict))))
    case Some(rebased) =>
      Then(Fails(r, RebasedHead),
      Then(Fails(r, RecordRebased),
      Then(On(rebased == main, Deferred(RebaseEmpty)),
      Then(Fails(r, DescendsFromMain),
      Then(On(!IsAncestor(main, rebased), Error),
      Then(Fails(r, StatusAfter),
           On(!r.cleanAfter, Deferred(WorktreeDirty)))))))))
  }

  function RenumberStops(renumbering: Renumbering, r: Replies): Option<Stop> {
    Then(Fails(r, MigrationPaths),
    match renumbering
    case Unchanged => None
    case Blocked(_, _) => Some(Deferred(MigrationNumberTaken))
    case Refused(_, _) => Some(Error)
    case Renumbered(_, _, _, _) => Then(Fails(r, RenameMigration), Fails(r, RecordRenumbered)))
  }

  /** The head that lands: the rebased one, or the renaming on top of it. */
  function Source(rebased: Commit, renumbering: Renumbering): Commit {
    if renumbering.Renumbered? then Commit(renumbering.tree, [rebased]) else rebased
  }

  predicate InScope(task: LandedTask, main: Commit, source: Commit) {
    task.paths.None? || ChangedPaths(main.tree, source.tree) <= task.paths.value
  }

  function ScopeStops(task: LandedTask, main: Commit, source: Commit, r: Replies): Option<Stop> {
    Then(Fails(r, ChangedByRun),
    Then(On(!InScope(task, main, source), Deferred(ScopeViolation)),
    if task.commands == [] then None
    else Then(Fails(r, EnvPrograms), Then(On(r.missingProgram, Error), Fails(r, RunEnv)))))
  }

  /** Whether the `k`th command stops the landing. */
  function CommandStop(k: nat, r: Replies): Option<Stop> {
    Then(Fails(r, RunCommand(k)),
    Then(Fails(r, RecordCommand(k)),
         On(ExitCode(r, k) != 0, Deferred(VerificationFailed(k + 1)))))
  }

  /** The first of the commands from `k` on that stops the landing. */
  function CommandStops(count: nat, k: nat, r: Replies): Option<Stop>
    requires k <= count
    decreases count - k
  {
    if k == count then None else Then(CommandStop(k, r), CommandStops(count, k + 1, r))
  }

  /** `now` is where main points when it is to advance from `main`. */
  function CommitStops(main: Commit, now: Commit, r: Replies): Option<Stop> {
    Then(Fails(r, TreeOf), Then(Fails(r, CommitTree), Then(Fails(r, UpdateRef),
    Then(Fails(r, AdvanceMain), On(now != main, Error)))))
  }

  /** What a landing decides, given what becomes of the run's migrations. */
  function Decision(run: LandedRun, task: LandedTask, main: Commit, now: Commit, r: Replies,
                    renumbering: Renumbering): Verdict {
    var early := Then(WorktreeStops(run, r), Then(ReceiptStops(run, task, r), RebaseStops(main, r)));
    if early.Some? || r.rebased.None? then Stops(if early.Some? then early.value else Error)
    else LateDecision(task, main, now, r.rebased.value, r, renumbering)
  }

  /** The same, of a run that is rebased. */
  function LateDecision(task: LandedTask, main: Commit, now: Commit, rebased: Commit, r: Replies,
                        renumbering: Renumbering): Verdict {
    var source := Source(rebased, renumbering);
    var late := Then(RenumberStops(renumbering, r), Then(ScopeStops(task, main, source, r),
                Then(CommandStops(|task.commands|, 0, r), CommitStops(main, now, r))));
    if late.Some? then Stops(late.value)
    else Lands(Landed(Commit(source.tree, [main]), source, main))
  }

  // ----- The landing -----

  datatype Event =
    | RebaseAborted
    | IntegrationReceipt
    | IntegrationRebased(before: Commit, after: Commit)
    | MigrationRenumbered(from: Path, to: Path)
    | VerificationCommand(index: nat, exitCode: int)

  // ----- What a landing records, stage by stage -----

  predicate Works(r: Replies, port: Port) {
    port !in r.faults
  }

  function WorktreeEvents(r: Replies): seq<Event> {
    if r.isDir && r.rebaseLeft && Works(r, RunPaths) && Works(r, RepairWorktree) && Works(r, RebaseInProgress) &&
      Works(r, AbortLeftRebase) && Works(r, RecordAborted)
    then [RebaseAborted] else []
  }

  function ReceiptEvents(run: LandedRun, task: LandedTask, r: Replies): seq<Event> {
    if Works(r, ReadReceipt) && Works(r, RecordReceipt) && r.receipt.ReceiptFile? && r.receipt.receipt.succeeded &&
      CheckRequiring(r.receipt.receipt, run.id, task.required).None? &&
      MissingEvidence(r.receipt.receipt, task.required) == []
    then [IntegrationReceipt] else []
  }

  function RebaseEvents(r: Replies): seq<Event> {
    if r.rebased.Some? && Works(r, Rebase) && Works(r, RebasedHead) && Works(r, RecordRebased)
    then [IntegrationRebased(r.head, r.rebased.value)] else []
  }

  function RenumberEvents(renumbering: Renumbering, r: Replies): seq<Event> {
    if renumbering.Renumbered? && Works(r, MigrationPaths) && Works(r, RenameMigration) && Works(r, RecordRenumbered)
    then [MigrationRenumbered(renumbering.from, renumbering.to)] else []
  }

  function CommandEvent(k: nat, r: Replies): seq<Event> {
    if Works(r, RunCommand(k)) && Works(r, RecordCommand(k)) then [VerificationCommand(k + 1, ExitCode(r, k))] else []
  }

  /** The commands from `k` on, up to the first that fails. */
  function CommandEvents(count: nat, k: nat, r: Replies): seq<Event>
    requires k <= count
    decreases count - k
  {
    if k == count then []
    else CommandEvent(k, r) + if CommandStop(k, r).Some? then [] else CommandEvents(count, k + 1, r)
  }

  function EarlyEvents(run: LandedRun, task: LandedTask, r: Replies): seq<Event> {
    WorktreeEvents(r) +
    if WorktreeStops(run, r).Some? then []
    else ReceiptEvents(run, task, r) + if ReceiptStops(run, task, r).Some? then [] else RebaseEvents(r)
  }

  function LateEvents(task: LandedTask, main: Commit, rebased: Commit, r: Replies,
                      renumbering: Renumbering): seq<Event> {
    RenumberEvents(renumbering, r) +
    if RenumberStops(renumbering, r).Some? then [] else SourceEvents(task, main, Source(rebased, renumbering), r)
  }

  function SourceEvents(task: LandedTask, main: Commit, source: Commit, r: Replies): seq<Event> {
    if ScopeStops(task, main, source, r).Some? then [] else CommandEvents(|task.commands|, 0, r)
  }

  /** Nothing stops the run up to its rebased head. */
  predicate GetsRebased(run: LandedRun, task: LandedTask, main: Commit, r: Replies) {
    && WorktreeStops(run, r).None? && ReceiptStops(run, task, r).None? && RebaseStops(main, r).None?
    && r.rebased.Some?
  }

  /** A run that is rebased has its migrations renumbered so. */
  ghost predicate IsRenumbered(run: LandedRun, task: LandedTask, main: Commit, r: Replies, renumbering: Renumbering) {
    GetsRebased(run, task, main, r) ==> Renumbers(main.tree, r.rebased.value.tree, renumbering)
  }

  function Recorded(run: LandedRun, task: LandedTask, main: Commit, r: Replies, renumbering: Renumbering): seq<Event> {
    EarlyEvents(run, task, r) +
    if GetsRebased(run, task, main, r) then LateEvents(task, main, r.rebased.value, r, renumbering) else []
  }

  /** The run's own history gets under its ref. */
  predicate KeepsHistory(task: LandedTask, main: Commit, rebased: Commit, r: Replies, renumbering: Renumbering) {
    && RenumberStops(renumbering, r).None? && ScopeStops(task, main, Source(rebased, renumbering), r).None?
    && CommandStops(|task.commands|, 0, r).None? && Works(r, TreeOf) && Works(r, CommitTree) && Works(r, UpdateRef)
  }

  /** The repository and the run's events as a landing changes them: main and
      the refs that keep each run's own history. */
  class Landings {
    var main: Commit
    var history: map<string, Commit>
    var events: seq<Event>

    constructor (main: Commit)
      ensures this.main == main && history == map[] && events == []
    {
      this.main, history, events := main, map[], [];
    }

    /** The worktree is there, on the run's branch and not in a rebase: one
        left behind is undone. */
    method CheckWorktree(run: LandedRun, r: Replies) returns (stop: Option<Stop>)
      modifies this`events
      ensures stop == WorktreeStops(run, r)
      ensures events == old(events) + WorktreeEvents(r)
    {
      if RunPaths in r.faults || !r.isDir || RepairWorktree in r.faults || RebaseInProgress in r.faults {
        return Some(Error);
      }
      if r.rebaseLeft {
        if AbortLeftRebase in r.faults || RecordAborted in r.faults {
          return Some(Error);
        }
        events := events + [RebaseAborted];
      }
      if CurrentBranch in r.faults { return Some(Error); }
      if r.branch != Some(run.branch) { return Some(Deferred(CommitMismatch)); }
      if WorktreeHead in r.faults { return Some(Error); }
      return None;
    }

    /** The worktree, the receipt and the rebase. */
    method Prepare(run: LandedRun, task: LandedTask, main: Commit, r: Replies) returns (stop: Option<Stop>)
      modifies this`events
      ensures stop == Then(WorktreeStops(run, r), Then(ReceiptStops(run, task, r), RebaseStops(main, r)))
      ensures stop.None? <==> GetsRebased(run, task, main, r)
      ensures events == old(events) + EarlyEvents(run, task, r)
    {
      stop := CheckWorktree(run, r);
      if stop.Some? { return; }
      stop := ReadAndCheck(run, task, r);
      if stop.Some? { return; }
      stop := RebaseOnto(main, r);
    }

    /** The receipt must describe the worktree's head, be sound, and leave
        the worktree clean. */
    method ReadAndCheck(run: LandedRun, task: LandedTask, r: Replies) returns (stop: Option<Stop>)
      modifies this`events
      ensures stop == ReceiptStops(run, task, r)
      ensures events == old(events) + ReceiptEvents(run, task, r)
    {
      if ReadReceipt in r.faults { return Some(Error); }
      if r.receipt.NoReceipt? { return Some(Deferred(ReceiptMissing)); }
      if r.receipt.MalformedReceipt? { return Some(Deferred(BadReceipt(Malformed))); }
      var receipt := r.receipt.receipt;
      if !receipt.succeeded { return Some(ReceiptFailed); }
      var error := CheckRequiring(receipt, run.id, task.required);
      if error.Some? { return Some(Deferred(BadReceipt(error.value))); }
      if MissingEvidence(receipt, task.required) != [] { return Some(Deferred(EvidenceMissing)); }
      if RecordReceipt in r.faults { return Some(Error); }
      events := events + [IntegrationReceipt];
      if receipt.commit != Some(r.head) { return Some(Deferred(CommitMismatch)); }
      if StatusBefore in r.faults { return Some(Error); }
      if !r.cleanBefore { return Some(Deferred(WorktreeDirty)); }
      return None;
    }

    /** Onto the current main; a rebase that stops is undone. */
    method RebaseOnto(main: Commit, r: Replies) returns (stop: Option<Stop>)
      modifies this`events
      ensures stop == RebaseStops(main, r)
      ensures stop.None? ==> r.rebased.Some?
      ensures events == old(events) + RebaseEvents(r)
    {
      if Rebase in r.faults { return Some(Error); }
      if r.rebased.None? {
        if RebaseStopped in r.faults || (r.stoppedRebase && AbortRebase in r.faults) {
          return Some(Error);
        }
        return Some(Deferred(RebaseConflict));
      }
      var rebased := r.rebased.value;
      if RebasedHead in r.faults || RecordRebased in r.faults { return Some(Error); }
      events := events + [IntegrationRebased(r.head, rebased)];
      if rebased == main { return Some(Deferred(RebaseEmpty)); }
      if DescendsFromMain in r.faults || !IsAncestor(main, rebased) || StatusAfter in r.faults {
        return Some(Error);
      }
      if !r.cleanAfter { return Some(Deferred(WorktreeDirty)); }
      return None;
    }

    /** Move the migration whose number main took, when that is mechanical. */
    method Renumber(main: Commit, rebased: Commit, r: Replies)
      returns (stop: Option<Stop>, renumbering: Renumbering)
      modifies this`events
      ensures Renumbers(main.tree, rebased.tree, renumbering)
      ensures stop == RenumberStops(renumbering, r)
      ensures events == old(events) + RenumberEvents(renumbering, r)
    {
      renumbering := RenumberMigration(main.tree, rebased.tree);
      stop := RecordRenaming(renumbering, r);
    }

    method RecordRenaming(renumbering: Renumbering, r: Replies) returns (stop: Option<Stop>)
      modifies this`events
      ensures stop == RenumberStops(renumbering, r)
      ensures events == old(events) + RenumberEvents(renumbering, r)
    {
      if MigrationPaths in r.faults { return Some(Error); }
      match renumbering {
        case Unchanged => stop := None;
        case Blocked(_, _) => stop := Some(Deferred(MigrationNumberTaken));
        case Refused(_, _) => stop := Some(Error);
        case Renumbered(from, to, _, _) =>
          if RenameMigration in r.faults || RecordRenumbered in r.faults {
            stop := Some(Error);
          } else {
            events := events + [MigrationRenumbered(from, to)];
            stop := None;
          }
      }
    }

    /** What lands is the squash of main and the source: that diff is held to
        the task's paths. Then the environment the commands run in. */
    method CheckScope(task: LandedTask, main: Commit, source: Commit, r: Replies) returns (stop: Option<Stop>)
      ensures stop == ScopeStops(task, main, source, r)
    {
      if ChangedByRun in r.faults { return Some(Error); }
      if !InScope(task, main, source) { return Some(Deferred(ScopeViolation)); }
      if task.commands != [] && (EnvPrograms in r.faults || r.missingProgram || RunEnv in r.faults) {
        return Some(Error);
      }
      return None;
    }

    /** Run the `k`th command and record how it ended. */
    method RunOne(k: nat, r: Replies) returns (stop: Option<Stop>)
      modifies this`events
      ensures stop == CommandStop(k, r)
      ensures events == old(events) + CommandEvent(k, r)
    {
      if RunCommand(k) in r.faults || RecordCommand(k) in r.faults {
        return Some(Error);
      }
      events := events + [VerificationCommand(k + 1, ExitCode(r, k))];
      return if ExitCode(r, k) != 0 then Some(Deferred(VerificationFailed(k + 1))) else None;
    }

    /** Run the commands once each on the rebased tree, stopping at the first
        that fails, which is recorded too. */
    method RunCommands(count: nat, r: Replies) returns (stop: Option<Stop>)
      modifies this`events
      ensures stop == CommandStops(count, 0, r)
      ensures events == old(events) + CommandEvents(count, 0, r)
    {
      for k := 0 to count
        invariant CommandStops(count, 0, r) == CommandStops(count, k, r)
        invariant old(events) + CommandEvents(count, 0, r) == events + CommandEvents(count, k, r)
      {
        InTurn(events, CommandEvent(k, r), CommandEvents(count, k + 1, r));
        stop := RunOne(k, r);
        if stop.Some? { return; }
      }
      return None;
    }

    /** One commit on main with the tree of `source`; the run's own history
        stays reachable under its ref. */
    method CommitOnMain(run: LandedRun, source: Commit, main: Commit, r: Replies)
      returns (stop: Option<Stop>, commit: Commit)
      modifies this`main, this`history
      ensures stop == CommitStops(main, old(this.main), r)
      ensures commit == Commit(source.tree, [main])
      ensures this.main == if stop.None? then commit else old(this.main)
      ensures history ==
        if Works(r, TreeOf) && Works(r, CommitTree) && Works(r, UpdateRef) then old(history)[run.id := source]
        else old(history)
    {
      commit := Commit(source.tree, [main]);
      if TreeOf in r.faults || CommitTree in r.faults || UpdateRef in r.faults {
        return Some(Error), commit;
      }
      history := history[run.id := source];
      if AdvanceMain in r.faults || this.main != main {
        return Some(Error), commit;
      }
      this.main := commit;
      return None, commit;
    }

    /** Rebase, check again and land one run. Main moves only with a verdict
        that the run landed, and then by exactly one commit on top of the main
        the landing began from; what each stage records is recorded however the
        landing ends. */
    method Land(run: LandedRun, task: LandedTask, main: Commit, r: Replies)
      returns (verdict: Verdict, ghost renumbering: Renumbering)
      modifies this
      ensures verdict == Decision(run, task, main, old(this.main), r, renumbering)
      ensures IsRenumbered(run, task, main, r, renumbering)
      ensures this.main == if verdict.Lands? then verdict.landed.commit else old(this.main)
      ensures history ==
        if GetsRebased(run, task, main, r) && KeepsHistory(task, main, r.rebased.value, r, renumbering)
        then old(history)[run.id := Source(r.rebased.value, renumbering)] else old(history)
      ensures events == old(events) + Recorded(run, task, main, r, renumbering)
    {
      var stop := Prepare(run, task, main, r);
      if stop.Some? {
        InTurn(old(events), EarlyEvents(run, task, r), []);
        return Stops(stop.value), Unchanged;
      }
      verdict, renumbering := LandRebased(run, task, main, r);
      InTurn(old(events), EarlyEvents(run, task, r), LateEvents(task, main, r.rebased.value, r, renumbering));
    }

    /** The second half: renumber the rebased head, hold it to the task's paths,
        run the commands on it and put it on main. */
    method LandRebased(run: LandedRun, task: LandedTask, main: Commit, r: Replies)
      returns (verdict: Verdict, ghost renumbering: Renumbering)
      requires r.rebased.Some?
      modifies this
      ensures verdict == LateDecision(task, main, old(this.main), r.rebased.value, r, renumbering)
      ensures Renumbers(main.tree, r.rebased.value.tree, renumbering)
      ensures this.main == if verdict.Lands? then verdict.landed.commit else old(this.main)
      ensures history ==
        if KeepsHistory(task, main, r.rebased.value, r, renumbering)
        then old(history)[run.id := Source(r.rebased.value, renumbering)] else old(history)
      ensures events == old(events) + LateEvents(task, main, r.rebased.value, r, renumbering)
    {
      var rebased := r.rebased.value;
      var stop, renumbered := Renumber(main, rebased, r);
      renumbering := renumbered;
      InTurn(old(events), RenumberEvents(renumbered, r), SourceEvents(task, main, Source(rebased, renumbered), r));
      if stop.Some? { return Stops(stop.value), renumbering; }
      stop := LandSource(run, task, main, Source(rebased, renumbered), r);
      if stop.Some? { return Stops(stop.value), renumbering; }
      var source := Source(rebased, renumbered);
      return Lands(Landed(Commit(source.tree, [main]), source, main)), renumbering;
    }

    /** Hold what lands to the task's paths, run the commands on it and put it
        on main. */
    method LandSource(run: LandedRun, task: LandedTask, main: Commit, source: Commit, r: Replies)
      returns (stop: Option<Stop>)
      modifies this
      ensures stop == Then(ScopeStops(task, main, source, r),
                      Then(CommandStops(|task.commands|, 0, r), CommitStops(main, old(this.main), r)))
      ensures this.main == if stop.None? then Commit(source.tree, [main]) else old(this.main)
      ensures history ==
        if ScopeStops(task, main, source, r).None? && CommandStops(|task.commands|, 0, r).None? &&
          Works(r, TreeOf) && Works(r, CommitTree) && Works(r, UpdateRef)
        then old(history)[run.id := source] else old(history)
      ensures events == old(events) + SourceEvents(task, main, source, r)
    {
      stop := CheckScope(task, main, source, r);
      if stop.Some? { return; }
      stop := RunCommands(|task.commands|, r);
      if stop.Some? { return; }
      var commit;
      stop, commit := CommitOnMain(run, source, main, r);
    }
  }
}
