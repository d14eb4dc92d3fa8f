/** What it takes for a run to land, and what each way of stopping says. */
module LandingMeaning {
  import opened Outcomes
  import opened Renumbering
  import opened Receipts
  import opened Landing

  /** Whether a landing that gets to main calls `port`. */
  predicate OnTheWay(port: Port, task: LandedTask, r: Replies, renumbering: Renumbering) {
    match port
    case AbortLeftRebase => r.rebaseLeft
    case RecordAborted => r.rebaseLeft
    case RebaseStopped => false
    case AbortRebase => false
    case RenameMigration => renumbering.Renumbered?
    case RecordRenumbered => renumbering.Renumbered?
    case EnvPrograms => task.commands != []
    case RunEnv => task.commands != []
    case RunCommand(k) => k < |task.commands|
    case RecordCommand(k) => k < |task.commands|
    case _ => true
  }

  /** Everything a landing asks for before it moves main. */
  ghost predicate MayLand(run: LandedRun, task: LandedTask, main: Commit, now: Commit, r: Replies,
                          renumbering: Renumbering) {
    && (forall port :: port in r.faults ==> !OnTheWay(port, task, r, renumbering))
    && r.isDir && r.branch == Some(run.branch)
    && r.receipt.ReceiptFile? && IsSound(r.receipt.receipt, run.id, task.required)
    && r.receipt.receipt.commit == Some(r.head)
    && r.cleanBefore && r.cleanAfter
    && r.rebased.Some? && r.rebased.value != main && IsAncestor(main, r.rebased.value)
    && (renumbering.Unchanged? || renumbering.Renumbered?)
    && Within(task, main, Source(r.rebased.value, renumbering))
    && (task.commands != [] ==> !r.missingProgram)
    && (forall k :: 0 <= k < |task.commands| ==> r.exits(k) == Some(0))
    && now == main
  }

  /** Every path on which the source differs from main is one the task
      allows. */
  ghost predicate Within(task: LandedTask, main: Commit, source: Commit) {
    task.paths.Some? ==> forall p ::
      p in main.tree || p in source.tree ==>
        p in task.paths.value || (p in main.tree && p in source.tree && main.tree[p] == source.tree[p])
  }

  ghost predicate NoneFails(ports: set<Port>, r: Replies) {
    forall port :: port in ports ==> port !in r.faults
  }

  /** The worktree can be used, on the run's branch. */
  ghost predicate Ready(run: LandedRun, r: Replies) {
    && NoneFails({RunPaths, RepairWorktree, RebaseInProgress, CurrentBranch, WorktreeHead}, r)
    && (r.rebaseLeft ==> NoneFails({AbortLeftRebase, RecordAborted}, r))
    && r.isDir && r.branch == Some(run.branch)
  }

  /** The receipt is sound and describes the head, and the worktree is clean. */
  ghost predicate Accepted(run: LandedRun, task: LandedTask, r: Replies) {
    && NoneFails({ReadReceipt, RecordReceipt, StatusBefore}, r)
    && r.receipt.ReceiptFile? && IsSound(r.receipt.receipt, run.id, task.required)
    && r.receipt.receipt.commit == Some(r.head) && r.cleanBefore
  }

  /** The rebase left something on top of main, and the worktree clean. */
  ghost predicate Onto(main: Commit, r: Replies) {
    && NoneFails({Rebase, RebasedHead, RecordRebased, DescendsFromMain, StatusAfter}, r)
    && r.rebased.Some? && r.rebased.value != main && IsAncestor(main, r.rebased.value) && r.cleanAfter
  }

  lemma WorktreeIsReady(run: LandedRun, r: Replies)
    ensures WorktreeStops(run, r).None? <==> Ready(run, r)
  {
  }

  lemma ReceiptIsAccepted(run: LandedRun, task: LandedTask, r: Replies)
    ensures ReceiptStops(run, task, r).None? <==> Accepted(run, task, r)
  {
    if r.receipt.ReceiptFile? {
      ChecksAcceptSound(r.receipt.receipt, run.id, task.required);
    }
  }

  lemma RebaseIsAccepted(main: Commit, r: Replies)
    ensures RebaseStops(main, r).None? <==> Onto(main, r)
  {
  }

  lemma {:induction false} CommandsPass(count: nat, k: nat, r: Replies)
    requires k <= count
    ensures CommandStops(count, k, r).None? <==>
      forall i :: k <= i < count ==>
        r.exits(i) == Some(0) && RunCommand(i) !in r.faults && RecordCommand(i) !in r.faults
    decreases count - k
  {
    if k < count {
      CommandsPass(count, k + 1, r);
      assert ExitCode(r, k) == 0 <==> r.exits(k) == Some(0);
    }
  }

  lemma FaultsOffTheWay(task: LandedTask, r: Replies, renumbering: Renumbering)
    ensures (forall port :: port in r.faults ==> !OnTheWay(port, task, r, renumbering)) <==>
      && NoneFails({RunPaths, RepairWorktree, RebaseInProgress, CurrentBranch, WorktreeHead}, r)
      && (r.rebaseLeft ==> NoneFails({AbortLeftRebase, RecordAborted}, r))
      && NoneFails({ReadReceipt, RecordReceipt, StatusBefore}, r)
      && NoneFails({Rebase, RebasedHead, RecordRebased, DescendsFromMain, StatusAfter}, r)
      && NoneFails({MigrationPaths, ChangedByRun, TreeOf, CommitTree, UpdateRef, AdvanceMain}, r)
      && (renumbering.Renumbered? ==> NoneFails({RenameMigration, RecordRenumbered}, r))
      && (task.commands != [] ==> NoneFails({EnvPrograms, RunEnv}, r))
      && (forall i :: 0 <= i < |task.commands| ==> RunCommand(i) !in r.faults && RecordCommand(i) !in r.faults)
  {
    if (forall port :: port in r.faults ==> !OnTheWay(port, task, r, renumbering)) {
      forall i | 0 <= i < |task.commands| ensures RunCommand(i) !in r.faults && RecordCommand(i) !in r.faults {
        assert OnTheWay(RunCommand(i), task, r, renumbering) && OnTheWay(RecordCommand(i), task, r, renumbering);
      }
    }
  }

  lemma LateStops(task: LandedTask, main: Commit, now: Commit, source: Commit, r: Replies, renumbering: Renumbering)
    ensures Then(RenumberStops(renumbering, r), Then(ScopeStops(task, main, source, r),
            Then(CommandStops(|task.commands|, 0, r), CommitStops(main, now, r)))).None? <==>
      && NoneFails({MigrationPaths, ChangedByRun, TreeOf, CommitTree, UpdateRef, AdvanceMain}, r)
      && (renumbering.Unchanged? || renumbering.Renumbered?)
      && (renumbering.Renumbered? ==> NoneFails({RenameMigration, RecordRenumbered}, r))
      && Within(task, main, source)
      && (task.commands != [] ==> NoneFails({EnvPrograms, RunEnv}, r) && !r.missingProgram)
      && (forall i :: 0 <= i < |task.commands| ==>
            r.exits(i) == Some(0) && RunCommand(i) !in r.faults && RecordCommand(i) !in r.faults)
      && now == main
  {
    CommandsPass(|task.commands|, 0, r);
    InScopeIsWithin(task, main, source);
  }

  lemma InScopeIsWithin(task: LandedTask, main: Commit, source: Commit)
    ensures InScope(task, main, source) <==> Within(task, main, source)
  {
  }

  /** A run lands exactly when nothing on the way fails and every gate is
      passed: no gate is skipped and none is asked for twice. */
  lemma LandsExactly(run: LandedRun, task: LandedTask, main: Commit, now: Commit, r: Replies, renumbering: Renumbering)
    ensures Decision(run, task, main, now, r, renumbering).Lands? <==>
      MayLand(run, task, main, now, r, renumbering)
  {
    WorktreeIsReady(run, r);
    ReceiptIsAccepted(run, task, r);
    RebaseIsAccepted(main, r);
    FaultsOffTheWay(task, r, renumbering);
    if r.rebased.Some? {
      LateStops(task, main, now, Source(r.rebased.value, renumbering), r, renumbering);
    }
  }

  /** What lands: one commit whose only parent is the main the landing began
      from and whose tree is that of a head descending from that main. */
  lemma LandedCommit(run: LandedRun, task: LandedTask, main: Commit, now: Commit, r: Replies, renumbering: Renumbering)
    requires Decision(run, task, main, now, r, renumbering).Lands?
    ensures var landed := Decision(run, task, main, now, r, renumbering).landed;
      && landed.commit.parents == [main] && landed.mainBefore == main == now
      && landed.commit.tree == landed.source.tree && landed.commit != main
      && IsAncestor(main, landed.source)
      && (landed.source == r.rebased.value || landed.source.parents == [r.rebased.value])
  {
    LandsExactly(run, task, main, now, r, renumbering);
    var landed := Decision(run, task, main, now, r, renumbering).landed;
    var rebased := r.rebased.value;
    if landed.source != rebased {
      assert IsAncestor(main, landed.source.parents[0]);
    }
    ParentIsSmaller(landed.commit);
    assert landed.commit.parents[0] == main;
  }

  lemma ParentIsSmaller(c: Commit)
    ensures forall i :: 0 <= i < |c.parents| ==> c.parents[i] != c
  {
    forall i | 0 <= i < |c.parents| ensures c.parents[i] != c {
      assert c.parents[i] < c;
    }
  }

  /** What a reason for a session claims about the run. */
  ghost predicate IsTrueOf(reason: Reason, run: LandedRun, task: LandedTask, main: Commit, r: Replies,
                           renumbering: Renumbering) {
    match reason
    case CommitMismatch =>
      r.branch != Some(run.branch) || (r.receipt.ReceiptFile? && r.receipt.receipt.commit != Some(r.head))
    case ReceiptMissing => r.receipt.NoReceipt?
    case BadReceipt(error) =>
      if r.receipt.ReceiptFile? then CheckRequiring(r.receipt.receipt, run.id, task.required) == Some(error)
      else r.receipt.MalformedReceipt? && error == Malformed
    case EvidenceMissing =>
      r.receipt.ReceiptFile? && exists c :: c in task.required && !Backs(r.receipt.receipt, c)
    case WorktreeDirty => !r.cleanBefore || !r.cleanAfter
    case RebaseConflict => r.rebased.None?
    case RebaseEmpty => r.rebased == Some(main)
    case MigrationNumberTaken => renumbering.Blocked?
    case ScopeViolation => r.rebased.Some? && !Within(task, main, Source(r.rebased.value, renumbering))
    case VerificationFailed(k) => FailsFirst(task, r, k)
  }

  /** The `k`th command (from 1) is the first that does not exit 0. */
  ghost predicate FailsFirst(task: LandedTask, r: Replies, k: nat) {
    && 0 < k <= |task.commands| && r.exits(k - 1) != Some(0)
    && forall i :: 0 <= i < k - 1 ==> r.exits(i) == Some(0)
  }

  ghost predicate StopsTruly(stop: Option<Stop>, run: LandedRun, task: LandedTask, main: Commit, r: Replies,
                             renumbering: Renumbering) {
    stop.Some? && stop.value.Deferred? ==> IsTrueOf(stop.value.reason, run, task, main, r, renumbering)
  }

  lemma EarlyStopsTruly(run: LandedRun, task: LandedTask, main: Commit, r: Replies, renumbering: Renumbering)
    ensures StopsTruly(WorktreeStops(run, r), run, task, main, r, renumbering)
    ensures StopsTruly(RebaseStops(main, r), run, task, main, r, renumbering)
  {
    RebaseStopsTruly(run, task, main, r, renumbering);
  }

  lemma RebaseStopsTruly(run: LandedRun, task: LandedTask, main: Commit, r: Replies, renumbering: Renumbering)
    ensures StopsTruly(RebaseStops(main, r), run, task, main, r, renumbering)
  {
  }

  lemma ReceiptStopsTruly(run: LandedRun, task: LandedTask, main: Commit, r: Replies, renumbering: Renumbering)
    ensures StopsTruly(ReceiptStops(run, task, r), run, task, main, r, renumbering)
  {
    if r.receipt.ReceiptFile? {
      NothingMissing(r.receipt.receipt, task.required);
    }
  }

  lemma CommandStopsTruly(run: LandedRun, task: LandedTask, main: Commit, r: Replies, renumbering: Renumbering)
    ensures StopsTruly(CommandStops(|task.commands|, 0, r), run, task, main, r, renumbering)
  {
    FirstFailure(|task.commands|, 0, r);
  }

  lemma LateStopsTruly(run: LandedRun, task: LandedTask, main: Commit, r: Replies, renumbering: Renumbering)
    requires r.rebased.Some?
    ensures StopsTruly(RenumberStops(renumbering, r), run, task, main, r, renumbering)
    ensures StopsTruly(ScopeStops(task, main, Source(r.rebased.value, renumbering), r), run, task, main, r, renumbering)
  {
    InScopeIsWithin(task, main, Source(r.rebased.value, renumbering));
  }

  /** The reason a run goes back to a session with is true of it. */
  lemma DeferredTruly(run: LandedRun, task: LandedTask, main: Commit, now: Commit, r: Replies, renumbering: Renumbering)
    requires Decision(run, task, main, now, r, renumbering).Stops?
    requires Decision(run, task, main, now, r, renumbering).stop.Deferred?
    ensures IsTrueOf(Decision(run, task, main, now, r, renumbering).stop.reason, run, task, main, r, renumbering)
  {
    EarlyStopsTruly(run, task, main, r, renumbering);
    ReceiptStopsTruly(run, task, main, r, renumbering);
    CommandStopsTruly(run, task, main, r, renumbering);
    if r.rebased.Some? {
      LateStopsTruly(run, task, main, r, renumbering);
    }
    assert !exists reason :: CommitStops(main, now, r) == Some(Deferred(reason));
  }

  lemma {:induction false} FirstFailure(count: nat, k: nat, r: Replies)
    requires k <= count
    ensures var stop := CommandStops(count, k, r);
      stop.Some? && stop.value.Deferred? ==>
        && stop.value.reason.VerificationFailed? && k < stop.value.reason.index <= count
        && r.exits(stop.value.reason.index - 1) != Some(0)
        && forall i :: k <= i < stop.value.reason.index - 1 ==> r.exits(i) == Some(0)
    ensures CommandStops(count, k, r) != Some(ReceiptFailed)
    decreases count - k
  {
    if k < count {
      FirstFailure(count, k + 1, r);
      assert ExitCode(r, k) == 0 <==> r.exits(k) == Some(0);
    }
  }
}
