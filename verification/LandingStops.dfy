/** Which way a landing stops: to a session and why, as a failed run, or with an
    error; and what it has recorded by then. */
module LandingStops {
  import opened Outcomes
  import opened Renumbering
  import opened Receipts
  import opened Landing
  import opened LandingMeaning

  // ----- Stage by stage, what sends the run to a session -----

  ghost predicate WorktreeReason(reason: Reason, run: LandedRun, r: Replies) {
    && reason == CommitMismatch && r.branch != Some(run.branch) && r.isDir
    && NoneFails({RunPaths, RepairWorktree, RebaseInProgress, CurrentBranch}, r)
    && (r.rebaseLeft ==> NoneFails({AbortLeftRebase, RecordAborted}, r))
  }

  ghost predicate ReceiptReason(reason: Reason, run: LandedRun, task: LandedTask, r: Replies) {
    && NoneFails({ReadReceipt}, r)
    && match reason
       case ReceiptMissing => r.receipt.NoReceipt?
       case BadReceipt(e) =>
         || (r.receipt.MalformedReceipt? && e == Malformed)
         || (r.receipt.ReceiptFile? && r.receipt.receipt.succeeded &&
             CheckRequiring(r.receipt.receipt, run.id, task.required) == Some(e))
       case EvidenceMissing =>
         && r.receipt.ReceiptFile? && CheckRequiring(r.receipt.receipt, run.id, task.required) == None
         && exists c :: c in task.required && !Backs(r.receipt.receipt, c)
       case CommitMismatch =>
         && r.receipt.ReceiptFile? && IsSound(r.receipt.receipt, run.id, task.required)
         && NoneFails({RecordReceipt}, r) && r.receipt.receipt.commit != Some(r.head)
       case WorktreeDirty =>
         && r.receipt.ReceiptFile? && IsSound(r.receipt.receipt, run.id, task.required)
         && NoneFails({RecordReceipt, StatusBefore}, r) && r.receipt.receipt.commit == Some(r.head) && !r.cleanBefore
       case _ => false
  }

  ghost predicate RebaseReason(reason: Reason, main: Commit, r: Replies) {
    && NoneFails({Rebase}, r)
    && match reason
       case RebaseConflict =>
         r.rebased == None && NoneFails({RebaseStopped}, r) && (r.stoppedRebase ==> NoneFails({AbortRebase}, r))
       case RebaseEmpty => r.rebased == Some(main) && NoneFails({RebasedHead, RecordRebased}, r)
       case WorktreeDirty =>
         && r.rebased.Some? && r.rebased.value != main && IsAncestor(main, r.rebased.value) && !r.cleanAfter
         && NoneFails({RebasedHead, RecordRebased, DescendsFromMain, StatusAfter}, r)
       case _ => false
  }

  ghost predicate RenumberReason(reason: Reason, renumbering: Renumbering, r: Replies) {
    reason == MigrationNumberTaken && renumbering.Blocked? && NoneFails({MigrationPaths}, r)
  }

  ghost predicate Numbered(renumbering: Renumbering, r: Replies) {
    && NoneFails({MigrationPaths}, r)
    && (renumbering.Unchanged? || (renumbering.Renumbered? && NoneFails({RenameMigration, RecordRenumbered}, r)))
  }

  ghost predicate ScopeReason(reason: Reason, task: LandedTask, main: Commit, source: Commit, r: Replies) {
    reason == ScopeViolation && !Within(task, main, source) && NoneFails({ChangedByRun}, r)
  }

  ghost predicate Allowed(task: LandedTask, main: Commit, source: Commit, r: Replies) {
    && NoneFails({ChangedByRun}, r) && Within(task, main, source)
    && (task.commands != [] ==> NoneFails({EnvPrograms, RunEnv}, r) && !r.missingProgram)
  }

  /** The first `k` commands are run and recorded. */
  ghost predicate GoesThrough(k: nat, r: Replies) {
    forall i: nat :: i < k ==> RunCommand(i) !in r.faults && RecordCommand(i) !in r.faults
  }

  /** The first of the commands that does not exit 0. */
  ghost predicate CommandReason(reason: Reason, count: nat, r: Replies) {
    && reason.VerificationFailed? && 1 <= reason.index <= count && GoesThrough(reason.index, r)
    && r.exits(reason.index - 1) != Some(0)
    && forall i: nat :: i < reason.index - 1 ==> r.exits(i) == Some(0)
  }

  /** Every gate before the one that gives the reason is passed. */
  ghost predicate Sends(reason: Reason, run: LandedRun, task: LandedTask, main: Commit, r: Replies,
                        renumbering: Renumbering) {
    || WorktreeReason(reason, run, r)
    || (Ready(run, r) && ReceiptReason(reason, run, task, r))
    || (Ready(run, r) && Accepted(run, task, r) && RebaseReason(reason, main, r))
    || (Ready(run, r) && Accepted(run, task, r) && Onto(main, r) &&
        SendsLate(reason, task, main, r.rebased.value, r, renumbering))
  }

  ghost predicate SendsLate(reason: Reason, task: LandedTask, main: Commit, rebased: Commit, r: Replies,
                            renumbering: Renumbering) {
    var source := Source(rebased, renumbering);
    || RenumberReason(reason, renumbering, r)
    || (Numbered(renumbering, r) && ScopeReason(reason, task, main, source, r))
    || (Numbered(renumbering, r) && Allowed(task, main, source, r) && CommandReason(reason, |task.commands|, r))
  }

  // ----- The stages -----

  lemma WorktreeStopIs(run: LandedRun, r: Replies)
    ensures forall reason :: WorktreeStops(run, r) == Some(Deferred(reason)) <==> WorktreeReason(reason, run, r)
    ensures WorktreeStops(run, r) != Some(ReceiptFailed)
  {
  }

  lemma ReceiptStopIs(run: LandedRun, task: LandedTask, r: Replies, reason: Reason)
    ensures ReceiptStops(run, task, r) == Some(Deferred(reason)) <==> ReceiptReason(reason, run, task, r)
    ensures ReceiptStops(run, task, r) == Some(ReceiptFailed) <==>
      NoneFails({ReadReceipt}, r) && r.receipt.ReceiptFile? && !r.receipt.receipt.succeeded
  {
    if r.receipt.ReceiptFile? {
      NothingMissing(r.receipt.receipt, task.required);
      ChecksAcceptSound(r.receipt.receipt, run.id, task.required);
    }
  }

  lemma RebaseStopIs(main: Commit, r: Replies, reason: Reason)
    ensures RebaseStops(main, r) == Some(Deferred(reason)) <==> RebaseReason(reason, main, r)
    ensures RebaseStops(main, r) != Some(ReceiptFailed)
  {
  }

  lemma RenumberStopIs(renumbering: Renumbering, r: Replies, reason: Reason)
    ensures RenumberStops(renumbering, r) == Some(Deferred(reason)) <==> RenumberReason(reason, renumbering, r)
    ensures RenumberStops(renumbering, r) != Some(ReceiptFailed)
    ensures RenumberStops(renumbering, r) == None <==> Numbered(renumbering, r)
  {
  }

  lemma ScopeStopIs(task: LandedTask, main: Commit, source: Commit, r: Replies, reason: Reason)
    ensures ScopeStops(task, main, source, r) == Some(Deferred(reason)) <==> ScopeReason(reason, task, main, source, r)
    ensures ScopeStops(task, main, source, r) != Some(ReceiptFailed)
    ensures ScopeStops(task, main, source, r) == None <==> Allowed(task, main, source, r)
  {
    InScopeIsWithin(task, main, source);
  }

  lemma {:induction false} CommandStopsAt(count: nat, k: nat, r: Replies, index: nat)
    requires k <= count
    ensures CommandStops(count, k, r) == Some(Deferred(VerificationFailed(index))) <==>
      && k < index <= count && r.exits(index - 1) != Some(0)
      && (forall i: nat :: k <= i < index ==> RunCommand(i) !in r.faults && RecordCommand(i) !in r.faults)
      && forall i: nat :: k <= i < index - 1 ==> r.exits(i) == Some(0)
    decreases count - k
  {
    if k < count {
      CommandStopsAt(count, k + 1, r, index);
      assert ExitCode(r, k) == 0 <==> r.exits(k) == Some(0);
    }
  }

  lemma CommandStopIs(count: nat, r: Replies, reason: Reason)
    ensures CommandStops(count, 0, r) == Some(Deferred(reason)) <==> CommandReason(reason, count, r)
    ensures CommandStops(count, 0, r) != Some(ReceiptFailed)
  {
    FirstFailure(count, 0, r);
    if reason.VerificationFailed? {
      CommandStopsAt(count, 0, r, reason.index);
    }
  }

  // ----- The whole -----

  lemma LateStopIs(task: LandedTask, main: Commit, now: Commit, rebased: Commit, r: Replies, renumbering: Renumbering,
                   reason: Reason)
    ensures LateDecision(task, main, now, rebased, r, renumbering) == Stops(Deferred(reason)) <==>
      SendsLate(reason, task, main, rebased, r, renumbering)
    ensures LateDecision(task, main, now, rebased, r, renumbering) != Stops(ReceiptFailed)
  {
    RenumberStopIs(renumbering, r, reason);
    ScopeStopIs(task, main, Source(rebased, renumbering), r, reason);
    CommandStopIs(|task.commands|, r, reason);
  }

  /** A run goes back to a session for a reason exactly when every gate before
      it is passed and it is so. */
  lemma DeferredExactly(run: LandedRun, task: LandedTask, main: Commit, now: Commit, r: Replies,
                        renumbering: Renumbering, reason: Reason)
    ensures Decision(run, task, main, now, r, renumbering) == Stops(Deferred(reason)) <==>
      Sends(reason, run, task, main, r, renumbering)
  {
    WorktreeStopIs(run, r);
    WorktreeIsReady(run, r);
    ReceiptStopIs(run, task, r, reason);
    ReceiptIsAccepted(run, task, r);
    RebaseStopIs(main, r, reason);
    RebaseIsAccepted(main, r);
    if r.rebased.Some? {
      LateStopIs(task, main, now, r.rebased.value, r, renumbering, reason);
    }
  }

  /** A run is failed exactly when the worktree is ready, the receipt is read
      and it does not report success: nothing that happens to the landing
      itself fails a run. */
  lemma FailedExactly(run: LandedRun, task: LandedTask, main: Commit, now: Commit, r: Replies, renumbering: Renumbering)
    ensures Decision(run, task, main, now, r, renumbering) == Stops(ReceiptFailed) <==>
      && Ready(run, r) && ReadReceipt !in r.faults
      && r.receipt.ReceiptFile? && !r.receipt.receipt.succeeded
  {
    WorktreeStopIs(run, r);
    WorktreeIsReady(run, r);
    ReceiptStopIs(run, task, r, RebaseConflict);
    RebaseStopIs(main, r, RebaseConflict);
    if r.rebased.Some? {
      LateStopIs(task, main, now, r.rebased.value, r, renumbering, RebaseConflict);
    }
  }

  /** What ends a landing with an error: a port that fails, no worktree, a head
      that does not descend from main, a program that is not there, a move Git
      refuses or a main that moved meanwhile. */
  ghost predicate IsTrouble(task: LandedTask, main: Commit, now: Commit, r: Replies, renumbering: Renumbering) {
    || r.faults != {} || !r.isDir
    || (r.rebased.Some? && !IsAncestor(main, r.rebased.value))
    || (task.commands != [] && r.missingProgram) || renumbering.Refused? || now != main
  }

  /** An error needs one of those; every other gate that is not passed sends the
      run to a session, or fails it for its receipt. */
  lemma ErrorMeansTrouble(run: LandedRun, task: LandedTask, main: Commit, now: Commit, r: Replies,
                          renumbering: Renumbering)
    requires Decision(run, task, main, now, r, renumbering) == Stops(Error)
    ensures IsTrouble(task, main, now, r, renumbering)
  {
    if r.faults == {} {
      NoCommandError(|task.commands|, 0, r);
    }
  }

  lemma {:induction false} NoCommandError(count: nat, k: nat, r: Replies)
    requires k <= count && r.faults == {}
    ensures CommandStops(count, k, r) != Some(Error)
    decreases count - k
  {
    if k < count {
      NoCommandError(count, k + 1, r);
    }
  }

  // ----- What is recorded -----

  lemma {:induction false} CommandsRecorded(count: nat, k: nat, r: Replies, index: nat, code: int)
    requires k <= count
    ensures VerificationCommand(index, code) in CommandEvents(count, k, r) <==>
      && k < index <= count && RunBetween(k, index, r)
      && code == (if r.exits(index - 1).Some? then r.exits(index - 1).value else 128)
    decreases count - k
  {
    if k < count {
      CommandsRecorded(count, k + 1, r, index, code);
      EventsStep(count, k, r, VerificationCommand(index, code));
      OneRun(k, r, index, code);
      if k + 1 < index {
        OneMoreRun(k, index, r);
      }
    }
  }

  lemma EventsStep(count: nat, k: nat, r: Replies, e: Event)
    requires k < count
    ensures e in CommandEvents(count, k, r) <==>
      e in CommandEvent(k, r) || (CommandStop(k, r).None? && e in CommandEvents(count, k + 1, r))
  {
  }

  lemma OneRun(k: nat, r: Replies, index: nat, code: int)
    ensures VerificationCommand(index, code) in CommandEvent(k, r) <==>
      index == k + 1 && RunBetween(k, k + 1, r) && code == (if r.exits(k).Some? then r.exits(k).value else 128)
  {
    assert RunBetween(k, k + 1, r) <==> RunCommand(k) !in r.faults && RecordCommand(k) !in r.faults;
  }

  /** The commands after the `k`th up to the `index`th are run and recorded, and
      all but the last of them pass. */
  ghost predicate RunBetween(k: nat, index: nat, r: Replies) {
    && (forall i: nat :: k <= i < index ==> RunCommand(i) !in r.faults && RecordCommand(i) !in r.faults)
    && (forall i: nat :: k <= i < index - 1 ==> r.exits(i) == Some(0))
  }

  lemma OneMoreRun(k: nat, index: nat, r: Replies)
    requires k + 1 < index
    ensures RunBetween(k, index, r) <==> CommandStop(k, r).None? && RunBetween(k + 1, index, r)
  {
    if RunBetween(k, index, r) {
      assert k < index - 1 && r.exits(k) == Some(0);
    }
  }

  lemma {:induction false} CommandsOnly(count: nat, k: nat, r: Replies)
    requires k <= count
    ensures forall e :: e in CommandEvents(count, k, r) ==> e.VerificationCommand?
    decreases count - k
  {
    if k < count {
      CommandsOnly(count, k + 1, r);
    }
  }

  /** What a landing has recorded however it ends: the rebase it undid, the
      receipt once it is accepted as such, the rebase once it is made, the
      migration once it is moved, and each command that was run, with its
      code. */
  lemma RecordedSays(run: LandedRun, task: LandedTask, main: Commit, r: Replies, renumbering: Renumbering)
    ensures RebaseAborted in Recorded(run, task, main, r, renumbering) <==>
      && r.isDir && r.rebaseLeft
      && NoneFails({RunPaths, RepairWorktree, RebaseInProgress, AbortLeftRebase, RecordAborted}, r)
    ensures IntegrationReceipt in Recorded(run, task, main, r, renumbering) <==>
      && Ready(run, r) && NoneFails({ReadReceipt, RecordReceipt}, r)
      && r.receipt.ReceiptFile? && IsSound(r.receipt.receipt, run.id, task.required)
    ensures forall before, after :: IntegrationRebased(before, after) in Recorded(run, task, main, r, renumbering) <==>
      && Ready(run, r) && Accepted(run, task, r) && NoneFails({Rebase, RebasedHead, RecordRebased}, r)
      && before == r.head && r.rebased == Some(after)
  {
    EarlySays(run, task, main, r);
    WorktreeIsReady(run, r);
    ReceiptIsAccepted(run, task, r);
    forall e: Event | !e.MigrationRenumbered? && !e.VerificationCommand?
      ensures e in Recorded(run, task, main, r, renumbering) <==> e in EarlyEvents(run, task, r)
    {
      if r.rebased.Some? {
        LateKinds(task, main, r.rebased.value, r, renumbering);
      }
    }
  }

  lemma ReceiptSays(run: LandedRun, task: LandedTask, r: Replies)
    ensures ReceiptEvents(run, task, r) ==
      if NoneFails({ReadReceipt, RecordReceipt}, r) && r.receipt.ReceiptFile? &&
        IsSound(r.receipt.receipt, run.id, task.required)
      then [IntegrationReceipt] else []
  {
    if r.receipt.ReceiptFile? {
      ChecksAcceptSound(r.receipt.receipt, run.id, task.required);
    }
  }

  lemma WorktreeSays(r: Replies)
    ensures WorktreeEvents(r) ==
      if r.isDir && r.rebaseLeft &&
        NoneFails({RunPaths, RepairWorktree, RebaseInProgress, AbortLeftRebase, RecordAborted}, r)
      then [RebaseAborted] else []
  {
  }

  lemma RebaseSays(r: Replies)
    ensures RebaseEvents(r) ==
      if NoneFails({Rebase, RebasedHead, RecordRebased}, r) && r.rebased.Some?
      then [IntegrationRebased(r.head, r.rebased.value)] else []
  {
  }

  lemma EarlySays(run: LandedRun, task: LandedTask, main: Commit, r: Replies)
    ensures RebaseAborted in EarlyEvents(run, task, r) <==>
      && r.isDir && r.rebaseLeft
      && NoneFails({RunPaths, RepairWorktree, RebaseInProgress, AbortLeftRebase, RecordAborted}, r)
    ensures IntegrationReceipt in EarlyEvents(run, task, r) <==>
      && WorktreeStops(run, r).None? && NoneFails({ReadReceipt, RecordReceipt}, r)
      && r.receipt.ReceiptFile? && IsSound(r.receipt.receipt, run.id, task.required)
    ensures forall before, after :: IntegrationRebased(before, after) in EarlyEvents(run, task, r) <==>
      && WorktreeStops(run, r).None? && ReceiptStops(run, task, r).None?
      && NoneFails({Rebase, RebasedHead, RecordRebased}, r) && before == r.head && r.rebased == Some(after)
    ensures forall e :: e in EarlyEvents(run, task, r) ==> !e.MigrationRenumbered? && !e.VerificationCommand?
  {
    WorktreeSays(r);
    ReceiptSays(run, task, r);
    RebaseSays(r);
    EarlyInTurn(WorktreeEvents(r), ReceiptEvents(run, task, r), RebaseEvents(r));
  }

  lemma EarlyInTurn(a: seq<Event>, b: seq<Event>, c: seq<Event>)
    ensures forall e :: e in a + b <==> e in a || e in b
    ensures forall e :: e in a + (b + c) <==> e in a || e in b || e in c
  {
  }

  lemma LateKinds(task: LandedTask, main: Commit, rebased: Commit, r: Replies, renumbering: Renumbering)
    ensures forall e :: e in LateEvents(task, main, rebased, r, renumbering) ==>
      e.MigrationRenumbered? || e.VerificationCommand?
  {
    CommandsOnly(|task.commands|, 0, r);
  }

  lemma RecordedLateSays(run: LandedRun, task: LandedTask, main: Commit, r: Replies, renumbering: Renumbering)
    requires Ready(run, r) && Accepted(run, task, r) && Onto(main, r)
    ensures forall from, to :: MigrationRenumbered(from, to) in Recorded(run, task, main, r, renumbering) <==>
      && renumbering.Renumbered? && renumbering.from == from && renumbering.to == to
      && NoneFails({MigrationPaths, RenameMigration, RecordRenumbered}, r)
    ensures forall index: nat, code ::
      VerificationCommand(index, code) in Recorded(run, task, main, r, renumbering) <==>
      && Numbered(renumbering, r) && Allowed(task, main, Source(r.rebased.value, renumbering), r)
      && IsRun(|task.commands|, r, index, code)
  {
    EarlySays(run, task, main, r);
    WorktreeIsReady(run, r);
    ReceiptIsAccepted(run, task, r);
    RebaseIsAccepted(main, r);
    RenumberStopIs(renumbering, r, RebaseConflict);
    ScopeStopIs(task, main, Source(r.rebased.value, renumbering), r, RebaseConflict);
    LateSays(task, main, r.rebased.value, r, renumbering);
  }

  /** The `index`th command is run and ends with `code`, 128 for a signal. */
  ghost predicate IsRun(count: nat, r: Replies, index: nat, code: int) {
    && 0 < index <= count && GoesThrough(index, r)
    && (forall i: nat :: i < index - 1 ==> r.exits(i) == Some(0))
    && code == (if r.exits(index - 1).Some? then r.exits(index - 1).value else 128)
  }

  lemma LateSays(task: LandedTask, main: Commit, rebased: Commit, r: Replies, renumbering: Renumbering)
    ensures forall from, to :: MigrationRenumbered(from, to) in LateEvents(task, main, rebased, r, renumbering) <==>
      && renumbering.Renumbered? && renumbering.from == from && renumbering.to == to
      && NoneFails({MigrationPaths, RenameMigration, RecordRenumbered}, r)
    ensures forall index: nat, code ::
      VerificationCommand(index, code) in LateEvents(task, main, rebased, r, renumbering) <==>
      && RenumberStops(renumbering, r).None? && ScopeStops(task, main, Source(rebased, renumbering), r).None?
      && IsRun(|task.commands|, r, index, code)
  {
    CommandsOnly(|task.commands|, 0, r);
    forall index: nat, code
      ensures VerificationCommand(index, code) in CommandEvents(|task.commands|, 0, r) <==>
        IsRun(|task.commands|, r, index, code)
    {
      CommandsRecorded(|task.commands|, 0, r, index, code);
    }
  }

  /** The run's own history gets under its ref exactly when everything up to
      that is passed. */
  lemma HistoryKeptExactly(run: LandedRun, task: LandedTask, main: Commit, r: Replies, renumbering: Renumbering)
    requires Ready(run, r) && Accepted(run, task, r) && Onto(main, r)
    ensures KeepsHistory(task, main, r.rebased.value, r, renumbering) <==>
      && Numbered(renumbering, r) && Allowed(task, main, Source(r.rebased.value, renumbering), r)
      && GoesThrough(|task.commands|, r) && (forall i: nat :: i < |task.commands| ==> r.exits(i) == Some(0))
      && NoneFails({TreeOf, CommitTree, UpdateRef}, r)
  {
    RenumberStopIs(renumbering, r, RebaseConflict);
    ScopeStopIs(task, main, Source(r.rebased.value, renumbering), r, RebaseConflict);
    CommandsPass(|task.commands|, 0, r);
  }
}
