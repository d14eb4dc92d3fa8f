/** A queue whose claim order is not topological. */
module ClaimCases {
  import opened Outcomes
  import opened Reachability
  import opened ClaimGraph
  import opened ClaimOrder

  // ----- No cycle where steps only go up -----

  lemma {:induction false} PathAscends(next: Dependents, p: seq<int>, k: nat)
    requires Path(next, p) && 1 <= k < |p|
    requires forall a, b :: b in Direct(next, a) ==> a < b
    ensures p[0] < p[k]
  {
    var i := k - 1;
    assert p[i + 1] in Direct(next, p[i]);
    if k > 1 {
      PathAscends(next, p, i);
    }
  }

  /** Steps that only go up never come back. */
  lemma AscendingIsAcyclic(next: Dependents)
    requires forall a, b :: b in Direct(next, a) ==> a < b
    ensures Acyclic(next)
  {
    forall id ensures !Reaches(next, id, id) {
      if Reaches(next, id, id) {
        var p: seq<int> :| Path(next, p) && p[0] == id && p[|p| - 1] == id;
        PathAscends(next, p, |p| - 1);
      }
    }
  }

  // ----- An urgent draft -----

  /** A ready task and a draft that waits for it. */
  function ReadyTask(): GraphTask {
    GraphTask(1, Ready, Normal, None, None, [], [])
  }

  function UrgentDraft(): GraphTask {
    GraphTask(2, Draft, Urgent, None, None, [1], [])
  }

  lemma DraftWaits()
    ensures var tasks := [ReadyTask(), UrgentDraft()];
      InIdOrder(tasks) && Acyclic(BlocksTable(tasks)) && BlocksTransitively(tasks, 1, 2)
  {
    var table := BlocksTable([ReadyTask(), UrgentDraft()]);
    OnlyEdge();
    AscendingIsAcyclic(table);
    StepReaches(table, 1, 2);
  }

  lemma OnlyEdge()
    ensures forall a, b :: b in Direct(BlocksTable([ReadyTask(), UrgentDraft()]), a) <==> a == 1 && b == 2
  {
    BlocksTableHolds([ReadyTask(), UrgentDraft()]);
    forall a, b ensures b in Direct(BlocksTable([ReadyTask(), UrgentDraft()]), a) <==> a == 1 && b == 2 {
      OnlyTheDraftWaits(a, b);
    }
  }

  lemma OnlyTheDraftWaits(a: TaskId, b: TaskId)
    ensures Blocks([ReadyTask(), UrgentDraft()], a, b) <==> a == 1 && b == 2
  {
    var tasks := [ReadyTask(), UrgentDraft()];
    assert ReadyTask() in tasks && UrgentDraft() in tasks;
    assert 1 in UrgentDraft().dependsOn && IsOpen(tasks, 1) && WaitsFor(tasks, UrgentDraft(), 1);
  }

  /** An urgent draft ranks ahead of the ready task it waits for. */
  lemma UrgentDraftRanksFirst()
    ensures var tasks := [ReadyTask(), UrgentDraft()];
      BlocksTransitively(tasks, 1, 2) && ClaimedBefore(RankOf(tasks, 2), RankOf(tasks, 1))
  {
    var tasks := [ReadyTask(), UrgentDraft()];
    DraftWaits();
    assert ReadyTask() in tasks && UrgentDraft() in tasks;
    assert !IsUrgent(tasks, ReadyTask(), Level(Urgent));
    ClaimOrderAgainstWaiter(tasks, ReadyTask(), UrgentDraft());
    NotBefore(RankOf(tasks, 1), RankOf(tasks, 2));
  }

  lemma NotBefore(r: ClaimRank, s: ClaimRank)
    requires r.id != s.id && !ClaimedBefore(r, s)
    ensures ClaimedBefore(s, r)
  {
    assert Level(r.priority) == Level(s.priority) ==> r.priority == s.priority;
  }
}
