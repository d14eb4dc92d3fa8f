/** `dependency_graph`: the dependency view computed in one pass over the
    queue's unfinished tasks. */
module DependencyView {
  import opened Outcomes
  import opened Reachability
  import opened ClaimGraph
  import opened ClaimOrder
  import Sorting

  datatype GraphInput = GraphInput(tasks: seq<GraphTask>, candidates: seq<TaskId>)

  /** Tables that agree on every task's direct dependents have the same
      waiters. */
  lemma SameDirectSameWaiters(next: Dependents, other: Dependents, id: TaskId)
    requires forall a :: Direct(next, a) == Direct(other, a)
    ensures Waiters(next, id) == Waiters(other, id)
  {
    assert forall p :: Path(next, p) <==> Path(other, p);
    assert forall b :: Reaches(next, id, b) <==> Reaches(other, id, b);
    assert forall b :: b in Waiters(next, id) <==> b in Waiters(other, id);
  }

  /** Per task, how many unfinished tasks wait for it and its effective
      priority over those same waiters. */
  method Reach(tasks: seq<GraphTask>, blocks: Dependents)
    returns (counts: map<TaskId, nat>, effective: map<TaskId, Priority>)
    requires InIdOrder(tasks)
    requires forall a :: Direct(blocks, a) == Direct(BlocksTable(tasks), a)
    ensures forall id :: (id in counts <==> IsOpen(tasks, id)) && (id in effective <==> IsOpen(tasks, id))
    ensures forall id :: id in counts ==> counts[id] == Unblocks(tasks, id)
    ensures forall id :: id in effective ==> effective[id] == Effective(tasks, id)
  {
    counts, effective := map[], map[];
    for i := 0 to |tasks|
      invariant forall id :: id in counts <==> IsOpen(tasks[..i], id)
      invariant forall id :: id in effective <==> IsOpen(tasks[..i], id)
      invariant forall id :: id in counts ==> counts[id] == Unblocks(tasks, id)
      invariant forall id :: id in effective ==> effective[id] == Effective(tasks, id)
    {
      var task := tasks[i];
      var reached := Collect(blocks, task.id);
      SameDirectSameWaiters(blocks, BlocksTable(tasks), task.id);
      FindIsTask(tasks, task);
      counts := counts[task.id := |reached|];
      effective := effective[task.id := EffectivePriority(task.priority, Among(tasks, reached))];
      assert forall t :: t in tasks[..i + 1] <==> t in tasks[..i] || t == tasks[i];
    }
    assert tasks[..|tasks|] == tasks;
  }

  function RankBy(counts: map<TaskId, nat>, effective: map<TaskId, Priority>, id: TaskId): ClaimRank {
    ClaimRank(if id in effective then effective[id] else Normal, Count(counts, id), id)
  }

  ghost predicate InClaimOrder(tasks: seq<GraphTask>, ids: seq<TaskId>) {
    forall i, j :: 0 <= i < j < |ids| ==> ClaimedNoLater(RankOf(tasks, ids[i]), RankOf(tasks, ids[j]))
  }

  lemma NobodyWaitsForUnknown(tasks: seq<GraphTask>, id: TaskId)
    requires !IsOpen(tasks, id)
    ensures Unblocks(tasks, id) == 0
  {
    BlocksTableHolds(tasks);
    NoDependentsNoWaiters(tasks, id);
  }

  lemma CountsEverywhere(tasks: seq<GraphTask>, counts: map<TaskId, nat>, effective: map<TaskId, Priority>)
    requires forall id :: (id in counts <==> IsOpen(tasks, id)) && (id in effective <==> IsOpen(tasks, id))
    requires forall id :: id in counts ==> counts[id] == Unblocks(tasks, id)
    requires forall id :: id in effective ==> effective[id] == Effective(tasks, id)
    ensures forall id :: RankBy(counts, effective, id) == RankOf(tasks, id)
    ensures forall id :: Count(counts, id) == Unblocks(tasks, id)
  {
    forall id
      ensures RankBy(counts, effective, id) == RankOf(tasks, id)
      ensures Count(counts, id) == Unblocks(tasks, id)
    {
      if !IsOpen(tasks, id) {
        NobodyWaitsForUnknown(tasks, id);
      }
    }
  }

  /** The claimable tasks of the goal in claim order. */
  method SortedCandidates(tasks: seq<GraphTask>, candidates: seq<TaskId>, counts: map<TaskId, nat>,
                          effective: map<TaskId, Priority>) returns (sorted: seq<TaskId>)
    requires forall id :: RankBy(counts, effective, id) == RankOf(tasks, id)
    ensures multiset(sorted) == multiset(candidates)
    ensures InClaimOrder(tasks, sorted)
  {
    var noLater := (a: TaskId, b: TaskId) =>
      ClaimedNoLater(RankBy(counts, effective, a), RankBy(counts, effective, b));
    sorted := Sorting.Sort(candidates, noLater);
    assert forall a, b :: noLater(a, b) <==>
      ClaimedNoLater(RankBy(counts, effective, a), RankBy(counts, effective, b));
    RanksAreOrdered();
    Sorting.SortSorts(candidates, noLater);
    forall i, j | 0 <= i < j < |sorted|
      ensures ClaimedNoLater(RankOf(tasks, sorted[i]), RankOf(tasks, sorted[j]))
    {
      assert noLater(sorted[i], sorted[j]);
    }
  }

  lemma RanksAreOrdered()
    ensures forall r, s :: ClaimedNoLater(r, s) || ClaimedNoLater(s, r)
    ensures forall r, s, t :: ClaimedNoLater(r, s) && ClaimedNoLater(s, t) ==> ClaimedNoLater(r, t)
  {
    forall r, s ensures ClaimedNoLater(r, s) || ClaimedNoLater(s, r) {
      assert Level(r.priority) == Level(s.priority) ==> r.priority == s.priority;
    }
  }

  function IdsIn(tasks: seq<GraphTask>, goal: Option<GoalId>): (ids: seq<TaskId>)
    ensures forall id :: id in ids <==> exists t :: t in tasks && InGoal(t, goal) && t.id == id
  {
    if tasks == [] then []
    else
      var rest := IdsIn(tasks[1..], goal);
      assert forall t :: t in tasks <==> t == tasks[0] || t in tasks[1..];
      if InGoal(tasks[0], goal) then [tasks[0].id] + rest else rest
  }

  lemma LeaderStarts(tasks: seq<GraphTask>, goal: Option<GoalId>, counts: map<TaskId, nat>)
    requires forall id :: Count(counts, id) == Unblocks(tasks, id)
    ensures var start := Leader(IdsIn(tasks, goal), counts);
      if start.Some? then Starts(tasks, goal, start.value)
      else forall t :: t in tasks ==> !InGoal(t, goal)
  {
    var ids := IdsIn(tasks, goal);
    forall t | t in tasks && InGoal(t, goal) ensures t.id in ids {
    }
  }

  lemma LeaderFollows(tasks: seq<GraphTask>, counts: map<TaskId, nat>, id: TaskId)
    requires Acyclic(BlocksTable(tasks))
    requires forall a :: Count(counts, a) == Unblocks(tasks, a)
    ensures var step := Leader(Direct(BlocksTable(tasks), id), counts);
      if step.Some? then FollowedBy(tasks, id, step.value) && Unblocks(tasks, step.value) < Unblocks(tasks, id)
      else Direct(BlocksTable(tasks), id) == []
  {
    var step := Leader(Direct(BlocksTable(tasks), id), counts);
    if step.Some? {
      StepReaches(BlocksTable(tasks), id, step.value);
      WaitersFall(BlocksTable(tasks), id, step.value);
    }
  }

  /** What is already known of the critical chain when `step` is next. */
  ghost predicate ChainSoFar(tasks: seq<GraphTask>, goal: Option<GoalId>, critical: seq<TaskId>, step: Option<TaskId>) {
    match step
    case None => IsCriticalChain(tasks, goal, critical)
    case Some(id) =>
      && Starts(tasks, goal, (critical + [id])[0])
      && Unblocks(tasks, (critical + [id])[0]) > 0
      && Steps(tasks, critical + [id])
  }

  lemma ChainStepKept(tasks: seq<GraphTask>, goal: Option<GoalId>, critical: seq<TaskId>, id: TaskId,
                      step: Option<TaskId>)
    requires ChainSoFar(tasks, goal, critical, Some(id))
    requires if step.Some? then FollowedBy(tasks, id, step.value) else Direct(BlocksTable(tasks), id) == []
    ensures ChainSoFar(tasks, goal, critical + [id], step)
  {
    var chain := critical + [id];
    if step.Some? {
      var longer := chain + [step.value];
      forall i | 0 <= i < |longer| - 1 ensures FollowedBy(tasks, longer[i], longer[i + 1]) {
        assert i < |chain| - 1 ==> FollowedBy(tasks, chain[i], chain[i + 1]);
      }
    }
  }

  /** Follow the leading direct dependent from the leading task of the goal
      until a task blocks nothing. */
  method CriticalChain(tasks: seq<GraphTask>, goal: Option<GoalId>, blocks: Dependents,
                       counts: map<TaskId, nat>) returns (critical: seq<TaskId>)
    requires Acyclic(BlocksTable(tasks))
    requires forall a :: Direct(blocks, a) == Direct(BlocksTable(tasks), a)
    requires forall id :: Count(counts, id) == Unblocks(tasks, id)
    ensures IsCriticalChain(tasks, goal, critical)
  {
    critical := [];
    var step := Leader(IdsIn(tasks, goal), counts);
    LeaderStarts(tasks, goal, counts);
    if step.Some? && Count(counts, step.value) == 0 {
      step := None;
    }
    while step.Some?
      invariant ChainSoFar(tasks, goal, critical, step)
      decreases if step.Some? then Count(counts, step.value) + 1 else 0
    {
      var id := step.value;
      step := Leader(Direct(blocks, id), counts);
      LeaderFollows(tasks, counts, id);
      ChainStepKept(tasks, goal, critical, id, step);
      critical := critical + [id];
    }
  }

  /** What a task still waits for: its open direct predecessors, then its
      goals not closed as achieved. */
  function ReadyAfter(tasks: seq<GraphTask>, task: GraphTask): seq<WaitFor> {
    OpenPredecessors(tasks, task.dependsOn) + UnmetGoals(task.goalDependencies)
  }

  function OpenPredecessors(tasks: seq<GraphTask>, ids: seq<TaskId>): seq<WaitFor> {
    if ids == [] then []
    else (if IsOpen(tasks, ids[0]) then [Task(ids[0])] else []) + OpenPredecessors(tasks, ids[1..])
  }

  function UnmetGoals(goals: seq<GoalDependency>): seq<WaitFor> {
    if goals == [] then []
    else (if goals[0].IsMet() then [] else [Goal(goals[0].goalId)]) + UnmetGoals(goals[1..])
  }

  ghost predicate IsNodeOf(tasks: seq<GraphTask>, task: GraphTask, node: GraphNode) {
    && node.task == task
    && node.effectivePriority == Effective(tasks, task.id)
    && Ascending(node.blocks)
    && (forall b :: b in node.blocks <==> Blocks(tasks, task.id, b))
    && node.unblocks == Unblocks(tasks, task.id)
    && node.readyAfter == ReadyAfter(tasks, task)
  }

  function TasksIn(tasks: seq<GraphTask>, goal: Option<GoalId>): seq<GraphTask> {
    if tasks == [] then []
    else (if InGoal(tasks[0], goal) then [tasks[0]] else []) + TasksIn(tasks[1..], goal)
  }

  function CandidatesIn(tasks: seq<GraphTask>, candidates: seq<TaskId>, goal: Option<GoalId>): seq<TaskId> {
    if candidates == [] then []
    else (if goal.None? || candidates[0] in IdsIn(tasks, goal) then [candidates[0]] else [])
         + CandidatesIn(tasks, candidates[1..], goal)
  }

  lemma {:induction false} TasksInAreTasks(tasks: seq<GraphTask>, goal: Option<GoalId>)
    ensures forall t :: t in TasksIn(tasks, goal) <==> t in tasks && InGoal(t, goal)
  {
    if tasks != [] {
      TasksInAreTasks(tasks[1..], goal);
      assert forall t :: t in tasks <==> t == tasks[0] || t in tasks[1..];
    }
  }

  lemma NodeHolds(tasks: seq<GraphTask>, node: GraphNode)
    requires InIdOrder(tasks) && node.task in tasks
    requires node.effectivePriority == Effective(tasks, node.task.id)
    requires node.blocks == Direct(BlocksTable(tasks), node.task.id)
    requires node.unblocks == Unblocks(tasks, node.task.id)
    requires node.readyAfter == ReadyAfter(tasks, node.task)
    ensures IsNodeOf(tasks, node.task, node)
  {
    BlocksTableHolds(tasks);
    BlockedAscends(tasks, tasks, node.task.id);
  }

  /** The node of `task` from the tables the passes filled. */
  function NodeBy(tasks: seq<GraphTask>, task: GraphTask, blocks: Dependents, counts: map<TaskId, nat>,
                  effective: map<TaskId, Priority>): GraphNode {
    GraphNode(task, RankBy(counts, effective, task.id).priority, Direct(blocks, task.id),
              Count(counts, task.id), ReadyAfter(tasks, task))
  }

  /** The tables hold what they should for every open task. */
  ghost predicate TablesHold(tasks: seq<GraphTask>, blocks: Dependents, counts: map<TaskId, nat>,
                             effective: map<TaskId, Priority>) {
    forall id :: IsOpen(tasks, id) ==>
      && Direct(blocks, id) == Direct(BlocksTable(tasks), id)
      && RankBy(counts, effective, id) == RankOf(tasks, id)
  }

  lemma NodeByHolds(tasks: seq<GraphTask>, task: GraphTask, blocks: Dependents, counts: map<TaskId, nat>,
                    effective: map<TaskId, Priority>)
    requires InIdOrder(tasks) && task in tasks && TablesHold(tasks, blocks, counts, effective)
    ensures IsNodeOf(tasks, task, NodeBy(tasks, task, blocks, counts, effective))
  {
    assert IsOpen(tasks, task.id);
    NodeHolds(tasks, NodeBy(tasks, task, blocks, counts, effective));
  }

  /** Counts span every unfinished task; the goal only narrows the tasks, the
      candidates and where the critical chain starts. */
  method DependencyGraphOf(input: GraphInput, goal: Option<GoalId>) returns (g: DependencyGraph)
    requires InIdOrder(input.tasks) && Acyclic(BlocksTable(input.tasks))
    ensures IsView(input, goal, g)
    ensures forall id ::
      multiset(g.candidates)[id] ==
        if goal.None? || exists t :: t in input.tasks && t.goalId == goal && t.id == id
        then multiset(input.candidates)[id] else 0
  {
    var tasks := input.tasks;
    var blocks := BuildBlocks(tasks);
    var counts, effective := Reach(tasks, blocks);
    CountsEverywhere(tasks, counts, effective);
    var candidates := SortedCandidates(tasks, CandidatesIn(tasks, input.candidates, goal), counts, effective);
    var critical := CriticalChain(tasks, goal, blocks, counts);
    var chosen := TasksIn(tasks, goal);
    var nodes := seq(|chosen|, i requires 0 <= i < |chosen| => NodeBy(tasks, chosen[i], blocks, counts, effective));
    TasksInAreTasks(tasks, goal);
    forall i | 0 <= i < |chosen| ensures IsNodeOf(tasks, chosen[i], nodes[i]) {
      NodeByHolds(tasks, chosen[i], blocks, counts, effective);
    }
    g := DependencyGraph(nodes, candidates, critical);
    CandidatesCounted(tasks, input.candidates, goal);
  }

  /** The view of the queue, narrowed to a goal. */
  ghost predicate IsView(input: GraphInput, goal: Option<GoalId>, g: DependencyGraph) {
    && |g.tasks| == |TasksIn(input.tasks, goal)|
    && (forall i :: 0 <= i < |g.tasks| ==> IsNodeOf(input.tasks, TasksIn(input.tasks, goal)[i], g.tasks[i]))
    && multiset(g.candidates) == multiset(CandidatesIn(input.tasks, input.candidates, goal))
    && InClaimOrder(input.tasks, g.candidates)
    && IsCriticalChain(input.tasks, goal, g.critical)
  }

  /** Without a goal every candidate is kept, as often as it is there; with one,
      exactly those that are tasks of the goal. */
  lemma {:induction false} CandidatesCounted(tasks: seq<GraphTask>, candidates: seq<TaskId>, goal: Option<GoalId>)
    ensures forall id ::
      multiset(CandidatesIn(tasks, candidates, goal))[id] ==
        if goal.None? || exists t :: t in tasks && t.goalId == goal && t.id == id then multiset(candidates)[id] else 0
  {
    if candidates != [] {
      CandidatesCounted(tasks, candidates[1..], goal);
      assert candidates == [candidates[0]] + candidates[1..];
    }
  }

  lemma EarlierIsNoLater(tasks: seq<GraphTask>, ids: seq<TaskId>, j: nat, i: nat)
    requires InClaimOrder(tasks, ids) && j <= i < |ids|
    ensures ClaimedNoLater(RankOf(tasks, ids[j]), RankOf(tasks, ids[i]))
  {
  }

  /** A candidate that blocks another ready candidate outside a draft goal
      comes before it in the printed order. */
  lemma CandidatesFollowTheGraph(tasks: seq<GraphTask>, ids: seq<TaskId>, i: nat, j: nat,
                                 a: GraphTask, b: GraphTask)
    requires InIdOrder(tasks) && Acyclic(BlocksTable(tasks)) && InClaimOrder(tasks, ids)
    requires i < |ids| && j < |ids| && ids[i] == a.id && ids[j] == b.id
    requires a in tasks && b in tasks && BlocksTransitively(tasks, a.id, b.id) && Lifts(b)
    ensures i < j
  {
    ClaimOrderIsTopological(tasks, a, b);
    if j <= i {
      EarlierIsNoLater(tasks, ids, j, i);
    }
  }

  /** What a task still waits for empties exactly when every direct
      predecessor is finished and every goal it depends on is closed as
      achieved. */
  lemma {:induction false} ReadyAfterIsEmpty(tasks: seq<GraphTask>, task: GraphTask)
    ensures ReadyAfter(tasks, task) == [] <==>
      (forall p :: p in task.dependsOn ==> !IsOpen(tasks, p)) &&
      (forall d :: d in task.goalDependencies ==> d.IsMet())
  {
    OpenPredecessorsEmpty(tasks, task.dependsOn);
    UnmetGoalsEmpty(task.goalDependencies);
  }

  lemma {:induction false} OpenPredecessorsEmpty(tasks: seq<GraphTask>, ids: seq<TaskId>)
    ensures OpenPredecessors(tasks, ids) == [] <==> forall p :: p in ids ==> !IsOpen(tasks, p)
  {
    if ids != [] {
      OpenPredecessorsEmpty(tasks, ids[1..]);
      assert forall p :: p in ids <==> p == ids[0] || p in ids[1..];
    }
  }

  lemma {:induction false} UnmetGoalsEmpty(goals: seq<GoalDependency>)
    ensures UnmetGoals(goals) == [] <==> forall d :: d in goals ==> d.IsMet()
  {
    if goals != [] {
      UnmetGoalsEmpty(goals[1..]);
      assert forall d :: d in goals <==> d == goals[0] || d in goals[1..];
    }
  }
}
