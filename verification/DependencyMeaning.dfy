/** What a dependency view says, in the terms of its input alone. */
module DependencyMeaning {
  import opened Outcomes
  import opened Reachability
  import opened ClaimGraph
  import opened ClaimOrder
  import opened DependencyView

  /** A view shows each task once, in ID order: all of them, or the goal's. */
  lemma ViewTasks(input: GraphInput, goal: Option<GoalId>, g: DependencyGraph)
    requires InIdOrder(input.tasks) && IsView(input, goal, g)
    ensures forall t :: Shows(g.tasks, t) <==> t in input.tasks && (goal.None? || t.goalId == goal)
    ensures forall i, j :: 0 <= i < j < |g.tasks| ==> g.tasks[i].task.id < g.tasks[j].task.id
  {
    var chosen := TasksIn(input.tasks, goal);
    TasksInAreTasks(input.tasks, goal);
    TasksInOrder(input.tasks, goal);
    ViewNodes(input, goal, g);
    ShownTasks(g.tasks, chosen);
  }

  /** Some row shows `t`. */
  ghost predicate Shows(nodes: seq<GraphNode>, t: GraphTask) {
    exists i :: 0 <= i < |nodes| && nodes[i].task == t
  }

  lemma ViewNodes(input: GraphInput, goal: Option<GoalId>, g: DependencyGraph)
    requires IsView(input, goal, g)
    ensures |g.tasks| == |TasksIn(input.tasks, goal)|
    ensures forall i :: 0 <= i < |g.tasks| ==> g.tasks[i].task == TasksIn(input.tasks, goal)[i]
  {
    forall i | 0 <= i < |g.tasks| ensures g.tasks[i].task == TasksIn(input.tasks, goal)[i] {
      assert IsNodeOf(input.tasks, TasksIn(input.tasks, goal)[i], g.tasks[i]);
    }
  }

  lemma ShownTasks(nodes: seq<GraphNode>, chosen: seq<GraphTask>)
    requires |nodes| == |chosen| && forall i :: 0 <= i < |nodes| ==> nodes[i].task == chosen[i]
    requires InIdOrder(chosen)
    ensures forall t :: Shows(nodes, t) <==> t in chosen
    ensures forall i, j :: 0 <= i < j < |nodes| ==> nodes[i].task.id < nodes[j].task.id
  {
    forall t | t in chosen ensures Shows(nodes, t) {
      var i :| 0 <= i < |chosen| && chosen[i] == t;
      assert nodes[i].task == t;
    }
  }

  lemma {:induction false} TasksInOrder(tasks: seq<GraphTask>, goal: Option<GoalId>)
    requires InIdOrder(tasks)
    ensures InIdOrder(TasksIn(tasks, goal))
  {
    if tasks != [] {
      TasksInOrder(tasks[1..], goal);
      TasksInAreTasks(tasks[1..], goal);
      var rest := TasksIn(tasks[1..], goal);
      forall j | 0 <= j < |rest| ensures tasks[0].id < rest[j].id {
        assert rest[j] in rest;
      }
    }
  }

  /** The candidates come by the highest inherited priority, then the most tasks
      released, then the lowest ID. */
  lemma ViewOrder(input: GraphInput, goal: Option<GoalId>, g: DependencyGraph, i: nat, j: nat)
    requires IsView(input, goal, g) && i < j < |g.candidates|
    ensures var (a, b) := (g.candidates[i], g.candidates[j]);
      var (p, q) := (Level(Effective(input.tasks, a)), Level(Effective(input.tasks, b)));
      var (m, n) := (Unblocks(input.tasks, a), Unblocks(input.tasks, b));
      p > q || (p == q && (m > n || (m == n && a <= b)))
  {
    assert ClaimedNoLater(RankOf(input.tasks, g.candidates[i]), RankOf(input.tasks, g.candidates[j]));
  }

  lemma PrioritiesAscend()
    ensures Level(Low) < Level(Normal) < Level(High) < Level(Urgent) < Level(Interrupt)
  {
  }

  /** A task blocks those it is a direct predecessor of, and those that depend
      on a goal of its that is not closed. */
  lemma ViewBlocks(tasks: seq<GraphTask>, node: GraphNode)
    requires node.task in tasks && IsNodeOf(tasks, node.task, node)
    ensures forall b :: b in node.blocks <==>
      exists t :: t in tasks && t.id == b &&
        (node.task.id in t.dependsOn ||
         exists d :: d in t.goalDependencies && d.verdict == None &&
           exists u :: u in tasks && u.id == node.task.id && u.goalId == Some(d.goalId))
    ensures forall i, j :: 0 <= i < j < |node.blocks| ==> node.blocks[i] < node.blocks[j]
  {
    var a := node.task.id;
    forall t ensures WaitsFor(tasks, t, a) <==>
      (a in t.dependsOn ||
       exists d :: d in t.goalDependencies && d.verdict == None &&
         exists u :: u in tasks && u.id == a && u.goalId == Some(d.goalId))
    {
    }
  }

  /** The priority shown is the highest of the task's own and those of the ready
      tasks outside draft goals that wait for it, directly or not; the count is
      that of all that wait. */
  lemma ViewPriority(tasks: seq<GraphTask>, node: GraphNode)
    requires InIdOrder(tasks) && node.task in tasks && IsNodeOf(tasks, node.task, node)
    ensures node.unblocks == |Waiters(BlocksTable(tasks), node.task.id)|
    ensures Level(node.task.priority) <= Level(node.effectivePriority)
    ensures forall w ::
      (w in tasks && Reaches(BlocksTable(tasks), node.task.id, w.id) &&
       w.status == Ready && w.goalStatus != Some(DraftGoal)) ==>
        Level(w.priority) <= Level(node.effectivePriority)
    ensures node.effectivePriority == node.task.priority ||
      exists w :: w in tasks && Reaches(BlocksTable(tasks), node.task.id, w.id) &&
        w.status == Ready && w.goalStatus != Some(DraftGoal) && w.priority == node.effectivePriority
  {
    EffectiveOverWaiters(tasks, node.task);
  }

  /** What a task still waits for: exactly its open direct predecessors, then
      its goals not closed as achieved, in their order. */
  lemma ViewReadyAfter(tasks: seq<GraphTask>, node: GraphNode)
    requires IsNodeOf(tasks, node.task, node)
    ensures forall id :: Task(id) in node.readyAfter <==>
      id in node.task.dependsOn && exists t :: t in tasks && t.id == id
    ensures forall goal :: Goal(goal) in node.readyAfter <==>
      exists d :: d in node.task.goalDependencies && d.goalId == goal && d.verdict != Some(Achieved)
  {
    OpenAre(tasks, node.task.dependsOn);
    UnmetAre(node.task.goalDependencies);
  }

  /** Tasks before goals, each ascending as the input's are. */
  ghost predicate WaitsInOrder(waits: seq<WaitFor>) {
    forall i, j :: 0 <= i < j < |waits| ==>
      match waits[i]
      case Task(id) => waits[j].Task? ==> id < waits[j].id
      case Goal(goal) => waits[j].Goal? && goal < waits[j].goal
  }

  lemma ViewReadyAfterOrder(tasks: seq<GraphTask>, node: GraphNode)
    requires IsNodeOf(tasks, node.task, node)
    requires Ascending(node.task.dependsOn) && GoalsAscend(node.task.goalDependencies)
    ensures WaitsInOrder(node.readyAfter)
  {
    OpenAre(tasks, node.task.dependsOn);
    UnmetAre(node.task.goalDependencies);
    TasksThenGoals(OpenPredecessors(tasks, node.task.dependsOn), UnmetGoals(node.task.goalDependencies));
  }

  ghost predicate TasksOnly(waits: seq<WaitFor>) {
    forall i :: 0 <= i < |waits| ==> waits[i].Task?
  }

  ghost predicate GoalsOnly(waits: seq<WaitFor>) {
    forall i :: 0 <= i < |waits| ==> waits[i].Goal?
  }

  ghost predicate TasksAscend(waits: seq<WaitFor>)
    requires TasksOnly(waits)
  {
    forall i, j :: 0 <= i < j < |waits| ==> waits[i].id < waits[j].id
  }

  ghost predicate WaitedGoalsAscend(waits: seq<WaitFor>)
    requires GoalsOnly(waits)
  {
    forall i, j :: 0 <= i < j < |waits| ==> waits[i].goal < waits[j].goal
  }

  lemma TasksThenGoals(a: seq<WaitFor>, b: seq<WaitFor>)
    requires TasksOnly(a) && TasksAscend(a) && GoalsOnly(b) && WaitedGoalsAscend(b)
    ensures WaitsInOrder(a + b)
  {
  }

  ghost predicate GoalsAscend(goals: seq<GoalDependency>) {
    forall i, j :: 0 <= i < j < |goals| ==> goals[i].goalId < goals[j].goalId
  }

  lemma {:induction false} OpenAre(tasks: seq<GraphTask>, ids: seq<TaskId>)
    ensures var r := OpenPredecessors(tasks, ids);
      && TasksOnly(r)
      && (forall id :: Task(id) in r <==> id in ids && exists t :: t in tasks && t.id == id)
      && (Ascending(ids) ==> TasksAscend(r))
  {
    if ids != [] {
      OpenAre(tasks, ids[1..]);
      assert forall id :: id in ids <==> id == ids[0] || id in ids[1..];
      var rest := OpenPredecessors(tasks, ids[1..]);
      if Ascending(ids) {
        forall j | 0 <= j < |rest| ensures ids[0] < rest[j].id {
          assert rest[j] in rest && rest[j] == Task(rest[j].id);
        }
      }
    }
  }

  lemma {:induction false} UnmetAre(goals: seq<GoalDependency>)
    ensures var r := UnmetGoals(goals);
      && GoalsOnly(r)
      && (forall goal :: Goal(goal) in r <==>
            exists d :: d in goals && d.goalId == goal && d.verdict != Some(Achieved))
      && (GoalsAscend(goals) ==> WaitedGoalsAscend(r))
  {
    if goals != [] {
      UnmetAre(goals[1..]);
      assert forall d :: d in goals <==> d == goals[0] || d in goals[1..];
      var rest := UnmetGoals(goals[1..]);
      if GoalsAscend(goals) {
        forall j | 0 <= j < |rest| ensures goals[0].goalId < rest[j].goal {
          assert rest[j] in rest && rest[j] == Goal(rest[j].goal);
        }
      }
    }
  }

  /** The critical chain starts at the task of the goal that releases most, goes
      on to the directly blocked task that releases most, lowest ID on a tie,
      and ends at a task that blocks nothing; it is empty exactly when no task
      of the goal releases any. */
  lemma ViewChain(input: GraphInput, goal: Option<GoalId>, g: DependencyGraph)
    requires Acyclic(BlocksTable(input.tasks)) && IsView(input, goal, g)
    ensures g.critical == [] <==>
      forall t :: t in input.tasks && (goal.None? || t.goalId == goal) ==> Unblocks(input.tasks, t.id) == 0
    ensures g.critical != [] ==>
      && (exists t :: t in input.tasks && (goal.None? || t.goalId == goal) && t.id == g.critical[0])
      && (forall t :: t in input.tasks && (goal.None? || t.goalId == goal) ==>
            ReleasesMore(input.tasks, g.critical[0], t.id))
      && BlocksNothing(input.tasks, g.critical[|g.critical| - 1])
    ensures forall i :: 0 <= i < |g.critical| - 1 ==>
      && Blocks(input.tasks, g.critical[i], g.critical[i + 1])
      && forall c :: Blocks(input.tasks, g.critical[i], c) ==> ReleasesMore(input.tasks, g.critical[i + 1], c)
  {
    BlocksTableHolds(input.tasks);
    forall i | 0 <= i < |g.critical| - 1
      ensures Blocks(input.tasks, g.critical[i], g.critical[i + 1])
      ensures forall c :: Blocks(input.tasks, g.critical[i], c) ==> ReleasesMore(input.tasks, g.critical[i + 1], c)
    {
      assert FollowedBy(input.tasks, g.critical[i], g.critical[i + 1]);
      forall c | Blocks(input.tasks, g.critical[i], c) ensures ReleasesMore(input.tasks, g.critical[i + 1], c) {
        assert LeadsIn(input.tasks, g.critical[i + 1], c);
      }
    }
    if g.critical != [] {
      forall t | t in input.tasks && (goal.None? || t.goalId == goal)
        ensures ReleasesMore(input.tasks, g.critical[0], t.id)
      {
        assert InGoal(t, goal) && LeadsIn(input.tasks, g.critical[0], t.id);
      }
    }
  }

  ghost predicate BlocksNothing(tasks: seq<GraphTask>, a: TaskId) {
    forall b :: !Blocks(tasks, a, b)
  }

  /** `a` has more waiters than `b`, or as many and no higher an ID. */
  ghost predicate ReleasesMore(tasks: seq<GraphTask>, a: TaskId, b: TaskId) {
    var (m, n) := (|Waiters(BlocksTable(tasks), a)|, |Waiters(BlocksTable(tasks), b)|);
    m > n || (m == n && a <= b)
  }
}
