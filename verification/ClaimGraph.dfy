/** Which unfinished task blocks which, as the loops build the relation. */
module ClaimGraph {
  import opened Outcomes
  import opened Reachability
  import Sorting

  type TaskId = int
  type GoalId = int

  datatype Priority = Low | Normal | High | Urgent | Interrupt

  datatype TaskStatus = Draft | Submitted | Ready | InProgress | Completed | Canceled

  datatype GoalStatus = DraftGoal | OpenGoal

  datatype GoalVerdict = Achieved | Abandoned

  /** A goal a task depends on, and how it was closed if it was. */
  datatype GoalDependency = GoalDependency(goalId: GoalId, verdict: Option<GoalVerdict>) {
    predicate IsMet() {
      verdict == Some(Achieved)
    }
  }

  datatype GraphTask = GraphTask(
    id: TaskId,
    status: TaskStatus,
    priority: Priority,
    goalId: Option<GoalId>,
    goalStatus: Option<GoalStatus>,
    dependsOn: seq<TaskId>,
    goalDependencies: seq<GoalDependency>)

  datatype WaitFor = Task(id: TaskId) | Goal(goal: GoalId)

  datatype GraphNode = GraphNode(
    task: GraphTask,
    effectivePriority: Priority,
    blocks: seq<TaskId>,
    unblocks: nat,
    readyAfter: seq<WaitFor>)

  datatype DependencyGraph = DependencyGraph(
    tasks: seq<GraphNode>,
    candidates: seq<TaskId>,
    critical: seq<TaskId>)

  // ----- The input and the relation `blocks` -----

  /** The unfinished tasks come in ID order. */
  ghost predicate InIdOrder(tasks: seq<GraphTask>) {
    forall i, j :: 0 <= i < j < |tasks| ==> tasks[i].id < tasks[j].id
  }

  predicate IsOpen(tasks: seq<GraphTask>, id: TaskId) {
    exists t :: t in tasks && t.id == id
  }

  predicate IsMember(tasks: seq<GraphTask>, goal: GoalId, id: TaskId) {
    exists t :: t in tasks && t.goalId == Some(goal) && t.id == id
  }

  /** `t` waits for the open task `a`: `a` is a direct predecessor, or an
      unfinished member of a goal `t` depends on that is not closed. */
  predicate WaitsFor(tasks: seq<GraphTask>, t: GraphTask, a: TaskId) {
    || (a in t.dependsOn && IsOpen(tasks, a))
    || exists d :: d in t.goalDependencies && d.verdict.None? && IsMember(tasks, d.goalId, a)
  }

  /** The tasks among `some` that wait for `a`, in their order. */
  ghost function Blocked(tasks: seq<GraphTask>, some: seq<GraphTask>, a: TaskId): (ids: seq<TaskId>)
    ensures forall b :: b in ids <==> exists t :: t in some && t.id == b && WaitsFor(tasks, t, a)
  {
    if some == [] then []
    else
      var rest := Blocked(tasks, some[1..], a);
      assert forall t :: t in some <==> t == some[0] || t in some[1..];
      if WaitsFor(tasks, some[0], a) then [some[0].id] + rest else rest
  }

  /** The relation `blocks` as a table: each open task with the tasks that
      wait for it. */
  ghost function BlocksTable(tasks: seq<GraphTask>): Dependents {
    map t | t in tasks :: t.id := Blocked(tasks, tasks, t.id)
  }

  ghost predicate Blocks(tasks: seq<GraphTask>, a: TaskId, b: TaskId) {
    exists t :: t in tasks && t.id == b && WaitsFor(tasks, t, a)
  }

  lemma BlocksTableHolds(tasks: seq<GraphTask>)
    ensures forall a, b :: b in Direct(BlocksTable(tasks), a) <==> Blocks(tasks, a, b)
  {
    var table := BlocksTable(tasks);
    forall a, b
      ensures b in Direct(table, a) <==> Blocks(tasks, a, b)
    {
      if Blocks(tasks, a, b) {
        assert IsOpen(tasks, a);
        var t :| t in tasks && t.id == a;
        assert t.id in table;
      }
    }
  }

  // ----- Strictly ascending lists -----

  ghost predicate Ascending(s: seq<int>) {
    forall i, j :: 0 <= i < j < |s| ==> s[i] < s[j]
  }

  predicate AtMostInt(x: int, y: int) {
    x <= y
  }

  lemma AscendingPrepended(x: int, s: seq<int>)
    requires Ascending(s) && forall y :: y in s ==> x < y
    ensures Ascending([x] + s)
  {
    forall i, j | 0 <= i < j < |[x] + s| ensures ([x] + s)[i] < ([x] + s)[j] {
      assert s[j - 1] in s;
    }
  }

  /** A strictly ascending list is determined by its elements. */
  lemma {:induction false} AscendingIsUnique(s: seq<int>, t: seq<int>)
    requires Ascending(s) && Ascending(t)
    requires forall x :: x in s <==> x in t
    ensures s == t
  {
    assert s != [] ==> var x := s[0]; x in s && x in t;
    assert t != [] ==> var x := t[0]; x in t && x in s;
    if s != [] {
      assert s[0] in t && t != [] && t[0] in s;
      assert s[0] == t[0];
      forall x ensures x in s[1..] <==> x in t[1..] {
        assert x in s[1..] ==> x in s && x != s[0];
        assert x in t[1..] ==> x in t && x != t[0];
      }
      AscendingIsUnique(s[1..], t[1..]);
    }
  }

  /** The list without an element equal to the one before it. */
  function Dedup(s: seq<int>): seq<int> {
    if |s| < 2 then s
    else if s[0] == s[1] then Dedup(s[1..])
    else [s[0]] + Dedup(s[1..])
  }

  lemma {:induction false} DedupAscends(s: seq<int>)
    requires Sorting.Ordered(s, AtMostInt)
    ensures Ascending(Dedup(s))
    ensures forall x :: x in Dedup(s) <==> x in s
  {
    if |s| >= 2 {
      assert AtMostInt(s[0], s[1]);
      DedupAscends(s[1..]);
      assert forall x :: x in s <==> x == s[0] || x in s[1..];
      if s[0] == s[1] {
        assert s[1..][0] == s[0];
      } else {
        forall x | x in s[1..] ensures s[0] < x {
          var k :| 0 <= k < |s[1..]| && s[1..][k] == x;
          assert s[k + 1] == x;
          assert k > 0 ==> AtMostInt(s[1], s[k + 1]);
        }
        AscendingPrepended(s[0], Dedup(s[1..]));
      }
    }
  }

  lemma {:induction false} BlockedAscends(tasks: seq<GraphTask>, some: seq<GraphTask>, a: TaskId)
    requires InIdOrder(some)
    ensures Ascending(Blocked(tasks, some, a))
  {
    if some != [] {
      BlockedAscends(tasks, some[1..], a);
      var rest := Blocked(tasks, some[1..], a);
      forall b | b in rest ensures some[0].id < b {
        var t :| t in some[1..] && t.id == b;
      }
      AscendingPrepended(some[0].id, rest);
    }
  }

  // ----- Building the table -----

  function Pushed(blocks: Dependents, predecessor: TaskId, id: TaskId): (r: Dependents)
    ensures forall a, b :: b in Direct(r, a) <==> b in Direct(blocks, a) || (a == predecessor && b == id)
  {
    blocks[predecessor := Direct(blocks, predecessor) + [id]]
  }

  /** The goals' unfinished members, as the first loop collects them. */
  method GoalMembers(tasks: seq<GraphTask>) returns (members: map<GoalId, seq<TaskId>>)
    ensures forall g, id :: id in Direct(members, g) <==> IsMember(tasks, g, id)
  {
    members := map[];
    for i := 0 to |tasks|
      invariant forall g, id :: id in Direct(members, g) <==> IsMember(tasks[..i], g, id)
    {
      assert tasks[..i + 1] == tasks[..i] + [tasks[i]];
      if tasks[i].goalId.Some? {
        members := Pushed(members, tasks[i].goalId.value, tasks[i].id);
      }
      assert forall t :: t in tasks[..i + 1] <==> t in tasks[..i] || t == tasks[i];
      forall g, id
        ensures IsMember(tasks[..i + 1], g, id) <==>
          IsMember(tasks[..i], g, id) || (tasks[i].goalId == Some(g) && tasks[i].id == id)
      {
        if IsMember(tasks[..i], g, id) {
          var t :| t in tasks[..i] && t.goalId == Some(g) && t.id == id;
          assert t in tasks[..i + 1];
        }
        if IsMember(tasks[..i + 1], g, id) {
          var t :| t in tasks[..i + 1] && t.goalId == Some(g) && t.id == id;
          assert t in tasks[..i] || t == tasks[i];
        }
      }
    }
    assert tasks[..|tasks|] == tasks;
  }

  /** Push one task under each task it waits for: its open direct
      predecessors, then the members of each goal not closed. */
  method PushUnderPredecessors(tasks: seq<GraphTask>, task: GraphTask,
                               members: map<GoalId, seq<TaskId>>, before: Dependents)
    returns (blocks: Dependents)
    requires forall g, id :: id in Direct(members, g) <==> IsMember(tasks, g, id)
    ensures forall a, b :: b in Direct(blocks, a) <==>
      b in Direct(before, a) || (b == task.id && WaitsFor(tasks, task, a))
  {
    blocks := before;
    for k := 0 to |task.dependsOn|
      invariant forall a, b :: b in Direct(blocks, a) <==>
        b in Direct(before, a) || (b == task.id && a in task.dependsOn[..k] && IsOpen(tasks, a))
    {
      assert task.dependsOn[..k + 1] == task.dependsOn[..k] + [task.dependsOn[k]];
      if IsOpen(tasks, task.dependsOn[k]) {
        blocks := Pushed(blocks, task.dependsOn[k], task.id);
      }
    }
    assert task.dependsOn[..|task.dependsOn|] == task.dependsOn;
    var goals := task.goalDependencies;
    for k := 0 to |goals|
      invariant forall a, b :: b in Direct(blocks, a) <==>
        || b in Direct(before, a)
        || (b == task.id && a in task.dependsOn && IsOpen(tasks, a))
        || (b == task.id && ThroughGoal(tasks, goals[..k], a))
    {
      assert goals[..k + 1] == goals[..k] + [goals[k]];
      var waiting := blocks;
      if goals[k].verdict.None? {
        blocks := PushUnderMembers(Direct(members, goals[k].goalId), task.id, blocks);
      }
      assert forall a :: ThroughGoal(tasks, goals[..k + 1], a) <==>
        ThroughGoal(tasks, goals[..k], a) || (goals[k].verdict.None? && IsMember(tasks, goals[k].goalId, a));
    }
    assert goals[..|goals|] == goals;
  }

  predicate ThroughGoal(tasks: seq<GraphTask>, goals: seq<GoalDependency>, a: TaskId) {
    exists d :: d in goals && d.verdict.None? && IsMember(tasks, d.goalId, a)
  }

  method PushUnderMembers(members: seq<TaskId>, id: TaskId, before: Dependents) returns (blocks: Dependents)
    ensures forall a, b :: b in Direct(blocks, a) <==> b in Direct(before, a) || (b == id && a in members)
  {
    blocks := before;
    for k := 0 to |members|
      invariant forall a, b :: b in Direct(blocks, a) <==>
        b in Direct(before, a) || (b == id && a in members[..k])
    {
      assert members[..k + 1] == members[..k] + [members[k]];
      blocks := Pushed(blocks, members[k], id);
    }
    assert members[..|members|] == members;
  }

  function Tidied(blocks: Dependents): Dependents {
    map a | a in blocks :: Dedup(Sorting.Sort(blocks[a], AtMostInt))
  }

  lemma TidiedKeeps(blocks: Dependents)
    ensures forall a :: Ascending(Direct(Tidied(blocks), a))
    ensures forall a, b :: b in Direct(Tidied(blocks), a) <==> b in Direct(blocks, a)
  {
    forall a | a in blocks
      ensures Ascending(Tidied(blocks)[a])
      ensures forall b :: b in Tidied(blocks)[a] <==> b in blocks[a]
    {
      assert Sorting.TotalPreorder(AtMostInt);
      Sorting.SortSorts(blocks[a], AtMostInt);
      Sorting.SortKeepsElements(blocks[a], AtMostInt);
      DedupAscends(Sorting.Sort(blocks[a], AtMostInt));
    }
  }

  /** The table the loops fill and then sort and dedup is the relation
      `blocks`, each list ascending. */
  method BuildBlocks(tasks: seq<GraphTask>) returns (blocks: Dependents)
    requires InIdOrder(tasks)
    ensures forall a :: Direct(blocks, a) == Direct(BlocksTable(tasks), a)
  {
    var members := GoalMembers(tasks);
    blocks := map[];
    for i := 0 to |tasks|
      invariant forall a, b :: b in Direct(blocks, a) <==>
        exists t :: t in tasks[..i] && t.id == b && WaitsFor(tasks, t, a)
    {
      assert tasks[..i + 1] == tasks[..i] + [tasks[i]];
      blocks := PushUnderPredecessors(tasks, tasks[i], members, blocks);
    }
    assert tasks[..|tasks|] == tasks;
    TidiedKeeps(blocks);
    var tidied := Tidied(blocks);
    BlocksTableHolds(tasks);
    forall a ensures Direct(tidied, a) == Direct(BlocksTable(tasks), a) {
      BlockedAscends(tasks, tasks, a);
      AscendingIsUnique(Direct(tidied, a), Direct(BlocksTable(tasks), a));
    }
    blocks := tidied;
  }
}
