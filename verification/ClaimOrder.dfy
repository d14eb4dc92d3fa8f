/** Effective priorities, the claim order and the critical chain, from the
    relation `blocks`. */
module ClaimOrder {
  import opened Outcomes
  import opened Reachability
  import opened ClaimGraph

  // ----- Effective priority -----

  function Level(p: Priority): nat {
    match p
    case Low => 0
    case Normal => 1
    case High => 2
    case Urgent => 3
    case Interrupt => 4
  }

  /** Only a ready task outside a draft goal passes its priority on. */
  predicate Lifts(t: GraphTask) {
    t.status == Ready && t.goalStatus != Some(DraftGoal)
  }

  function EffectivePriority(own: Priority, waiters: seq<GraphTask>): Priority
    decreases |waiters|
  {
    if waiters == [] then own
    else if Lifts(waiters[0]) && Level(own) < Level(waiters[0].priority) then
      EffectivePriority(waiters[0].priority, waiters[1..])
    else
      EffectivePriority(own, waiters[1..])
  }

  /** `p` is the highest of `own` and the priorities of the waiters that lift:
      none is above it, and one of them is it. */
  ghost predicate IsHighest(p: Priority, own: Priority, waiters: set<GraphTask>) {
    && Level(own) <= Level(p)
    && (forall w :: w in waiters && Lifts(w) ==> Level(w.priority) <= Level(p))
    && (p == own || exists w :: w in waiters && Lifts(w) && w.priority == p)
  }

  lemma {:induction false} EffectiveIsHighest(own: Priority, waiters: seq<GraphTask>)
    ensures IsHighest(EffectivePriority(own, waiters), own, set w | w in waiters)
    decreases |waiters|
  {
    if waiters != [] {
      var rest := waiters[1..];
      assert forall w :: w in waiters <==> w == waiters[0] || w in rest;
      EffectiveIsHighest(waiters[0].priority, rest);
      EffectiveIsHighest(own, rest);
    }
  }

  // ----- Counts, priorities and ranks of a queue -----

  ghost function WaitersOf(tasks: seq<GraphTask>, id: TaskId): set<TaskId> {
    Waiters(BlocksTable(tasks), id)
  }

  ghost function Unblocks(tasks: seq<GraphTask>, id: TaskId): nat {
    |WaitersOf(tasks, id)|
  }

  ghost predicate BlocksTransitively(tasks: seq<GraphTask>, a: TaskId, b: TaskId) {
    b in WaitersOf(tasks, a)
  }

  function Among(tasks: seq<GraphTask>, ids: set<TaskId>): (r: seq<GraphTask>)
    ensures forall t :: t in r <==> t in tasks && t.id in ids
  {
    if tasks == [] then []
    else
      var rest := Among(tasks[1..], ids);
      assert forall t :: t in tasks <==> t == tasks[0] || t in tasks[1..];
      if tasks[0].id in ids then [tasks[0]] + rest else rest
  }

  function Find(tasks: seq<GraphTask>, id: TaskId): (t: GraphTask)
    requires IsOpen(tasks, id)
    ensures t in tasks && t.id == id
  {
    assert tasks != [];
    if tasks[0].id == id then tasks[0]
    else
      assert forall t :: t in tasks <==> t == tasks[0] || t in tasks[1..];
      Find(tasks[1..], id)
  }

  /** The priority the claim order compares for `id`. */
  ghost function Effective(tasks: seq<GraphTask>, id: TaskId): Priority {
    if IsOpen(tasks, id)
    then EffectivePriority(Find(tasks, id).priority, Among(tasks, WaitersOf(tasks, id)))
    else Normal
  }

  datatype ClaimRank = ClaimRank(priority: Priority, unblocks: nat, id: TaskId)

  /** Highest effective priority first, then most released, then lowest ID. */
  predicate ClaimedBefore(r: ClaimRank, s: ClaimRank) {
    if r.priority != s.priority then Level(r.priority) > Level(s.priority)
    else if r.unblocks != s.unblocks then r.unblocks > s.unblocks
    else r.id < s.id
  }

  predicate ClaimedNoLater(r: ClaimRank, s: ClaimRank) {
    r == s || ClaimedBefore(r, s)
  }

  ghost function RankOf(tasks: seq<GraphTask>, id: TaskId): ClaimRank {
    ClaimRank(Effective(tasks, id), Unblocks(tasks, id), id)
  }

  lemma FindIsTask(tasks: seq<GraphTask>, t: GraphTask)
    requires InIdOrder(tasks) && t in tasks
    ensures IsOpen(tasks, t.id) && Find(tasks, t.id) == t
  {
    var f := Find(tasks, t.id);
    var i :| 0 <= i < |tasks| && tasks[i] == t;
    var j :| 0 <= j < |tasks| && tasks[j] == f;
    assert i == j;
  }

  /** The effective priority of a task over the tasks that wait for it. */
  lemma EffectiveOverWaiters(tasks: seq<GraphTask>, t: GraphTask)
    requires InIdOrder(tasks) && t in tasks
    ensures IsHighest(Effective(tasks, t.id), t.priority,
                      set w | w in tasks && BlocksTransitively(tasks, t.id, w.id))
  {
    FindIsTask(tasks, t);
    var waiters := Among(tasks, WaitersOf(tasks, t.id));
    EffectiveIsHighest(t.priority, waiters);
    assert (set w | w in waiters) == (set w | w in tasks && BlocksTransitively(tasks, t.id, w.id));
  }

  /** `a` is at least as urgent as `level` of its own, or through a ready task
      outside a draft goal that waits for it. */
  ghost predicate IsUrgent(tasks: seq<GraphTask>, a: GraphTask, level: nat) {
    || Level(a.priority) >= level
    || exists w :: w in tasks && BlocksTransitively(tasks, a.id, w.id) && Lifts(w) && Level(w.priority) >= level
  }

  lemma UrgentIsEffective(tasks: seq<GraphTask>, a: GraphTask, level: nat)
    requires InIdOrder(tasks) && a in tasks
    ensures IsUrgent(tasks, a, level) <==> Level(Effective(tasks, a.id)) >= level
  {
    EffectiveOverWaiters(tasks, a);
  }

  /** A task that blocks another is claimed before it exactly when its own
      priority, or that of a task that lifts it, is at least the other's
      own. */
  lemma ClaimOrderAgainstWaiter(tasks: seq<GraphTask>, a: GraphTask, b: GraphTask)
    requires InIdOrder(tasks) && Acyclic(BlocksTable(tasks))
    requires a in tasks && b in tasks && BlocksTransitively(tasks, a.id, b.id)
    ensures Unblocks(tasks, a.id) > Unblocks(tasks, b.id)
    ensures ClaimedBefore(RankOf(tasks, a.id), RankOf(tasks, b.id)) <==> IsUrgent(tasks, a, Level(b.priority))
  {
    UrgentIsEffective(tasks, a, Level(b.priority));
    UnblocksFall(tasks, a.id, b.id);
    InheritsWhatItsWaiterInherits(tasks, a, b);
    RankAgainstOwn(RankOf(tasks, a.id), RankOf(tasks, b.id), b.priority);
  }

  lemma UnblocksFall(tasks: seq<GraphTask>, a: TaskId, b: TaskId)
    requires Acyclic(BlocksTable(tasks)) && BlocksTransitively(tasks, a, b)
    ensures Unblocks(tasks, a) > Unblocks(tasks, b)
  {
    WaitersFall(BlocksTable(tasks), a, b);
  }

  lemma RankAgainstOwn(r: ClaimRank, s: ClaimRank, own: Priority)
    requires r.unblocks > s.unblocks && Level(own) <= Level(s.priority)
    requires s.priority == own || Level(s.priority) <= Level(r.priority)
    ensures ClaimedBefore(r, s) <==> Level(own) <= Level(r.priority)
  {
    assert Level(r.priority) == Level(s.priority) ==> r.priority == s.priority;
  }

  /** What lifts `b` above its own priority waits for `a` too. */
  lemma InheritsWhatItsWaiterInherits(tasks: seq<GraphTask>, a: GraphTask, b: GraphTask)
    requires InIdOrder(tasks) && a in tasks && b in tasks && BlocksTransitively(tasks, a.id, b.id)
    ensures Level(b.priority) <= Level(Effective(tasks, b.id))
    ensures Effective(tasks, b.id) == b.priority || Level(Effective(tasks, b.id)) <= Level(Effective(tasks, a.id))
  {
    EffectiveOverWaiters(tasks, a);
    EffectiveOverWaiters(tasks, b);
    var q := Effective(tasks, b.id);
    if q != b.priority {
      var w :| w in tasks && BlocksTransitively(tasks, b.id, w.id) && Lifts(w) && w.priority == q;
      ReachesThrough(BlocksTable(tasks), a.id, b.id, w.id);
      assert BlocksTransitively(tasks, a.id, w.id);
    }
  }

  /** The claim order is topological: a task that blocks a ready task outside
      a draft goal is at least as urgent, releases strictly more and is
      claimed strictly before it. */
  lemma ClaimOrderIsTopological(tasks: seq<GraphTask>, a: GraphTask, b: GraphTask)
    requires InIdOrder(tasks) && Acyclic(BlocksTable(tasks))
    requires a in tasks && b in tasks && BlocksTransitively(tasks, a.id, b.id) && Lifts(b)
    ensures Level(Effective(tasks, a.id)) >= Level(Effective(tasks, b.id))
    ensures Unblocks(tasks, a.id) > Unblocks(tasks, b.id)
    ensures ClaimedBefore(RankOf(tasks, a.id), RankOf(tasks, b.id))
  {
    EffectiveOverWaiters(tasks, a);
    ClaimOrderAgainstWaiter(tasks, a, b);
  }

  // ----- The critical chain -----

  /** `a` comes no later than `b` in the critical chain's order: most
      `unblocks` first, lowest ID on a tie. */
  predicate Leads(counts: map<TaskId, nat>, a: TaskId, b: TaskId) {
    var (m, n) := (Count(counts, a), Count(counts, b));
    m > n || (m == n && a <= b)
  }

  function Count(counts: map<TaskId, nat>, id: TaskId): nat {
    if id in counts then counts[id] else 0
  }

  /** The first of `ids` in that order, if there is any. */
  function Leader(ids: seq<TaskId>, counts: map<TaskId, nat>): (r: Option<TaskId>)
    ensures r.None? <==> ids == []
    ensures r.Some? ==> r.value in ids && forall b :: b in ids ==> Leads(counts, r.value, b)
  {
    if ids == [] then None
    else
      var rest := Leader(ids[1..], counts);
      assert forall b :: b in ids <==> b == ids[0] || b in ids[1..];
      if rest.Some? && Leads(counts, rest.value, ids[0]) then rest else Some(ids[0])
  }

  ghost predicate LeadsIn(tasks: seq<GraphTask>, a: TaskId, b: TaskId) {
    Unblocks(tasks, a) > Unblocks(tasks, b) || (Unblocks(tasks, a) == Unblocks(tasks, b) && a <= b)
  }

  predicate InGoal(t: GraphTask, goal: Option<GoalId>) {
    goal.None? || t.goalId == goal
  }

  /** The chain the queue is held up by: it starts at the task of the goal
      that leads, each step goes to the leading direct dependent, and it ends
      at a task that blocks nothing. It is empty when the leading task
      releases nothing. */
  ghost predicate IsCriticalChain(tasks: seq<GraphTask>, goal: Option<GoalId>, chain: seq<TaskId>) {
    if chain == [] then
      forall t :: t in tasks && InGoal(t, goal) ==> Unblocks(tasks, t.id) == 0
    else
      && Starts(tasks, goal, chain[0])
      && Unblocks(tasks, chain[0]) > 0
      && Steps(tasks, chain)
      && Direct(BlocksTable(tasks), chain[|chain| - 1]) == []
  }

  ghost predicate Starts(tasks: seq<GraphTask>, goal: Option<GoalId>, id: TaskId) {
    && (exists t :: t in tasks && InGoal(t, goal) && t.id == id)
    && forall t :: t in tasks && InGoal(t, goal) ==> LeadsIn(tasks, id, t.id)
  }

  ghost predicate FollowedBy(tasks: seq<GraphTask>, a: TaskId, b: TaskId) {
    && b in Direct(BlocksTable(tasks), a)
    && forall c :: c in Direct(BlocksTable(tasks), a) ==> LeadsIn(tasks, b, c)
  }

  ghost predicate Steps(tasks: seq<GraphTask>, chain: seq<TaskId>) {
    forall i :: 0 <= i < |chain| - 1 ==> FollowedBy(tasks, chain[i], chain[i + 1])
  }

  lemma NoDependentsNoWaiters(tasks: seq<GraphTask>, id: TaskId)
    ensures Unblocks(tasks, id) == 0 <==> Direct(BlocksTable(tasks), id) == []
  {
    var next := BlocksTable(tasks);
    if Direct(next, id) != [] {
      var b := Direct(next, id)[0];
      assert b in Direct(next, id);
      StepReaches(next, id, b);
      assert b in Waiters(next, id);
    } else {
      forall b ensures b !in Waiters(next, id) {
        if Reaches(next, id, b) {
          ReachesHasFirstStep(next, id, b);
        }
      }
      assert Waiters(next, id) == {};
    }
  }

  /** Along the chain the number of released tasks strictly falls, so it
      never comes back to a task, and it is a real path of at least two tasks
      unless it is empty. */
  lemma CriticalChainFalls(tasks: seq<GraphTask>, goal: Option<GoalId>, chain: seq<TaskId>)
    requires Acyclic(BlocksTable(tasks)) && IsCriticalChain(tasks, goal, chain)
    ensures chain == [] || |chain| >= 2
    ensures |chain| >= 2 ==> Path(BlocksTable(tasks), chain)
    ensures forall i, j :: 0 <= i < j < |chain| ==>
      Unblocks(tasks, chain[i]) > Unblocks(tasks, chain[j]) && chain[i] != chain[j]
  {
    if chain != [] {
      NoDependentsNoWaiters(tasks, chain[0]);
      forall i, j | 0 <= i < j < |chain|
        ensures Unblocks(tasks, chain[i]) > Unblocks(tasks, chain[j])
      {
        ChainFallsBetween(tasks, chain, i, j);
      }
    }
  }

  lemma {:induction false} ChainFallsBetween(tasks: seq<GraphTask>, chain: seq<TaskId>, i: nat, j: nat)
    requires Acyclic(BlocksTable(tasks)) && Steps(tasks, chain) && i < j < |chain|
    ensures Unblocks(tasks, chain[i]) > Unblocks(tasks, chain[j])
  {
    var k := j - 1;
    assert FollowedBy(tasks, chain[k], chain[k + 1]);
    StepReaches(BlocksTable(tasks), chain[k], chain[j]);
    WaitersFall(BlocksTable(tasks), chain[k], chain[j]);
    if i < k {
      ChainFallsBetween(tasks, chain, i, k);
    }
  }

  /** The input determines the chain. */
  lemma CriticalChainIsDetermined(tasks: seq<GraphTask>, goal: Option<GoalId>, c: seq<TaskId>, d: seq<TaskId>)
    requires IsCriticalChain(tasks, goal, c) && IsCriticalChain(tasks, goal, d)
    ensures c == d
  {
    if c == [] || d == [] {
      // The leading task either releases something or not.
    } else {
      assert c[0] == d[0];
      SameTails(tasks, c, d, 0);
    }
  }

  lemma {:induction false} SameTails(tasks: seq<GraphTask>, c: seq<TaskId>, d: seq<TaskId>, k: nat)
    requires k < |c| && k < |d| && c[..k + 1] == d[..k + 1]
    requires Steps(tasks, c) && Steps(tasks, d)
    requires Direct(BlocksTable(tasks), c[|c| - 1]) == [] && Direct(BlocksTable(tasks), d[|d| - 1]) == []
    ensures c == d
    decreases |c| - k
  {
    assert c[k] == c[..k + 1][k] == d[..k + 1][k] == d[k];
    if k + 1 < |c| && k + 1 < |d| {
      assert FollowedBy(tasks, c[k], c[k + 1]) && FollowedBy(tasks, d[k], d[k + 1]);
      assert c[k + 1] == d[k + 1];
      assert c[..k + 2] == c[..k + 1] + [c[k + 1]] && d[..k + 2] == d[..k + 1] + [d[k + 1]];
      SameTails(tasks, c, d, k + 1);
    } else {
      assert k + 1 < |c| ==> FollowedBy(tasks, c[k], c[k + 1]);
      assert k + 1 < |d| ==> FollowedBy(tasks, d[k], d[k + 1]);
      assert c[..k + 1] == c && d[..k + 1] == d;
    }
  }
}
