/** Which tasks wait for a task, directly or transitively. */
module Reachability {
  import Sets

  /** The direct dependents of each task that has any. */
  type Dependents = map<int, seq<int>>

  function Direct(next: Dependents, id: int): seq<int> {
    if id in next then next[id] else []
  }

  /** A walk of at least one step along direct dependents. */
  ghost predicate Path(next: Dependents, p: seq<int>) {
    && 2 <= |p|
    && forall i :: 0 <= i < |p| - 1 ==> p[i + 1] in Direct(next, p[i])
  }

  ghost predicate Reaches(next: Dependents, a: int, b: int) {
    exists p: seq<int> :: Path(next, p) && p[0] == a && p[|p| - 1] == b
  }

  ghost predicate Acyclic(next: Dependents) {
    forall id :: !Reaches(next, id, id)
  }

  /** Everything that is somebody's direct dependent. */
  ghost function Targets(next: Dependents): set<int> {
    set id, k | id in next && 0 <= k < |next[id]| :: next[id][k]
  }

  /** The tasks that wait for `a`, directly or transitively. */
  ghost function Waiters(next: Dependents, a: int): (w: set<int>)
    ensures forall b :: b in w <==> Reaches(next, a, b)
  {
    forall b | Reaches(next, a, b) ensures b in Targets(next) {
      var p: seq<int> :| Path(next, p) && p[0] == a && p[|p| - 1] == b;
      assert p[|p| - 2 + 1] in Direct(next, p[|p| - 2]);
    }
    set b | b in Targets(next) && Reaches(next, a, b)
  }

  lemma StepReaches(next: Dependents, a: int, b: int)
    requires b in Direct(next, a)
    ensures Reaches(next, a, b)
  {
    assert Path(next, [a, b]);
    assert [a, b][0] == a && [a, b][|[a, b]| - 1] == b;
  }

  lemma ReachesHasFirstStep(next: Dependents, a: int, b: int)
    requires Reaches(next, a, b)
    ensures Direct(next, a) != []
  {
    var p: seq<int> :| Path(next, p) && p[0] == a && p[|p| - 1] == b;
    assert p[0 + 1] in Direct(next, p[0]);
  }

  lemma ReachesThrough(next: Dependents, a: int, b: int, c: int)
    requires Reaches(next, a, b) && Reaches(next, b, c)
    ensures Reaches(next, a, c)
  {
    var p: seq<int> :| Path(next, p) && p[0] == a && p[|p| - 1] == b;
    var q: seq<int> :| Path(next, q) && q[0] == b && q[|q| - 1] == c;
    var r := p + q[1..];
    forall i | 0 <= i < |r| - 1
      ensures r[i + 1] in Direct(next, r[i])
    {
      if i < |p| - 1 {
        assert p[i + 1] in Direct(next, p[i]);
      } else {
        var j := i - (|p| - 1);
        assert q[j + 1] in Direct(next, q[j]);
      }
    }
    assert Path(next, r) && r[0] == a && r[|r| - 1] == c;
  }

  /** Every walk from `a` stays in a set that holds `a`'s direct dependents
      and is closed under direct dependents. */
  lemma {:induction false} ClosedHoldsPath(next: Dependents, p: seq<int>, s: set<int>, k: nat)
    requires Path(next, p) && 1 <= k < |p|
    requires forall b :: b in Direct(next, p[0]) ==> b in s
    requires forall x, b :: x in s && b in Direct(next, x) ==> b in s
    ensures p[k] in s
  {
    var i := k - 1;
    assert p[i + 1] in Direct(next, p[i]);
    if k > 1 {
      ClosedHoldsPath(next, p, s, i);
      assert p[i] in s;
    } else {
      assert p[i] == p[0];
    }
    var x, b := p[i], p[k];
    assert b in Direct(next, x);
    assert b in s;
  }

  /** Some element of a list, and the others. */
  method TakeAny(pending: seq<int>) returns (taken: int, rest: seq<int>)
    requires pending != []
    ensures |rest| == |pending| - 1 && forall x :: x in pending <==> x == taken || x in rest
  {
    assert 0 < |pending|;
    var at :| 0 <= at < |pending|;
    taken, rest := pending[at], pending[..at] + pending[at + 1..];
    assert pending == pending[..at] + [taken] + pending[at + 1..];
  }

  /** The worklist: take a pending task, and the first time it is reached add
      its direct dependents. What it collects is reachability by one or more
      steps, with or without cycles, whichever pending task is taken: the
      source takes the last one. */
  method Collect(next: Dependents, start: int) returns (reached: set<int>)
    ensures reached == Waiters(next, start)
  {
    reached := {};
    var pending := Direct(next, start);
    forall b | b in pending ensures Reaches(next, start, b) {
      StepReaches(next, start, b);
    }
    while pending != []
      invariant forall x :: x in reached ==> Reaches(next, start, x)
      invariant forall x :: x in pending ==> Reaches(next, start, x)
      invariant forall b :: b in Direct(next, start) ==> b in reached || b in pending
      invariant forall x, b :: x in reached && b in Direct(next, x) ==> b in reached || b in pending
      decreases Waiters(next, start) - reached, |pending|
    {
      var taken, rest := TakeAny(pending);
      if taken !in reached {
        forall b | b in Direct(next, taken) ensures Reaches(next, start, b) {
          StepReaches(next, taken, b);
          ReachesThrough(next, start, taken, b);
        }
        assert taken in Waiters(next, start) - reached;
        reached := reached + {taken};
        pending := rest + Direct(next, taken);
      } else {
        pending := rest;
      }
    }
    forall b | Reaches(next, start, b) ensures b in reached {
      var p: seq<int> :| Path(next, p) && p[0] == start && p[|p| - 1] == b;
      ClosedHoldsPath(next, p, reached, |p| - 1);
    }
    assert forall b :: b in reached <==> b in Waiters(next, start);
  }

  /** A waiter of `b` waits for everything `b` waits for, and `b` itself is
      one waiter more: without cycles the counts strictly fall along the
      relation. */
  lemma WaitersFall(next: Dependents, a: int, b: int)
    requires Acyclic(next) && Reaches(next, a, b)
    ensures Waiters(next, b) < Waiters(next, a)
    ensures |Waiters(next, b)| < |Waiters(next, a)|
  {
    forall c | c in Waiters(next, b) ensures c in Waiters(next, a) {
      ReachesThrough(next, a, b, c);
    }
    assert !Reaches(next, b, b);
    assert b in Waiters(next, a) && b !in Waiters(next, b);
    Sets.ProperSubsetSize(Waiters(next, b), Waiters(next, a));
  }
}
