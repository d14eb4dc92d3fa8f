/** Reading the queue's events past a cursor, page by page
    (`read_events`). */
module EventCursor {
  import opened Outcomes
  import opened EventQueue

  datatype Role = Supervisor | Worker | Planner | Inbox | Observer | Reviewer

  const ATTENTION_KINDS: set<string> := {
    "validation_finished", "supervision_finished", "integration_deferred", "integration_failed",
    "integration_error", "push_failed", "runtime_error", "resume_finished", "review_failed",
    "triage_failed", "recovery_failed", "plan_review_failed", "planner_unresponsive",
    "draft_planner_exhausted", "run_env_program_missing", "update_installed", "ask_opened",
    "ask_answered", "ask_delivery_failed" }

  /** What to read: `other` is every condition of the filter but its kinds. */
  datatype Query = Query(limit: nat, all: bool, kinds: Option<set<string>>, other: Event -> bool)

  predicate ForRole(role: Option<Role>) {
    role.None? || role == Some(Inbox)
  }

  predicate OnlyAttention(q: Query) {
    !q.all && q.kinds.None?
  }

  /** The filter the queue applies. */
  predicate Matches(q: Query, e: Event) {
    q.other(e) && (if OnlyAttention(q) then e.kind in ATTENTION_KINDS else q.kinds.None? || e.kind in q.kinds.value)
  }

  /** What the reader keeps of it. */
  predicate Keeps(q: Query, role: Option<Role>, e: Event) {
    !OnlyAttention(q) || (e.attention && ForRole(role))
  }

  /** The matching events with `after < id <= upto`, oldest first. */
  function Matching(log: Log, q: Query, after: int, upto: int): seq<Event> {
    if log == [] then []
    else
      (if after < log[0].id <= upto && Matches(q, log[0]) then [log[0]] else []) + Matching(log[1..], q, after, upto)
  }

  lemma {:induction false} MatchingMembers(log: Log, q: Query, after: int, upto: int)
    ensures forall e :: e in Matching(log, q, after, upto) <==> e in log && after < e.id <= upto && Matches(q, e)
  {
    if log != [] {
      MatchingMembers(log[1..], q, after, upto);
      assert forall e :: e in log <==> e == log[0] || e in log[1..];
    }
  }

  function Kept(events: seq<Event>, q: Query, role: Option<Role>): seq<Event> {
    if events == [] then []
    else
      var init := Kept(events[..|events| - 1], q, role);
      if Keeps(q, role, events[|events| - 1]) then init + [events[|events| - 1]] else init
  }

  /** What a reader of `q` is to see of the events after `after` up to
      `upto`. */
  function ToDeliver(log: Log, q: Query, role: Option<Role>, after: int, upto: int): seq<Event> {
    Kept(Matching(log, q, after, upto), q, role)
  }

  function Limit(q: Query): nat {
    if q.limit == 0 then 1 else q.limit
  }

  lemma {:induction false} MatchingInOrder(log: Log, q: Query, after: int, upto: int)
    requires InIdOrder(log)
    ensures InIdOrder(Matching(log, q, after, upto))
  {
    if log != [] {
      var rest := Matching(log[1..], q, after, upto);
      MatchingInOrder(log[1..], q, after, upto);
      MatchingMembers(log[1..], q, after, upto);
      forall i | 0 <= i < |rest| ensures log[0].id < rest[i].id {
        assert rest[i] in rest && rest[i] in log[1..];
      }
    }
  }

  lemma {:induction false} MatchingTogether(log: Log, q: Query, after: int, mid: int, upto: int)
    requires InIdOrder(log) && after <= mid <= upto
    ensures Matching(log, q, after, upto) == Matching(log, q, after, mid) + Matching(log, q, mid, upto)
  {
    if log != [] {
      if log[0].id <= mid {
        MatchingTogether(log[1..], q, after, mid, upto);
      } else {
        forall e | e in log ensures mid < e.id {
        }
        NoneUpTo(log, q, after, mid);
        SameAbove(log, q, after, mid, upto);
      }
    }
  }

  /** Reading on from the `k`th matching event finds the ones after it, and
      what is up to it are the ones before. */
  lemma MatchingSplits(log: Log, q: Query, after: int, upto: int, k: nat)
    requires InIdOrder(log) && 1 <= k <= |Matching(log, q, after, upto)|
    ensures var m := Matching(log, q, after, upto);
      && Matching(log, q, m[k - 1].id, upto) == m[k..]
      && Matching(log, q, after, m[k - 1].id) == m[..k]
  {
    var m := Matching(log, q, after, upto);
    assert m[k - 1] in m;
    var mid := m[k - 1].id;
    MatchingInOrder(log, q, after, upto);
    MatchingMembers(log, q, after, upto);
    MatchingMembers(log, q, after, mid);
    MatchingMembers(log, q, mid, upto);
    MatchingTogether(log, q, after, mid, upto);
    SplitAt(m, Matching(log, q, after, mid), Matching(log, q, mid, upto), k);
  }

  lemma SplitAt(m: seq<Event>, s: seq<Event>, t: seq<Event>, k: nat)
    requires InIdOrder(m) && m == s + t && 1 <= k <= |m|
    requires forall e :: e in s ==> e.id <= m[k - 1].id
    requires forall e :: e in t ==> m[k - 1].id < e.id
    ensures s == m[..k] && t == m[k..]
  {
    forall i | 0 <= i < |m| ensures i < |s| <==> m[i].id <= m[k - 1].id {
      if i < |s| {
        assert m[i] == s[i];
      } else {
        assert m[i] == t[i - |s|];
      }
    }
    var last := k - 1;
    assert m[last].id <= m[k - 1].id && last < |s|;
    assert k < |m| ==> m[last].id < m[k].id;
  }

  lemma {:induction false} NoneUpTo(log: Log, q: Query, after: int, upto: int)
    requires forall e :: e in log ==> upto < e.id
    ensures Matching(log, q, after, upto) == []
  {
    if log != [] {
      assert log[0] in log;
      NoneUpTo(log[1..], q, after, upto);
    }
  }

  lemma {:induction false} SameAbove(log: Log, q: Query, after: int, later: int, upto: int)
    requires after <= later && forall e :: e in log ==> later < e.id
    ensures Matching(log, q, after, upto) == Matching(log, q, later, upto)
  {
    if log != [] {
      assert log[0] in log;
      SameAbove(log[1..], q, after, later, upto);
    }
  }

  lemma {:induction false} KeptTogether(s: seq<Event>, t: seq<Event>, q: Query, role: Option<Role>)
    ensures Kept(s + t, q, role) == Kept(s, q, role) + Kept(t, q, role)
    decreases |t|
  {
    if t == [] {
      assert s + t == s;
    } else {
      var init := t[..|t| - 1];
      assert (s + t)[..|s + t| - 1] == s + init;
      KeptTogether(s, init, q, role);
    }
  }

  lemma {:induction false} MatchingAppended(log: Log, more: Log, q: Query, after: int, upto: int)
    ensures Matching(log + more, q, after, upto) == Matching(log, q, after, upto) + Matching(more, q, after, upto)
  {
    if log == [] {
      assert log + more == more;
    } else {
      assert (log + more)[1..] == log[1..] + more;
      MatchingAppended(log[1..], more, q, after, upto);
    }
  }

  /** Up to its end, what matches in a log stays the same when it grows. */
  lemma GrowthKeepsMatching(log: Log, later: Log, q: Query, after: int, upto: int)
    requires Grew(log, later) && upto <= LatestId(log)
    ensures Matching(later, q, after, upto) == Matching(log, q, after, upto)
  {
    var more := later[|log|..];
    assert later == log + more;
    MatchingAppended(log, more, q, after, upto);
    NoneUpTo(more, q, after, upto);
  }

  /** One page: the first events of the range, at most `limit`. */
  function EventsBetween(log: Log, q: Query, after: int, upto: int): seq<Event> {
    var m := Matching(log, q, after, upto);
    if |m| <= Limit(q) then m else m[..Limit(q)]
  }

  /** The first `read` events of a page were looked at: all of it, or up to the
      one that filled the limit. */
  ghost predicate PageIsRead(page: seq<Event>, q: Query, role: Option<Role>, before: seq<Event>, read: nat,
                             events: seq<Event>)
  {
    && 1 <= read <= |page|
    && events == before + Kept(page[..read], q, role)
    && (|events| < Limit(q) ==> read == |page|)
    && (|events| == Limit(q) ==> Keeps(q, role, page[read - 1]))
  }

  /** Go through a page until the limit is filled: `read` of its events were
      looked at. */
  method ReadPage(page: seq<Event>, q: Query, role: Option<Role>, before: seq<Event>)
    returns (events: seq<Event>, cursor: int, ghost read: nat)
    requires page != [] && |before| < Limit(q)
    ensures 1 <= read <= |page| && cursor == page[read - 1].id && |events| <= Limit(q)
    ensures PageIsRead(page, q, role, before, read, events)
  {
    events, read, cursor := before, 0, page[0].id;
    for i := 0 to |page|
      invariant read == i && (i > 0 ==> cursor == page[i - 1].id)
      invariant events == before + Kept(page[..i], q, role) && |events| < Limit(q)
    {
      var event := page[i];
      assert page[..i + 1][..i] == page[..i];
      cursor, read := event.id, i + 1;
      if Keeps(q, role, event) {
        events := events + [event];
        if |events| == Limit(q) {
          return;
        }
      }
    }
  }

  /** What one read returns: the first events to deliver, at most the limit,
      and the last of them as the cursor when it was reached, `upto`
      otherwise. */
  ghost predicate IsRead(log: Log, q: Query, role: Option<Role>, after: int, upto: int,
                         events: seq<Event>, cursor: int) {
    var all := ToDeliver(log, q, role, after, upto);
    if |all| >= Limit(q) then events == all[..Limit(q)] && cursor == events[|events| - 1].id
    else events == all && cursor == upto
  }

  /** What a read returns at `cursor`. */
  ghost predicate Answers(log: Log, q: Query, role: Option<Role>, after: int, upto: int,
                          events: seq<Event>, cursor: int) {
    IsRead(log, q, role, after, upto, events, cursor) && events == ToDeliver(log, q, role, after, cursor)
  }

  /** Read one page behind the first `k` matching events, from a log that may
      have grown since: to the end of the range, to the limit, or on. */
  method ReadOn(queue: Queue, ghost log: Log, q: Query, role: Option<Role>, after: int, upto: int,
                before: seq<Event>, from: int, ghost k: nat)
    returns (events: seq<Event>, cursor: int, ended: bool, ghost read: nat)
    requires InIdOrder(log) && Grew(log, queue.log) && upto <= LatestId(log)
    requires Reading(log, q, role, after, upto, k, before, from)
    modifies queue`log
    ensures Grew(log, queue.log)
    ensures ended ==> Answers(log, q, role, after, upto, events, cursor)
    ensures !ended ==> read > k && Reading(log, q, role, after, upto, read, events, cursor)
  {
    ghost var was := queue.log;
    queue.OthersAppend();
    GrewFurther(log, was, queue.log);
    var page := EventsBetween(queue.log, q, from, upto);
    GrowthKeepsMatching(log, queue.log, q, from, upto);
    NextPage(log, q, after, upto, k, from);
    if page == [] {
      RangeEnds(log, q, role, after, upto, k, before, from);
      return before, upto, true, k;
    }
    ghost var count;
    events, cursor, count := ReadPage(page, q, role, before);
    PageAdvances(log, q, role, after, upto, k, before, page, count);
    ended, read := |events| == Limit(q), k + count;
  }

  /** Pages are read until the limit is filled or the range is exhausted, each
      from the log as it is then. */
  method ReadEvents(queue: Queue, q: Query, role: Option<Role>, after: int, upto: int)
    returns (events: seq<Event>, cursor: int)
    requires InIdOrder(queue.log) && upto <= LatestId(queue.log)
    modifies queue`log
    ensures Grew(old(queue.log), queue.log)
    ensures IsRead(old(queue.log), q, role, after, upto, events, cursor)
    ensures events == ToDeliver(old(queue.log), q, role, after, cursor)
  {
    events, cursor := [], after;
    var ended := false;
    ghost var log, k := queue.log, 0;
    while !ended
      invariant Grew(log, queue.log)
      invariant if ended then Answers(log, q, role, after, upto, events, cursor)
                else Reading(log, q, role, after, upto, k, events, cursor)
      decreases !ended, |Matching(log, q, after, upto)| - k
    {
      events, cursor, ended, k := ReadOn(queue, log, q, role, after, upto, events, cursor, k);
    }
  }

  lemma RangeEnds(log: Log, q: Query, role: Option<Role>, after: int, upto: int, k: nat,
                  events: seq<Event>, cursor: int)
    requires Reading(log, q, role, after, upto, k, events, cursor)
    requires Matching(log, q, after, upto)[..k] == Matching(log, q, after, upto)
    ensures Answers(log, q, role, after, upto, events, upto)
  {
  }

  /** The page is the next part of what matches, and empty at its end. */
  lemma NextPage(log: Log, q: Query, after: int, upto: int, k: nat, cursor: int)
    requires InIdOrder(log) && ReadTo(Matching(log, q, after, upto), after, k, cursor)
    ensures var (m, page) := (Matching(log, q, after, upto), EventsBetween(log, q, cursor, upto));
      k + |page| <= |m| && page == m[k..][..|page|] && (page == [] ==> m[..k] == m)
  {
    RestIsNext(log, q, after, upto, k, cursor);
    PageIsNext(log, q, cursor, upto, Matching(log, q, after, upto)[k..]);
  }

  /** After a page the read goes on behind it, or has filled its limit. */
  lemma PageAdvances(log: Log, q: Query, role: Option<Role>, after: int, upto: int, k: nat,
                     before: seq<Event>, page: seq<Event>, read: nat)
    requires InIdOrder(log) && k + |page| <= |Matching(log, q, after, upto)|
    requires page == Matching(log, q, after, upto)[k..][..|page|] && 1 <= read <= |page|
    requires before == Kept(Matching(log, q, after, upto)[..k], q, role)
    requires var events := before + Kept(page[..read], q, role);
      |events| <= Limit(q) && PageIsRead(page, q, role, before, read, events)
    ensures var (events, cursor) := (before + Kept(page[..read], q, role), page[read - 1].id);
      && (|events| < Limit(q) ==> Reading(log, q, role, after, upto, k + read, events, cursor))
      && (|events| == Limit(q) ==> Answers(log, q, role, after, upto, events, cursor))
  {
    PageRead(Matching(log, q, after, upto), k, page, read, q, role);
    if |before + Kept(page[..read], q, role)| == Limit(q) {
      LimitReached(log, q, role, after, upto, k + read);
    }
  }

  lemma PageRead(m: seq<Event>, k: nat, page: seq<Event>, read: nat, q: Query, role: Option<Role>)
    requires k + |page| <= |m| && page == m[k..][..|page|] && 1 <= read <= |page|
    ensures Kept(m[..k + read], q, role) == Kept(m[..k], q, role) + Kept(page[..read], q, role)
    ensures page[read - 1] == m[k + read - 1]
  {
    assert m[..k + read] == m[..k] + page[..read];
    KeptTogether(m[..k], page[..read], q, role);
  }

  /** Where a read is after the first `k` matching events. */
  ghost predicate Reading(log: Log, q: Query, role: Option<Role>, after: int, upto: int, k: nat,
                          events: seq<Event>, cursor: int) {
    var m := Matching(log, q, after, upto);
    ReadTo(m, after, k, cursor) && events == Kept(m[..k], q, role) && |events| < Limit(q)
  }

  /** The cursor after the first `k` matching events. */
  ghost predicate ReadTo(m: seq<Event>, after: int, k: nat, cursor: int) {
    k <= |m| && cursor == if k == 0 then after else m[k - 1].id
  }

  lemma RestIsNext(log: Log, q: Query, after: int, upto: int, k: nat, cursor: int)
    requires InIdOrder(log) && ReadTo(Matching(log, q, after, upto), after, k, cursor)
    ensures Matching(log, q, cursor, upto) == Matching(log, q, after, upto)[k..]
  {
    if k > 0 {
      MatchingSplits(log, q, after, upto, k);
    }
  }

  lemma PageIsNext(log: Log, q: Query, cursor: int, upto: int, rest: seq<Event>)
    requires Matching(log, q, cursor, upto) == rest
    ensures var page := EventsBetween(log, q, cursor, upto);
      |page| <= |rest| && page == rest[..|page|] && (page == [] ==> rest == [])
  {
  }

  /** The events kept of the first `k` that match, the last of them kept. */
  lemma LimitReached(log: Log, q: Query, role: Option<Role>, after: int, upto: int, k: nat)
    requires InIdOrder(log) && 1 <= k <= |Matching(log, q, after, upto)|
    requires Keeps(q, role, Matching(log, q, after, upto)[k - 1])
    ensures var m := Matching(log, q, after, upto);
      var events := Kept(m[..k], q, role);
      && events != [] && events[|events| - 1] == m[k - 1]
      && |events| <= |Kept(m, q, role)| && events == Kept(m, q, role)[..|events|]
      && events == ToDeliver(log, q, role, after, m[k - 1].id)
      && (|events| == Limit(q) ==> IsRead(log, q, role, after, upto, events, m[k - 1].id))
  {
    var m := Matching(log, q, after, upto);
    MatchingSplits(log, q, after, upto, k);
    KeptPrefix(m, q, role, k);
    KeptEndsWith(m[..k], q, role);
  }

  lemma KeptPrefix(m: seq<Event>, q: Query, role: Option<Role>, k: nat)
    requires k <= |m|
    ensures var events := Kept(m[..k], q, role);
      |events| <= |Kept(m, q, role)| && events == Kept(m, q, role)[..|events|]
  {
    KeptTogether(m[..k], m[k..], q, role);
    assert m == m[..k] + m[k..];
  }

  lemma KeptEndsWith(s: seq<Event>, q: Query, role: Option<Role>)
    requires s != [] && Keeps(q, role, s[|s| - 1])
    ensures Kept(s, q, role) != [] && Kept(s, q, role)[|Kept(s, q, role)| - 1] == s[|s| - 1]
  {
  }

  /** A cursor never falls behind where it was asked from, as long as that is
      not past the end of the range. */
  lemma CursorMovesOn(log: Log, q: Query, role: Option<Role>, after: int, upto: int, events: seq<Event>, cursor: int)
    requires IsRead(log, q, role, after, upto, events, cursor)
    ensures cursor <= upto
    ensures after <= cursor <==> after <= upto
  {
    var all := ToDeliver(log, q, role, after, upto);
    if |all| >= Limit(q) {
      assert all[Limit(q) - 1] in all;
      KeptAreMatching(Matching(log, q, after, upto), q, role);
      MatchingMembers(log, q, after, upto);
    }
  }

  /** Asked from past the end of an empty log, a read falls back to its end. */
  lemma CursorFallsBack(q: Query, role: Option<Role>)
    ensures IsRead([], q, role, 1, 0, [], 0)
    ensures forall events, cursor :: IsRead([], q, role, 1, 0, events, cursor) ==> cursor < 1
  {
  }

  lemma {:induction false} KeptAreMatching(events: seq<Event>, q: Query, role: Option<Role>)
    ensures forall e :: e in Kept(events, q, role) <==> e in events && Keeps(q, role, e)
  {
    if events != [] {
      var init := events[..|events| - 1];
      KeptAreMatching(init, q, role);
      assert events == init + [events[|events| - 1]];
    }
  }
}
