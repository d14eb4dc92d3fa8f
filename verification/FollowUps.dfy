/** Registering the follow-ups a landed receipt proposes, over any number of
    calls. */
module FollowUps {
  import opened Outcomes
  import opened Sequences
  import opened Text

  /** An entry of the receipt: its title and description when they are
      strings. */
  datatype Entry = Entry(title: Option<string>, description: Option<string>)

  const ASK_DEPTH := 2

  /** The draft made for entry `index`. Its depth and where it came from are
      there when the queue could write them. */
  datatype Draft = Draft(
    index: nat,
    title: string,
    description: string,
    goalId: Option<int>,
    depth: Option<int>,
    hasOrigin: bool)

  /** `follow_up_registered`, with a task or the reason there is none. */
  datatype Registered = Registered(index: nat, title: Option<string>, skipped: bool, goalClosed: bool)

  /** What one call reads and which of its writes fail. */
  datatype Replies = Replies(
    eventsReadable: bool,
    goalReadable: bool,
    goalClosed: bool,
    depth: Option<int>,
    addFails: nat -> bool,
    depthFails: nat -> bool,
    originFails: nat -> bool,
    recordFails: nat -> bool)

  /** The run's follow-ups in the queue: the drafts and the events. */
  datatype Records = Records(drafts: seq<Draft>, events: seq<Registered>)

  function TitleOf(entry: Entry): string {
    if entry.title.Some? then Trim(entry.title.value) else ""
  }

  predicate IsValid(entry: Entry) {
    TitleOf(entry) != [] && entry.description.Some?
  }

  function DepthOf(r: Replies): int {
    if r.depth.Some? then r.depth.value + 1 else ASK_DEPTH
  }

  predicate Closed(goal: Option<int>, r: Replies) {
    goal.Some? && r.goalClosed
  }

  predicate Readable(goal: Option<int>, r: Replies) {
    r.eventsReadable && (goal.Some? ==> r.goalReadable)
  }

  function EventIndices(events: seq<Registered>): seq<nat> {
    seq(|events|, i requires 0 <= i < |events| => events[i].index)
  }

  function DraftIndices(drafts: seq<Draft>): seq<nat> {
    seq(|drafts|, i requires 0 <= i < |drafts| => drafts[i].index)
  }

  predicate IsRegistered(events: seq<Registered>, index: nat) {
    index in EventIndices(events)
  }

  // ----- What a call writes -----

  predicate Adds(entry: Entry, index: nat, before: seq<Registered>, r: Replies) {
    IsValid(entry) && !IsRegistered(before, index) && !r.addFails(index)
  }

  predicate RecordsEntry(entry: Entry, index: nat, before: seq<Registered>, r: Replies) {
    !IsRegistered(before, index) && !r.recordFails(index) && (IsValid(entry) ==> !r.addFails(index))
  }

  function DraftOf(entry: Entry, index: nat, goal: Option<int>, r: Replies): Draft
    requires IsValid(entry)
  {
    Draft(index, TitleOf(entry), entry.description.value, if Closed(goal, r) then None else goal,
          if r.depthFails(index) then None else Some(DepthOf(r)), !r.originFails(index))
  }

  function EventOf(entry: Entry, index: nat, goal: Option<int>, r: Replies): Registered {
    if IsValid(entry) then Registered(index, Some(TitleOf(entry)), false, Closed(goal, r))
    else Registered(index, entry.title, true, false)
  }

  function DraftsTo(entries: seq<Entry>, k: nat, goal: Option<int>, before: seq<Registered>, r: Replies): seq<Draft>
    requires k <= |entries|
  {
    if k == 0 then []
    else
      DraftsTo(entries, k - 1, goal, before, r) +
      (if Adds(entries[k - 1], k - 1, before, r) then [DraftOf(entries[k - 1], k - 1, goal, r)] else [])
  }

  function EventsTo(entries: seq<Entry>, k: nat, goal: Option<int>, before: seq<Registered>,
                    r: Replies): seq<Registered>
    requires k <= |entries|
  {
    if k == 0 then []
    else
      EventsTo(entries, k - 1, goal, before, r) +
      (if RecordsEntry(entries[k - 1], k - 1, before, r) then [EventOf(entries[k - 1], k - 1, goal, r)] else [])
  }

  function AfterCall(q: Records, entries: seq<Entry>, goal: Option<int>, r: Replies): Records {
    if !Readable(goal, r) then q
    else Records(q.drafts + DraftsTo(entries, |entries|, goal, q.events, r),
                 q.events + EventsTo(entries, |entries|, goal, q.events, r))
  }

  class FollowUpQueue {
    var drafts: seq<Draft>
    var events: seq<Registered>

    constructor ()
      ensures drafts == [] && events == []
    {
      drafts, events := [], [];
    }

    /** Register the entries not recorded yet; a registration or a record that
        fails does not stop the others. */
    method Register(entries: seq<Entry>, goal: Option<int>, r: Replies) returns (added: seq<Draft>)
      modifies this
      ensures Records(drafts, events) == AfterCall(Records(old(drafts), old(events)), entries, goal, r)
      ensures drafts == old(drafts) + added
    {
      added := [];
      if !r.eventsReadable { return; }
      if goal.Some? && !r.goalReadable { return; }
      var registered := events;
      for index := 0 to |entries|
        invariant added == DraftsTo(entries, index, goal, registered, r)
        invariant drafts == old(drafts) + added
        invariant events == old(events) + EventsTo(entries, index, goal, registered, r)
      {
        var entry := entries[index];
        if IsRegistered(registered, index) { continue; }
        if !IsValid(entry) {
          if !r.recordFails(index) {
            events := events + [EventOf(entry, index, goal, r)];
          }
          continue;
        }
        if r.addFails(index) { continue; }
        var draft := Draft(index, TitleOf(entry), entry.description.value, if Closed(goal, r) then None else goal,
                           None, false);
        if !r.depthFails(index) {
          draft := draft.(depth := Some(DepthOf(r)));
        }
        if !r.originFails(index) {
          draft := draft.(hasOrigin := true);
        }
        drafts, added := drafts + [draft], added + [draft];
        if !r.recordFails(index) {
          events := events + [EventOf(entry, index, goal, r)];
        }
      }
    }
  }

  // ----- Any number of calls -----

  /** Each entry has at most one draft and at most one event, and a draft only
      with its event. */
  ghost predicate Once(q: Records) {
    && Distinct(DraftIndices(q.drafts)) && Distinct(EventIndices(q.events))
    && forall index :: index in DraftIndices(q.drafts) ==> index in EventIndices(q.events)
  }

  lemma {:induction false} DraftedTo(entries: seq<Entry>, k: nat, goal: Option<int>, before: seq<Registered>,
                                     r: Replies)
    requires k <= |entries|
    ensures var d := DraftIndices(DraftsTo(entries, k, goal, before, r));
      Distinct(d) && forall i: nat :: i in d <==> i < k && Adds(entries[i], i, before, r)
  {
    if k > 0 {
      DraftedTo(entries, k - 1, goal, before, r);
      var more := if Adds(entries[k - 1], k - 1, before, r) then [DraftOf(entries[k - 1], k - 1, goal, r)] else [];
      DraftIndicesTogether(DraftsTo(entries, k - 1, goal, before, r), more);
      assert DraftIndices(more) == if Adds(entries[k - 1], k - 1, before, r) then [k - 1] else [];
      DistinctTogether(DraftIndices(DraftsTo(entries, k - 1, goal, before, r)), DraftIndices(more));
    }
  }

  lemma {:induction false} RecordedTo(entries: seq<Entry>, k: nat, goal: Option<int>, before: seq<Registered>,
                                      r: Replies)
    requires k <= |entries|
    ensures var e := EventIndices(EventsTo(entries, k, goal, before, r));
      Distinct(e) && forall i: nat :: i in e <==> i < k && RecordsEntry(entries[i], i, before, r)
  {
    if k > 0 {
      RecordedTo(entries, k - 1, goal, before, r);
      var more :=
        if RecordsEntry(entries[k - 1], k - 1, before, r) then [EventOf(entries[k - 1], k - 1, goal, r)] else [];
      EventIndicesTogether(EventsTo(entries, k - 1, goal, before, r), more);
      assert EventIndices(more) == if RecordsEntry(entries[k - 1], k - 1, before, r) then [k - 1] else [];
      DistinctTogether(EventIndices(EventsTo(entries, k - 1, goal, before, r)), EventIndices(more));
    }
  }

  /** Which entries of the first `k` a call drafts and records: each at most
      once. */
  lemma WrittenTo(entries: seq<Entry>, k: nat, goal: Option<int>, before: seq<Registered>, r: Replies)
    requires k <= |entries|
    ensures var d := DraftIndices(DraftsTo(entries, k, goal, before, r));
      Distinct(d) && forall i: nat :: i in d <==> i < k && Adds(entries[i], i, before, r)
    ensures var e := EventIndices(EventsTo(entries, k, goal, before, r));
      Distinct(e) && forall i: nat :: i in e <==> i < k && RecordsEntry(entries[i], i, before, r)
  {
    DraftedTo(entries, k, goal, before, r);
    RecordedTo(entries, k, goal, before, r);
  }

  lemma IndicesAfterCall(q: Records, entries: seq<Entry>, goal: Option<int>, r: Replies)
    requires Readable(goal, r)
    ensures var done := AfterCall(q, entries, goal, r);
      && DraftIndices(done.drafts) ==
           DraftIndices(q.drafts) + DraftIndices(DraftsTo(entries, |entries|, goal, q.events, r))
      && EventIndices(done.events) ==
           EventIndices(q.events) + EventIndices(EventsTo(entries, |entries|, goal, q.events, r))
  {
    DraftIndicesTogether(q.drafts, DraftsTo(entries, |entries|, goal, q.events, r));
    EventIndicesTogether(q.events, EventsTo(entries, |entries|, goal, q.events, r));
  }

  lemma DraftIndicesTogether(a: seq<Draft>, b: seq<Draft>)
    ensures DraftIndices(a + b) == DraftIndices(a) + DraftIndices(b)
  {
  }

  lemma EventIndicesTogether(a: seq<Registered>, b: seq<Registered>)
    ensures EventIndices(a + b) == EventIndices(a) + EventIndices(b)
  {
  }

  /** A call whose records succeed keeps every entry registered at most once,
      whatever `add` refuses. */
  lemma CallKeepsOnce(q: Records, entries: seq<Entry>, goal: Option<int>, r: Replies)
    requires Once(q) && forall i :: !r.recordFails(i)
    ensures Once(AfterCall(q, entries, goal, r))
  {
    if Readable(goal, r) {
      var n := |entries|;
      WrittenTo(entries, n, goal, q.events, r);
      IndicesAfterCall(q, entries, goal, r);
      var d := DraftIndices(DraftsTo(entries, n, goal, q.events, r));
      var e := EventIndices(EventsTo(entries, n, goal, q.events, r));
      assert forall i :: i in d ==> i in e && i !in EventIndices(q.events);
      DistinctTogether(DraftIndices(q.drafts), d);
      DistinctTogether(EventIndices(q.events), e);
    }
  }

  function AfterCalls(q: Records, entries: seq<Entry>, goal: Option<int>, calls: seq<Replies>): Records
    decreases |calls|
  {
    if calls == [] then q else AfterCalls(AfterCall(q, entries, goal, calls[0]), entries, goal, calls[1..])
  }

  /** Over any number of calls, with whatever failures of `add`, no entry is
      registered twice. */
  lemma {:induction false} CallsRegisterOnce(q: Records, entries: seq<Entry>, goal: Option<int>, calls: seq<Replies>)
    requires Once(q) && forall c, i :: 0 <= c < |calls| ==> !calls[c].recordFails(i)
    ensures Once(AfterCalls(q, entries, goal, calls))
    decreases |calls|
  {
    if calls != [] {
      CallKeepsOnce(q, entries, goal, calls[0]);
      CallsRegisterOnce(AfterCall(q, entries, goal, calls[0]), entries, goal, calls[1..]);
    }
  }

  lemma NothingWritten(q: Records, entries: seq<Entry>, goal: Option<int>, r: Replies)
    ensures var d := DraftsTo(entries, |entries|, goal, q.events, r);
      var e := EventsTo(entries, |entries|, goal, q.events, r);
      d == [] && e == [] <==> NothingToWrite(q, entries, r)
  {
    var n := |entries|;
    var ds, es := DraftsTo(entries, n, goal, q.events, r), EventsTo(entries, n, goal, q.events, r);
    var d, e := DraftIndices(ds), EventIndices(es);
    WrittenTo(entries, n, goal, q.events, r);
    assert |d| == |ds| && |e| == |es|;
    NoneWritten(q, entries, r, d, e);
  }

  lemma NoneWritten(q: Records, entries: seq<Entry>, r: Replies, d: seq<nat>, e: seq<nat>)
    requires forall i: nat :: i in d <==> i < |entries| && Adds(entries[i], i, q.events, r)
    requires forall i: nat :: i in e <==> i < |entries| && RecordsEntry(entries[i], i, q.events, r)
    ensures d == [] && e == [] <==> NothingToWrite(q, entries, r)
  {
    if d != [] {
      assert d[0] in d;
    } else if e != [] {
      assert e[0] in e;
    } else {
      forall i: nat | i < |entries|
        ensures IsRegistered(q.events, i) || (if IsValid(entries[i]) then r.addFails(i) else r.recordFails(i))
      {
        assert i !in d && i !in e;
      }
    }
  }

  /** A call changes nothing exactly when it cannot read, or every entry is
      recorded already or cannot be registered now. */
  lemma CallChangesNothing(q: Records, entries: seq<Entry>, goal: Option<int>, r: Replies)
    ensures AfterCall(q, entries, goal, r) == q <==> !Readable(goal, r) || NothingToWrite(q, entries, r)
  {
    var n := |entries|;
    NothingWritten(q, entries, goal, r);
    var ds, es := DraftsTo(entries, n, goal, q.events, r), EventsTo(entries, n, goal, q.events, r);
    assert |q.drafts + ds| == |q.drafts| + |ds| && |q.events + es| == |q.events| + |es|;
  }

  ghost predicate NothingToWrite(q: Records, entries: seq<Entry>, r: Replies) {
    forall i: nat :: i < |entries| ==>
      IsRegistered(q.events, i) || (if IsValid(entries[i]) then r.addFails(i) else r.recordFails(i))
  }

  /** No call changes anything any more exactly when every entry is
      recorded. */
  lemma NothingLeftExactly(q: Records, entries: seq<Entry>, goal: Option<int>)
    ensures (forall later :: AfterCall(q, entries, goal, later) == q) <==>
      forall i: nat :: i < |entries| ==> IsRegistered(q.events, i)
  {
    var whole := Replies(true, true, false, Some(0), _ => false, _ => false, _ => false, _ => false);
    forall later ensures AfterCall(q, entries, goal, later) == q <==>
      !Readable(goal, later) || NothingToWrite(q, entries, later)
    {
      CallChangesNothing(q, entries, goal, later);
    }
    assert AfterCall(q, entries, goal, whole) == q ==> NothingToWrite(q, entries, whole);
  }

  lemma {:induction false} InvalidIsRecorded(q: Records, entries: seq<Entry>, goal: Option<int>,
                                             calls: seq<Replies>, i: nat)
    requires i < |entries| && !IsValid(entries[i])
    requires forall c, k :: 0 <= c < |calls| ==> !calls[c].recordFails(k)
    requires IsRegistered(q.events, i) || exists c :: 0 <= c < |calls| && Readable(goal, calls[c])
    ensures IsRegistered(AfterCalls(q, entries, goal, calls).events, i)
    decreases |calls|
  {
    if calls != [] {
      var next := AfterCall(q, entries, goal, calls[0]);
      if Readable(goal, calls[0]) {
        WrittenTo(entries, |entries|, goal, q.events, calls[0]);
        IndicesAfterCall(q, entries, goal, calls[0]);
        assert IsRegistered(q.events, i) || RecordsEntry(entries[i], i, q.events, calls[0]);
      } else if !IsRegistered(q.events, i) {
        var c :| 0 <= c < |calls| && Readable(goal, calls[c]);
        assert calls[1..][c - 1] == calls[c];
      }
      InvalidIsRecorded(next, entries, goal, calls[1..], i);
    }
  }

  /** Once every valid entry was added, over however many calls with whatever
      failures of `add`, a further call changes nothing. */
  lemma AllAddedIsFinal(q: Records, entries: seq<Entry>, goal: Option<int>, calls: seq<Replies>, later: Replies)
    requires Once(q) && forall c, i :: 0 <= c < |calls| ==> !calls[c].recordFails(i)
    requires exists c :: 0 <= c < |calls| && Readable(goal, calls[c])
    requires forall i: nat :: i < |entries| && IsValid(entries[i]) ==>
      i in DraftIndices(AfterCalls(q, entries, goal, calls).drafts)
    ensures var done := AfterCalls(q, entries, goal, calls); AfterCall(done, entries, goal, later) == done
  {
    var done := AfterCalls(q, entries, goal, calls);
    CallsRegisterOnce(q, entries, goal, calls);
    forall i: nat | i < |entries| ensures IsRegistered(done.events, i) {
      if !IsValid(entries[i]) {
        InvalidIsRecorded(q, entries, goal, calls, i);
      }
    }
    NothingLeftExactly(done, entries, goal);
  }

  /** One call whose writes all succeed is enough. */
  lemma NothingLeftToRegister(q: Records, entries: seq<Entry>, goal: Option<int>, r: Replies, later: Replies)
    requires Readable(goal, r) && forall i :: !r.recordFails(i) && !r.addFails(i)
    ensures var done := AfterCall(q, entries, goal, r); AfterCall(done, entries, goal, later) == done
  {
    var done := AfterCall(q, entries, goal, r);
    WrittenTo(entries, |entries|, goal, q.events, r);
    IndicesAfterCall(q, entries, goal, r);
    forall i: nat | i < |entries| ensures IsRegistered(done.events, i) {
      assert RecordsEntry(entries[i], i, q.events, r) || IsRegistered(q.events, i);
    }
    CallChangesNothing(done, entries, goal, later);
  }

  /** A draft whose record failed is what lets an entry be drafted again: the
      next call that can add it does, exactly then, and then there are two. */
  lemma DraftedAgain(q: Records, entries: seq<Entry>, goal: Option<int>, r: Replies, i: nat)
    requires i < |entries| && i in DraftIndices(q.drafts) && Readable(goal, r)
    ensures var more := DraftIndices(AfterCall(q, entries, goal, r).drafts)[|q.drafts|..];
      i in more <==> IsValid(entries[i]) && !IsRegistered(q.events, i) && !r.addFails(i)
    ensures IsValid(entries[i]) && !IsRegistered(q.events, i) && !r.addFails(i) ==>
      !Distinct(DraftIndices(AfterCall(q, entries, goal, r).drafts))
  {
    var before, d := DraftIndices(q.drafts), DraftIndices(DraftsTo(entries, |entries|, goal, q.events, r));
    WrittenTo(entries, |entries|, goal, q.events, r);
    IndicesAfterCall(q, entries, goal, r);
    var all := DraftIndices(AfterCall(q, entries, goal, r).drafts);
    assert all[|before|..] == d;
    if i in d {
      var j :| 0 <= j < |before| && before[j] == i;
      var k :| 0 <= k < |d| && d[k] == i;
      assert all[j] == i && all[|before| + k] == i;
    }
  }

  /** Two calls for one entry, the first of which could not record it: it is
      drafted twice. */
  lemma DraftedTwice()
    ensures var entry := Entry(Some("title"), Some("description"));
      var failing := Replies(true, true, false, Some(0), _ => false, _ => false, _ => false, _ => true);
      var after := AfterCalls(Records([], []), [entry], None, [failing, failing.(recordFails := _ => false)]);
      DraftIndices(after.drafts) == [0, 0] && EventIndices(after.events) == [0]
  {
    var entry := Entry(Some("title"), Some("description"));
    var failing := Replies(true, true, false, Some(0), _ => false, _ => false, _ => false, _ => true);
    var second := failing.(recordFails := _ => false);
    var first := AfterCall(Records([], []), [entry], None, failing);
    TitleIsValid();
    OneEntry(Records([], []), entry, failing);
    OneEntry(first, entry, second);
    assert [failing, second][1..] == [second];
    assert AfterCalls(AfterCall(first, [entry], None, second), [entry], None, [second][1..]) ==
      AfterCall(first, [entry], None, second);
  }

  lemma TitleIsValid()
    ensures IsValid(Entry(Some("title"), Some("description")))
  {
    assert "title"[0] == 't' && "title"[4] == 'e';
    assert TrimStart("title") == "title" && TrimEnd("title") == "title";
  }

  lemma OneEntry(q: Records, entry: Entry, r: Replies)
    requires IsValid(entry) && q.events == [] && r.eventsReadable && !r.addFails(0)
    ensures AfterCall(q, [entry], None, r).drafts == q.drafts + [DraftOf(entry, 0, None, r)]
    ensures AfterCall(q, [entry], None, r).events == if r.recordFails(0) then [] else [EventOf(entry, 0, None, r)]
  {
    assert DraftsTo([entry], 0, None, q.events, r) == [] && EventsTo([entry], 0, None, q.events, r) == [];
    assert DraftsTo([entry], 1, None, q.events, r) == [DraftOf(entry, 0, None, r)];
  }
}
