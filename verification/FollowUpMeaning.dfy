/** What one call of `register_follow_ups` writes, entry by entry. */
module FollowUpMeaning {
  import opened Outcomes
  import opened Text
  import opened FollowUps

  /** No event of `before` is of entry `index`. */
  ghost predicate IsNew(index: nat, before: seq<Registered>) {
    forall e :: e in before ==> e.index != index
  }

  /** The entry has a description and a title that is not blank: `title`,
      without the blanks around it. */
  ghost predicate HasTitle(entry: Entry, title: string) {
    entry.title.Some? && Trim(entry.title.value) == title && title != "" && entry.description.Some?
  }

  /** `d` is the draft of its entry: not recorded before and added, with its
      texts, in the goal unless that is closed, one deeper than the task that
      proposed it, or 2 deep where that depth cannot be read. */
  ghost predicate IsDraft(d: Draft, entries: seq<Entry>, goal: Option<int>, before: seq<Registered>, r: Replies) {
    && d.index < |entries| && IsNew(d.index, before) && !r.addFails(d.index)
    && HasTitle(entries[d.index], d.title) && entries[d.index].description == Some(d.description)
    && d.goalId == (if goal.Some? && r.goalClosed then None else goal)
    && d.depth == (if r.depthFails(d.index) then None else Some(if r.depth.Some? then r.depth.value + 1 else 2))
    && d.hasOrigin == !r.originFails(d.index)
  }

  /** `e` is the event of its entry: of its draft, or of an entry skipped
      for its texts, with the title as it stands there. */
  ghost predicate IsEvent(e: Registered, entries: seq<Entry>, goal: Option<int>, before: seq<Registered>, r: Replies) {
    && e.index < |entries| && IsNew(e.index, before) && !r.recordFails(e.index)
    && (if e.skipped then
          (forall title :: !HasTitle(entries[e.index], title)) && e.title == entries[e.index].title && !e.goalClosed
        else
          && e.title.Some? && HasTitle(entries[e.index], e.title.value) && !r.addFails(e.index)
          && e.goalClosed == (goal.Some? && r.goalClosed))
  }

  ghost predicate Ascends(indices: seq<nat>, k: nat) {
    && (forall i, j :: 0 <= i < j < |indices| ==> indices[i] < indices[j])
    && forall i :: 0 <= i < |indices| ==> indices[i] < k
  }

  lemma AscendsOn(indices: seq<nat>, k: nat)
    requires Ascends(indices, k)
    ensures Ascends(indices, k + 1) && Ascends(indices + [k], k + 1)
  {
  }

  lemma EntryIs(entries: seq<Entry>, i: nat, goal: Option<int>, before: seq<Registered>, r: Replies)
    requires i < |entries|
    ensures IsRegistered(before, i) <==> !IsNew(i, before)
    ensures IsValid(entries[i]) <==> exists title :: HasTitle(entries[i], title)
    ensures IsValid(entries[i]) <==> HasTitle(entries[i], TitleOf(entries[i]))
  {
    assert IsValid(entries[i]) ==> HasTitle(entries[i], TitleOf(entries[i]));
    assert forall j :: 0 <= j < |before| ==> EventIndices(before)[j] == before[j].index;
    if IsRegistered(before, i) {
      var j :| 0 <= j < |EventIndices(before)| && EventIndices(before)[j] == i;
      assert before[j] in before;
    }
    if !IsNew(i, before) {
      var e :| e in before && e.index == i;
      var j :| 0 <= j < |before| && before[j] == e;
      assert EventIndices(before)[j] == i;
    }
  }

  /** The drafts of a call: in the entries' order, exactly those that are a
      draft of their entry. */
  lemma {:induction false} DraftsAre(entries: seq<Entry>, k: nat, goal: Option<int>, before: seq<Registered>,
                                     r: Replies)
    requires k <= |entries|
    ensures var drafts := DraftsTo(entries, k, goal, before, r);
      && Ascends(DraftIndices(drafts), k)
      && forall d :: d in drafts <==> d.index < k && IsDraft(d, entries, goal, before, r)
  {
    if k > 0 {
      DraftsAre(entries, k - 1, goal, before, r);
      OneDraft(entries, k - 1, goal, before, r);
      var init := DraftsTo(entries, k - 1, goal, before, r);
      var more := DraftAt(entries, k - 1, goal, before, r);
      DraftAppended(init, more, k - 1);
      assert forall d :: d in init + more <==> d in init || d in more;
    }
  }

  lemma DraftAppended(init: seq<Draft>, more: seq<Draft>, k: nat)
    requires Ascends(DraftIndices(init), k) && (more == [] || (|more| == 1 && more[0].index == k))
    ensures Ascends(DraftIndices(init + more), k + 1)
  {
    AscendsOn(DraftIndices(init), k);
    DraftIndicesTogether(init, more);
    assert DraftIndices(more) == [] || DraftIndices(more) == [k];
    assert DraftIndices(init) + [] == DraftIndices(init);
  }

  function DraftAt(entries: seq<Entry>, i: nat, goal: Option<int>, before: seq<Registered>, r: Replies): seq<Draft>
    requires i < |entries|
  {
    if Adds(entries[i], i, before, r) then [DraftOf(entries[i], i, goal, r)] else []
  }

  lemma OneDraft(entries: seq<Entry>, i: nat, goal: Option<int>, before: seq<Registered>, r: Replies)
    requires i < |entries|
    ensures forall d :: d in DraftAt(entries, i, goal, before, r) <==>
      d.index == i && IsDraft(d, entries, goal, before, r)
  {
    EntryIs(entries, i, goal, before, r);
  }

  /** The events of a call likewise. */
  lemma {:induction false} EventsAre(entries: seq<Entry>, k: nat, goal: Option<int>, before: seq<Registered>,
                                     r: Replies)
    requires k <= |entries|
    ensures var events := EventsTo(entries, k, goal, before, r);
      && Ascends(EventIndices(events), k)
      && forall e :: e in events <==> e.index < k && IsEvent(e, entries, goal, before, r)
  {
    if k > 0 {
      EventsAre(entries, k - 1, goal, before, r);
      OneEvent(entries, k - 1, goal, before, r);
      var init := EventsTo(entries, k - 1, goal, before, r);
      var more := EventAt(entries, k - 1, goal, before, r);
      EventAppended(init, more, k - 1);
      assert forall e :: e in init + more <==> e in init || e in more;
    }
  }

  lemma EventAppended(init: seq<Registered>, more: seq<Registered>, k: nat)
    requires Ascends(EventIndices(init), k) && (more == [] || (|more| == 1 && more[0].index == k))
    ensures Ascends(EventIndices(init + more), k + 1)
  {
    AscendsOn(EventIndices(init), k);
    EventIndicesTogether(init, more);
    assert EventIndices(more) == [] || EventIndices(more) == [k];
    assert EventIndices(init) + [] == EventIndices(init);
  }

  function EventAt(entries: seq<Entry>, i: nat, goal: Option<int>, before: seq<Registered>, r: Replies): seq<Registered>
    requires i < |entries|
  {
    if RecordsEntry(entries[i], i, before, r) then [EventOf(entries[i], i, goal, r)] else []
  }

  lemma OneEvent(entries: seq<Entry>, i: nat, goal: Option<int>, before: seq<Registered>, r: Replies)
    requires i < |entries|
    ensures forall e :: e in EventAt(entries, i, goal, before, r) <==>
      e.index == i && IsEvent(e, entries, goal, before, r)
  {
    EntryIs(entries, i, goal, before, r);
  }

  /** A call that can read the run's events, and the task's goal if it has
      one, appends those drafts and those events; any other changes nothing. */
  lemma CallWrites(q: Records, entries: seq<Entry>, goal: Option<int>, r: Replies)
    ensures var done := AfterCall(q, entries, goal, r);
      if r.eventsReadable && (goal == None || r.goalReadable) then
        exists drafts, events ::
          && done == Records(q.drafts + drafts, q.events + events)
          && Ascends(DraftIndices(drafts), |entries|) && Ascends(EventIndices(events), |entries|)
          && (forall d :: d in drafts <==> IsDraft(d, entries, goal, q.events, r))
          && (forall e :: e in events <==> IsEvent(e, entries, goal, q.events, r))
      else done == q
  {
    if r.eventsReadable && (goal == None || r.goalReadable) {
      DraftsAre(entries, |entries|, goal, q.events, r);
      EventsAre(entries, |entries|, goal, q.events, r);
      var drafts := DraftsTo(entries, |entries|, goal, q.events, r);
      var events := EventsTo(entries, |entries|, goal, q.events, r);
      assert AfterCall(q, entries, goal, r) == Records(q.drafts + drafts, q.events + events);
    }
  }
}
