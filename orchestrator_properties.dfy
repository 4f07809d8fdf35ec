/** What the key handlers of orchestrator.py promise, stated over the
    handler functions of module Orchestrator: overlays and Esc, the leader
    and the double `d`, the targets of delete and edit, the day jumps and
    month navigation, and the invariant that the agenda selection stays on
    the list. */
module OrchestratorProperties {
  import opened Common
  import opened Dates
  import opened Models
  import opened UiBase
  import opened Store
  import opened State
  import opened Keys
  import opened Orchestrator
  import ViewAgenda
  import ViewMonth
  import Seqs

  // ---------------------------------------------------------------------
  // Overlays, Esc, the leader

  /** An error or message overlay swallows the next key, whatever it is,
      and changes nothing else. */
  lemma OverlaySwallowsKey(u: Ui, ch: int, env: Env)
    requires u.overlay.ErrorOverlay? || u.overlay.MessageOverlay?
    ensures KeyHandled(u, ch, env) == Step(u.(overlay := NoOverlay), Handled(true))
  {
  }

  /** Esc always asks for a redraw. With no overlay and no leader it leaves
      the events pane, drops the overlay, the leader and an armed delete,
      and keeps the events. */
  lemma EscAlwaysRedraws(u: Ui, env: Env)
    ensures KeyHandled(u, KeyEsc, env).outcome == Handled(true)
    ensures u.overlay.NoOverlay? && !u.leaderActive ==> KeyHandled(u, KeyEsc, env).ui == Escaped(u)
    ensures KeyHandled(u, KeyEsc, env).ui.events == u.events
  {
  }

  /** `,` arms the leader without a redraw; `a` within 1000 ms then shows
      the agenda and nothing else changes. */
  lemma LeaderThenAgenda(u: Ui, env1: Env, env2: Env)
    requires u.overlay.NoOverlay? && !u.leaderActive
    requires env2.nowMs - env1.nowMs <= LeaderTimeoutMs
    ensures var s1 := KeyHandled(u, KeyLeader, env1);
      s1 == Step(u.(leaderActive := true, leaderStartedAt := Some(env1.nowMs)), Handled(false)) &&
      KeyHandled(LeaderTimedOut(s1.ui, env2.nowMs), KeyA, env2) ==
        Step(u.(leaderStartedAt := Some(env1.nowMs), view := Agenda), Handled(true))
  {
  }

  /** A leader armed at a nonzero time expires more than 1000 ms later, and
      the `a` that follows is then an ordinary key: the view stays. */
  lemma LeaderExpires(u: Ui, env1: Env, env2: Env)
    requires u.overlay.NoOverlay? && !u.leaderActive
    requires env1.nowMs != 0 && env2.nowMs - env1.nowMs > LeaderTimeoutMs
    ensures var w := LeaderTimedOut(KeyHandled(u, KeyLeader, env1).ui, env2.nowMs);
      !w.leaderActive && KeyHandled(w, KeyA, env2).ui.view == u.view
  {
  }

  // ---------------------------------------------------------------------
  // The double d

  /** Two `d` presses more than 600 ms apart never delete: the first arms,
      the second arms again from its own time. */
  lemma SlowDoubleDRearms(u: Ui, t1: int, t2: int, delete: (seq<Event>, Event) -> Removal)
    requires !u.pendingActive && t2 - t1 > DeleteTimeoutMs
    ensures var first := DeleteKeyHandled(u, KeyD, t1, delete);
      first == DeleteKeyStep(u.(pendingActive := true, pendingStartedAt := t1, pendingView := u.view), Some(Handled(false))) &&
      DeleteKeyHandled(first.ui, KeyD, t2, delete) ==
        DeleteKeyStep(u.(pendingActive := true, pendingStartedAt := t2, pendingView := u.view), Some(Handled(false)))
  {
  }

  /** Two `d` presses at most 600 ms apart delete once, with the delete
      disarmed. */
  lemma QuickDoubleDDeletes(u: Ui, t1: int, t2: int, delete: (seq<Event>, Event) -> Removal)
    requires !u.pendingActive && t2 - t1 <= DeleteTimeoutMs
    ensures var second := DeleteKeyHandled(DeleteKeyHandled(u, KeyD, t1, delete).ui, KeyD, t2, delete);
      var s := DeletePerformed(u.(pendingStartedAt := t1, pendingView := u.view), delete);
      second == DeleteKeyStep(s.ui, Some(s.outcome)) && !second.ui.pendingActive
  {
    var v := u.(pendingStartedAt := t1, pendingView := u.view);
    DeleteLeavesPending(v, delete);
  }

  /** `_perform_delete` leaves the pending-delete entries alone. */
  lemma DeleteLeavesPending(u: Ui, delete: (seq<Event>, Event) -> Removal)
    ensures var s := DeletePerformed(u, delete).ui;
      s.pendingActive == u.pendingActive && s.pendingStartedAt == u.pendingStartedAt && s.pendingView == u.pendingView
  {
    var target := TargetIn(u, MonthEvents(u));
    if target.Chosen? && delete(u.events, target.event).Removed? {
      var r := AfterDelete(u, delete(u.events, target.event).events);
      assert r == u.(events := r.events, agendaIndex := r.agendaIndex, monthIndex := r.monthIndex);
    }
  }

  // ---------------------------------------------------------------------
  // Delete targets

  /** The day's events as the events pane lists them. */
  function Pane(u: Ui): seq<Event>
  {
    ViewMonth.EventsOn(ViewMonth.Grouped(u.events), u.monthDate)
  }

  /** In the month view, with the events pane focused, `dd` deletes the
      event the pane draws reversed, and only that row is reversed. */
  lemma DeletesHighlightedEvent(u: Ui, y: int, usableW: nat)
    requires u.view.Month? && u.monthFocus.EventsPane? && |Pane(u)| > 0
    ensures var sel := Clamp(u.monthIndex, 0, |Pane(u)| - 1);
      TargetIn(u, MonthEvents(u)) == Chosen(Pane(u)[sel]) &&
      forall i :: 0 <= i < |Pane(u)| ==> (Reverse in ViewMonth.PaneRow(Seqs.Map(Pane(u), ViewMonth.PaneLine), y, usableW, true, sel, i).attrs <==> i == sel)
  {
  }

  /** With the agenda selection on the list, a delete never raises, and the
      selection stays on the new list. */
  lemma DeleteKeepsSelection(u: Ui, delete: (seq<Event>, Event) -> Removal)
    requires AgendaIndexValid(u)
    ensures DeletePerformed(u, delete).outcome.Handled?
    ensures AgendaIndexValid(DeletePerformed(u, delete).ui)
  {
  }

  // ---------------------------------------------------------------------
  // Day jumps

  /** `l` in the agenda: it moves exactly when a later event is on a later
      day, and then to the nearest such event. */
  lemma DayJumpForward(u: Ui)
    requires AgendaIndexValid(u) && |u.events| > 0
    ensures var s := AgendaDayJumped(u, 1); var day := u.events[u.agendaIndex].datetime.date;
      s.outcome.Handled? &&
      (s.outcome.redraw <==> exists j :: u.agendaIndex < j < |u.events| && DateBefore(day, u.events[j].datetime.date)) &&
      (!s.outcome.redraw ==> s.ui == u) &&
      (s.outcome.redraw ==> (s.ui == u.(agendaIndex := s.ui.agendaIndex) &&
        u.agendaIndex < s.ui.agendaIndex < |u.events| && DateBefore(day, u.events[s.ui.agendaIndex].datetime.date) &&
        forall j :: u.agendaIndex < j < s.ui.agendaIndex ==> !DateBefore(day, u.events[j].datetime.date)))
  {
    var s := AgendaDayJumped(u, 1);
    var day := u.events[u.agendaIndex].datetime.date;
    var found := FirstLaterDay(u.events, u.agendaIndex + 1, day);
    if exists j :: u.agendaIndex < j < |u.events| && DateBefore(day, u.events[j].datetime.date) {
      assert found.Some?;
    }
  }

  /** `h` in the agenda: it moves exactly when an earlier event is on an
      earlier day, and then to the first event in the list on the day of
      the nearest such event. */
  lemma DayJumpBackward(u: Ui)
    requires AgendaIndexValid(u) && |u.events| > 0
    ensures var s := AgendaDayJumped(u, -1); var day := u.events[u.agendaIndex].datetime.date;
      s.outcome.Handled? &&
      (s.outcome.redraw <==> exists j :: 0 <= j < u.agendaIndex && DateBefore(u.events[j].datetime.date, day)) &&
      (!s.outcome.redraw ==> s.ui == u) &&
      (s.outcome.redraw ==> (s.ui == u.(agendaIndex := s.ui.agendaIndex) && s.ui.agendaIndex < |u.events| &&
        var k := s.ui.agendaIndex; var target := u.events[k].datetime.date;
        DateBefore(target, day) &&
        (exists i :: k <= i < u.agendaIndex && u.events[i].datetime.date == target &&
          forall j :: i < j < u.agendaIndex ==> !DateBefore(u.events[j].datetime.date, day)) &&
        forall j :: 0 <= j < k ==> u.events[j].datetime.date != target))
  {
    var s := AgendaDayJumped(u, -1);
    var day := u.events[u.agendaIndex].datetime.date;
    var found := LastEarlierDay(u.events, u.agendaIndex, day);
    if exists j :: 0 <= j < u.agendaIndex && DateBefore(u.events[j].datetime.date, day) {
      assert found.Some?;
    }
    if found.Some? {
      var i := found.value;
      var target := u.events[i].datetime.date;
      var k := FirstOnDay(u.events, target, 0, i);
      assert s.ui.agendaIndex == k;
      assert k <= i;
      assert u.events[k].datetime.date == target;
    }
  }

  // ---------------------------------------------------------------------
  // Month keys

  /** The events pane, when focused, highlights one of the day's events. */
  predicate PaneIndexValid(u: Ui)
  {
    u.monthFocus.EventsPane? ==> u.monthIndex < |MonthEvents(u)|
  }

  /** Month keys keep the events pane's selection on the day's events. */
  lemma MonthKeysKeepPaneIndex(u: Ui, ch: int)
    requires PaneIndexValid(u)
    ensures PaneIndexValid(MonthKeysHandled(u, ch).ui)
  {
    var r := MonthKeysHandled(u, ch).ui;
    assert r.events == u.events;
    assert MonthEvents(r) == ViewMonth.EventsOn(ViewMonth.Grouped(u.events), r.monthDate);
  }

  /** Tab moves the focus from the grid to the events pane exactly when the
      selected day has events. */
  lemma TabEntersPane(u: Ui)
    requires u.monthFocus.Grid?
    ensures var s := MonthKeysHandled(u, KeyTab);
      (s.outcome == Handled(true) <==> |MonthEvents(u)| > 0) && (s.outcome == Handled(true) <==> s.ui.monthFocus.EventsPane?)
  {
  }

  /** On the grid, `l` undoes `h`, except that the pane selection goes
      back to the first event. */
  lemma GridDayMovesUndo(u: Ui)
    requires u.monthFocus.Grid?
    ensures MonthKeysHandled(MonthKeysHandled(u, KeyH).ui, KeyL).ui == u.(monthIndex := 0)
  {
    ViewMonth.MoveDayCompose(u.monthDate, -1, 1);
  }

  /** `j` then `k` in the grid comes back to the same day. */
  lemma GridWeekMovesUndo(u: Ui)
    requires u.monthFocus.Grid?
    ensures MonthKeysHandled(MonthKeysHandled(u, KeyJ).ui, KeyK).ui == u.(monthIndex := 0)
  {
    var d := ViewMonth.MoveWeek(u.monthDate, 1);
    assert GridMove(u.monthDate, KeyJ) == Some(d);
    var v := MonthKeysHandled(u, KeyJ).ui;
    assert v == u.(monthDate := d, monthIndex := 0);
    assert GridMove(d, KeyK) == Some(ViewMonth.MoveWeek(d, -1));
    ViewMonth.MoveWeekUndo(u.monthDate, 1);
  }

  // ---------------------------------------------------------------------
  // Editing

  /** The editor path never declines: the `if not seeds` branch is dead. */
  lemma EditNeverDeclines(u: Ui, forceNew: bool, today: CalendarDate, editor: Payload -> EditorResult)
    ensures EditedOrCreated(u, forceNew, today, editor).outcome != Handled(false)
  {
  }

  /** A new event in the agenda starts at 09:00 today, with empty title and
      details, for a four-digit year. */
  lemma NewAgendaEventSeed(u: Ui, today: CalendarDate)
    requires 1000 <= today.year <= 9999
    ensures AgendaSeeds(u, true, today) == Ok([Event(DateTime(today, 9, 0, 0), "", "")])
  {
    SeedEventOnDay(today);
  }

  /** Without originals every edited event is appended, in order. */
  lemma {:induction false} UpsertAllAppends(events: seq<Event>, updated: seq<Event>)
    ensures UpsertAll(events, updated, []) == events + updated
    decreases |updated|
  {
    if |updated| > 0 {
      var n := |updated| - 1;
      UpsertAllAppends(events, updated[..n]);
      assert events + updated == events + updated[..n] + [updated[n]];
    }
  }

  /** Upserting never shortens the list, and adds at most one event per
      edited event. */
  lemma {:induction false} UpsertAllLength(events: seq<Event>, updated: seq<Event>, originals: seq<Event>)
    ensures |events| <= |UpsertAll(events, updated, originals)| <= |events| + |updated|
    decreases |updated|
  {
    if |updated| > 0 {
      UpsertAllLength(events, updated[..|updated| - 1], originals);
    }
  }

  /** With at most one original, the first edited event is in the result:
      the later ones only append. */
  lemma {:induction false} UpsertAllKeepsFirst(events: seq<Event>, updated: seq<Event>, originals: seq<Event>)
    requires |updated| > 0 && |originals| <= 1
    ensures updated[0] in UpsertAll(events, updated, originals)
    decreases |updated|
  {
    var n := |updated| - 1;
    if n > 0 {
      UpsertAllKeepsFirst(events, updated[..n], originals);
      assert updated[..n][0] == updated[0];
    }
  }

  /** After an edit in the agenda the selection is on the first edited
      event. */
  lemma AgendaEditSelectsEdited(u: Ui, updated: seq<Event>, originals: seq<Event>)
    requires u.view.Agenda? && |updated| > 0 && |originals| <= 1
    ensures var s := EditApplied(u, updated, originals);
      s.outcome == Handled(true) && s.ui.agendaIndex < |s.ui.events| && s.ui.events[s.ui.agendaIndex] == updated[0]
  {
    var newEvents := UpsertAll(u.events, updated, originals);
    UpsertAllKeepsFirst(u.events, updated, originals);
    assert newEvents[0..] == newEvents;
  }

  /** Editing the selected agenda event into one event replaces it: the
      original goes, the edited event is appended and selected. */
  lemma AgendaEditReplacesSelected(u: Ui, today: CalendarDate, editor: Payload -> EditorResult, e: Event)
    requires u.view.Agenda? && 0 <= u.agendaIndex < |u.events|
    requires editor(OneEvent(u.events[u.agendaIndex])) == Edited([e])
    ensures var s := EditedOrCreated(u, false, today, editor);
      s.outcome == Handled(true) && s.ui.events == RemoveFirst(u.events, u.events[u.agendaIndex]) + [e] &&
      s.ui.events[s.ui.agendaIndex] == e
  {
    var o := u.events[u.agendaIndex];
    var plan := EditPlan(u, false, today);
    assert plan == Ok(Plan([o], true, [o]));
    assert PayloadOf([o]) == OneEvent(o);
    AgendaEditSelectsEdited(u, [e], [o]);
    assert [e][..0] == [];
    assert UpsertAll(u.events, [e], [o]) == Upserted(u.events, e, true, Some(o));
  }

  /** Applying an edit keeps the agenda selection on the list, when in
      the agenda at most one original is replaced. */
  lemma EditAppliedKeepsSelection(u: Ui, updated: seq<Event>, originals: seq<Event>)
    requires AgendaIndexValid(u)
    requires u.view.Agenda? ==> |originals| <= 1
    ensures AgendaIndexValid(EditApplied(u, updated, originals).ui)
  {
    UpsertAllLength(u.events, updated, originals);
    if u.view.Agenda? && |updated| > 0 {
      AgendaEditSelectsEdited(u, updated, originals);
    }
  }

  /** An edit keeps the agenda selection on the list. */
  lemma EditKeepsSelection(u: Ui, forceNew: bool, today: CalendarDate, editor: Payload -> EditorResult)
    requires AgendaIndexValid(u)
    ensures AgendaIndexValid(EditedOrCreated(u, forceNew, today, editor).ui)
  {
    var plan := EditPlan(u, forceNew, today);
    if plan.Ok? && editor(PayloadOf(plan.value.seeds)).Edited? {
      var updated := editor(PayloadOf(plan.value.seeds)).events;
      var originals := if plan.value.allowOverwrite then plan.value.originals else [];
      EditAppliedKeepsSelection(u, updated, originals);
    }
  }

  // ---------------------------------------------------------------------
  // The agenda selection stays on the list

  /** Agenda keys keep the selection on the list. */
  lemma AgendaKeysKeepSelection(u: Ui, ch: int)
    requires AgendaIndexValid(u)
    ensures AgendaIndexValid(AgendaKeysHandled(u, ch).ui)
    ensures AgendaKeysHandled(u, ch).outcome.Handled?
  {
    if |u.events| > 0 {
      if ch == KeyH {
        DayJumpBackward(u);
      } else if ch == KeyL {
        DayJumpForward(u);
      }
    }
  }

  /** The keys after the delete key keep the selection on the list. */
  lemma UnprefixedKeepsSelection(u: Ui, ch: int, env: Env)
    requires AgendaIndexValid(u)
    ensures AgendaIndexValid(Unprefixed(u, ch, env).ui)
  {
    if ch == KeyHelp || ch == KeyEsc || ch == KeyToday {
    } else if ch == KeyI {
      if u.view.Agenda? {
        EditKeepsSelection(u, |u.events| == 0, env.today, env.editor);
      } else {
        EditKeepsSelection(u, false, env.today, env.editor);
      }
    } else if u.view.Agenda? {
      assert Unprefixed(u, ch, env) == AgendaKeysHandled(u, ch);
      AgendaKeysKeepSelection(u, ch);
    } else {
      assert Unprefixed(u, ch, env) == MonthKeysHandled(u, ch);
      MonthKeysKeepSelection(u, ch);
    }
  }

  /** Month keys change only the selected day, the pane selection and the
      focus. */
  lemma MonthKeysKeepSelection(u: Ui, ch: int)
    ensures var r := MonthKeysHandled(u, ch).ui;
      r == u.(monthDate := r.monthDate, monthIndex := r.monthIndex, monthFocus := r.monthFocus)
  {
  }

  /** Every key keeps the agenda selection on the list of events: the
      property the corrected `_perform_delete` restores. */
  lemma KeyKeepsSelection(u: Ui, ch: int, env: Env)
    requires AgendaIndexValid(u)
    ensures AgendaIndexValid(KeyHandled(u, ch, env).ui)
  {
    if !(u.overlay.Help? && ch == KeyEsc) && !u.overlay.ErrorOverlay? && !u.overlay.MessageOverlay? {
      DispatchedKeepsSelection(u, ch, env);
    }
  }

  /** The leader, the delete key and the rest keep the selection on the
      list. */
  lemma DispatchedKeepsSelection(u: Ui, ch: int, env: Env)
    requires AgendaIndexValid(u)
    ensures AgendaIndexValid(Dispatched(u, ch, env).ui)
  {
    if u.leaderActive {
      LeaderKeepsSelection(u.(leaderActive := false), ch, env);
    } else if ch == KeyD {
      DeleteKeyKeepsSelection(u, env.nowMs, env.delete);
    } else if ch != KeyLeader {
      UnprefixedKeepsSelection(u.(pendingActive := false), ch, env);
    }
  }

  /** The key after the leader keeps the selection on the list. */
  lemma LeaderKeepsSelection(u: Ui, ch: int, env: Env)
    requires AgendaIndexValid(u)
    ensures AgendaIndexValid(LeaderFollowed(u, ch, env).ui)
  {
    if ch == KeyN {
      EditKeepsSelection(u, true, env.today, env.editor);
    }
  }

  /** The delete key keeps the selection on the list. */
  lemma DeleteKeyKeepsSelection(u: Ui, nowMs: int, delete: (seq<Event>, Event) -> Removal)
    requires AgendaIndexValid(u)
    ensures AgendaIndexValid(DeleteKeyHandled(u, KeyD, nowMs, delete).ui)
  {
    DeleteKeepsSelection(u.(pendingActive := false), delete);
  }

  /** With the selection on the list no key in the agenda raises
      IndexError, except an edit whose editor returns no events. */
  lemma NoIndexErrorWithValidSelection(u: Ui, ch: int, env: Env)
    requires AgendaIndexValid(u) && u.view.Agenda? && u.overlay.NoOverlay? && !u.leaderActive
    requires ch != KeyI
    ensures KeyHandled(u, ch, env).outcome.Handled?
  {
    if ch == KeyD {
      DeleteKeepsSelection(u.(pendingActive := false), env.delete);
    } else {
      AgendaKeysKeepSelection(u.(pendingActive := false), ch);
    }
  }

  // ---------------------------------------------------------------------
  // Findings

  /** A calendar service whose deletion removes the first equal event. */
  function DropTarget(events: seq<Event>, target: Event): Removal
  {
    Removed(RemoveFirst(events, target))
  }

  function EventAt(d: CalendarDate, hour: int, title: string): Event
    requires 0 <= hour < 24
  {
    Event(DateTime(d, hour, 0, 0), title, "")
  }

  /** Two events on different days; the agenda selection is on the second;
      the month view shows its day with the events pane focused. */
  function StaleIndexCase(d1: CalendarDate, d2: CalendarDate): Ui
  {
    Ui(Month, false, None, NoOverlay, "", [EventAt(d1, 10, "a"), EventAt(d2, 10, "b")], 1, 0, EventsPane, d2, 0, false, 0, Agenda)
  }

  /** As written, deleting the second event from the month view leaves the
      agenda selection past the end of the list. */
  lemma MonthDeleteLeavesStaleIndex(d1: CalendarDate, d2: CalendarDate)
    requires d1 != d2
    ensures var s := DeletePerformedAsWritten(StaleIndexCase(d1, d2), DropTarget);
      s.outcome == Handled(true) && s.ui.events == [EventAt(d1, 10, "a")] && s.ui.agendaIndex == 1 &&
      !AgendaIndexValid(s.ui) && s.ui.overlay.NoOverlay? && !s.ui.leaderActive
  {
    var u := StaleIndexCase(d1, d2);
    var e1, e2 := u.events[0], u.events[1];
    assert ViewMonth.OnDate([e1], d2) == [] by {
      assert [e1][..0] == [];
    }
    assert ViewMonth.OnDate(u.events, d2) == [e2] by {
      assert u.events[..1] == [e1];
    }
    assert RemoveFirst(u.events, e2) == [e1] by {
      assert u.events[1..] == [e2];
    }
  }

  /** With the selection past the end of a non-empty list, `,` `a` shows
      the agenda, where `l` and `dd` raise IndexError. */
  lemma StaleIndexRaises(w: Ui, env: Env)
    requires w.overlay.NoOverlay? && !w.leaderActive && 0 < |w.events| <= w.agendaIndex
    ensures var w1 := KeyHandled(w, KeyLeader, env).ui;
      var w2 := KeyHandled(w1, KeyA, env).ui;
      w2.view.Agenda? && KeyHandled(w2, KeyL, env).outcome == Raised(IndexErrorText) &&
      DeletePerformed(w2, env.delete).outcome == Raised(IndexErrorText)
  {
  }

  /** The corrected delete from the same state keeps the selection on the
      list. */
  lemma MonthDeleteKeepsIndex(d1: CalendarDate, d2: CalendarDate)
    ensures AgendaIndexValid(DeletePerformed(StaleIndexCase(d1, d2), DropTarget).ui)
  {
    DeleteKeepsSelection(StaleIndexCase(d1, d2), DropTarget);
  }

  /** Two events on day d, listed 10:00 first and 08:00 second, with the
      events pane focused on its first row. */
  function PaneOrderCase(d: CalendarDate): Ui
  {
    Ui(Month, false, None, NoOverlay, "", [EventAt(d, 10, "A"), EventAt(d, 8, "B")], 0, 0, EventsPane, d, 0, false, 0, Agenda)
  }

  /** As written, `dd` and `i` take the first event in list order (10:00)
      while the pane lists by time and highlights the 08:00 event. */
  lemma ListOrderMissesHighlight(d: CalendarDate)
    ensures var u := PaneOrderCase(d);
      TargetIn(u, MonthEventsAsWritten(u)) == Chosen(u.events[0]) &&
      Pane(u)[Clamp(u.monthIndex, 0, |Pane(u)| - 1)] == u.events[1] && u.events[0] != u.events[1]
  {
    var u := PaneOrderCase(d);
    var a, b := u.events[0], u.events[1];
    assert ViewMonth.OnDate([a], d) == [a] by {
      assert [a][..0] == [];
    }
    assert ViewMonth.OnDate(u.events, d) == [a, b] by {
      assert u.events[..1] == [a];
    }
    assert SortBy(ByDatetime, [a, b]) == [b, a] by {
      assert [a, b][..1] == [a];
      assert [a][..0] == [];
      assert SortBy(ByDatetime, [a]) == [a];
      assert !Leq(ByDatetime, a, b);
    }
    ViewMonth.GroupedBuckets(u.events, d);
  }

  /** As written, `i` on the same state seeds the editor with the 10:00
      event and replaces it, while the pane highlights the 08:00 event. */
  lemma ListOrderEditsUnhighlighted(d: CalendarDate, today: CalendarDate)
    ensures var u := PaneOrderCase(d);
      EditPlanAsWritten(u, false, today) == Ok(Plan([u.events[0]], true, [u.events[0]])) &&
      Pane(u)[Clamp(u.monthIndex, 0, |Pane(u)| - 1)] == u.events[1] && u.events[0] != u.events[1]
  {
    var u := PaneOrderCase(d);
    ListOrderMissesHighlight(d);
    var w := MonthEventsAsWritten(u);
    assert TargetIn(u, w) == Chosen(u.events[0]);
    assert |w| > 0 && w[0] == u.events[0];
    assert EditPlanAsWritten(u, false, today) == Ok(Plan([w[0]], true, [w[0]]));
  }
}
