/** The application state (state.py): which view is shown, the leader
    prefix, the overlay, the loaded events and each view's selection. */
module State {
  import opened Common
  import opened Dates
  import opened Models

  datatype View = Agenda | Month

  /** Where the month view's cursor is: on the day grid or in the list of
      the selected day's events. */
  datatype Focus = Grid | EventsPane

  datatype Overlay = NoOverlay | Help | ErrorOverlay | MessageOverlay

  /** `LeaderState`: whether the `,` prefix is armed, and when. */
  class LeaderState {
    var active: bool
    var startedAtMs: Option<int>
    /** Declared but never written by the program. */
    const sequence: string

    constructor()
      ensures !active && startedAtMs == None && sequence == ""
    {
      active := false;
      startedAtMs := None;
      sequence := "";
    }
  }

  /** `AppState`. The fields the program never reassigns are constants; the
      two selection indices are naturals because every assignment to them
      is a clamp, a search result or 0. */
  class AppState {
    var view: View
    const leader: LeaderState
    var overlay: Overlay
    var overlayMessage: string
    const focusedDate: CalendarDate

    var events: seq<Event>

    var agendaIndex: nat
    var agendaScroll: int
    const agendaExpandAll: bool
    const agendaCol: int

    var monthFocus: Focus
    var monthSelectedDate: CalendarDate
    var monthEventIndex: nat

    /** `AppState()` on the day `today`: month view, no overlay, no events,
        both selections at the start, and the grid on today. */
    constructor(today: CalendarDate)
      ensures view == Month && fresh(leader) && !leader.active && leader.startedAtMs == None
      ensures overlay == NoOverlay && overlayMessage == "" && focusedDate == today
      ensures events == [] && agendaIndex == 0 && agendaScroll == 0 && agendaExpandAll && agendaCol == 0
      ensures monthFocus == Grid && monthSelectedDate == today && monthEventIndex == 0
    {
      view := Month;
      leader := new LeaderState();
      overlay := NoOverlay;
      overlayMessage := "";
      focusedDate := today;
      events := [];
      agendaIndex := 0;
      agendaScroll := 0;
      agendaExpandAll := true;
      agendaCol := 0;
      monthFocus := Grid;
      monthSelectedDate := today;
      monthEventIndex := 0;
    }
  }
}
