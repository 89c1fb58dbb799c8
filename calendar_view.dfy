/** The administrator's month calendar: one status per day of the displayed
    month (no slots, open, closed) and what a click on a day does.  The
    browser reads slot instants in its own time zone; `zoneOffsetMs` is that
    zone's offset from UTC. */
module CalendarView {
  import opened Common
  import opened Calendar
  import Slots
  import Records

  /** A slot as the calendar receives it. */
  datatype CalendarSlot = CalendarSlot(startTime: int, isAvailable: bool)

  /** 'closed', 'open' and 'unset'. */
  datatype Status = Closed | Open | Unset

  /** One day of the calendar; `day` is its epoch day. */
  datatype DayStatus = DayStatus(day: int, status: Status, hasTimeSlots: bool)

  /** The local calendar day of an instant. */
  function LocalDay(t: int, zoneOffsetMs: int): int
  {
    EpochDay(t + zoneOffsetMs)
  }

  /** The slots whose local date is `day`. */
  function SlotsOn(slots: seq<CalendarSlot>, day: int, zoneOffsetMs: int): (r: seq<CalendarSlot>)
    ensures forall s :: s in r <==> s in slots && LocalDay(s.startTime, zoneOffsetMs) == day
  {
    if slots == [] then []
    else
      (if LocalDay(slots[0].startTime, zoneOffsetMs) == day then [slots[0]] else [])
        + SlotsOn(slots[1..], day, zoneOffsetMs)
  }

  /** `some(slot => slot.isAvailable)`. */
  function AnyAvailable(slots: seq<CalendarSlot>): (b: bool)
    ensures b <==> exists s :: s in slots && s.isAvailable
  {
    if slots == [] then false else slots[0].isAvailable || AnyAvailable(slots[1..])
  }

  /** The status of one day. */
  function StatusOf(slots: seq<CalendarSlot>, day: int, zoneOffsetMs: int): (d: DayStatus)
    ensures d.day == day
    ensures d.hasTimeSlots <==> d.status != Unset
    ensures d.status == Unset <==> forall s :: s in slots ==> LocalDay(s.startTime, zoneOffsetMs) != day
    ensures d.status == Open <==>
      exists s :: s in slots && LocalDay(s.startTime, zoneOffsetMs) == day && s.isAvailable
    ensures d.status == Closed <==>
      && (exists s :: s in slots && LocalDay(s.startTime, zoneOffsetMs) == day)
      && (forall s :: s in slots && LocalDay(s.startTime, zoneOffsetMs) == day ==> !s.isAvailable)
  {
    var daySlots := SlotsOn(slots, day, zoneOffsetMs);
    if |daySlots| == 0 then DayStatus(day, Unset, false)
    else
      assert daySlots[0] in daySlots;
      DayStatus(day, if AnyAvailable(daySlots) then Open else Closed, true)
  }

  /** The statuses of the displayed month: one per day, in date order, the
      i-th for the (i+1)-th of the month. */
  function DayStatuses(slots: seq<CalendarSlot>, year: int, month: int, zoneOffsetMs: int): (r: seq<DayStatus>)
    requires 1 <= month <= 12
    ensures |r| == DaysInMonth(year, month)
    ensures forall i :: 0 <= i < |r| ==>
      r[i] == StatusOf(slots, DaysFromCivil(Date(year, month, i + 1)), zoneOffsetMs)
  {
    var first := DaysFromCivil(Date(year, month, 1));
    var n := DaysInMonth(year, month);
    var r := seq(n, i requires 0 <= i < n => StatusOf(slots, first + i, zoneOffsetMs));
    forall i | 0 <= i < n
      ensures r[i] == StatusOf(slots, DaysFromCivil(Date(year, month, i + 1)), zoneOffsetMs)
    {
      DayOfMonthOffset(year, month, i + 1);
    }
    r
  }

  /** What a click does: nothing, open the day, or ask the server to
      generate the day and then open it. */
  datatype ClickAction =
    | Ignore
    | Navigate(date: Date)
    | GenerateAndNavigate(request: Slots.GenerateRequest)

  /** `dayStatuses.find(...)`: the first status of the given day. */
  function FindDay(statuses: seq<DayStatus>, day: int): (r: Option<DayStatus>)
    ensures r.Some? ==> r.value in statuses && r.value.day == day
    ensures r.None? ==> forall s :: s in statuses ==> s.day != day
  {
    if statuses == [] then None
    else if statuses[0].day == day then Some(statuses[0])
    else FindDay(statuses[1..], day)
  }

  /** handleDateClick: days outside the displayed month are ignored, a day
      that already has slots is opened, any other day is sent to the server
      with only its date. */
  function HandleDateClick(date: Date, year: int, month: int, statuses: seq<DayStatus>): (a: ClickAction)
    requires ValidDate(date)
    ensures a == Ignore <==> (date.year, date.month) != (year, month)
    ensures a.Navigate? ==> a.date == date
    ensures a.GenerateAndNavigate? ==> a.request == Slots.GenerateRequest(date, None)
  {
    if (date.year, date.month) != (year, month) then Ignore
    else
      var found := FindDay(statuses, DaysFromCivil(date));
      if found.Some? && found.value.hasTimeSlots then Navigate(date)
      else GenerateAndNavigate(Slots.GenerateRequest(date, None))
  }

  /** On the calendar's own statuses, a click inside the month opens the day
      exactly when the day has slots, and otherwise asks for generation. */
  lemma {:induction false} ClickOnMonth(slots: seq<CalendarSlot>, date: Date, zoneOffsetMs: int)
    requires ValidDate(date)
    ensures var a := HandleDateClick(date, date.year, date.month,
                                     DayStatuses(slots, date.year, date.month, zoneOffsetMs));
      && (a.Navigate? <==> exists s :: s in slots && LocalDay(s.startTime, zoneOffsetMs) == DaysFromCivil(date))
      && (a.GenerateAndNavigate? <==>
            forall s :: s in slots ==> LocalDay(s.startTime, zoneOffsetMs) != DaysFromCivil(date))
  {
    var statuses := DayStatuses(slots, date.year, date.month, zoneOffsetMs);
    var k := date.day - 1;
    assert statuses[k] == StatusOf(slots, DaysFromCivil(date), zoneOffsetMs);
    var found := FindDay(statuses, DaysFromCivil(date));
    assert found.Some?;
    var i :| 0 <= i < |statuses| && statuses[i] == found.value;
    DayOfMonthOffset(date.year, date.month, i + 1);
    DayOfMonthOffset(date.year, date.month, date.day);
    assert found.value == statuses[k];
  }

  /** The request a click sends carries no isOpen, so the server plans no
      slot whatever the store holds: the day is not made a clinic day. */
  lemma ClickRequestGeneratesNothing(store: map<nat, Records.TimeSlot>, date: Date)
    requires ValidDate(date)
    ensures Slots.GenerationPlan(store, Slots.GenerateRequest(date, None)) == []
  {
  }

  /** The request the click evidently means to send: the date with isOpen
      set, as the day view sends it. */
  function OpenDayRequest(date: Date): Slots.GenerateRequest
  {
    Slots.GenerateRequest(date, Some(true))
  }

  /** With isOpen set, a click on a day without slots makes the server
      create the whole day of slots. */
  lemma {:induction false} OpenDayRequestGeneratesDay(store: map<nat, Records.TimeSlot>, date: Date)
    requires ValidDate(date)
    requires Records.IdsStartingIn(store, Slots.DayWindowStart(date), Slots.DayWindowEnd(date)) == {}
    ensures Slots.GenerationPlan(store, OpenDayRequest(date)) == Slots.DaySlots(date)
    ensures |Slots.GenerationPlan(store, OpenDayRequest(date))| >= 20
  {
    Slots.DaySlotsShape(date);
  }
}
