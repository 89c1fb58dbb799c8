/** The patient's four-step booking wizard: the month grid of the date step,
    which day cells are disabled, the remaining-places text of the time step,
    and the step counter. */
module ReservationSteps {
  import opened Common
  import opened Calendar
  import Records
  import Reservations

  /** The content of cell `c` of week `w` in a month of `daysInMonth` days
      whose 1st falls in column `first`: the day numbered by the cell's
      position counted from that column, if it is a day of the month. */
  function CellDay(w: nat, c: nat, first: nat, daysInMonth: nat): (cell: Option<nat>)
    ensures cell.Some? ==> 1 <= cell.value <= daysInMonth && 7 * w + c == first + cell.value - 1
  {
    var d := 7 * w + c - first + 1;
    if 1 <= d <= daysInMonth then Some(d) else None
  }

  /** Each day of the month sits in exactly one cell: column
      (first + day - 1) mod 7 of week (first + day - 1) div 7. */
  lemma DayPlacement(first: nat, daysInMonth: nat, day: nat, w: nat, c: nat)
    requires 1 <= day <= daysInMonth && c < 7
    ensures CellDay(w, c, first, daysInMonth) == Some(day)
        <==> w == (first + day - 1) / 7 && c == (first + day - 1) % 7
  {
  }

  /** The week grid of the date step: weeks of seven cells, a week closed at
      the Saturday column or at the last day of the month. */
  method BuildWeeks(daysInMonth: nat, firstDayOfMonth: nat) returns (weeks: seq<seq<Option<nat>>>)
    requires firstDayOfMonth < 7
    ensures |weeks| == if daysInMonth == 0 then 0 else (firstDayOfMonth + daysInMonth + 6) / 7
    ensures forall w :: 0 <= w < |weeks| ==> |weeks[w]| == 7
    ensures forall w, c :: 0 <= w < |weeks| && 0 <= c < 7 ==>
      weeks[w][c] == CellDay(w, c, firstDayOfMonth, daysInMonth)
  {
    weeks := [];
    var week: array<Option<nat>> := new Option<nat>[7](_ => None);
    var day := 1;
    while day <= daysInMonth
      invariant 1 <= day <= daysInMonth + 1
      invariant fresh(week) && week.Length == 7
      invariant day <= daysInMonth ==> |weeks| == (firstDayOfMonth + day - 1) / 7
      invariant day > daysInMonth && daysInMonth > 0 ==> |weeks| == (firstDayOfMonth + daysInMonth + 6) / 7
      invariant daysInMonth == 0 ==> weeks == []
      invariant day <= daysInMonth ==> forall c :: 0 <= c < 7 ==>
        week[c] == if c < (firstDayOfMonth + day - 1) % 7 then CellDay(|weeks|, c, firstDayOfMonth, daysInMonth) else None
      invariant forall w :: 0 <= w < |weeks| ==> |weeks[w]| == 7
      invariant forall w, c :: 0 <= w < |weeks| && 0 <= c < 7 ==>
        weeks[w][c] == CellDay(w, c, firstDayOfMonth, daysInMonth)
    {
      var dayIndex := (firstDayOfMonth + day - 1) % 7;
      week[dayIndex] := Some(day);
      if dayIndex == 6 || day == daysInMonth {
        weeks := weeks + [week[..]];
        week := new Option<nat>[7](_ => None);
      }
      day := day + 1;
    }
  }

  /** isDisabled: a day before today, or in the Sunday or Saturday column. */
  predicate IsDisabled(day: int, today: int, dayIndex: int)
  {
    day < today || dayIndex == 0 || dayIndex == 6
  }

  /** The grid's column of a day is its day of the week, so the rule disables
      exactly the past days and the weekend. */
  lemma {:induction false} DisabledDays(year: int, month: int, dayOfMonth: int, today: int)
    requires 1 <= month <= 12
    ensures var first := Weekday(DaysFromCivil(Date(year, month, 1)));
      var day := DaysFromCivil(Date(year, month, dayOfMonth));
      && (first + dayOfMonth - 1) % 7 == Weekday(day)
      && (IsDisabled(day, today, (first + dayOfMonth - 1) % 7) <==>
            (day < today || Weekday(day) == 0 || Weekday(day) == 6))
  {
    DayOfMonthOffset(year, month, dayOfMonth);
    var d1 := DaysFromCivil(Date(year, month, 1));
    assert (Weekday(d1) + dayOfMonth - 1) % 7 == (d1 + 4 + dayOfMonth - 1) % 7 by {
      ModShift(d1 + 4, dayOfMonth - 1);
    }
  }

  lemma ModShift(a: int, b: int)
    ensures (a % 7 + b) % 7 == (a + b) % 7
  {
  }

  /** The remaining-places text of a time slot: shown only for an available
      slot, as maxPatients - currentPatients. */
  function RemainingLabel(slot: Reservations.AvailableSlot): (r: Option<int>)
    ensures r.Some? <==> slot.isAvailable
    ensures r.Some? ==> r.value == slot.maxPatients - slot.currentPatients
  {
    if slot.isAvailable then Some(slot.maxPatients - slot.currentPatients) else None
  }

  /** On the slots the reservation query returns, a shown count is never
      below one. */
  lemma RemainingShownIsPositive(slots: map<nat, Records.TimeSlot>, reservations: map<nat, Records.Reservation>, id: nat)
    requires id in slots
    ensures var shown := RemainingLabel(Reservations.Annotate(slots, reservations, id));
      shown.Some? ==> shown.value >= 1
  {
  }

  /** The four views of the wizard. */
  datatype View = VisitTypeStep | CalendarStep | TimeSlotStep | ConfirmationStep

  /** The view rendered for a step: one for each of steps 1 to 4, none
      otherwise. */
  function StepView(step: int): (v: Option<View>)
    ensures v.Some? <==> 1 <= step <= 4
  {
    if step == 1 then Some(VisitTypeStep)
    else if step == 2 then Some(CalendarStep)
    else if step == 3 then Some(TimeSlotStep)
    else if step == 4 then Some(ConfirmationStep)
    else None
  }

  /** Different steps render different views. */
  lemma StepViewsDiffer(a: int, b: int)
    requires StepView(a).Some? && a != b
    ensures StepView(a) != StepView(b)
  {
  }

  /** The wizard's step counter. */
  class Wizard {
    var step: int

    constructor()
      ensures step == 1
    {
      step := 1;
    }

    method NextStep()
      modifies this
      ensures step == old(step) + 1
    {
      step := step + 1;
    }

    method PrevStep()
      modifies this
      ensures step == old(step) - 1
    {
      step := step - 1;
    }
  }
}
