/** GET /api/reservations/month: per-day availability of a month for the
    booking calendar.  The handler picks a month from the requested date,
    selects that month's open slots of the visit type, folds them into a
    dictionary keyed by JST date, and pads the dictionary with every day of
    the month.  Date keys, 'YYYY-MM-DD' strings in the handler, are epoch-day
    numbers here; the two are in one-to-one correspondence. */
module Month {
  import opened Common
  import opened Calendar
  import opened Records
  import Ordering
  import Reservations

  /** The availability marks: ○ (Circle), △ (Triangle), × (Cross) and the
      placeholder ー (Dash) a day holds before its first slot is looked at. */
  datatype Mark = Circle | Triangle | Cross | Dash

  /** One dictionary value; `kind` is the `type` field of the response. */
  datatype DayAvailability = DayAvailability(count: int, kind: Mark)

  /** What the fold reads of a slot: its start, its capacity and the number
      of its CONFIRMED reservations. */
  datatype SlotRow = SlotRow(startTime: int, maxPatients: int, confirmed: nat)

  datatype MonthError = Unauthorized | NotRegistered | MissingDate

  /** formatJSTDate: the calendar day, in Japan, of instant t. */
  function DateKey(t: int): int
  {
    EpochDay(t + JST_OFFSET_MS)
  }

  /** parseJSTDate followed by getUTCFullYear / getUTCMonth: the date's UTC
      midnight moved back nine hours, read in UTC, i.e. the month of the day
      before the requested date. */
  function SelectedMonth(date: Date): (ym: (int, int))
    requires ValidDate(date)
    ensures 1 <= ym.1 <= 12
  {
    var shifted := PrevDay(date);
    (shifted.year, shifted.month)
  }

  /** The instant parseJSTDate produces lies on the day before the requested
      date, which is why SelectedMonth reads the month of PrevDay. */
  lemma ShiftedInstantIsPreviousDay(date: Date)
    requires ValidDate(date)
    ensures EpochDay(LocalMidnightMs(date) - JST_OFFSET_MS) == DaysFromCivil(PrevDay(date))
  {
    PrevDayIsOneDayEarlier(date);
    var d := DaysFromCivil(PrevDay(date));
    EpochDayOfRange(d, LocalMidnightMs(date) - JST_OFFSET_MS);
  }

  /** A request for the first of a month gets the month before; any other
      day gets its own month. */
  lemma FirstOfMonthSelectsPreviousMonth(date: Date)
    requires ValidDate(date)
    ensures date.day == 1 ==> SelectedMonth(date) == PrevMonth(date.year, date.month)
    ensures date.day > 1 ==> SelectedMonth(date) == (date.year, date.month)
  {
  }

  /** Epoch day of the first of the month. */
  function FirstDay(ym: (int, int)): int
    requires 1 <= ym.1 <= 12
  {
    DaysFromCivil(Date(ym.0, ym.1, 1))
  }

  /** startOfMonth: Date.UTC(year, month, 1, -9). */
  function MonthStartMs(ym: (int, int)): int
    requires 1 <= ym.1 <= 12
  {
    FirstDay(ym) * MS_PER_DAY - JST_OFFSET_MS
  }

  /** endOfMonth: Date.UTC(year, month + 1, 0, 14, 59, 59, 999), day 0 of the
      next month being the last day of this one. */
  function MonthEndMs(ym: (int, int)): int
    requires 1 <= ym.1 <= 12
  {
    var next := NextMonth(ym.0, ym.1);
    (DaysFromCivil(Date(next.0, next.1, 1)) - 1) * MS_PER_DAY
      + 14 * MS_PER_HOUR + 59 * MS_PER_MINUTE + 59 * 1000 + 999
  }

  /** The query range is exactly the month in Japanese time: an instant is in
      [startOfMonth, endOfMonth] iff its JST date is a day of the month. */
  lemma MonthRangeIsJstMonth(ym: (int, int), t: int)
    requires 1 <= ym.1 <= 12
    ensures MonthStartMs(ym) <= t <= MonthEndMs(ym)
        <==> FirstDay(ym) <= DateKey(t) < FirstDay(ym) + DaysInMonth(ym.0, ym.1)
  {
    MonthContinuity(ym.0, ym.1);
    var first, n := FirstDay(ym), DaysInMonth(ym.0, ym.1);
    assert MonthEndMs(ym) == (first + n) * MS_PER_DAY - JST_OFFSET_MS - 1;
    var k := DateKey(t);
    var u := t + JST_OFFSET_MS;
    assert k * MS_PER_DAY <= u < k * MS_PER_DAY + MS_PER_DAY;
    if first <= k < first + n {
      assert first * MS_PER_DAY <= k * MS_PER_DAY;
      assert (k + 1) * MS_PER_DAY <= (first + n) * MS_PER_DAY;
    } else if k < first {
      assert (k + 1) * MS_PER_DAY <= first * MS_PER_DAY;
    } else {
      assert (first + n) * MS_PER_DAY <= k * MS_PER_DAY;
    }
  }

  /** The per-slot mark: × when the slot is full, ○ when nobody has booked
      it, △ when it is partly booked with at most two places left, else ○. */
  function SlotMark(row: SlotRow): Mark
  {
    var remaining := row.maxPatients - row.confirmed;
    if remaining > 0 then
      if row.confirmed == 0 then Circle
      else if remaining <= 2 then Triangle
      else Circle
    else Cross
  }

  /** One iteration of the forEach over the slots. */
  function FoldStep(availability: map<int, DayAvailability>, row: SlotRow): map<int, DayAvailability>
  {
    var key := DateKey(row.startTime);
    var entry := if key in availability then availability[key] else DayAvailability(0, Dash);
    var remaining := row.maxPatients - row.confirmed;
    if remaining > 0 then availability[key := DayAvailability(entry.count + remaining, SlotMark(row))]
    else availability[key := entry.(kind := Cross)]
  }

  /** The dictionary after the forEach has visited `rows` in order. */
  function Folded(rows: seq<SlotRow>): map<int, DayAvailability>
  {
    if rows == [] then map[] else FoldStep(Folded(rows[..|rows| - 1]), rows[|rows| - 1])
  }

  /** The sum, over the rows of one day, of the places still free, counting
      only slots that are not full. */
  function DayTotal(rows: seq<SlotRow>, key: int): (n: int)
    ensures n >= 0
  {
    if rows == [] then 0
    else
      var last := rows[|rows| - 1];
      var remaining := last.maxPatients - last.confirmed;
      DayTotal(rows[..|rows| - 1], key)
        + (if DateKey(last.startTime) == key && remaining > 0 then remaining else 0)
  }

  /** The mark of the last row of the day, if the day has rows. */
  function LastMark(rows: seq<SlotRow>, key: int): (m: Option<Mark>)
    ensures m.Some? <==> exists j :: 0 <= j < |rows| && DateKey(rows[j].startTime) == key
    ensures m.Some? ==> exists j :: (0 <= j < |rows| && DateKey(rows[j].startTime) == key
      && m.value == SlotMark(rows[j])
      && forall k :: j < k < |rows| ==> DateKey(rows[k].startTime) != key)
  {
    if rows == [] then None
    else
      var n := |rows| - 1;
      var init := rows[..n];
      if DateKey(rows[n].startTime) == key then Some(SlotMark(rows[n]))
      else
        var m := LastMark(init, key);
        assert forall j :: 0 <= j < n ==> rows[j] == init[j];
        m
  }

  /** After the fold, the days present are exactly the days of the rows, and
      each day holds the sum of the free places of its rows together with
      the mark of its last row; the placeholder never survives. */
  lemma {:induction false} FoldedMeaning(rows: seq<SlotRow>)
    ensures forall key :: key in Folded(rows) <==> LastMark(rows, key).Some?
    ensures forall key :: key in Folded(rows) ==>
      Folded(rows)[key] == DayAvailability(DayTotal(rows, key), LastMark(rows, key).value)
  {
    if rows != [] {
      var n := |rows| - 1;
      var init, last := rows[..n], rows[n];
      FoldedMeaning(init);
      var lastKey := DateKey(last.startTime);
      forall key | key in Folded(rows)
        ensures LastMark(rows, key).Some?
        ensures Folded(rows)[key] == DayAvailability(DayTotal(rows, key), LastMark(rows, key).value)
      {
        if key == lastKey && key !in Folded(init) {
          NoRowsNoTotal(init, key);
        }
      }
    }
  }

  method Aggregate(rows: seq<SlotRow>) returns (availability: map<int, DayAvailability>)
    ensures availability == Folded(rows)
  {
    availability := map[];
    var i := 0;
    while i < |rows|
      invariant 0 <= i <= |rows|
      invariant availability == Folded(rows[..i])
    {
      var slot := rows[i];
      var dateKey := DateKey(slot.startTime);
      if dateKey !in availability {
        availability := availability[dateKey := DayAvailability(0, Dash)];
      }
      var remainingSlots := slot.maxPatients - slot.confirmed;
      if remainingSlots > 0 {
        var kind := if slot.confirmed == 0 then Circle else if remainingSlots <= 2 then Triangle else Circle;
        availability := availability[dateKey := DayAvailability(availability[dateKey].count + remainingSlots, kind)];
      } else {
        availability := availability[dateKey := availability[dateKey].(kind := Cross)];
      }
      assert rows[..i + 1][..i] == rows[..i];
      i := i + 1;
    }
    assert rows[..|rows|] == rows;
  }

  /** The epoch days first, first + 1, ..., first + n - 1. */
  function DayRange(first: int, n: nat): (days: set<int>)
    ensures forall d :: d in days <==> first <= d < first + n
  {
    if n == 0 then {} else DayRange(first, n - 1) + {first + n - 1}
  }

  /** The padding forEach: every day of the month that has no entry gets
      count 0 and ×; the entries already there are kept. */
  method PadMonth(availability: map<int, DayAvailability>, ym: (int, int)) returns (r: map<int, DayAvailability>)
    requires 1 <= ym.1 <= 12
    ensures r.Keys == availability.Keys + DayRange(FirstDay(ym), DaysInMonth(ym.0, ym.1))
    ensures forall d :: d in availability ==> r[d] == availability[d]
    ensures forall d :: d in r && d !in availability ==> r[d] == DayAvailability(0, Cross)
  {
    var daysInMonth := DaysInMonth(ym.0, ym.1);
    ghost var first := FirstDay(ym);
    r := availability;
    var i := 0;
    while i < daysInMonth
      invariant 0 <= i <= daysInMonth
      invariant r.Keys == availability.Keys + DayRange(first, i)
      invariant forall d :: d in availability ==> r[d] == availability[d]
      invariant forall d :: d in r && d !in availability ==> r[d] == DayAvailability(0, Cross)
    {
      var dateKey := PaddingKey(ym, i);
      if dateKey !in r {
        r := r[dateKey := DayAvailability(0, Cross)];
      }
      i := i + 1;
    }
  }

  /** The key the padding loop computes for the (i+1)-th of the month,
      Date.UTC(year, month, i + 1, -9) formatted as a JST date, is the i-th
      day after the first. */
  function PaddingKey(ym: (int, int), i: int): (key: int)
    requires 1 <= ym.1 <= 12 && 0 <= i < DaysInMonth(ym.0, ym.1)
    ensures key == FirstDay(ym) + i
  {
    var day := DaysFromCivil(Date(ym.0, ym.1, i + 1)) * MS_PER_DAY - JST_OFFSET_MS;
    DayOfMonthOffset(ym.0, ym.1, i + 1);
    EpochDayOfRange(FirstDay(ym) + i, day + JST_OFFSET_MS);
    DateKey(day)
  }

  /** The slots the handler reads: open, of the visit type's duration and
      flag, starting inside the month range. */
  function MonthSlotIds(slots: map<nat, TimeSlot>, ym: (int, int), isFirstVisit: bool): (ids: set<nat>)
    requires 1 <= ym.1 <= 12
    ensures forall id :: id in ids <==> (id in slots
      && MonthStartMs(ym) <= slots[id].startTime <= MonthEndMs(ym)
      && slots[id].isAvailable
      && slots[id].duration == Reservations.VisitDuration(isFirstVisit)
      && slots[id].isFirstVisit == isFirstVisit)
  {
    set id | id in IdsStartingIn(slots, MonthStartMs(ym), MonthEndMs(ym) + 1)
      && slots[id].isAvailable
      && slots[id].duration == (if isFirstVisit then 30 else 15)
      && slots[id].isFirstVisit == isFirstVisit
  }

  /** The rows of the query, ascending by start. */
  function MonthRows(slots: map<nat, TimeSlot>, reservations: map<nat, Reservation>,
                     ym: (int, int), isFirstVisit: bool): (rows: seq<SlotRow>)
    requires 1 <= ym.1 <= 12
    ensures forall i :: 0 <= i < |rows| ==>
      MonthStartMs(ym) <= rows[i].startTime <= MonthEndMs(ym)
  {
    var ids := Ordering.SortByKey(MonthSlotIds(slots, ym, isFirstVisit), StartKeys(slots));
    seq(|ids|, i requires 0 <= i < |ids| =>
      SlotRow(slots[ids[i]].startTime, slots[ids[i]].maxPatients, ConfirmedCount(reservations, ids[i])))
  }

  /** GET /api/reservations/month. */
  method MonthAvailability(caller: Caller, slots: map<nat, TimeSlot>, reservations: map<nat, Reservation>,
                           date: Option<Date>, isFirstVisit: bool)
    returns (r: Result<map<int, DayAvailability>, MonthError>)
    requires date.Some? ==> ValidDate(date.value)
    ensures caller.NoSession? <==> r == Err(Unauthorized)
    ensures caller.Unregistered? <==> r == Err(NotRegistered)
    ensures r == Err(MissingDate) <==> caller.Registered? && date.None?
    ensures r.Ok? <==> caller.Registered? && date.Some?
    ensures r.Ok? ==>
      var ym := SelectedMonth(date.value);
      var rows := MonthRows(slots, reservations, ym, isFirstVisit);
      && r.value.Keys == DayRange(FirstDay(ym), DaysInMonth(ym.0, ym.1))
      && forall d :: d in r.value ==>
           && r.value[d].count == DayTotal(rows, d)
           && r.value[d].kind == (if LastMark(rows, d).Some? then LastMark(rows, d).value else Cross)
           && r.value[d].kind != Dash
  {
    if caller.NoSession? {
      return Err(Unauthorized);
    }
    if caller.Unregistered? {
      return Err(NotRegistered);
    }
    if date.None? {
      return Err(MissingDate);
    }
    var ym := SelectedMonth(date.value);
    var rows := MonthRows(slots, reservations, ym, isFirstVisit);
    var folded := Aggregate(rows);
    var availability := PadMonth(folded, ym);
    RowsInMonth(rows, ym);
    PaddedMonthMeaning(rows, FirstDay(ym), DaysInMonth(ym.0, ym.1), availability);
    r := Ok(availability);
  }

  /** What the padded dictionary holds, given that every row falls in the
      month: exactly the days of the month, each with its total and the mark
      of its last slot, × for a day without slots. */
  lemma PaddedMonthMeaning(rows: seq<SlotRow>, first: int, n: nat, availability: map<int, DayAvailability>)
    requires forall key :: LastMark(rows, key).Some? ==> first <= key < first + n
    requires availability.Keys == Folded(rows).Keys + DayRange(first, n)
    requires forall d :: d in Folded(rows) ==> availability[d] == Folded(rows)[d]
    requires forall d :: d in availability && d !in Folded(rows) ==> availability[d] == DayAvailability(0, Cross)
    ensures availability.Keys == DayRange(first, n)
    ensures forall d :: d in availability ==>
      && availability[d].count == DayTotal(rows, d)
      && availability[d].kind == (if LastMark(rows, d).Some? then LastMark(rows, d).value else Cross)
      && availability[d].kind != Dash
  {
    FoldedMeaning(rows);
    forall d | d in availability && LastMark(rows, d).None?
      ensures DayTotal(rows, d) == 0
    {
      NoRowsNoTotal(rows, d);
    }
  }

  /** Every row of the month query falls on a day of the month, so the
      folded dictionary has no key outside the month. */
  lemma RowsInMonth(rows: seq<SlotRow>, ym: (int, int))
    requires 1 <= ym.1 <= 12
    requires forall i :: 0 <= i < |rows| ==> MonthStartMs(ym) <= rows[i].startTime <= MonthEndMs(ym)
    ensures forall key :: LastMark(rows, key).Some? ==>
      FirstDay(ym) <= key < FirstDay(ym) + DaysInMonth(ym.0, ym.1)
  {
    forall key | LastMark(rows, key).Some?
      ensures FirstDay(ym) <= key < FirstDay(ym) + DaysInMonth(ym.0, ym.1)
    {
      var j :| 0 <= j < |rows| && DateKey(rows[j].startTime) == key;
      MonthRangeIsJstMonth(ym, rows[j].startTime);
    }
  }

  lemma {:induction false} NoRowsNoTotal(rows: seq<SlotRow>, key: int)
    requires LastMark(rows, key).None?
    ensures DayTotal(rows, key) == 0
  {
    if rows != [] {
      var n := |rows| - 1;
      assert DateKey(rows[n].startTime) != key;
      assert forall j :: 0 <= j < n ==> rows[..n][j] == rows[j];
      NoRowsNoTotal(rows[..n], key);
    }
  }
}
