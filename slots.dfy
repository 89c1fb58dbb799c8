/** The slot store: the timeslots route (default clinic hours, day generation,
    range query), the combine route and the split route.  The TimeSlot table
    is a class holding a map from row id to row; each route handler is one
    atomic method of it.  The reservation table, which combine and split only
    read, is passed in as a map. */
module Slots {
  import opened Common
  import opened Calendar
  import opened Records
  import Ordering

  /** Length of a generated slot. */
  const QUARTER_MS: int := 15 * MS_PER_MINUTE

  /** DEFAULT_CLINIC_HOURS, as minutes after midnight: Sunday 15:00-20:00,
      Monday to Saturday 09:00-20:00. */
  function OpeningMinute(weekday: int): (m: int)
    ensures weekday == 0 ==> m == 15 * 60
    ensures weekday != 0 ==> m == 9 * 60
  {
    if weekday == 0 then 15 * 60 else 9 * 60
  }

  function ClosingMinute(weekday: int): (m: int)
    ensures m == 20 * 60
  {
    20 * 60
  }

  function DayOfWeek(date: Date): (w: int)
    requires 1 <= date.month <= 12
    ensures 0 <= w < 7
  {
    Weekday(DaysFromCivil(date))
  }

  /** parseTimeString: the wall-clock time `minute` of `date` read in the
      server's zone (UTC), moved back by the fixed nine-hour JST offset. */
  function ParseTimeString(date: Date, minute: int): int
    requires 1 <= date.month <= 12
  {
    LocalMidnightMs(date) + minute * MS_PER_MINUTE - JST_OFFSET_MS
  }

  /** The stored instant is the one at which a clock in Japan shows `minute`
      on `date`: adding the nine hours back lands on that date, `minute`
      minutes after its midnight. */
  lemma ParseTimeStringIsJstWallClock(date: Date, minute: int)
    requires 1 <= date.month <= 12 && 0 <= minute < 24 * 60
    ensures EpochDay(ParseTimeString(date, minute) + JST_OFFSET_MS) == DaysFromCivil(date)
    ensures (ParseTimeString(date, minute) + JST_OFFSET_MS) % MS_PER_DAY == minute * MS_PER_MINUTE
    ensures ParseTimeString(date, minute) == LocalMidnightMs(date) + minute * MS_PER_MINUTE - 9 * 60 * MS_PER_MINUTE
  {
    var t := ParseTimeString(date, minute) + JST_OFFSET_MS;
    var d := DaysFromCivil(date);
    assert t == d * MS_PER_DAY + minute * MS_PER_MINUTE;
    EpochDayOfRange(d, t);
  }

  /** The row generateTimeSlots pushes for the quarter hour starting at t. */
  function NewSlot(t: int): TimeSlot
  {
    TimeSlot(t, t + QUARTER_MS, true, 2, false, 15)
  }

  /** The rows the generation loop pushes when it starts at t and stops once
      the current instant reaches `end`. */
  function SlotsFrom(t: int, end: int): seq<TimeSlot>
    decreases end - t
  {
    if t < end then [NewSlot(t)] + SlotsFrom(t + QUARTER_MS, end) else []
  }

  function OpeningMs(date: Date): int
    requires 1 <= date.month <= 12
  {
    ParseTimeString(date, OpeningMinute(DayOfWeek(date)))
  }

  function ClosingMs(date: Date): int
    requires 1 <= date.month <= 12
  {
    ParseTimeString(date, ClosingMinute(DayOfWeek(date)))
  }

  /** generateTimeSlots(date) as a value. */
  function DaySlots(date: Date): seq<TimeSlot>
    requires 1 <= date.month <= 12
  {
    SlotsFrom(OpeningMs(date), ClosingMs(date))
  }

  /** generateTimeSlots: step from opening to closing time in quarter hours,
      pushing one open follow-up slot per step. */
  method GenerateTimeSlots(date: Date) returns (slots: seq<TimeSlot>)
    requires ValidDate(date)
    ensures slots == DaySlots(date)
  {
    var hours := DayOfWeek(date);
    var startTime := ParseTimeString(date, OpeningMinute(hours));
    var endTime := ParseTimeString(date, ClosingMinute(hours));
    var currentTime := startTime;
    slots := [];
    while currentTime < endTime
      invariant slots + SlotsFrom(currentTime, endTime) == SlotsFrom(startTime, endTime)
      decreases endTime - currentTime
    {
      var nextTime := currentTime + QUARTER_MS;
      slots := slots + [TimeSlot(currentTime, nextTime, true, 2, false, 15)];
      currentTime := nextTime;
    }
  }

  /** The k-th row of the loop starts k quarter hours after the first, and
      the loop makes one row per started quarter hour. */
  lemma {:induction false} SlotsFromShape(t: int, end: int)
    ensures |SlotsFrom(t, end)| == if t < end then (end - t + QUARTER_MS - 1) / QUARTER_MS else 0
    ensures forall k :: 0 <= k < |SlotsFrom(t, end)| ==> SlotsFrom(t, end)[k] == NewSlot(t + k * QUARTER_MS)
    decreases end - t
  {
    if t < end {
      SlotsFromShape(t + QUARTER_MS, end);
      var s := SlotsFrom(t, end);
      var rest := SlotsFrom(t + QUARTER_MS, end);
      forall k | 0 <= k < |s|
        ensures s[k] == NewSlot(t + k * QUARTER_MS)
      {
        if k > 0 {
          assert s[k] == rest[k - 1];
          assert t + QUARTER_MS + (k - 1) * QUARTER_MS == t + k * QUARTER_MS;
        }
      }
    }
  }

  /** The opening hours span 20 quarter hours on Sunday and 44 on the other
      days. */
  lemma OpeningSpan(date: Date)
    requires 1 <= date.month <= 12
    ensures ClosingMs(date) - OpeningMs(date) == (if DayOfWeek(date) == 0 then 20 else 44) * QUARTER_MS
  {
  }

  /** Generated rows are contiguous: each starts where the previous ends,
      every one is an open 15-minute follow-up slot for two patients, the
      first starts at opening time, the last ends at closing time, and there
      are (closing - opening) / 15 minutes of them: 44 from Monday to
      Saturday, 20 on Sunday. */
  lemma DaySlotsShape(date: Date)
    requires 1 <= date.month <= 12
    ensures var s := DaySlots(date);
      && |s| == (if DayOfWeek(date) == 0 then 20 else 44)
      && s[0].startTime == OpeningMs(date)
      && s[|s| - 1].endTime == ClosingMs(date)
      && (forall k :: 0 <= k < |s| - 1 ==> s[k].endTime == s[k + 1].startTime)
      && (forall k :: 0 <= k < |s| ==>
            s[k].endTime == s[k].startTime + QUARTER_MS && s[k].isAvailable
            && s[k].maxPatients == 2 && !s[k].isFirstVisit && s[k].duration == 15)
  {
    var lo, hi := OpeningMs(date), ClosingMs(date);
    var n := if DayOfWeek(date) == 0 then 20 else 44;
    OpeningSpan(date);
    SlotsFromShape(lo, hi);
    var s := DaySlots(date);
    assert |s| == (n * QUARTER_MS + QUARTER_MS - 1) / QUARTER_MS;
    assert |s| == n;
    forall k | 0 <= k < n - 1
      ensures s[k].endTime == s[k + 1].startTime
    {
      assert s[k] == NewSlot(lo + k * QUARTER_MS);
      assert s[k + 1] == NewSlot(lo + (k + 1) * QUARTER_MS);
    }
    assert s[0] == NewSlot(lo);
    assert s[n - 1] == NewSlot(lo + (n - 1) * QUARTER_MS);
  }

  /** The generated rows are well-formed 15-minute slots. */
  lemma DaySlotsWellFormed(date: Date)
    requires 1 <= date.month <= 12
    ensures forall k :: 0 <= k < |DaySlots(date)| ==> WellFormedSlot(DaySlots(date)[k])
  {
    DaySlotsShape(date);
  }

  /** Every generated start lies in the window the POST handler searches
      before generating: [date 00:00 JST, date 23:59:59.999 JST]. */
  lemma DaySlotsInWindow(date: Date)
    requires ValidDate(date)
    ensures forall k :: 0 <= k < |DaySlots(date)| ==>
      DayWindowStart(date) <= DaySlots(date)[k].startTime < DayWindowEnd(date)
  {
    SlotsFromShape(OpeningMs(date), ClosingMs(date));
    DaySlotsShape(date);
  }

  /** 2024-01-01 is a Monday: 44 slots, the first at 2024-01-01T00:00:00Z
      (09:00 JST) and the last ending at 11:00:00Z (20:00 JST). */
  lemma NewYear2024Slots()
    ensures |DaySlots(Date(2024, 1, 1))| == 44
    ensures DaySlots(Date(2024, 1, 1))[0].startTime == 1_704_067_200_000
    ensures DaySlots(Date(2024, 1, 1))[43].endTime == 1_704_106_800_000
  {
    var d := Date(2024, 1, 1);
    assert DaysFromCivil(d) == 19723;
    assert DayOfWeek(d) == 1;
    DaySlotsShape(d);
  }

  /** Start of the POST and GET search window: date 00:00 JST. */
  function DayWindowStart(date: Date): int
    requires 1 <= date.month <= 12
  {
    LocalMidnightMs(date) - JST_OFFSET_MS
  }

  /** One past the end of the search window: the window includes
      date 23:59:59.999 JST and nothing later. */
  function DayWindowEnd(date: Date): int
    requires 1 <= date.month <= 12
  {
    LocalMidnightMs(date) + MS_PER_DAY - JST_OFFSET_MS
  }

  /** startOfDay / setHours(0, 0, 0, 0) in the server's zone (UTC): the
      midnight at or before t. */
  function UtcMidnight(t: int): (m: int)
    ensures m <= t < m + MS_PER_DAY
    ensures m % MS_PER_DAY == 0
  {
    EpochDay(t) * MS_PER_DAY
  }

  /** The refetch after combine and split: the slots starting in the `span`
      milliseconds from `midnight`, ascending. */
  function DayListing(slots: map<nat, TimeSlot>, midnight: int, span: int): seq<nat>
  {
    Listing(slots, midnight, midnight + span)
  }

  /** Truthiness of the isOpen field of the request body, with the field
      taken to be a boolean or absent (None). */
  predicate Truthy(isOpen: Option<bool>)
  {
    isOpen == Some(true)
  }

  datatype GenerateRequest = GenerateRequest(date: Date, isOpen: Option<bool>)

  datatype GenerateOutcome =
    | Holiday                  // isOpen falsy: nothing created, count 0
    | Created(count: nat)      // the day was empty: its slots were inserted
    | AlreadyExists(count: nat)  // the day already had slots: nothing inserted

  datatype SlotError =
    | Forbidden
    | MissingDates
    | SlotNotFound
    | NextSlotNotFound
    | SlotReserved
    | NotThirtyMinutes

  /** The rows a generation request inserts: none for a closed day, none when
      the day's window already holds a slot, otherwise the generated day. */
  function GenerationPlan(slots: map<nat, TimeSlot>, request: GenerateRequest): (plan: seq<TimeSlot>)
    requires ValidDate(request.date)
    ensures plan == [] || plan == DaySlots(request.date)
    ensures plan != [] <==> (Truthy(request.isOpen)
      && IdsStartingIn(slots, DayWindowStart(request.date), DayWindowEnd(request.date)) == {})
  {
    var date := request.date;
    if !Truthy(request.isOpen) then []
    else if IdsStartingIn(slots, DayWindowStart(date), DayWindowEnd(date)) == {} then
      DaySlotsShape(date);
      DaySlots(date)
    else []
  }

  /** The rows of `rows` keyed by nextId, nextId + 1, ... */
  function Numbered(nextId: nat, rows: seq<TimeSlot>): (r: map<nat, TimeSlot>)
    ensures r.Keys == Ordering.Interval(nextId, |rows|)
    ensures forall k :: 0 <= k < |rows| ==> r[nextId + k] == rows[k]
  {
    if rows == [] then map[]
    else
      var n := |rows| - 1;
      var r := Numbered(nextId, rows[..n]);
      assert forall k :: 0 <= k < n ==> rows[..n][k] == rows[k];
      r[nextId + n := rows[n]]
  }

  /** createMany: the rows of `rows` stored under the ids nextId, nextId + 1, ... */
  function InsertAll(slots: map<nat, TimeSlot>, nextId: nat, rows: seq<TimeSlot>): (r: map<nat, TimeSlot>)
    requires forall id :: id in slots ==> id < nextId
    ensures r.Keys == slots.Keys + Ordering.Interval(nextId, |rows|)
    ensures forall id :: id in slots ==> r[id] == slots[id]
    ensures forall k :: 0 <= k < |rows| ==> r[nextId + k] == rows[k]
  {
    slots + Numbered(nextId, rows)
  }

  /** Generation is idempotent: once a request has inserted its day, the same
      request plans nothing more, and its window holds at least the slots the
      first request created, so the second one reports them as existing. */
  lemma GenerateIsIdempotent(slots: map<nat, TimeSlot>, nextId: nat, request: GenerateRequest)
    requires ValidDate(request.date)
    requires forall id :: id in slots ==> id < nextId
    ensures var plan := GenerationPlan(slots, request);
      var after := InsertAll(slots, nextId, plan);
      var window := IdsStartingIn(after, DayWindowStart(request.date), DayWindowEnd(request.date));
      && GenerationPlan(after, request) == []
      && (Truthy(request.isOpen) ==> window != {} && |window| >= |plan|)
  {
    var date := request.date;
    var plan := GenerationPlan(slots, request);
    var after := InsertAll(slots, nextId, plan);
    var lo, hi := DayWindowStart(date), DayWindowEnd(date);
    if Truthy(request.isOpen) {
      var window := IdsStartingIn(after, lo, hi);
      if plan == [] {
        var id :| id in IdsStartingIn(slots, lo, hi);
        assert after[id] == slots[id];
        assert id in window;
      } else {
        InsertedInWindow(slots, nextId, date);
        SubsetSize(Ordering.Interval(nextId, |plan|), window);
      }
    }
  }

  /** The ids a day's generation inserts all land in that day's window. */
  lemma InsertedInWindow(slots: map<nat, TimeSlot>, nextId: nat, date: Date)
    requires ValidDate(date)
    requires forall id :: id in slots ==> id < nextId
    ensures var after := InsertAll(slots, nextId, DaySlots(date));
      Ordering.Interval(nextId, |DaySlots(date)|)
        <= IdsStartingIn(after, DayWindowStart(date), DayWindowEnd(date))
  {
    DaySlotsInWindow(date);
    InsertedRowsInRange(slots, nextId, DaySlots(date), DayWindowStart(date), DayWindowEnd(date));
  }

  lemma InsertedRowsInRange(slots: map<nat, TimeSlot>, nextId: nat, rows: seq<TimeSlot>, lo: int, hi: int)
    requires forall id :: id in slots ==> id < nextId
    requires forall k :: 0 <= k < |rows| ==> lo <= rows[k].startTime < hi
    ensures Ordering.Interval(nextId, |rows|) <= IdsStartingIn(InsertAll(slots, nextId, rows), lo, hi)
  {
    RowsLandInRange(InsertAll(slots, nextId, rows), nextId, rows, lo, hi);
  }

  lemma RowsLandInRange(after: map<nat, TimeSlot>, nextId: nat, rows: seq<TimeSlot>, lo: int, hi: int)
    requires forall k :: 0 <= k < |rows| ==> nextId + k in after && after[nextId + k] == rows[k]
    requires forall k :: 0 <= k < |rows| ==> lo <= rows[k].startTime < hi
    ensures Ordering.Interval(nextId, |rows|) <= IdsStartingIn(after, lo, hi)
  {
    forall id | id in Ordering.Interval(nextId, |rows|)
      ensures id in IdsStartingIn(after, lo, hi)
    {
      var k := id - nextId;
      assert 0 <= k < |rows| && lo <= rows[k].startTime < hi;
    }
  }

  /** Inserting well-formed rows above every existing id keeps every row
      well formed and every id below the new counter. */
  lemma InsertAllWellFormed(slots: map<nat, TimeSlot>, nextId: nat, rows: seq<TimeSlot>)
    requires forall id :: id in slots ==> id < nextId && WellFormedSlot(slots[id])
    requires forall k :: 0 <= k < |rows| ==> WellFormedSlot(rows[k])
    ensures var r := InsertAll(slots, nextId, rows);
      forall id :: id in r ==> id < nextId + |rows| && WellFormedSlot(r[id])
  {
    var r := InsertAll(slots, nextId, rows);
    forall id | id in r
      ensures id < nextId + |rows| && WellFormedSlot(r[id])
    {
      if id !in slots {
        assert r[nextId + (id - nextId)] == rows[id - nextId];
      }
    }
  }

  lemma SubsetSize(a: set<nat>, b: set<nat>)
    requires a <= b
    ensures |a| <= |b|
  {
    assert b == a + (b - a);
  }

  /** `maxPatients || 1`: a missing or zero capacity becomes one. */
  function CombinedCapacity(maxPatients: Option<int>): (n: int)
    ensures n != 0
    ensures maxPatients.Some? && maxPatients.value != 0 ==> n == maxPatients.value
  {
    if maxPatients.Some? && maxPatients.value != 0 then maxPatients.value else 1
  }

  /** Ids of the 15-minute slots starting at instant t: the candidates of the
      neighbour lookup. */
  function Neighbours(slots: map<nat, TimeSlot>, t: int): (ids: set<nat>)
    ensures forall id :: id in ids <==> id in slots && slots[id].startTime == t && slots[id].duration == 15
  {
    set id | id in slots.Keys && slots[id].startTime == t && slots[id].duration == 15
  }

  /** The store after the combine transaction: the target made a 30-minute
      first-visit slot from its own start, the neighbour row deleted. */
  function Merged(slots: map<nat, TimeSlot>, id: nat, next: nat, maxPatients: Option<int>): (r: map<nat, TimeSlot>)
    requires id in slots && next in slots && id != next
    ensures r.Keys == slots.Keys - {next}
    ensures |r| == |slots| - 1
    ensures r[id] == slots[id].(duration := 30, endTime := slots[id].startTime + 30 * MS_PER_MINUTE,
                                maxPatients := CombinedCapacity(maxPatients), isFirstVisit := true)
    ensures forall k :: k in r && k != id ==> r[k] == slots[k]
  {
    var t := slots[id];
    var r := slots[id := t.(duration := 30, endTime := t.startTime + 30 * MS_PER_MINUTE,
                            maxPatients := CombinedCapacity(maxPatients), isFirstVisit := true)] - {next};
    assert slots.Keys == r.Keys + {next};
    r
  }

  /** Combining keeps every row well formed and every id below the counter. */
  lemma MergedWellFormed(slots: map<nat, TimeSlot>, nextId: nat, id: nat, next: nat, maxPatients: Option<int>)
    requires id in slots && next in slots && id != next
    requires forall k :: k in slots ==> k < nextId && WellFormedSlot(slots[k])
    ensures forall k :: k in Merged(slots, id, next, maxPatients) ==>
      k < nextId && WellFormedSlot(Merged(slots, id, next, maxPatients)[k])
  {
    var r := Merged(slots, id, next, maxPatients);
    forall k | k in r
      ensures k < nextId && WellFormedSlot(r[k])
    {
      if k != id {
        assert r[k] == slots[k];
      }
    }
  }

  /** The store after the split transaction: the target cut back to its first
      quarter hour and a new row for the rest, both follow-up slots for two. */
  function SplitResult(slots: map<nat, TimeSlot>, id: nat, newId: nat): (r: map<nat, TimeSlot>)
    requires id in slots && newId !in slots
    ensures r.Keys == slots.Keys + {newId}
    ensures |r| == |slots| + 1
    ensures r[id].startTime == slots[id].startTime
    ensures r[id].endTime == r[newId].startTime == slots[id].startTime + QUARTER_MS
    ensures r[newId].endTime == slots[id].endTime
    ensures r[id].isAvailable == r[newId].isAvailable == slots[id].isAvailable
    ensures r[id].duration == r[newId].duration == 15
    ensures r[id].maxPatients == r[newId].maxPatients == 2
    ensures !r[id].isFirstVisit && !r[newId].isFirstVisit
    ensures forall k :: k in r && k != id && k != newId ==> r[k] == slots[k]
  {
    var t := slots[id];
    var first := t.(duration := 15, endTime := t.startTime + QUARTER_MS, maxPatients := 2, isFirstVisit := false);
    var second := TimeSlot(t.startTime + QUARTER_MS, t.endTime, t.isAvailable, 2, false, 15);
    slots[id := first][newId := second]
  }

  /** Splitting keeps every row well formed and every id below the advanced
      counter. */
  lemma SplitWellFormed(slots: map<nat, TimeSlot>, nextId: nat, id: nat)
    requires id in slots && slots[id].duration == 30
    requires forall k :: k in slots ==> k < nextId && WellFormedSlot(slots[k])
    ensures nextId !in slots
    ensures forall k :: k in SplitResult(slots, id, nextId) ==>
      k < nextId + 1 && WellFormedSlot(SplitResult(slots, id, nextId)[k])
  {
    var r := SplitResult(slots, id, nextId);
    forall k | k in r
      ensures k < nextId + 1 && WellFormedSlot(r[k])
    {
      if k != id && k != nextId {
        assert r[k] == slots[k];
      }
    }
  }

  /** Combining a 15-minute slot with its neighbour and splitting the result
      gives back both quarter-hour intervals, but not the original rows: the
      neighbour's row is replaced by a new one, both pieces take the target's
      availability, and capacity and visit type are reset to the follow-up
      defaults. */
  lemma CombineThenSplit(slots: map<nat, TimeSlot>, id: nat, next: nat, maxPatients: Option<int>, newId: nat)
    requires id in slots && next in slots && id != next && newId !in slots
    requires WellFormedSlot(slots[id]) && slots[id].duration == 15
    requires WellFormedSlot(slots[next]) && slots[next].duration == 15
    requires slots[next].startTime == slots[id].endTime
    ensures var r := SplitResult(Merged(slots, id, next, maxPatients), id, newId);
      && r.Keys == slots.Keys - {next} + {newId}
      && r[id].startTime == slots[id].startTime && r[id].endTime == slots[id].endTime
      && r[newId].startTime == slots[next].startTime && r[newId].endTime == slots[next].endTime
      && r[id].isAvailable == r[newId].isAvailable == slots[id].isAvailable
      && r[id].maxPatients == r[newId].maxPatients == 2
      && !r[id].isFirstVisit && !r[newId].isFirstVisit
      && forall k :: k in r && k != id && k != newId ==> r[k] == slots[k]
  {
  }

  /** For a 15-minute target, the combined row spans exactly the target's
      quarter hour followed by the neighbour's, and keeps its id, start and
      availability. */
  lemma CombineCoversBoth(slots: map<nat, TimeSlot>, id: nat, next: nat, maxPatients: Option<int>)
    requires id in slots && next in slots && id != next
    requires WellFormedSlot(slots[id]) && slots[id].duration == 15
    requires WellFormedSlot(slots[next]) && slots[next].duration == 15
    requires slots[next].startTime == slots[id].endTime
    ensures var r := Merged(slots, id, next, maxPatients);
      && id in r && next !in r
      && r[id].startTime == slots[id].startTime
      && r[id].endTime == slots[next].endTime
      && r[id].isAvailable == slots[id].isAvailable
      && WellFormedSlot(r[id])
  {
  }

  /** The target's own duration is never checked: combining a 30-minute slot
      with the 15-minute slot at its end leaves the target at 30 minutes and
      deletes the neighbour, so the neighbour's quarter hour is covered by
      neither row. */
  lemma CombineThirtyDropsNeighbour(slots: map<nat, TimeSlot>, id: nat, next: nat, maxPatients: Option<int>)
    requires id in slots && next in slots && id != next
    requires WellFormedSlot(slots[id]) && slots[id].duration == 30
    requires slots[next].startTime == slots[id].endTime
    ensures var r := Merged(slots, id, next, maxPatients);
      && r[id].startTime == slots[id].startTime && r[id].endTime == slots[id].endTime
      && next !in r
      && !(r[id].startTime <= slots[next].startTime < r[id].endTime)
  {
  }

  class SlotStore {
    /** The TimeSlot table, by row id. */
    var slots: map<nat, TimeSlot>
    /** The id the next inserted row receives. */
    var nextId: nat

    ghost predicate Valid()
      reads this
    {
      forall id :: id in slots ==> id < nextId && WellFormedSlot(slots[id])
    }

    constructor ()
      ensures Valid() && slots == map[] && nextId == 0
    {
      slots := map[];
      nextId := 0;
    }

    /** POST /api/timeslots. */
    method Generate(caller: Caller, request: GenerateRequest) returns (r: Result<GenerateOutcome, SlotError>)
      requires Valid() && ValidDate(request.date)
      modifies this
      ensures Valid()
      ensures !IsStaff(caller) ==> r == Err(Forbidden) && slots == old(slots) && nextId == old(nextId)
      ensures IsStaff(caller) ==>
        var plan := GenerationPlan(old(slots), request);
        && slots == InsertAll(old(slots), old(nextId), plan)
        && nextId == old(nextId) + |plan|
        && r == Ok(if !Truthy(request.isOpen) then Holiday
                   else if plan != [] then Created(|plan|)
                   else AlreadyExists(|IdsStartingIn(old(slots), DayWindowStart(request.date),
                                                     DayWindowEnd(request.date))|))
    {
      if !IsStaff(caller) {
        return Err(Forbidden);
      }
      if !Truthy(request.isOpen) {
        assert InsertAll(slots, nextId, []) == slots;
        return Ok(Holiday);
      }
      var date := request.date;
      var startOfDay := LocalMidnightMs(date) - JST_OFFSET_MS;
      var endOfDay := LocalMidnightMs(date) + MS_PER_DAY - 1 - JST_OFFSET_MS;
      var existingSlots := set id | id in slots.Keys && startOfDay <= slots[id].startTime <= endOfDay;
      assert existingSlots == IdsStartingIn(slots, DayWindowStart(date), DayWindowEnd(date));
      if existingSlots == {} {
        var newTimeSlots := GenerateTimeSlots(date);
        if |newTimeSlots| > 0 {
          assert GenerationPlan(slots, request) == newTimeSlots;
          DaySlotsWellFormed(date);
          InsertAllWellFormed(slots, nextId, newTimeSlots);
          slots := InsertAll(slots, nextId, newTimeSlots);
          nextId := nextId + |newTimeSlots|;
          return Ok(Created(|newTimeSlots|));
        }
      }
      assert GenerationPlan(slots, request) == [];
      assert InsertAll(slots, nextId, []) == slots;
      r := Ok(AlreadyExists(|existingSlots|));
    }

    /** GET /api/timeslots: the slots starting between startDate 00:00 JST and
        endDate 23:59:59.999 JST, ascending by start. */
    method Query(caller: Caller, startDate: Option<Date>, endDate: Option<Date>) returns (r: Result<seq<nat>, SlotError>)
      requires startDate.Some? ==> ValidDate(startDate.value)
      requires endDate.Some? ==> ValidDate(endDate.value)
      ensures !IsStaff(caller) <==> r == Err(Forbidden)
      ensures r == Err(MissingDates) <==> IsStaff(caller) && (startDate.None? || endDate.None?)
      ensures r.Ok? <==> IsStaff(caller) && startDate.Some? && endDate.Some?
      ensures r.Ok? ==>
        var lo, hi := DayWindowStart(startDate.value), DayWindowEnd(endDate.value);
        && Ordering.Distinct(r.value)
        && (forall i :: 0 <= i < |r.value| ==> r.value[i] in slots && lo <= slots[r.value[i]].startTime < hi)
        && (forall id :: id in slots && lo <= slots[id].startTime < hi ==> id in r.value)
        && (forall i, j :: 0 <= i < j < |r.value| ==> slots[r.value[i]].startTime <= slots[r.value[j]].startTime)
    {
      if !IsStaff(caller) {
        return Err(Forbidden);
      }
      if startDate.None? || endDate.None? {
        return Err(MissingDates);
      }
      var startOfDay := LocalMidnightMs(startDate.value) - JST_OFFSET_MS;
      var endOfDay := LocalMidnightMs(endDate.value) + MS_PER_DAY - 1 - JST_OFFSET_MS;
      r := Ok(Listing(slots, startOfDay, endOfDay + 1));
    }

    /** POST /api/timeslots/combine. */
    method Combine(slotId: nat, maxPatients: Option<int>, reservations: map<nat, Reservation>)
      returns (r: Result<seq<nat>, SlotError>)
      requires Valid()
      modifies this
      ensures Valid() && nextId == old(nextId)
      ensures r.Err? ==> slots == old(slots)
      ensures r == Err(SlotNotFound) <==> slotId !in old(slots)
      ensures r == Err(NextSlotNotFound) <==>
        slotId in old(slots) && Neighbours(old(slots), old(slots)[slotId].endTime) == {}
      ensures r == Err(SlotReserved) <==>
        slotId in old(slots) && Neighbours(old(slots), old(slots)[slotId].endTime) != {}
        && (HasReservations(reservations, slotId)
            || HasReservations(reservations, Ordering.Least(Neighbours(old(slots), old(slots)[slotId].endTime))))
      ensures r.Ok? <==>
        slotId in old(slots) && Neighbours(old(slots), old(slots)[slotId].endTime) != {}
        && !HasReservations(reservations, slotId)
        && !HasReservations(reservations, Ordering.Least(Neighbours(old(slots), old(slots)[slotId].endTime)))
      ensures r.Ok? ==>
        var next := Ordering.Least(Neighbours(old(slots), old(slots)[slotId].endTime));
        next != slotId && slots == Merged(old(slots), slotId, next, maxPatients)
      ensures r.Ok? ==>
        r.value == DayListing(slots, UtcMidnight(old(slots)[slotId].startTime), MS_PER_DAY - 1)
    {
      if slotId !in slots {
        return Err(SlotNotFound);
      }
      var targetSlot := slots[slotId];
      var candidates := set id | id in slots.Keys && slots[id].startTime == targetSlot.endTime && slots[id].duration == 15;
      assert candidates == Neighbours(slots, targetSlot.endTime);
      if candidates == {} {
        return Err(NextSlotNotFound);
      }
      var nextSlot := Ordering.Least(candidates);
      if HasReservations(reservations, slotId) || HasReservations(reservations, nextSlot) {
        return Err(SlotReserved);
      }
      MergedWellFormed(slots, nextId, slotId, nextSlot, maxPatients);
      slots := Merged(slots, slotId, nextSlot, maxPatients);
      r := Ok(DayListing(slots, UtcMidnight(targetSlot.startTime), MS_PER_DAY - 1));
    }

    /** POST /api/timeslots/split. */
    method Split(slotId: nat, reservations: map<nat, Reservation>) returns (r: Result<seq<nat>, SlotError>)
      requires Valid()
      modifies this
      ensures Valid()
      ensures r.Err? ==> slots == old(slots) && nextId == old(nextId)
      ensures r == Err(SlotNotFound) <==> slotId !in old(slots)
      ensures r == Err(NotThirtyMinutes) <==> slotId in old(slots) && old(slots)[slotId].duration != 30
      ensures r == Err(SlotReserved) <==>
        slotId in old(slots) && old(slots)[slotId].duration == 30 && HasReservations(reservations, slotId)
      ensures r.Ok? <==>
        slotId in old(slots) && old(slots)[slotId].duration == 30 && !HasReservations(reservations, slotId)
      ensures r.Ok? ==>
        && old(nextId) !in old(slots)
        && slots == SplitResult(old(slots), slotId, old(nextId))
        && nextId == old(nextId) + 1
      ensures r.Ok? ==>
        r.value == DayListing(slots, UtcMidnight(old(slots)[slotId].startTime), MS_PER_DAY)
    {
      if slotId !in slots {
        return Err(SlotNotFound);
      }
      var targetSlot := slots[slotId];
      if targetSlot.duration != 30 {
        return Err(NotThirtyMinutes);
      }
      if HasReservations(reservations, slotId) {
        return Err(SlotReserved);
      }
      SplitWellFormed(slots, nextId, slotId);
      slots := SplitResult(slots, slotId, nextId);
      nextId := nextId + 1;
      r := Ok(DayListing(slots, UtcMidnight(targetSlot.startTime), MS_PER_DAY));
    }
  }
}
