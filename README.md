# Clinic booking: slots, reservations and registration

This project is a Dafny model of the booking core of a clinic's LINE-login web app, with the proofs that go with it. It covers:

- **Slot store.** The staff-only timeslots route builds a day of 15-minute slots from the weekday clinic hours and lists slots by date range. The combine route merges two quarter hours into a 30-minute first-visit slot, and the split route cuts one back into two.
- **Reservation engine.**
  - The booking route annotates slots with their CONFIRMED count, books a slot after an ordered chain of checks, and cancels at least 24 hours ahead.
  - The month route folds a month's slots into a per-day availability dictionary (○ △ ×) and pads it to every day of the month.
  - The patient route lists a patient's upcoming reservations.
- **Screens.**
  - The doctor's schedule: the visit-status cycle and the confirmed-only listing.
  - The administrator's day view: capacity badges, visit-type toggle, close-all.
  - The administrator's month calendar: day statuses and clicks.
  - The patient's booking wizard: the week grid, disabled days, remaining places and the step counter.
- **Registration.**
  - The register route: patient-number generator, birth-date parser, field validation and the saved record.
  - The patient's registration form: typing filters, hyphenation, address widening and the checks before submitting.
  - The administrator's patient list: display formatting.

Modelling choices:

- Instants are integer milliseconds since the epoch, in UTC. Japan Standard Time is UTC + 9 h. The server's local zone is UTC. The browser's zone offset is a parameter of the calendar view.
- A calendar day is its epoch-day number. The month route's `YYYY-MM-DD` dictionary keys are epoch days.
- The TimeSlot table and the Reservation table are classes (`Slots.SlotStore`, `Reservations.ReservationBook`), each holding a map from row id to row and an id counter. Each route handler is one atomic method of the table it writes, and it reads the other table as a map.
- `orderBy: startTime asc` is a sort by key (`Ordering.SortByKey`). Ties are broken by id.
- The session is an input, `Common.Caller`: no session, a LINE account without a patient record, or a registered patient. The staff check is "card number 00001".
- The loops of the source are methods with loop invariants, proved against recursive specification functions: `GenerateTimeSlots`, `Aggregate`, `PadMonth`, `BuildWeeks`, `SetAllClosed`.
- The straight-line message pushes of validateData and validateForm are methods that grow a message list, each written as two consecutive check-group methods. Their contracts are tied to a ranked list of checks whose meaning is proved by induction on the rank.
- The split route's refetch window is [midnight, next midnight) of the slot's UTC day. On a UTC server the two `setHours` calls give exactly that window.

## Model

| member | source | states |
|---|---|---|
| Calendar.DaysInMonth | linelogin-new/app/api/patients/register/route.ts:56-73 | a month has 28 to 31 days, and February has 29 exactly in a Gregorian leap year |
| Calendar.PrevMonth | linelogin-new/app/api/reservations/month/route.ts:49-61 | the month before (y, m) is a valid month whose next month is (y, m) again |
| Calendar.PrevDay | linelogin-new/app/api/reservations/month/route.ts:42-46 | the day before a valid date is a valid date: one day earlier in the month, or the last day of the previous month on the 1st |
| Calendar.Weekday | linelogin-new/app/api/timeslots/route.ts:68-69 | the day of the week of an epoch day lies in 0..6 (0 = Sunday) |
| Calendar.EpochDayOfRange | linelogin-new/app/api/reservations/month/route.ts:78-81 | an instant within the 24 hours of an epoch day falls on that day |
| Calendar.MonthContinuity | linelogin-new/app/api/reservations/month/route.ts:64-72 | the 1st of the next month is the day right after the last day of this month |
| Calendar.PrevDayIsOneDayEarlier | linelogin-new/app/api/reservations/month/route.ts:42-46 | the previous calendar day is exactly one epoch day earlier |
| Calendar.DayOfMonthOffset | linelogin-new/app/api/reservations/month/route.ts:179-185 | day k of a month is k - 1 days after its 1st |
| Ordering.SortByKey | linelogin-new/app/api/timeslots/route.ts:236-238 | lists every id of the set exactly once, and only those, ascending by key |
| Ordering.Least | linelogin-new/app/api/timeslots/combine/route.ts:23-29 | the least id of a non-empty set belongs to the set and is at most every member (the row findFirst picks) |
| Ordering.Interval | linelogin-new/app/api/timeslots/route.ts:158-160 | the ids lo .. lo + n - 1, of which there are n |
| Ordering.IntervalSplit | linelogin-new/app/api/timeslots/route.ts:158-160 | a non-empty id interval is its first id plus the interval after it |
| Records.ReservationsOn | linelogin-new/app/api/timeslots/combine/route.ts:39-44 | definition of the where clause `{ timeSlotId }`: exactly the reservations, of any status, attached to the slot; its meaning comes from the handler contracts that use it |
| Records.ConfirmedOn | linelogin-new/app/api/reservations/route.ts:201 | definition of the where clause `{ timeSlotId, status: 'CONFIRMED' }`: exactly the CONFIRMED reservations of the slot, a subset of all of its reservations; `DayView.ConfirmedCountAgrees` ties the day view's count to it |
| Records.StartKeys | linelogin-new/app/api/timeslots/route.ts:236-238 | definition of the sort key of `orderBy: startTime`: the startTime column of every slot and of nothing else |
| Records.IdsStartingIn | linelogin-new/app/api/timeslots/route.ts:215-221 | definition of the startTime filter: exactly the slots whose start lies in [lo, hi); its meaning comes from `Records.Listing` and the handler contracts |
| Records.Listing | linelogin-new/app/api/timeslots/route.ts:215-239 | every slot starting in [lo, hi) exactly once, and nothing else, ascending by start |
| Slots.OpeningMinute | linelogin-new/app/api/timeslots/route.ts:19-48 | opening time is 15:00 on Sunday and 09:00 on the other days |
| Slots.ClosingMinute | linelogin-new/app/api/timeslots/route.ts:19-48 | closing time is 20:00 every day |
| Slots.DayOfWeek | linelogin-new/app/api/timeslots/route.ts:67-70 | the weekday used to look up the clinic hours lies in 0..6 |
| Slots.ParseTimeStringIsJstWallClock | linelogin-new/app/api/timeslots/route.ts:54-61 | the stored instant is the server-local wall time minus exactly 9 h: adding 9 h back lands on the same date at that time |
| Slots.GenerateTimeSlots | linelogin-new/app/api/timeslots/route.ts:64-95 | the loop produces exactly the day's slot list (proved by loop invariant) |
| Slots.SlotsFromShape | linelogin-new/app/api/timeslots/route.ts:77-92 | the loop emits one row per started quarter hour, the k-th starting k quarter hours after the first |
| Slots.OpeningSpan | linelogin-new/app/api/timeslots/route.ts:19-48 | opening hours span 20 quarter hours on Sunday and 44 on the other days |
| Slots.DaySlotsShape | linelogin-new/app/api/timeslots/route.ts:77-92 | generated slots: 44 on Monday to Saturday and 20 on Sunday, contiguous, first at opening, last ending at closing, each open, 15 minutes, follow-up, two places |
| Slots.DaySlotsWellFormed | linelogin-new/app/api/timeslots/route.ts:82-89 | every generated row is a well-formed 15-minute slot |
| Slots.DaySlotsInWindow | linelogin-new/app/api/timeslots/route.ts:134-138 | every generated start lies in the window the handler searches for existing slots |
| Slots.NewYear2024Slots | linelogin-new/app/api/timeslots/route.ts:54-92 | a worked instance: Monday 2024-01-01 gets 44 slots from 00:00Z (09:00 JST) to 11:00Z (20:00 JST) |
| Slots.UtcMidnight | linelogin-new/app/api/timeslots/combine/route.ts:65-71 | startOfDay in the server zone is the UTC midnight at or before the instant |
| Slots.GenerationPlan | linelogin-new/app/api/timeslots/route.ts:126-169 | rows are planned exactly when isOpen is truthy and the day's window holds no slot, and then they are the whole generated day |
| Slots.Numbered | linelogin-new/app/api/timeslots/route.ts:158-160 | the rows are keyed by consecutive fresh ids in order |
| Slots.InsertAll | linelogin-new/app/api/timeslots/route.ts:158-160 | createMany keeps every old row and adds the new rows under nextId, nextId + 1, ... |
| Slots.GenerateIsIdempotent | linelogin-new/app/api/timeslots/route.ts:140-174 | after a generation, the same request plans nothing; for an open day the window then holds at least the rows created |
| Slots.InsertedInWindow | linelogin-new/app/api/timeslots/route.ts:140-160 | every id a generation inserts starts inside the day's search window |
| Slots.InsertedRowsInRange | linelogin-new/app/api/timeslots/route.ts:158-160 | inserted rows whose starts lie in [lo, hi) are found by a query over [lo, hi) |
| Slots.RowsLandInRange | linelogin-new/app/api/timeslots/route.ts:158-160 | the same, for any store holding the rows under consecutive ids |
| Slots.InsertAllWellFormed | linelogin-new/app/api/timeslots/route.ts:153-160 | inserting well-formed rows keeps every row well-formed and every id below the advanced counter |
| Slots.CombinedCapacity | linelogin-new/app/api/timeslots/combine/route.ts:54 | `maxPatients \|\| 1`: a supplied non-zero capacity is kept, and an absent or zero one becomes 1 |
| Slots.Neighbours | linelogin-new/app/api/timeslots/combine/route.ts:23-29 | exactly the 15-minute slots that start at the given instant |
| Slots.Merged | linelogin-new/app/api/timeslots/combine/route.ts:47-62 | one row fewer; the target becomes a 30-minute first-visit slot from its own start with the combined capacity; the neighbour is gone; every other row is unchanged |
| Slots.MergedWellFormed | linelogin-new/app/api/timeslots/combine/route.ts:47-62 | combining keeps every row well-formed and every id below the counter |
| Slots.SplitResult | linelogin-new/app/api/timeslots/split/route.ts:39-61 | one row more; the target becomes [start, start + 15 min), the new row is [start + 15 min, old end); both are 15-minute follow-up slots for two, with the target's availability; nothing else changes |
| Slots.SplitWellFormed | linelogin-new/app/api/timeslots/split/route.ts:39-61 | the counter id is unused, and splitting keeps every row well-formed |
| Slots.CombineThenSplit | linelogin-new/app/api/timeslots/split/route.ts:39-61 | combine then split gives back both quarter-hour intervals, but under a new id for the second, with the target's availability, capacity 2 and follow-up type |
| Slots.CombineCoversBoth | linelogin-new/app/api/timeslots/combine/route.ts:15-57 | for a 15-minute target, the combined row spans exactly the two quarter hours and keeps its start and availability |
| Slots.CombineThirtyDropsNeighbour | linelogin-new/app/api/timeslots/combine/route.ts:15-57 | the target's duration is never checked: a 30-minute target stays 30 minutes and the deleted neighbour's quarter hour is covered by no row |
| Slots.SlotStore.constructor | linelogin-new/app/api/timeslots/route.ts:111-183 | an empty table with counter 0 |
| Slots.SlotStore.Generate | linelogin-new/app/api/timeslots/route.ts:111-183 | a non-staff caller gets Forbidden and nothing changes; otherwise the store gains exactly the planned rows, and the answer is Holiday, Created(count) or AlreadyExists(existing count) |
| Slots.SlotStore.Query | linelogin-new/app/api/timeslots/route.ts:185-253 | Forbidden exactly for non-staff callers; MissingDates exactly when a date is absent; success exactly for a staff caller with both dates, and then every slot starting from startDate 00:00 JST to endDate 23:59:59.999 JST, once each, ascending |
| Slots.SlotStore.Combine | linelogin-new/app/api/timeslots/combine/route.ts:5-93 | each error exactly under its condition (unknown slot, no 15-minute neighbour, a reservation on either) with the store unchanged; success exactly when none of them applies, and then the store is Merged with the least neighbour and the answer lists that UTC day's slots ascending |
| Slots.SlotStore.Split | linelogin-new/app/api/timeslots/split/route.ts:5-85 | each error exactly under its condition (unknown slot, not 30 minutes, reserved) with the store unchanged; success exactly for an unreserved 30-minute slot, and then the store is SplitResult under the next id, and the answer lists that day's slots ascending |
| Reservations.CombineKeepsReferences | linelogin-new/app/api/timeslots/combine/route.ts:39-62 | combining never leaves a reservation pointing at a deleted slot |
| Reservations.SplitKeepsReferences | linelogin-new/app/api/timeslots/split/route.ts:39-61 | splitting never leaves a reservation pointing at a missing slot |
| Reservations.VisitDuration | linelogin-new/app/api/reservations/route.ts:92 | a visit books 30 minutes (first visit) or 15 (follow-up) |
| Reservations.CreateRejection | linelogin-new/app/api/reservations/route.ts:166-238 | the booking checks in source order: missing id, unknown slot, closed, full, a first visit on a slot that is not 30 minutes, a follow-up on one that is not 15, an existing CONFIRMED booking, each error exactly when the earlier checks pass and its own fails; no error exactly when the slot exists, is open, has room, has the visit type's duration and the caller holds no CONFIRMED booking on it |
| Reservations.CreateIgnoresSlotVisitType | linelogin-new/app/api/reservations/route.ts:210-222 | changing the slot's own first-visit flag never changes the booking decision |
| Reservations.ConfirmedAfterInsert | linelogin-new/app/api/reservations/route.ts:241-247 | a new CONFIRMED row raises its slot's count by exactly one and leaves other counts alone |
| Reservations.ConfirmedAfterCancel | linelogin-new/app/api/reservations/route.ts:352-357 | cancelling lowers its slot's count by one if the row was CONFIRMED and changes no other count |
| Reservations.MatchingSlots | linelogin-new/app/api/reservations/route.ts:77-94 | exactly the slots starting on the server-local day of the date that are open, of the visit type's duration and flagged with the visit type |
| Reservations.Annotate | linelogin-new/app/api/reservations/route.ts:119-132 | the slot's columns with currentPatients = its CONFIRMED count, and isAvailable exactly when currentPatients < maxPatients |
| Reservations.QueryAvailable | linelogin-new/app/api/reservations/route.ts:47-143 | 401 exactly without a session, 403 exactly without a patient record, 400 exactly without a date; success exactly for a registered caller with a date, and then every matching slot once, annotated, ascending by start |
| Reservations.AnnotateAll | linelogin-new/app/api/reservations/route.ts:119-132 | one annotation per id, in order |
| Reservations.AnnotatedListing | linelogin-new/app/api/reservations/route.ts:84-132 | annotating a sorted listing keeps it complete, duplicate-free and ascending |
| Reservations.UpcomingIds | linelogin-new/app/api/reservations/patient/route.ts:33-44 | exactly the caller's CONFIRMED reservations whose slot starts no earlier than 24 hours before now |
| Reservations.SlotStartKeys | linelogin-new/app/api/reservations/patient/route.ts:49-53 | the sort key of each reservation is its slot's start |
| Reservations.Upcoming | linelogin-new/app/api/reservations/patient/route.ts:10-60 | 401 exactly without a session, 404 exactly without a patient record; success exactly for a registered caller, and then the upcoming reservations, once each, ascending by slot start |
| Reservations.ReservationBook.constructor | linelogin-new/app/api/reservations/route.ts:145-284 | an empty table with counter 0 |
| Reservations.ReservationBook.Create | linelogin-new/app/api/reservations/route.ts:145-284 | 401 and 403 for the session checks, then exactly CreateRejection's error with the table unchanged; on success one CONFIRMED row for the caller, slot and visit type is added under a fresh id, and the slot's count stays within capacity |
| Reservations.ReservationBook.Cancel | linelogin-new/app/api/reservations/route.ts:286-383 | each error exactly under its condition in source order, including "less than 24 hours ahead" on integer ms, with the table unchanged; success exactly when the caller owns an existing reservation whose slot exists and starts at least 24 hours ahead, and then only that row's status becomes CANCELLED |
| Month.SelectedMonth | linelogin-new/app/api/reservations/month/route.ts:42-74 | the month read from the shifted instant is a valid month |
| Month.ShiftedInstantIsPreviousDay | linelogin-new/app/api/reservations/month/route.ts:42-46 | the instant parseJSTDate produces falls on the day before the requested date |
| Month.FirstOfMonthSelectsPreviousMonth | linelogin-new/app/api/reservations/month/route.ts:42-74 | a request for the 1st of a month selects the previous month; any other day selects its own month |
| Month.MonthRangeIsJstMonth | linelogin-new/app/api/reservations/month/route.ts:53-72 | an instant lies in [startOfMonth, endOfMonth] exactly when its JST date is a day of the month |
| Month.DayTotal | linelogin-new/app/api/reservations/month/route.ts:157-161 | a day's count, the sum of the positive remainders of its slots, is never negative |
| Month.LastMark | linelogin-new/app/api/reservations/month/route.ts:159-173 | a day has a mark exactly when it has a slot, and it is the mark of its last slot |
| Month.FoldedMeaning | linelogin-new/app/api/reservations/month/route.ts:147-174 | after the fold, the keys are exactly the days with slots, each holding its total and its last slot's mark; the placeholder ー never survives |
| Month.Aggregate | linelogin-new/app/api/reservations/month/route.ts:145-174 | the forEach loop computes the fold (proved by loop invariant) |
| Month.DayRange | linelogin-new/app/api/reservations/month/route.ts:178-185 | exactly the n consecutive days from the first |
| Month.PadMonth | linelogin-new/app/api/reservations/month/route.ts:178-194 | every day of the month gets an entry; existing entries are kept; added ones are count 0 and × |
| Month.PaddingKey | linelogin-new/app/api/reservations/month/route.ts:182-183 | the key computed for the (i+1)-th of the month is the i-th day after the 1st |
| Month.MonthSlotIds | linelogin-new/app/api/reservations/month/route.ts:118-127 | exactly the open slots of the visit type's duration and flag inside the month range |
| Month.MonthRows | linelogin-new/app/api/reservations/month/route.ts:118-142 | every row of the query starts inside the month range |
| Month.MonthAvailability | linelogin-new/app/api/reservations/month/route.ts:84-203 | 401, 403 and 400 exactly under their conditions; success exactly for a registered caller with a date, and then one entry per day of the selected month, holding the day's total and its last slot's mark, × for a day without slots, never ー |
| Month.PaddedMonthMeaning | linelogin-new/app/api/reservations/month/route.ts:176-194 | padding the folded dictionary gives exactly that per-day meaning |
| Month.RowsInMonth | linelogin-new/app/api/reservations/month/route.ts:118-148 | every queried slot falls on a JST day of the month |
| Month.NoRowsNoTotal | linelogin-new/app/api/reservations/month/route.ts:157-161 | a day without slots totals 0 |
| ScheduleView.NextStatus | linelogin-new/components/medical/schedule-view.tsx:63-70 | the next status always differs from the current one |
| ScheduleView.NextStatusCycle | linelogin-new/components/medical/schedule-view.tsx:63-70 | two steps never return to the start and three always do |
| ScheduleView.NextStatusIsBijective | linelogin-new/components/medical/schedule-view.tsx:63-70 | the cycle is one-to-one and reaches every status |
| ScheduleView.ParseVisitStatus | linelogin-new/components/medical/schedule-view.tsx:213-215 | a text is accepted exactly when it names one of the three statuses, and then it names that one |
| ScheduleView.ParseStatusName | linelogin-new/components/medical/schedule-view.tsx:213-215 | every status's stored text reads back as that status |
| ScheduleView.AdvanceRequest | linelogin-new/components/medical/schedule-view.tsx:102-111 | the patch names the reservation and carries the next status, never the current one |
| ScheduleView.ConfirmedOf | linelogin-new/components/medical/schedule-view.tsx:190 | exactly the CONFIRMED reservations of a slot |
| ScheduleView.EntriesFromMeaning | linelogin-new/components/medical/schedule-view.tsx:212-223 | each entry shows the CONFIRMED reservation at its number with that reservation's status; every one with a valid status is shown; numbers ascend |
| ScheduleView.EntriesSound | linelogin-new/components/medical/schedule-view.tsx:212-223 | every entry shows the reservation at its number |
| ScheduleView.EntriesComplete | linelogin-new/components/medical/schedule-view.tsx:212-215 | every CONFIRMED reservation with a valid status gets an entry |
| ScheduleView.EntriesOrdered | linelogin-new/components/medical/schedule-view.tsx:212-223 | entry numbers strictly ascend |
| ScheduleView.Listing | linelogin-new/components/medical/schedule-view.tsx:189-192 | a card exactly for each slot with at least one CONFIRMED reservation |
| DayView.ConfirmedCount | linelogin-new/components/admin/day-view.tsx:320 | the CONFIRMED count is at most the number of reservations, and zero exactly when none is CONFIRMED |
| DayView.ConfirmedCountIsConfirmedIds | linelogin-new/components/admin/day-view.tsx:320 | on a list without repeated ids, the filtered length is the number of distinct CONFIRMED ids |
| DayView.ConfirmedCountAgrees | linelogin-new/app/api/timeslots/route.ts:215-235 | when the slot's included reservations reach the view once each with their status, the badge's count equals `Records.ConfirmedCount`, the count the booking route compares with maxPatients |
| DayView.SlotStatus | linelogin-new/components/admin/day-view.tsx:318-326 | no badge for a closed or full slot, "one left" for one free place, "two left" for two or more |
| DayView.StatusColor | linelogin-new/components/admin/day-view.tsx:328-334 | green exactly for a leading ○, yellow exactly for a leading △ |
| DayView.BadgeColor | linelogin-new/components/admin/day-view.tsx:318-334 | a badge is green with two or more free places, yellow with one, and uncoloured exactly when empty |
| DayView.ToggledMaxPatients | linelogin-new/components/admin/day-view.tsx:169 | 1 for a slot becoming first-visit; for one becoming follow-up, 2 exactly when it lasts 15 minutes |
| DayView.WithVisitTypeToggled | linelogin-new/components/admin/day-view.tsx:178-186 | flips the visit type, applies the capacity rule and changes nothing else |
| DayView.ToggleTwice | linelogin-new/components/admin/day-view.tsx:178-186 | toggling a generated slot twice restores it; a 30-minute follow-up slot comes back with one place |
| DayView.ControlsAreExclusive | linelogin-new/components/admin/day-view.tsx:459-495 | combine and split are never both offered, neither is offered for a reserved slot, and a reserved slot's visit type is locked |
| DayView.MapSlot | linelogin-new/components/admin/day-view.tsx:150-154 | rewrites exactly the slots with the given id |
| DayView.ToggleAvailabilityTwice | linelogin-new/components/admin/day-view.tsx:150-154 | flipping availability twice restores the list |
| DayView.AllClosed | linelogin-new/components/admin/day-view.tsx:289-294 | every slot closed, nothing else changed |
| DayView.Ids | linelogin-new/components/admin/day-view.tsx:276-277 | the ids of the slots, in list order |
| DayView.DayView.constructor | linelogin-new/components/admin/day-view.tsx:136-154 | the view holds the given slots |
| DayView.DayView.ToggleAvailability | linelogin-new/components/admin/day-view.tsx:136-159 | sends the opposite flag; on acceptance only that slot's flag flips, otherwise the list is unchanged |
| DayView.DayView.ToggleVisitType | linelogin-new/components/admin/day-view.tsx:161-191 | sends the opposite type with the capacity rule; on acceptance only that slot changes, by the same rule |
| DayView.DayView.SetAllClosed | linelogin-new/components/admin/day-view.tsx:271-311 | requests go out in list order and stop at the first refusal; the flags are all cleared exactly when every request succeeded, otherwise the list is unchanged |
| CalendarView.SlotsOn | linelogin-new/components/admin/calendar-view.tsx:82-89 | exactly the slots whose local date is the day |
| CalendarView.AnyAvailable | linelogin-new/components/admin/calendar-view.tsx:96 | true exactly when some slot is available |
| CalendarView.StatusOf | linelogin-new/components/admin/calendar-view.tsx:81-101 | unset exactly when the day has no slot, open exactly when one of its slots is available, closed exactly when it has slots and none is available; hasTimeSlots exactly when not unset |
| CalendarView.DayStatuses | linelogin-new/components/admin/calendar-view.tsx:76-105 | one status per day of the month, in date order |
| CalendarView.FindDay | linelogin-new/components/admin/calendar-view.tsx:113-117 | finds a status of the day when there is one, and none only when no status is for that day |
| CalendarView.HandleDateClick | linelogin-new/components/admin/calendar-view.tsx:107-131 | ignored exactly outside the displayed month; a navigation opens the clicked date; a generation request carries the date and no isOpen |
| CalendarView.ClickOnMonth | linelogin-new/components/admin/calendar-view.tsx:107-131 | on the calendar's own statuses, a click opens the day exactly when it has slots, and asks for generation exactly when it has none |
| CalendarView.ClickRequestGeneratesNothing | linelogin-new/components/admin/calendar-view.tsx:131 | the request a click sends makes the server plan no slot, whatever the store holds |
| CalendarView.OpenDayRequestGeneratesDay | linelogin-new/components/admin/day-view.tsx:80-86 | with isOpen set, a click on a day without slots creates the whole day: at least 20 slots |
| ReservationSteps.CellDay | linelogin-new/components/reservation/reservation-steps.tsx:149-151 | a cell holds a day of the month, the one whose position it is |
| ReservationSteps.DayPlacement | linelogin-new/components/reservation/reservation-steps.tsx:149-151 | each day sits in exactly one cell: column (first + day - 1) mod 7 of week (first + day - 1) div 7 |
| ReservationSteps.BuildWeeks | linelogin-new/components/reservation/reservation-steps.tsx:144-156 | ceil((first + days) / 7) weeks of seven cells, each cell its day or empty (proved by loop invariant) |
| ReservationSteps.DisabledDays | linelogin-new/components/reservation/reservation-steps.tsx:202 | a day's column is its day of the week, so exactly past days, Sundays and Saturdays are disabled |
| ReservationSteps.RemainingLabel | linelogin-new/components/reservation/reservation-steps.tsx:416-423 | a count is shown exactly for an available slot, and it is maxPatients - currentPatients |
| ReservationSteps.RemainingShownIsPositive | linelogin-new/components/reservation/reservation-steps.tsx:419-423 | on the slots the booking query returns, a shown count is at least 1 |
| ReservationSteps.StepView | linelogin-new/components/reservation/reservation-steps.tsx:604-607 | a view is rendered exactly for steps 1 to 4 |
| ReservationSteps.StepViewsDiffer | linelogin-new/components/reservation/reservation-steps.tsx:604-607 | different steps render different views |
| ReservationSteps.Wizard.constructor | linelogin-new/components/reservation/reservation-steps.tsx:42 | the wizard starts at step 1 |
| ReservationSteps.Wizard.NextStep | linelogin-new/components/reservation/reservation-steps.tsx:48 | the step rises by exactly one |
| ReservationSteps.Wizard.PrevStep | linelogin-new/components/reservation/reservation-steps.tsx:49 | the step falls by exactly one |
| Text.Remove | linelogin-new/app/api/patients/register/route.ts:245-246 | deleting a character leaves none of it and never lengthens the string |
| Text.KeepDigits | linelogin-new/components/patient-registration-form.tsx:39 | keeping the digits leaves only digits and never lengthens the string |
| Text.KeepDigitsAndHyphens | linelogin-new/components/patient-registration-form.tsx:129 | only digits and hyphens are kept |
| Text.RemoveHyphensOfFiltered | linelogin-new/components/patient-registration-form.tsx:129-130 | deleting the hyphens after filtering gives exactly the input's digits |
| Text.RemoveAbsent | linelogin-new/app/api/patients/register/route.ts:245-246 | deleting an absent character changes nothing |
| Text.RemoveConcat | linelogin-new/app/api/patients/register/route.ts:245-246 | deletion distributes over concatenation |
| Text.KeepDigitsConcat | linelogin-new/components/patient-registration-form.tsx:39 | digit filtering distributes over concatenation |
| Text.KeepDigitsOfDigits | linelogin-new/components/patient-registration-form.tsx:39 | a digit string is its own digits |
| Text.TrimStart | linelogin-new/app/api/patients/register/route.ts:101-107 | the result starts with a visible character, and is empty exactly for a blank string |
| Text.TrimEnd | linelogin-new/app/api/patients/register/route.ts:101-107 | the result ends with a visible character, and is empty exactly for a blank string |
| Text.TrimProperties | linelogin-new/app/api/patients/register/route.ts:101-107 | trim() leaves nothing exactly for a blank string, and otherwise starts and ends with a visible character |
| Text.DigitChar | linelogin-new/app/api/patients/register/route.ts:41 | the digit character of v denotes v |
| Text.NatToDecimal | linelogin-new/app/api/patients/register/route.ts:41 | String(n): digits denoting n without a leading zero |
| Text.LeadingZeros | linelogin-new/app/api/patients/register/route.ts:41 | zero padding does not change the value |
| Text.PadStart | linelogin-new/app/api/patients/register/route.ts:41 | padStart: at least the width long, the fill character followed by the string |
| Text.LeadingDigits | linelogin-new/app/api/patients/register/route.ts:35 | the longest digit prefix |
| Text.LeadingHexDigits | linelogin-new/app/api/patients/register/route.ts:35 | the longest prefix of hexadecimal digits |
| Text.SignOf | linelogin-new/app/api/patients/register/route.ts:35 | the sign parseInt reads: -1 exactly after a leading '-', otherwise 1 |
| Text.Unsigned | linelogin-new/app/api/patients/register/route.ts:35 | the text after a leading '+' or '-', or the whole text without one |
| Text.ParseInt | linelogin-new/app/api/patients/register/route.ts:35-36 | parseInt(s) without a radix is NaN exactly when, after white space, a sign and an optional 0x, no digit of the base follows; a negative result needs a '-' |
| Text.ParseIntSkipsBlank | linelogin-new/app/api/patients/register/route.ts:35 | white space in front never changes what parseInt returns |
| Text.ParseIntReadsDecimal | linelogin-new/app/api/patients/register/route.ts:35 | an optional sign and a decimal digit run, ended by a non-digit, read as the signed value of the run |
| Text.IntToString | linelogin-new/app/api/patients/register/route.ts:41 | String(n) of an integer is non-empty, and parseInt reads it back as n |
| Text.ParseIntOfDigits | linelogin-new/app/api/patients/register/route.ts:35 | parseInt reads a non-empty digit string as its decimal value |
| Text.ParseIntSpaceSeven | linelogin-new/app/api/patients/register/route.ts:35 | " 7" reads as 7 |
| Text.ParseIntSigned | linelogin-new/app/api/patients/register/route.ts:35 | "+7" reads as 7 and "-3" as -3 |
| Text.ParseIntStopsAtLetters | linelogin-new/app/api/patients/register/route.ts:35-36 | "12ab" reads as 12 and "ab12" as NaN |
| Text.ParseIntHex | linelogin-new/app/api/patients/register/route.ts:35-36 | "0x1A" reads in base 16 as 26, and "0x" alone is NaN |
| Text.DecimalBound | linelogin-new/app/api/patients/register/route.ts:41 | k digits denote a number below 10^k |
| Text.NatToDecimalLength | linelogin-new/app/api/patients/register/route.ts:41 | String(n) of n below 10^k has at most k digits |
| Text.DecimalInjective | linelogin-new/app/api/patients/register/route.ts:75 | two digit strings of one length and one value are equal |
| Text.CanonicalPad | linelogin-new/app/api/patients/register/route.ts:75 | padding String(value) to a digit field's length gives the field back |
| Text.TwoGroups | linelogin-new/app/admin/patients/page.tsx:85 | deleting the hyphen, or keeping the digits, of two digit groups joined by '-' joins the groups |
| Text.ThreeGroups | linelogin-new/app/admin/patients/page.tsx:93-95 | the same for three groups |
| Registration.LatestPatientId | linelogin-new/app/api/patients/register/route.ts:22-26 | none exactly for an empty table; otherwise a stored number that is greatest in string order |
| Registration.NextPatientId | linelogin-new/app/api/patients/register/route.ts:30-43 | '00001' for an empty table; an error exactly when parseInt reads the latest number as NaN; otherwise at least five characters; when parseInt(latest) + 1 is not negative they are digits whose value, also as parseInt reads it, is that number; when it is negative they are not a digit string |
| Registration.NegativeLatestNumber | linelogin-new/app/api/patients/register/route.ts:35-41 | a latest number '-3' gives the next number '000-2' |
| Registration.PaddedNumber | linelogin-new/app/api/patients/register/route.ts:41 | at least five digits denoting the number |
| Registration.PaddedOne | linelogin-new/app/api/patients/register/route.ts:30-32 | 1 pads to '00001' |
| Registration.StringOrderRepeatsNumber | linelogin-new/app/api/patients/register/route.ts:22-43 | with '99999' and '100000' stored, the generator as written returns '100000', a stored number |
| Registration.MaxNumericId | linelogin-new/app/api/patients/register/route.ts:35-41 | at least the value of every numeric stored number |
| Registration.NextPatientIdByValue | linelogin-new/app/api/patients/register/route.ts:19-48 | at least five digits, one above the greatest stored value, never a stored number; '00001' for an empty table |
| Registration.AboveMaxIsFresh | linelogin-new/app/api/patients/register/route.ts:35-41 | a number above every stored value is not stored |
| Registration.ByValueAgreesOnFiveDigits | linelogin-new/app/api/patients/register/route.ts:19-48 | while all stored numbers have five digits, the generator as written and the by-value one agree |
| Registration.LatestHasMaxValue | linelogin-new/app/api/patients/register/route.ts:22-26 | on five-digit numbers, the latest in string order has the greatest value |
| Registration.LexOrderIsValueOrder | linelogin-new/app/api/patients/register/route.ts:22-26 | on digit strings of one length, string order is numeric order |
| Registration.ParseDateFromNumber | linelogin-new/app/api/patients/register/route.ts:51-76 | NotEightDigits exactly for input that is not eight digits; accepted exactly when the year is 1900 to the current year and month and day name an existing Gregorian date |
| Registration.BirthDateRoundTrip | linelogin-new/app/api/patients/register/route.ts:75 | the output is ten characters with '-' at 4 and 7, and deleting the '-' gives the input back |
| Registration.FormatFields | linelogin-new/app/api/patients/register/route.ts:75 | formatting the values of the three fields joins the fields with '-' |
| Registration.YearField | linelogin-new/app/api/patients/register/route.ts:75 | a four-digit year from 1900 on is written back as the same digits |
| Registration.CheckOfRank | linelogin-new/app/api/patients/register/route.ts:84-124 | the k-th check of validateData |
| Registration.ReportsBelowMeaning | linelogin-new/app/api/patients/register/route.ts:84-124 | the first k checks report exactly the failing messages of rank below k, in check order |
| Registration.CheckStep | linelogin-new/app/api/patients/register/route.ts:84-124 | one check appends its message exactly when its condition holds |
| Registration.AllChecksRun | linelogin-new/app/api/patients/register/route.ts:79-128 | all ten checks report exactly the failing messages, in check order |
| Registration.ContactChecks | linelogin-new/app/api/patients/register/route.ts:84-99 | the phone checks (two independent messages) and the postal checks push exactly the first four check results |
| Registration.PersonalChecks | linelogin-new/app/api/patients/register/route.ts:101-124 | the name, gender, birth-date and address checks complete the list |
| Registration.ValidateData | linelogin-new/app/api/patients/register/route.ts:79-128 | each message appears exactly when its condition holds, in check order |
| Registration.NoReportIffAcceptable | linelogin-new/app/api/patients/register/route.ts:79-128 | no message exactly when phone, postal code, names, gender, birth date and address are all acceptable |
| Registration.FieldOfRank | linelogin-new/app/api/patients/register/route.ts:169-176 | the k-th field of the required-field check |
| Registration.EmptyBelowMeaning | linelogin-new/app/api/patients/register/route.ts:169-176 | the first k fields contribute exactly the empty ones, in form order |
| Registration.AllFieldsChecked | linelogin-new/app/api/patients/register/route.ts:169-176 | all seven fields contribute exactly the empty ones, in form order |
| Registration.MissingFields | linelogin-new/app/api/patients/register/route.ts:169-184 | the missing list holds exactly the empty fields, in form order |
| Registration.PatientIds | linelogin-new/app/api/patients/register/route.ts:22-26 | the patientId column, in table order |
| Registration.FindByLineUserId | linelogin-new/app/api/patients/register/route.ts:205-216 | finds a patient of the LINE account, and none only when there is none |
| Registration.AppendKeepsUnique | linelogin-new/app/api/patients/register/route.ts:238-251 | a record with a fresh number and an unregistered account keeps numbers and accounts unique |
| Registration.PatientRegistry.constructor | linelogin-new/app/api/patients/register/route.ts:130-388 | an empty table |
| Registration.PatientRegistry.Register | linelogin-new/app/api/patients/register/route.ts:130-388 | 401 exactly without a session, then the missing fields in the order of the required-field list, the validation messages in the order validateData pushes them, an existing record, a bad birth date, each under its exact condition with the table unchanged; success exactly when all of those checks pass, and then exactly one record is appended, with trimmed names and address, hyphen-free phone and postal code, the formatted birth date and a fresh number |
| Registration.FirstRegistrantIsStaffNumber | linelogin-new/app/api/patients/register/route.ts:30-32 | the first registrant receives '00001', the staff number |
| RegistrationForm.Widen | linelogin-new/components/patient-registration-form.tsx:13-15 | a printable ASCII character moves by 0xFEE0 into the full-width forms |
| RegistrationForm.NormalizeAddress | linelogin-new/components/patient-registration-form.tsx:11-16 | same length; each character of U+0021..U+007E widened, every other one kept |
| RegistrationForm.NormalizeIsIdempotent | linelogin-new/components/patient-registration-form.tsx:11-16 | the output has no printable ASCII, so normalising again changes nothing |
| RegistrationForm.NarrowUndoesNormalize | linelogin-new/components/patient-registration-form.tsx:11-16 | an address without full-width forms is recovered from its normalised form |
| RegistrationForm.NormalizeKeepsBlankness | linelogin-new/components/patient-registration-form.tsx:11-16 | normalising never makes a blank address visible or a visible one blank |
| RegistrationForm.Take | linelogin-new/components/patient-registration-form.tsx:117-119 | slice(0, n): the prefix of length min(n, length) |
| RegistrationForm.Processed | linelogin-new/components/patient-registration-form.tsx:115-120 | the birth date keeps its first 8 digits, the postal code its first 7, any other field is stored raw |
| RegistrationForm.ProcessedDobIsShortDigits | linelogin-new/components/patient-registration-form.tsx:116-117 | a stored birth date is at most eight digits |
| RegistrationForm.WithField | linelogin-new/components/patient-registration-form.tsx:122-125 | the named field takes the value and every other field is unchanged |
| RegistrationForm.FormatPhoneNumber | linelogin-new/components/patient-registration-form.tsx:128-142 | over eleven digits keeps the previous value; up to 3 digits as they are; 4 to 7 as ddd-rest; 8 to 11 as ddd-dddd-rest |
| RegistrationForm.FormatPostalCode | linelogin-new/components/patient-registration-form.tsx:144-155 | over seven digits keeps the previous value; up to 3 digits as they are; otherwise ddd-rest |
| RegistrationForm.FormatPhoneNumberRoundTrip | linelogin-new/components/patient-registration-form.tsx:128-142 | deleting the '-' of a formatted number gives its digits, and formatting it again changes nothing |
| RegistrationForm.FormatPostalCodeRoundTrip | linelogin-new/components/patient-registration-form.tsx:144-155 | the same for postal codes |
| RegistrationForm.FormCheckOfRank | linelogin-new/components/patient-registration-form.tsx:35-58 | the k-th check of validateForm |
| RegistrationForm.FormReportsBelowMeaning | linelogin-new/components/patient-registration-form.tsx:35-58 | the first k checks report exactly the failing messages of rank below k, in check order |
| RegistrationForm.FormStep | linelogin-new/components/patient-registration-form.tsx:35-58 | one check appends its message exactly when its condition holds |
| RegistrationForm.AllFormChecksRun | linelogin-new/components/patient-registration-form.tsx:32-61 | all nine checks report exactly the failing messages, in check order |
| RegistrationForm.PersonalChecks | linelogin-new/components/patient-registration-form.tsx:35-44 | the name, gender and birth-date checks push exactly the first five check results |
| RegistrationForm.ContactChecks | linelogin-new/components/patient-registration-form.tsx:46-58 | the phone, postal-code and address checks complete the list |
| RegistrationForm.NoFormReportIffAcceptable | linelogin-new/components/patient-registration-form.tsx:32-61 | no message exactly when names, gender, birth date, phone, postal code and address are all acceptable |
| RegistrationForm.SubmitBody | linelogin-new/components/patient-registration-form.tsx:76-93 | the body carries the birth date's digits, phone and postal code without '-', the address normalised, other fields as typed |
| RegistrationForm.AcceptedFormPassesServer | linelogin-new/components/patient-registration-form.tsx:76-93 | a body the form lets through, with a gender from the select, passes the route's required-field check and validation |
| RegistrationForm.Form.constructor | linelogin-new/components/patient-registration-form.tsx:21-29 | every field starts empty |
| RegistrationForm.Form.HandleChange | linelogin-new/components/patient-registration-form.tsx:111-126 | only the named field changes, to the processed value |
| RegistrationForm.Form.HandlePhoneNumberChange | linelogin-new/components/patient-registration-form.tsx:157-164 | only the phone number changes, to its formatted value |
| RegistrationForm.Form.HandlePostalCodeChange | linelogin-new/components/patient-registration-form.tsx:166-173 | only the postal code changes, to its formatted value |
| RegistrationForm.Form.ValidateForm | linelogin-new/components/patient-registration-form.tsx:32-61 | each message appears exactly when its condition holds, in check order |
| RegistrationForm.Form.Submit | linelogin-new/components/patient-registration-form.tsx:63-94 | the messages, never empty and in the order validateForm pushes them, exactly when the form is not acceptable; otherwise the body that is sent |
| PatientsPage.FormatPostalCode | linelogin-new/app/admin/patients/page.tsx:81-86 | empty for a missing or empty code; ddd-dddd whose digits are the code's for exactly seven digits; otherwise the code as stored |
| PatientsPage.FormatPhoneNumber | linelogin-new/app/admin/patients/page.tsx:89-98 | empty for a missing or empty number; ddd-dddd-dddd for eleven digits and ddd-ddd-dddd for ten, holding the number's digits; otherwise as stored |
| PatientsPage.PostalDisplayKeepsDigits | linelogin-new/app/admin/patients/page.tsx:81-86 | the display has the code's digits, and where regrouped, deleting the '-' gives exactly those digits |
| PatientsPage.PostalDisplayIsIdempotent | linelogin-new/app/admin/patients/page.tsx:81-86 | formatting a displayed code again changes nothing |
| PatientsPage.PhoneDisplayKeepsDigits | linelogin-new/app/admin/patients/page.tsx:89-98 | the display has the number's digits, and where regrouped, deleting the '-' gives exactly those digits |
| PatientsPage.PhoneDisplayIsIdempotent | linelogin-new/app/admin/patients/page.tsx:89-98 | formatting a displayed number again changes nothing |
| PatientsPage.RegisteredPatientDisplay | linelogin-new/app/admin/patients/page.tsx:81-98 | a patient saved by the register route is always shown regrouped, and deleting the '-' gives back the stored phone number and postal code |

## Left out

- Sessions, LINE login and the patient lookup behind them are not modelled. The caller is an input: `Caller` is no session, a LINE account without a record, or a registered patient with its key and card number.
- The LINE notifications after booking and cancelling are not modelled. Their failure is caught and never changes the answer.
- Each handler is one atomic step. Prisma transactions, concurrent requests and the check-then-insert race of booking are not modelled, and neither are database failures that lead to the 500 answers.
- Date strings are not parsed. Request dates arrive as valid civil dates; `YYYYMMDD` birth dates are the exception and are modelled digit by digit.
- `Date.UTC(y, m - 1, d)` reading back its fields is modelled by its outcome, an existing Gregorian date. The current year and `now` are parameters.
- The browser's time zone is the `zoneOffsetMs` parameter of the calendar view, so date-fns' local-date functions are not modelled.
- Slots.SlotStore.Combine: "the first 15-minute slot at the target's end" is taken to be the one with the smallest id. The database returns an unspecified one.
- Ordering.SortByKey: ties in start time are listed by ascending id. The database leaves their order unspecified.
- Reservations.ReservationBook.Cancel: the time check compares integer milliseconds with 24 h, where the source divides into floating-point hours. The two agree on every integer difference.
- Registration.NextPatientId: the arithmetic is on unbounded integers. In the source parseInt and `+ 1` work on doubles, which round from 2^53 on, and `String()` switches to exponent notation from 1e21.
- Text.ParseInt: the value is exact for every digit run. JavaScript reads a run whose value exceeds 2^53 as a nearby double, which can differ from it.
- Slots.GenerationPlan: the request body's isOpen is taken to be a boolean or absent. The source tests any JSON value by truthiness, so `1` or `"yes"` would also open the day and `0` or `""` would not; this model does not capture those values.
- Slots.CombinedCapacity: maxPatients is taken to be an integer or absent. `maxPatients || 1` on another JSON value (a string, `false`, `null`) is not modelled.
- Registration.ValidateData: string lengths count characters. JavaScript's `length` counts UTF-16 code units, so a phone number holding a character outside the Basic Multilingual Plane has a different length there. That string fails the digit check either way; only the list of messages for it can differ.
- Text.Trim: the white-space set is the ASCII, Latin-1 and Unicode space characters and line terminators written out in `IsJsWhitespace`.
- The PATCH routes behind the toggles, the visit-status update and the close-all action are not part of this model. Their client-side requests and the local updates after them are modelled, with the server's acceptance given as a boolean input.
- The input elements' `maxLength` attributes are not modelled. Nothing in the handlers depends on them.
- Error strings, loading flags, dialogs, toasts, navigation timers and all rendering are not modelled beyond the values shown: badges, colours, marks, counts and step views.
- The administrator's patient list: fetching, searching and paging the table are not modelled, only its two display formatters.
- RegistrationForm.Form.HandleChange: the postal-code branch is modelled as written. The postal-code input is wired to its own change handler, so that branch is never reached from the form.
- Registration.PatientRegistry.Register: the patient number comes from the corrected by-value generator (see Findings). The generator's error path when the latest number is not numeric therefore does not arise. As written, that error is thrown before the birth-date check and ends in the generic 500 answer. A repeated number makes `prisma.patient.create` fail. That failure is the 409 answer (P2002) if the database schema declares patientId unique, and otherwise the duplicate is stored; the schema is not part of this model. Either way, every registration after '100000' is stored is affected.

## Findings

| source | as written | input that shows it | evidently intended | confidence | as-written member | corrected member |
|---|---|---|---|---|---|---|
| linelogin-new/app/api/patients/register/route.ts:22-43 | the latest patient number is taken in string order (`orderBy: { patientId: 'desc' }`) and incremented | stored numbers '99999' and '100000': string order picks '99999', so the next number is '100000', which is already stored | the next number is one above the greatest stored value, so it is never a stored number | not executed | Registration.StringOrderRepeatsNumber | Registration.NextPatientIdByValue |
| linelogin-new/components/admin/calendar-view.tsx:131 | a click on a day without slots posts `{ date }` with no `isOpen`, and the route returns "holiday, count 0" for a falsy `isOpen` (linelogin-new/app/api/timeslots/route.ts:127-132) | any date in the displayed month with no slots: the server creates nothing | send `isOpen: true`, as the day view does, so the day's slots are generated with the weekday's hours | not executed | CalendarView.ClickRequestGeneratesNothing | CalendarView.OpenDayRequestGeneratesDay |
