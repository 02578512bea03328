/** `GoogleService._calculate_free_slots` and the per-participant loop of
    `GoogleService.get_calendar_availability` (app/services/google_service.py). */
module FreeSlots {
  import opened Instants
  import opened StableSort

  /** `TimeSlot`: the half-open range [start, end) in minutes; `available`
      tells a free slot from a busy one. Nothing forces start < end. */
  datatype TimeSlot = TimeSlot(start: int, end: int, available: bool)

  /** The sort key of line 162. */
  function StartOf(s: TimeSlot): int { s.start }

  predicate Overlaps(a: TimeSlot, b: TimeSlot) {
    a.start < b.end && b.start < a.end
  }

  predicate Within(t: int, s: TimeSlot) {
    s.start <= t < s.end
  }

  /** Instant `t` lies in one of `slots`. */
  ghost predicate InSome(t: int, slots: seq<TimeSlot>) {
    exists k :: 0 <= k < |slots| && Within(t, slots[k])
  }

  /** Every interval ends no earlier than it starts, as the calendar service reports them. */
  ghost predicate WellFormed(slots: seq<TimeSlot>) {
    forall k :: 0 <= k < |slots| ==> slots[k].start <= slots[k].end
  }

  /** The gaps the sweep emits when it starts with its cursor at `cursor` and
      meets `busy` in this order: a gap before each busy slot that starts
      beyond the cursor, the cursor then moving to the later of itself and the
      busy slot's end, and a trailing gap up to `endDate`. */
  function Sweep(cursor: int, endDate: int, busy: seq<TimeSlot>): (free: seq<TimeSlot>)
    decreases |busy|
    ensures |free| <= |busy| + 1
  {
    if busy == [] then
      if cursor < endDate then [TimeSlot(cursor, endDate, true)] else []
    else
      var b := busy[0];
      (if cursor < b.start then [TimeSlot(cursor, b.start, true)] else [])
        + Sweep(Max(cursor, b.end), endDate, busy[1..])
  }

  /** Every slot of `free` is non-empty, marked available, and starts at or after `cursor`. */
  ghost predicate StartsFrom(free: seq<TimeSlot>, cursor: int) {
    forall k :: 0 <= k < |free| ==> cursor <= free[k].start < free[k].end && free[k].available
  }

  /** Each slot ends no later than any later one starts, so starts strictly
      increase when slots are non-empty. */
  ghost predicate Ascending(free: seq<TimeSlot>) {
    forall i, j :: 0 <= i < j < |free| ==> free[i].end <= free[j].start
  }

  /** No slot of `free` overlaps a slot of `busy`. */
  ghost predicate Disjoint(free: seq<TimeSlot>, busy: seq<TimeSlot>) {
    forall k, j :: 0 <= k < |free| && 0 <= j < |busy| ==> !Overlaps(free[k], busy[j])
  }

  ghost predicate EndsBy(slots: seq<TimeSlot>, endDate: int) {
    forall k :: 0 <= k < |slots| ==> slots[k].end <= endDate
  }

  ghost predicate StartsBy(slots: seq<TimeSlot>, endDate: int) {
    forall k :: 0 <= k < |slots| ==> slots[k].start <= endDate
  }

  /** Every free slot is non-empty, marked available, and starts at or after
      the cursor the sweep started from (so at or after `start_date`). */
  lemma {:induction false} SweepBounds(cursor: int, endDate: int, busy: seq<TimeSlot>)
    decreases |busy|
    ensures StartsFrom(Sweep(cursor, endDate, busy), cursor)
  {
    if busy != [] {
      var b := busy[0];
      var tail := Sweep(Max(cursor, b.end), endDate, busy[1..]);
      SweepBounds(Max(cursor, b.end), endDate, busy[1..]);
      var head := if cursor < b.start then [TimeSlot(cursor, b.start, true)] else [];
      var free := head + tail;
      assert Sweep(cursor, endDate, busy) == free;
      forall k | 0 <= k < |free| ensures cursor <= free[k].start < free[k].end && free[k].available {
        if k >= |head| {
          assert free[k] == tail[k - |head|];
        }
      }
    }
  }

  /** One step of the sweep, at position `i` of `busy`. */
  lemma SweepStep(cursor: int, endDate: int, busy: seq<TimeSlot>, i: int)
    requires 0 <= i < |busy|
    ensures Sweep(cursor, endDate, busy[i..])
         == (if cursor < busy[i].start then [TimeSlot(cursor, busy[i].start, true)] else [])
            + Sweep(Max(cursor, busy[i].end), endDate, busy[i + 1..])
  {
    assert busy[i..][0] == busy[i] && busy[i..][1..] == busy[i + 1..];
  }

  /** Lines 164-184: the loop over the sorted busy list, moving the cursor
      forward and collecting the gaps. */
  method CollectFreeSlots(startDate: int, endDate: int, busy: seq<TimeSlot>)
    returns (free: seq<TimeSlot>)
    ensures free == Sweep(startDate, endDate, busy)
  {
    free := [];
    var current := startDate;
    ghost var whole := Sweep(startDate, endDate, busy);
    for i := 0 to |busy|
      invariant free + Sweep(current, endDate, busy[i..]) == whole
    {
      var b := busy[i];
      SweepStep(current, endDate, busy, i);
      ghost var rest := Sweep(Max(current, b.end), endDate, busy[i + 1..]);
      if current < b.start {
        var gap := TimeSlot(current, b.start, true);
        assert free + ([gap] + rest) == (free + [gap]) + rest;
        free := free + [gap];
      } else {
        assert Sweep(current, endDate, busy[i..]) == rest;
      }
      current := Max(current, b.end);
    }
    assert busy[|busy|..] == [];
    if current < endDate {
      free := free + [TimeSlot(current, endDate, true)];
    }
  }

  /** Lines 156-186. The caller's list is sorted in place (stable, by start),
      then the sweep runs over the sorted list. */
  method CalculateFreeSlots(startDate: int, endDate: int, busy: array<TimeSlot>)
    returns (free: seq<TimeSlot>)
    modifies busy
    ensures busy[..] == SortBy(old(busy[..]), StartOf)
    ensures free == Sweep(startDate, endDate, busy[..])
    ensures old(busy[..]) == [] ==>
      free == if startDate < endDate then [TimeSlot(startDate, endDate, true)] else []
  {
    var sorted := SortBy(busy[..], StartOf);
    forall k | 0 <= k < busy.Length {
      busy[k] := sorted[k];
    }
    assert busy[..] == sorted;
    free := CollectFreeSlots(startDate, endDate, sorted);
  }

  /** One busy period as the free/busy query reports it. */
  datatype BusyPeriod = BusyPeriod(start: int, end: int)

  /** Outcome of the free/busy query for one address: the busy periods it
      reported, or the `HttpError` raised by the call. */
  datatype FetchOutcome = Fetched(periods: seq<BusyPeriod>) | HttpFailure

  /** Lines 122-130: each reported period becomes a slot marked not available. */
  function BusySlots(periods: seq<BusyPeriod>): (slots: seq<TimeSlot>)
    ensures |slots| == |periods|
    ensures forall k :: 0 <= k < |periods| ==>
      slots[k].start == periods[k].start && slots[k].end == periods[k].end && !slots[k].available
  {
    seq(|periods|, k requires 0 <= k < |periods| => TimeSlot(periods[k].start, periods[k].end, false))
  }

  datatype AvailabilityResponse =
    AvailabilityResponse(participantEmail: string, freeSlots: seq<TimeSlot>, busySlots: seq<TimeSlot>)

  /** What line 109-148 records for `email`, given the query's outcome. */
  ghost predicate Answers(response: AvailabilityResponse, email: string, startDate: int, endDate: int,
                          outcome: FetchOutcome)
  {
    && response.participantEmail == email
    && (outcome.HttpFailure? ==> response.freeSlots == [] && response.busySlots == [])
    && (outcome.Fetched? ==>
          && response.busySlots == SortBy(BusySlots(outcome.periods), StartOf)
          && response.freeSlots == Sweep(startDate, endDate, response.busySlots))
  }

  /** Lines 117-148: one participant's entry. A failed query leaves both
      lists empty; otherwise the busy list is stored after the sort that
      `CalculateFreeSlots` applies to it. */
  method AvailabilityFor(email: string, startDate: int, endDate: int, outcome: FetchOutcome)
    returns (response: AvailabilityResponse)
    ensures Answers(response, email, startDate, endDate, outcome)
  {
    match outcome
    case Fetched(periods) =>
      var busySlots := new TimeSlot[|periods|](k requires 0 <= k < |periods| =>
                                                 TimeSlot(periods[k].start, periods[k].end, false));
      assert busySlots[..] == BusySlots(periods);
      var freeSlots := CalculateFreeSlots(startDate, endDate, busySlots);
      response := AvailabilityResponse(email, freeSlots, busySlots[..]);
    case HttpFailure =>
      response := AvailabilityResponse(email, [], []);
  }

  /** Lines 103-154, with the query for `emails[i]` answered by `fetched[i]`:
      one entry per address, in input order; a failure touches only its own entry. */
  method GetCalendarAvailability(emails: seq<string>, startDate: int, endDate: int,
                                 fetched: seq<FetchOutcome>)
    returns (responses: seq<AvailabilityResponse>)
    requires |fetched| == |emails|
    ensures |responses| == |emails|
    ensures forall i :: 0 <= i < |emails| ==> Answers(responses[i], emails[i], startDate, endDate, fetched[i])
  {
    responses := [];
    for i := 0 to |emails|
      invariant |responses| == i
      invariant forall j :: 0 <= j < i ==> Answers(responses[j], emails[j], startDate, endDate, fetched[j])
    {
      var response := AvailabilityFor(emails[i], startDate, endDate, fetched[i]);
      responses := responses + [response];
    }
  }

  /** Consecutive free slots neither overlap nor come out of order: each ends
      no later than the next starts, so starts strictly increase. */
  lemma {:induction false} SweepOrdered(cursor: int, endDate: int, busy: seq<TimeSlot>)
    requires WellFormed(busy)
    decreases |busy|
    ensures Ascending(Sweep(cursor, endDate, busy))
    ensures forall i, j :: 0 <= i < j < |Sweep(cursor, endDate, busy)| ==>
      Sweep(cursor, endDate, busy)[i].start < Sweep(cursor, endDate, busy)[j].start
  {
    var free := Sweep(cursor, endDate, busy);
    SweepBounds(cursor, endDate, busy);
    if busy != [] {
      var b := busy[0];
      var next := Max(cursor, b.end);
      var tail := Sweep(next, endDate, busy[1..]);
      assert WellFormed(busy[1..]) by {
        forall j | 0 <= j < |busy[1..]| ensures busy[1..][j] == busy[j + 1] { }
      }
      SweepOrdered(next, endDate, busy[1..]);
      SweepBounds(next, endDate, busy[1..]);
      var head := if cursor < b.start then [TimeSlot(cursor, b.start, true)] else [];
      assert free == head + tail;
      forall i, j | 0 <= i < j < |free| ensures free[i].end <= free[j].start {
        assert free[j] == tail[j - |head|];
        if i >= |head| {
          assert free[i] == tail[i - |head|];
        }
      }
    }
  }

  /** Over a list sorted by start, no free slot overlaps any busy slot. */
  lemma {:induction false} SweepAvoidsBusy(cursor: int, endDate: int, busy: seq<TimeSlot>)
    requires SortedBy(busy, StartOf)
    decreases |busy|
    ensures Disjoint(Sweep(cursor, endDate, busy), busy)
  {
    if busy != [] {
      var b := busy[0];
      var next := Max(cursor, b.end);
      var tail := Sweep(next, endDate, busy[1..]);
      assert SortedBy(busy[1..], StartOf) by {
        forall i, j | 0 <= i < j < |busy[1..]| ensures StartOf(busy[1..][i]) <= StartOf(busy[1..][j]) {
          assert busy[1..][i] == busy[i + 1] && busy[1..][j] == busy[j + 1];
        }
      }
      SweepAvoidsBusy(next, endDate, busy[1..]);
      SweepBounds(next, endDate, busy[1..]);
      var head := if cursor < b.start then [TimeSlot(cursor, b.start, true)] else [];
      var free := head + tail;
      assert Sweep(cursor, endDate, busy) == free;
      forall k, j | 0 <= k < |free| && 0 <= j < |busy| ensures !Overlaps(free[k], busy[j]) {
        assert StartOf(busy[0]) <= StartOf(busy[j]);
        if k < |head| {
          assert free[k] == head[0];
        } else {
          assert free[k] == tail[k - |head|];
          if j > 0 {
            assert busy[j] == busy[1..][j - 1];
          }
        }
      }
    }
  }

  /** Coverage: an instant of the horizon that no busy slot holds lies in a
      free slot. It needs neither sorted nor well-formed busy slots. */
  lemma {:induction false} SweepCovers(cursor: int, endDate: int, busy: seq<TimeSlot>, t: int)
    requires cursor <= t < endDate
    requires !InSome(t, busy)
    decreases |busy|
    ensures InSome(t, Sweep(cursor, endDate, busy))
  {
    var free := Sweep(cursor, endDate, busy);
    if busy == [] {
      assert Within(t, free[0]);
    } else {
      var b := busy[0];
      var next := Max(cursor, b.end);
      var tail := Sweep(next, endDate, busy[1..]);
      var head := if cursor < b.start then [TimeSlot(cursor, b.start, true)] else [];
      assert free == head + tail;
      if t < b.start {
        assert Within(t, free[0]);
      } else {
        assert !Within(t, busy[0]);
        assert !InSome(t, busy[1..]) by {
          forall k | 0 <= k < |busy[1..]| ensures !Within(t, busy[1..][k]) {
            assert busy[1..][k] == busy[k + 1];
          }
        }
        SweepCovers(next, endDate, busy[1..], t);
        var k :| 0 <= k < |tail| && Within(t, tail[k]);
        assert free[k + |head|] == tail[k];
      }
    }
  }

  /** Free slots stay inside the horizon when every busy slot starts by its end. */
  lemma {:induction false} SweepEndsByHorizon(cursor: int, endDate: int, busy: seq<TimeSlot>)
    requires StartsBy(busy, endDate)
    decreases |busy|
    ensures EndsBy(Sweep(cursor, endDate, busy), endDate)
  {
    if busy != [] {
      var b := busy[0];
      var next := Max(cursor, b.end);
      var tail := Sweep(next, endDate, busy[1..]);
      assert forall j :: 0 <= j < |busy[1..]| ==> busy[1..][j] == busy[j + 1];
      SweepEndsByHorizon(next, endDate, busy[1..]);
      var head := if cursor < b.start then [TimeSlot(cursor, b.start, true)] else [];
      assert Sweep(cursor, endDate, busy) == head + tail;
      assert forall k :: 0 <= k < |tail| ==> (head + tail)[k + |head|] == tail[k];
    }
  }

  /** What a successful entry of `GetCalendarAvailability` guarantees: the
      stored busy list is the reported one, permuted into start order; the free
      slots start inside the horizon, avoid every busy slot and cover every
      instant of the horizon that no busy slot holds; with well-formed busy
      slots they are also in ascending order. */
  lemma FetchedEntry(response: AvailabilityResponse, email: string, startDate: int, endDate: int,
                     outcome: FetchOutcome)
    requires Answers(response, email, startDate, endDate, outcome) && outcome.Fetched?
    ensures multiset(response.busySlots) == multiset(BusySlots(outcome.periods))
    ensures forall k :: 0 <= k < |response.busySlots| ==> !response.busySlots[k].available
    ensures SortedBy(response.busySlots, StartOf)
    ensures StartsFrom(response.freeSlots, startDate)
    ensures Disjoint(response.freeSlots, response.busySlots)
    ensures forall t :: startDate <= t < endDate && !InSome(t, response.busySlots) ==>
      InSome(t, response.freeSlots)
    ensures WellFormed(BusySlots(outcome.periods)) ==> Ascending(response.freeSlots)
  {
    var sorted := response.busySlots;
    var busy := BusySlots(outcome.periods);
    SortBySorted(busy, StartOf);
    forall k | 0 <= k < |sorted| ensures !sorted[k].available {
      assert sorted[k] in multiset(busy);
    }
    SweepBounds(startDate, endDate, sorted);
    SweepAvoidsBusy(startDate, endDate, sorted);
    forall t | startDate <= t < endDate && !InSome(t, sorted) ensures InSome(t, response.freeSlots) {
      SweepCovers(startDate, endDate, sorted, t);
    }
    if WellFormed(busy) {
      assert WellFormed(sorted) by {
        forall k | 0 <= k < |sorted| ensures sorted[k].start <= sorted[k].end {
          assert sorted[k] in multiset(busy);
        }
      }
      SweepOrdered(startDate, endDate, sorted);
    }
  }

  /** Busy slots are not clamped: one that starts past the horizon's end
      stretches the free slot before it past the horizon too. */
  lemma SweepNotClamped()
    ensures Sweep(0, 600, [TimeSlot(1200, 1800, false)]) == [TimeSlot(0, 1200, true)]
  {
  }

  /** Monday 00:00 to 23:59 with a meeting 10:00-11:00. */
  lemma MondayWithOneMeeting()
    ensures Sweep(0, 1439, [TimeSlot(600, 660, false)])
         == [TimeSlot(0, 600, true), TimeSlot(660, 1439, true)]
  {
  }
}
