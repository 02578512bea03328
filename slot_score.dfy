/** `SchedulingAgent._calculate_slot_score` (app/services/agent_service.py:562-593).
    Every increment is a whole number, so the score is an `int`. */
module SlotScore {
  import opened Instants

  /** Lines 568-572: mid-morning and early afternoon are preferred. */
  function TimeOfDayBonus(hour: int): (bonus: int)
    ensures bonus == 20 <==> hour in {10, 11, 14, 15}
    ensures bonus == 10 <==> hour in {9, 12, 13, 16}
    ensures bonus == 0 <==> hour !in {9, 10, 11, 12, 13, 14, 15, 16}
  {
    if 10 <= hour <= 11 || 14 <= hour <= 15 then 20
    else if 9 <= hour <= 12 || 13 <= hour <= 16 then 10
    else 0
  }

  /** Lines 575-579: Tuesday to Thursday are preferred, Monday and Friday less so. */
  function WeekdayBonus(day: int): (bonus: int)
    ensures bonus == 15 <==> day in {1, 2, 3}
    ensures bonus == 5 <==> day in {0, 4}
    ensures bonus == 0 <==> day !in {0, 1, 2, 3, 4}
  {
    if 1 <= day <= 3 then 15
    else if day == 0 || day == 4 then 5
    else 0
  }

  /** Lines 582-591: only the exact strings "high" and "low" adjust the score. */
  function PriorityBonus(priority: string, hour: int, day: int): (bonus: int)
    ensures priority != "high" && priority != "low" ==> bonus == 0
  {
    if priority == "high" then (7 - day) * 5 + (if hour <= 12 then 10 else 0)
    else if priority == "low" then day * 2 + (if hour >= 14 then 5 else 0)
    else 0
  }

  /** Lines 562-593. `workStart` and `workEnd` are accepted and never read. */
  function CalculateSlotScore(slotStart: int, priority: string, workStart: int, workEnd: int): (score: int)
    ensures 100 <= score <= 175
  {
    var hour, day := Hour(slotStart), Weekday(slotStart);
    100 + TimeOfDayBonus(hour) + WeekdayBonus(day) + PriorityBonus(priority, hour, day)
  }

  /** The work-hour arguments never change the score. */
  lemma ScoreIgnoresWorkHours(slotStart: int, priority: string, ws1: int, we1: int, ws2: int, we2: int)
    ensures CalculateSlotScore(slotStart, priority, ws1, we1) == CalculateSlotScore(slotStart, priority, ws2, we2)
  {
  }

  /** "medium", "urgent" and any other string get the time and day bonuses only. */
  lemma UnadjustedPriority(slotStart: int, priority: string, workStart: int, workEnd: int)
    requires priority != "high" && priority != "low"
    ensures CalculateSlotScore(slotStart, priority, workStart, workEnd)
         == 100 + TimeOfDayBonus(Hour(slotStart)) + WeekdayBonus(Weekday(slotStart))
    ensures CalculateSlotScore(slotStart, priority, workStart, workEnd) <= 135
  {
  }

  /** Under "high", of two slots at the same hour the one on an earlier weekday
      scores strictly higher whenever its weekday bonus is no smaller. */
  lemma HighPrefersEarlierWeekday(t1: int, t2: int, workStart: int, workEnd: int)
    requires Hour(t1) == Hour(t2) && Weekday(t1) < Weekday(t2)
    requires WeekdayBonus(Weekday(t1)) >= WeekdayBonus(Weekday(t2))
    ensures CalculateSlotScore(t1, "high", workStart, workEnd) > CalculateSlotScore(t2, "high", workStart, workEnd)
  {
  }

  /** Tuesday 10:00 against Wednesday 10:00 under "high": 175 against 170. */
  lemma TuesdayBeatsWednesdayUnderHigh()
    ensures CalculateSlotScore(1 * MinutesPerDay + 10 * MinutesPerHour, "high", 9, 17) == 175
    ensures CalculateSlotScore(2 * MinutesPerDay + 10 * MinutesPerHour, "high", 9, 17) == 170
  {
  }

  /** What "high" and "low" add to the unadjusted score of the same instant:
      under "high" the earlier weekday and the morning (hour 12 or before),
      under "low" the later weekday and the afternoon (hour 14 or after). */
  lemma PriorityAdjustment(t: int, workStart: int, workEnd: int)
    ensures CalculateSlotScore(t, "high", workStart, workEnd)
         == CalculateSlotScore(t, "medium", workStart, workEnd)
            + (7 - Weekday(t)) * 5 + (if Hour(t) <= 12 then 10 else 0)
    ensures CalculateSlotScore(t, "low", workStart, workEnd)
         == CalculateSlotScore(t, "medium", workStart, workEnd)
            + Weekday(t) * 2 + (if Hour(t) >= 14 then 5 else 0)
  {
  }

  /** Under "high", on the same weekday and with the same time-of-day bonus,
      a slot at noon or earlier beats one after noon. */
  lemma HighPrefersMorning(t1: int, t2: int, workStart: int, workEnd: int)
    requires Weekday(t1) == Weekday(t2) && TimeOfDayBonus(Hour(t1)) == TimeOfDayBonus(Hour(t2))
    requires Hour(t1) <= 12 < Hour(t2)
    ensures CalculateSlotScore(t1, "high", workStart, workEnd) == CalculateSlotScore(t2, "high", workStart, workEnd) + 10
  {
  }

  /** Under "low", on the same weekday and with the same time-of-day bonus,
      a slot at 14:00 or later beats one before. */
  lemma LowPrefersAfternoon(t1: int, t2: int, workStart: int, workEnd: int)
    requires Weekday(t1) == Weekday(t2) && TimeOfDayBonus(Hour(t1)) == TimeOfDayBonus(Hour(t2))
    requires Hour(t1) < 14 <= Hour(t2)
    ensures CalculateSlotScore(t2, "low", workStart, workEnd) == CalculateSlotScore(t1, "low", workStart, workEnd) + 5
  {
  }

  /** Under "low", of two slots at the same hour the one later in the week
      scores higher whenever its weekday bonus is no smaller. */
  lemma LowPrefersLaterWeekday(t1: int, t2: int, workStart: int, workEnd: int)
    requires Hour(t1) == Hour(t2) && Weekday(t1) < Weekday(t2)
    requires WeekdayBonus(Weekday(t2)) >= WeekdayBonus(Weekday(t1))
    ensures CalculateSlotScore(t1, "low", workStart, workEnd) < CalculateSlotScore(t2, "low", workStart, workEnd)
  {
  }
}
