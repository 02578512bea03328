# SchedulAI scheduling engine in Dafny

This project models the scheduling engine of SchedulAI, a meeting-scheduling
service. The model covers:

- **The free-slot sweep of `GoogleService`.** It sorts a participant's busy
  periods in place by start, walks a cursor across the horizon and emits the
  gaps as free slots.
- **The per-participant loop of `get_calendar_availability`.** It builds one
  availability response per requested address.
- **The slot analysis of `SchedulingAgent`.**
  - It tags each response with whether the address is accessible and keeps
    only the free slots long enough for the meeting.
  - It intersects the free slots of the authenticated participants, driven by
    the first one.
  - It scores each candidate, ranks the candidates with a stable sort and cuts
    the list to `max_suggestions`.
- **The proposal store.** A proposal is stored when the analysis suggested
  something, and `confirm_meeting` sets its status to "confirmed".
- **The keyword classifier for email replies.**

Time is counted in whole minutes from a Monday 00:00 origin, so the hour of an
instant is `(t / 60) % 24` and its weekday is `(t / 1440) % 7`.

Python's `list.sort` is modelled as a stable insertion sort on an integer key:
`StableSort.SortBy`. A sort with `reverse=True` keeps equal keys in their
original order, so it is `SortBy` on the negated key.

The modules are:

- `Instants`: the time model.
- `StableSort`: the sort, with its order, permutation and stability lemmas.
- `FreeSlots`: `google_service.py`.
- `SlotScore`: the scorer.
- `SlotAnalysis`: the tagging step and the analysis.
- `Proposals`: the store and confirmation, including the `SchedulingAgent` class.
- `EmailReply`: the reply classifier.

The calendar query, the authentication lookup and the calendar-event call are
parameters of the model:

- a `FetchOutcome` per address;
- a set of accessible or authenticated addresses;
- an `EventOutcome`.

## Behaviour that follows the code

These points are modelled as the code has them, even where one might expect
otherwise:

- **The first authenticated participant drives the analysis.**
  - Each of its free slots yields at most one candidate, starting where that
    slot starts.
  - A common window that starts later inside the driver's slot is never found.
    `SlotAnalysis.LongerSlotFirstFindsNothing` shows free slots 9:00-12:00 and
    10:00-11:30 giving no candidate.
  - With the participants in the other order, 10:00-10:30 is found
    (`SlotAnalysis.ShorterSlotFirstFindsIt`).
- **The working-hours test reads the hours of the driver's free slot, not of
  the meeting.** `SlotAnalysis.LateFreeSlotEndRejected` shows this.
- **Busy periods are neither clamped to the horizon nor dropped when empty.**
  - A busy period that starts after the horizon ends yields a free slot
    reaching past the horizon (`FreeSlots.SweepNotClamped`).
  - Free slots stay within the horizon when every busy period starts by its
    end (`FreeSlots.SweepEndsByHorizon`).
- **`confirm_meeting` does not check the proposal's status.**
  - Confirming a confirmed proposal succeeds again.
  - No confirmed slot index is stored.
  - A negative slot index selects from the end, as Python indexing does.
  - An index below `-len` raises `IndexError` out of the method. The model
    returns `SlotIndexError` instead.
- **Both sorts are stable.** Candidates of equal score keep the order in which
  they were found.

## Model

| member | source | states |
|---|---|---|
| Instants.Hour | app/services/agent_service.py:568 | the hour is in 0..23 and is the hour of the instant within its day |
| Instants.Weekday | app/services/agent_service.py:575 | the weekday is in 0..6, Monday being 0, and the instant lies within day d of some week counted from the Monday origin |
| StableSort.Insert | app/services/google_service.py:162 | inserting one element adds exactly that element to the multiset |
| StableSort.SortBy | app/services/google_service.py:162 | the sorted list has the input's length and multiset |
| StableSort.InsertSorted | app/services/google_service.py:162 | inserting into a sorted list keeps it sorted |
| StableSort.SortBySorted | app/services/google_service.py:162 | `list.sort(key=...)` leaves the list in key order and a permutation of its old contents |
| StableSort.InsertWithKey | app/services/agent_service.py:535 | insertion places the new element after every element with the same key |
| StableSort.SortByStable | app/services/agent_service.py:535 | for every key value, the elements with that key keep their relative order |
| FreeSlots.Sweep | app/services/google_service.py:164-184 | the sweep emits at most one gap before each busy slot plus a trailing one; its order, coverage and avoidance are the Sweep lemmas below |
| FreeSlots.CollectFreeSlots | app/services/google_service.py:164-186 | the loop emits exactly the gaps of the sweep over the busy list in its given order |
| FreeSlots.CalculateFreeSlots | app/services/google_service.py:156-186 | the caller's array ends up stably sorted by start; the result is the sweep of that sorted list; an empty busy list gives one slot [start, end) when start < end and none otherwise |
| FreeSlots.BusySlots | app/services/google_service.py:123-130 | one busy slot per reported period, in order, with the period's start and end, marked not available |
| FreeSlots.AvailabilityFor | app/services/google_service.py:117-148 | a fetched entry holds the reported periods as unavailable busy slots, sorted by start, and their free slots; a failed query gives empty lists for that address |
| FreeSlots.GetCalendarAvailability | app/services/google_service.py:103-154 | one response per address, in input order, each determined by that address's own query outcome only |
| FreeSlots.SweepBounds | app/services/google_service.py:164-184 | every free slot is non-empty, available, and starts at or after the start of the horizon |
| FreeSlots.SweepOrdered | app/services/google_service.py:164-184 | each free slot ends no later than any later one starts, and starts strictly increase |
| FreeSlots.SweepAvoidsBusy | app/services/google_service.py:166-176 | over a start-sorted busy list, no free slot overlaps a busy slot |
| FreeSlots.SweepCovers | app/services/google_service.py:162-184 | every instant of the horizon outside all busy slots lies in some free slot |
| FreeSlots.SweepEndsByHorizon | app/services/google_service.py:179-184 | free slots end by the horizon's end when every busy slot starts by it |
| FreeSlots.FetchedEntry | app/services/google_service.py:133-138 | a fetched entry's busy list is a start-sorted permutation of the reported periods, every one marked not available, and its free slots start at or after the horizon's start, avoid the busy slots, cover the free instants of the horizon, and are ordered when every reported period ends no earlier than it starts |
| FreeSlots.SweepNotClamped | app/services/google_service.py:179-184 | a busy slot past the horizon yields a free slot that ends after the horizon |
| FreeSlots.MondayWithOneMeeting | app/services/google_service.py:164-184 | Monday 00:00-23:59 with a 10:00-11:00 meeting gives free slots 00:00-10:00 and 11:00-23:59 |
| SlotScore.TimeOfDayBonus | app/services/agent_service.py:568-572 | hours 10, 11, 14, 15 give 20; hours 9, 12, 13, 16 give 10; any other hour gives 0 |
| SlotScore.WeekdayBonus | app/services/agent_service.py:575-579 | Tuesday to Thursday give 15, Monday and Friday give 5, the weekend gives 0 |
| SlotScore.PriorityBonus | app/services/agent_service.py:582-591 | a priority other than "high" or "low" adds nothing |
| SlotScore.CalculateSlotScore | app/services/agent_service.py:562-593 | the score lies between 100 and 175 |
| SlotScore.ScoreIgnoresWorkHours | app/services/agent_service.py:562-593 | the work-hour arguments never change the score |
| SlotScore.UnadjustedPriority | app/services/agent_service.py:565-593 | any other priority scores 100 plus the time and day bonuses, at most 135 |
| SlotScore.HighPrefersEarlierWeekday | app/services/agent_service.py:582-586 | under "high", at equal hour, an earlier weekday with no smaller day bonus scores strictly higher |
| SlotScore.TuesdayBeatsWednesdayUnderHigh | app/services/agent_service.py:575-586 | under "high", Tuesday 10:00 scores 175 and Wednesday 10:00 scores 170 |
| SlotScore.LowPrefersLaterWeekday | app/services/agent_service.py:587-591 | under "low", at equal hour, a later weekday with no smaller day bonus scores strictly higher |
| SlotScore.PriorityAdjustment | app/services/agent_service.py:582-591 | "high" adds (7 - weekday) * 5 plus 10 at hour 12 or before, and "low" adds weekday * 2 plus 5 at hour 14 or after, to the score any other priority gets |
| SlotScore.HighPrefersMorning | app/services/agent_service.py:582-586 | under "high", on the same weekday with the same time-of-day bonus, a slot at noon or earlier scores 10 more than one after noon |
| SlotScore.LowPrefersAfternoon | app/services/agent_service.py:587-591 | under "low", on the same weekday with the same time-of-day bonus, a slot at 14:00 or later scores 5 more than one before |
| SlotAnalysis.LongFreeSlots | app/services/agent_service.py:434-442 | a free slot is kept exactly when it lasts at least the meeting's duration; each kept slot carries its duration |
| SlotAnalysis.LongFreeSlotsAppend | app/services/agent_service.py:434-442 | the filter works slot by slot: filtering a concatenation concatenates the filtered parts, so input order is kept |
| SlotAnalysis.LongFreeSlotsFromInput | app/services/agent_service.py:434-442 | every kept entry describes one of the input free slots |
| SlotAnalysis.TagAvailability | app/services/agent_service.py:428-450 | one entry per response, in order, tagged authenticated exactly when its address is accessible, with the long free slots and all busy slots |
| SlotAnalysis.AuthenticatedParticipants | app/services/agent_service.py:478-481 | the result holds every participant that is authenticated with free slots, and only such participants |
| SlotAnalysis.InWorkHours | app/services/agent_service.py:498 | a driver free slot passes when its start hour is not before the work start and its end hour not after the work end |
| SlotAnalysis.Hosts | app/services/agent_service.py:514 | another participant's free slot holds the meeting when it starts by the meeting's start and ends no earlier than start plus duration |
| SlotAnalysis.ToCandidate | app/services/agent_service.py:524-532 | a candidate starts at the driver slot's start, ends duration later, has a score in 100..175 and a weekday in 0..6 |
| SlotAnalysis.CommonSlots | app/services/agent_service.py:493-532 | each candidate comes from an eligible driver free slot, and every eligible driver free slot yields its candidate |
| SlotAnalysis.CommonSlotsSingle | app/services/agent_service.py:493-532 | one driver free slot gives its candidate when eligible and nothing otherwise |
| SlotAnalysis.CommonSlotsAppend | app/services/agent_service.py:493-532 | the loop works slot by slot in the driver's order: the candidates of a concatenation are the concatenated candidates, which with the previous row fixes the list and its length |
| SlotAnalysis.CommonSlotsInDriverOrder | app/services/agent_service.py:493-532 | when the driver's free slots start in increasing order, so do the candidates |
| SlotAnalysis.CandidateSlots | app/services/agent_service.py:492-532 | with no qualifying participant there is no candidate; otherwise the first one drives and there are at most as many candidates as its free slots |
| SlotAnalysis.PyPrefix | app/services/agent_service.py:536 | Python's `s[:m]`, a prefix of length min(m, len) or, for negative m, len + m floored at 0 |
| SlotAnalysis.Ranked | app/services/agent_service.py:535-536 | the suggestions are no more than the candidates and drawn from them as a sub-multiset |
| SlotAnalysis.OptimalSlots | app/services/agent_service.py:462-557 | on success at least one and at most all participants are counted, and no more suggestions than candidates found |
| SlotAnalysis.ParticipantFree | app/services/agent_service.py:508-518 | true exactly when some free slot of the participant holds the whole meeting |
| SlotAnalysis.FreeForEveryone | app/services/agent_service.py:505-521 | true exactly when every other participant has a free slot holding the whole meeting |
| SlotAnalysis.AnalyzeOptimalSlots | app/services/agent_service.py:462-557 | the loops compute the analysis outcome (failure, or the ranked and truncated suggestions with their counts) |
| SlotAnalysis.FailsIffNoneQualifies | app/services/agent_service.py:478-489 | the failure result comes exactly when no participant is authenticated with free slots |
| SlotAnalysis.RankedPrefix | app/services/agent_service.py:535-536 | the suggestions are a prefix of the ranked candidates, exactly min(`max_suggestions`, number of candidates) of them when the cap is not negative, drawn from the candidates, and all of them when the cap allows |
| SlotAnalysis.RankedBestFirst | app/services/agent_service.py:535-536 | suggested scores never increase, and candidates of equal score keep the order they were found in |
| SlotAnalysis.TuesdayRanksFirst | app/services/agent_service.py:535-536 | under "high", a Tuesday 10:00 candidate found after a Wednesday 10:00 one ranks first |
| SlotAnalysis.SuggestionsSound | app/services/agent_service.py:493-532 | a suggestion starts at an eligible driver free slot: the slot's start and end hours lie in work hours, its duration is at least D, and every other qualifying participant has a free slot holding [start, start + D); end is start + D and the score lies in 100..175 |
| SlotAnalysis.SuggestionsComplete | app/services/agent_service.py:493-536 | every eligible driver free slot is among the counted candidates, and it is suggested when the cap allows |
| SlotAnalysis.AnalysisShape | app/services/agent_service.py:540-557 | on success the participant count is that of the qualifying participants, the candidate count is at most the driver's slot count, and the suggestions are no more than either cap |
| SlotAnalysis.AuthenticatedAppend | app/services/agent_service.py:478-481 | the filter keeps input order, so the first qualifying participant in the input is the driver |
| SlotAnalysis.OnlyQualifiedMatter | app/services/agent_service.py:478-481 | two inputs with the same qualifying participants give the same outcome |
| SlotAnalysis.IgnoresUnqualified | app/services/agent_service.py:478-481 | inserting an unauthenticated participant, or one without free slots, anywhere changes nothing |
| SlotAnalysis.LongerSlotFirstFindsNothing | app/services/agent_service.py:492-520 | free slots 9:00-12:00 then 10:00-11:30 give no candidate for 30 minutes, though 10:00-10:30 suits both |
| SlotAnalysis.ShorterSlotFirstFindsIt | app/services/agent_service.py:492-532 | the same slots in the other order give the one candidate Monday 10:00-10:30, scored 125 |
| SlotAnalysis.LateFreeSlotEndRejected | app/services/agent_service.py:497-499 | a free slot 9:00-18:00 yields nothing for work hours 9-17, though a 9:00 meeting fits |
| Proposals.Store | app/services/agent_service.py:358-376 | a proposal is stored exactly when there are suggestions: under its id, carrying that id, the request and the reasoning, pending, with one available slot per suggestion at the suggestion's start and end; other entries are kept and the store stays well formed |
| Proposals.SlotAt | app/services/agent_service.py:796 | Python indexing below the length: a negative index counts from the end; below minus the length there is no element |
| Proposals.Confirm | app/services/agent_service.py:790-847 | success exactly when the proposal exists, the index is in range, the organizer is authenticated and the event is created; each failure gets its own result: unknown id, index past the end, index below minus the length, organizer not authenticated (naming the organizer), event creation failed (carrying the error); any failure leaves the store unchanged; success returns the slot at the index under Python indexing, the event id and the attendee count, and changes only that proposal's status, to "confirmed" |
| Proposals.SchedulingAgent.constructor | app/services/agent_service.py:37 | the store starts empty |
| Proposals.SchedulingAgent.StoreProposal | app/services/agent_service.py:358-376 | the store becomes what `Store` gives and stays well formed |
| Proposals.SchedulingAgent.ConfirmMeeting | app/services/agent_service.py:790-847 | the result and the new store are what `Confirm` gives, and the store stays well formed |
| Proposals.ConfirmKeepsStoreWell | app/services/agent_service.py:790-833 | confirmation keeps every proposal under its id with at least one slot |
| Proposals.ReconfirmSucceeds | app/services/agent_service.py:790-833 | confirming a confirmed proposal again succeeds with the same slot and leaves the store as it was |
| Proposals.NegativeIndexPicksLast | app/services/agent_service.py:794-799 | index -1 confirms the last suggested slot |
| Proposals.IndexPastEndRejected | app/services/agent_service.py:794-796 | index 5 of three slots is rejected and the proposal stays pending |
| Proposals.NoQualifiedNoProposal | app/services/agent_service.py:478-489 | when nobody qualifies the analysis fails, its suggested list is empty (line 487), and storing that list leaves the store as it was |
| EmailReply.LowerChar | app/services/agent_service.py:703 | the result is never an upper-case letter, and only upper-case letters change |
| EmailReply.Lower | app/services/agent_service.py:703 | the result has the same length, is lowered character by character, and has no upper-case letter |
| EmailReply.ContainsIffOccurs | app/services/agent_service.py:706-711 | the scan finds the word exactly when it occurs at some position of the text |
| EmailReply.Contains | app/services/agent_service.py:706-711 | Python's `word in text`: true exactly when the word occurs at some position (see `ContainsIffOccurs`) |
| EmailReply.MentionsAny | app/services/agent_service.py:706-711 | `any(word in text for word in words)`: some word of the list is contained in the text |
| EmailReply.ParseEmailResponse | app/services/agent_service.py:701-713 | the label is one of the four; confirmation words win, then rejection words, then rescheduling words |
| EmailReply.LowerIdempotent | app/services/agent_service.py:703 | lower-casing twice equals lower-casing once |
| EmailReply.CaseDoesNotMatter | app/services/agent_service.py:701-713 | a body and its lower-cased form get the same label |
| EmailReply.KnowIsRejection | app/services/agent_service.py:708 | "I know" is a rejection, because it contains "no" |
| EmailReply.ConfirmationWins | app/services/agent_service.py:706-709 | a body with both "sounds good" and "can't" is a confirmation |

## Left out

- The OpenAI interaction is not part of this model. That is `schedule_meeting`, `_process_agent_response` apart from its storage tail, the tool definitions and the prompt builders. They are language-model calls and string templating.
  - The suggestions stored are whatever the last analysis call returned.
  - The model takes them as a parameter of `StoreProposal`.
- The Google and OAuth calls are parameters, not modelled. These are the free/busy query, `is_user_authenticated`, `validate_access`, the calendar-event call and the email send.
  - The per-address query outcome is a `FetchOutcome`.
  - The accessible addresses and the authenticated organizers are sets.
  - The result of `_create_calendar_event` is an `EventOutcome`.
  - The confirmation email is sent after the event is created and its result is ignored, so the model drops it.
- ISO date parsing and formatting, time zones and the float division by 60 are left out. Instants are integer minutes and durations are integer differences.
- The `formatted_time` and `day_of_week` strings are left out. The weekday is kept as its number.
- The analysis's `reasoning` text is left out. `buffer_time` only appears in that text (line 545), so it is left out too.
- The defaults of `_analyze_optimal_slots` are not modelled: priority "medium", work hours 9 and 17, `buffer_time` 15 and `max_suggestions` 3 (lines 463-472), and `is_authenticated` defaulting to False (line 480). Callers of the model pass every value explicitly.
- The outer exception handlers are not modelled: the `HttpError` in `get_calendar_availability` and the catch-all `except` blocks of the agent tools. They handle failures of the foreign calls and malformed dictionaries, which the typed model cannot produce.
- `get_all_emails` is not part of this model. A meeting request carries its attendee list directly, and `totalAttendees` is that list's length.
- Route handlers, Pydantic models and the meeting models are not part of this model.
- Concurrency is not modelled; the store is used by one caller at a time.
- EmailReply.Lower: only ASCII letters are lower-cased; Python's `str.lower` also folds non-ASCII letters.
- Proposals.Confirm: an index below minus the length gives the result `SlotIndexError`, where Python raises `IndexError` out of `confirm_meeting`.
- FreeSlots.SweepOrdered: assumes every busy period ends no earlier than it starts, as the calendar service reports them.
- SlotScore.PriorityBonus: its contract covers only priorities other than "high" and "low"; the two adjusted priorities, with both their weekday and their hour parts, are stated by `PriorityAdjustment` on the whole score.
