/** The proposal store of `SchedulingAgent` (app/services/agent_service.py):
    the `proposals` map (line 37), the storage tail of
    `_process_agent_response` (358-376) and `confirm_meeting` (790-847). */
module Proposals {
  import opened FreeSlots
  import opened SlotAnalysis

  /** The fields of a meeting request that confirmation reads. */
  datatype MeetingRequest = MeetingRequest(
    title: string,
    description: string,
    organizerEmail: string,
    attendees: seq<string>)

  datatype Proposal = Proposal(
    id: string,
    request: MeetingRequest,
    suggestedSlots: seq<TimeSlot>,
    reasoning: string,
    status: string)

  /** What `_create_calendar_event` reports; the calendar call is not modelled. */
  datatype EventOutcome = EventCreated(eventId: string) | EventFailed(error: string)

  datatype ConfirmResult =
    | ProposalNotFound
    | InvalidSlotIndex
      /** `slot_index < -len`: Python raises `IndexError` out of `confirm_meeting`. */
    | SlotIndexError
    | OrganizerNotAuthenticated(organizer: string)
    | EventCreationFailed(error: string)
    | Confirmed(eventId: string, slot: TimeSlot, totalAttendees: nat, organizer: string)

  /** Every stored proposal sits under its own id and offers at least one slot. */
  predicate WellStored(proposals: map<string, Proposal>) {
    forall id :: id in proposals ==> proposals[id].id == id && |proposals[id].suggestedSlots| > 0
  }

  function AsTimeSlot(c: Candidate): TimeSlot {
    TimeSlot(c.start, c.end, true)
  }

  /** Lines 358-376 as a value: a proposal is stored, as "pending", only when
      the last slot analysis suggested something. */
  function Store(proposals: map<string, Proposal>, id: string, request: MeetingRequest,
                 suggested: seq<Candidate>, reasoning: string): (r: map<string, Proposal>)
    ensures suggested == [] ==> r == proposals
    ensures suggested != [] ==> r.Keys == proposals.Keys + {id} && r[id].status == "pending"
                                && r[id].id == id && r[id].request == request && r[id].reasoning == reasoning
                                && |r[id].suggestedSlots| == |suggested|
                                && (forall k :: 0 <= k < |suggested| ==>
                                      && r[id].suggestedSlots[k].start == suggested[k].start
                                      && r[id].suggestedSlots[k].end == suggested[k].end
                                      && r[id].suggestedSlots[k].available)
                                && forall k :: k in proposals && k != id ==> r[k] == proposals[k]
    ensures WellStored(proposals) ==> WellStored(r)
  {
    if suggested == [] then proposals
    else
      var slots := seq(|suggested|, k requires 0 <= k < |suggested| => AsTimeSlot(suggested[k]));
      proposals[id := Proposal(id, request, slots, reasoning, "pending")]
  }

  /** Python's `slots[i]` once `i < len(slots)` is known: a negative index
      counts from the end, and one below `-len(slots)` has no element. */
  function SlotAt(slots: seq<TimeSlot>, i: int): (r: Option<TimeSlot>)
    requires i < |slots|
    ensures r.Some? <==> -|slots| <= i
    ensures 0 <= i ==> r == Some(slots[i])
    ensures i < 0 && r.Some? ==> r.value == slots[|slots| + i]
  {
    if 0 <= i then Some(slots[i])
    else if -|slots| <= i then Some(slots[|slots| + i])
    else None
  }

  datatype Option<T> = None | Some(value: T)

  /** Lines 790-847 as a value: the checks in source order, and the new map. */
  function Confirm(proposals: map<string, Proposal>, id: string, slotIndex: int,
                   authenticated: set<string>, outcome: EventOutcome): (r: (ConfirmResult, map<string, Proposal>))
    ensures r.0.Confirmed? <==>
      && id in proposals
      && -|proposals[id].suggestedSlots| <= slotIndex < |proposals[id].suggestedSlots|
      && proposals[id].request.organizerEmail in authenticated
      && outcome.EventCreated?
    ensures !r.0.Confirmed? ==> r.1 == proposals
    ensures id !in proposals ==> r.0 == ProposalNotFound
    ensures id in proposals && slotIndex >= |proposals[id].suggestedSlots| ==> r.0 == InvalidSlotIndex
    ensures id in proposals && slotIndex < -|proposals[id].suggestedSlots| ==> r.0 == SlotIndexError
    ensures id in proposals && -|proposals[id].suggestedSlots| <= slotIndex < |proposals[id].suggestedSlots|
            && proposals[id].request.organizerEmail !in authenticated
            ==> r.0 == OrganizerNotAuthenticated(proposals[id].request.organizerEmail)
    ensures id in proposals && -|proposals[id].suggestedSlots| <= slotIndex < |proposals[id].suggestedSlots|
            && proposals[id].request.organizerEmail in authenticated && outcome.EventFailed?
            ==> r.0 == EventCreationFailed(outcome.error)
    ensures r.0.Confirmed? ==>
      && r.1.Keys == proposals.Keys
      && r.1[id].status == "confirmed"
      && r.1[id] == proposals[id].(status := r.1[id].status)
      && (forall k :: k in proposals && k != id ==> r.1[k] == proposals[k])
      && r.0.eventId == outcome.eventId
      && r.0.organizer == proposals[id].request.organizerEmail
      && slotIndex < |proposals[id].suggestedSlots|
      && SlotAt(proposals[id].suggestedSlots, slotIndex) == Some(r.0.slot)
      && r.0.totalAttendees == |proposals[id].request.attendees|
  {
    if id !in proposals then (ProposalNotFound, proposals)
    else
      var proposal := proposals[id];
      if slotIndex >= |proposal.suggestedSlots| then (InvalidSlotIndex, proposals)
      else
        var selected := SlotAt(proposal.suggestedSlots, slotIndex);
        if selected.None? then (SlotIndexError, proposals)
        else
          var organizer := proposal.request.organizerEmail;
          if organizer !in authenticated then (OrganizerNotAuthenticated(organizer), proposals)
          else if outcome.EventFailed? then (EventCreationFailed(outcome.error), proposals)
          else
            (Confirmed(outcome.eventId, selected.value, |proposal.request.attendees|, organizer),
             proposals[id := proposal.(status := "confirmed")])
  }

  /** The agent object, reduced to the proposal store. */
  class SchedulingAgent {
    var proposals: map<string, Proposal>

    /** Line 37: the store starts empty. */
    constructor()
      ensures proposals == map[]
    {
      proposals := map[];
    }

    /** Lines 358-376: convert the suggested slots one by one, then store. */
    method StoreProposal(id: string, request: MeetingRequest, suggested: seq<Candidate>, reasoning: string)
      modifies this
      ensures proposals == Store(old(proposals), id, request, suggested, reasoning)
      ensures WellStored(old(proposals)) ==> WellStored(proposals)
    {
      if suggested != [] {
        var timeSlots: seq<TimeSlot> := [];
        for k := 0 to |suggested|
          invariant timeSlots == seq(k, j requires 0 <= j < k => AsTimeSlot(suggested[j]))
        {
          timeSlots := timeSlots + [TimeSlot(suggested[k].start, suggested[k].end, true)];
        }
        proposals := proposals[id := Proposal(id, request, timeSlots, reasoning, "pending")];
      }
    }

    /** Lines 790-847; `authenticated` and `outcome` stand for the
        authentication lookup and the calendar call. */
    method ConfirmMeeting(id: string, slotIndex: int, authenticated: set<string>, outcome: EventOutcome)
      returns (result: ConfirmResult)
      modifies this
      ensures (result, proposals) == Confirm(old(proposals), id, slotIndex, authenticated, outcome)
      ensures WellStored(old(proposals)) ==> WellStored(proposals)
    {
      if id !in proposals {
        return ProposalNotFound;
      }
      var proposal := proposals[id];
      if slotIndex >= |proposal.suggestedSlots| {
        return InvalidSlotIndex;
      }
      if slotIndex < -|proposal.suggestedSlots| {
        return SlotIndexError;
      }
      var selected := if 0 <= slotIndex then proposal.suggestedSlots[slotIndex]
                      else proposal.suggestedSlots[|proposal.suggestedSlots| + slotIndex];
      var organizer := proposal.request.organizerEmail;
      if organizer !in authenticated {
        return OrganizerNotAuthenticated(organizer);
      }
      match outcome {
        case EventFailed(error) =>
          result := EventCreationFailed(error);
        case EventCreated(eventId) =>
          proposals := proposals[id := proposal.(status := "confirmed")];
          result := Confirmed(eventId, selected, |proposal.request.attendees|, organizer);
      }
    }
  }

  /** Confirmation keeps every stored proposal under its id with its slots. */
  lemma ConfirmKeepsStoreWell(proposals: map<string, Proposal>, id: string, slotIndex: int,
                              authenticated: set<string>, outcome: EventOutcome)
    requires WellStored(proposals)
    ensures WellStored(Confirm(proposals, id, slotIndex, authenticated, outcome).1)
  {
  }

  /** No status check: confirming an already confirmed proposal succeeds
      again, with the same slot, and leaves the store as it was. */
  lemma ReconfirmSucceeds(proposals: map<string, Proposal>, id: string, slotIndex: int,
                          authenticated: set<string>, first: EventOutcome, second: EventOutcome)
    requires Confirm(proposals, id, slotIndex, authenticated, first).0.Confirmed?
    requires second.EventCreated?
    ensures var (r1, after) := Confirm(proposals, id, slotIndex, authenticated, first);
            var (r2, again) := Confirm(after, id, slotIndex, authenticated, second);
            && after[id].status == "confirmed"
            && r2.Confirmed? && r2.slot == r1.slot && again == after
  {
    var after := Confirm(proposals, id, slotIndex, authenticated, first).1;
    assert after[id].(status := "confirmed") == after[id];
  }

  /** A negative index picks a slot from the end, as Python indexing does. */
  lemma NegativeIndexPicksLast(proposals: map<string, Proposal>, id: string,
                               authenticated: set<string>, outcome: EventOutcome)
    requires id in proposals && |proposals[id].suggestedSlots| > 0
    requires proposals[id].request.organizerEmail in authenticated && outcome.EventCreated?
    ensures var slots := proposals[id].suggestedSlots;
            Confirm(proposals, id, -1, authenticated, outcome).0.slot == slots[|slots| - 1]
  {
  }

  /** Three suggested slots and index 5: the index is rejected and the
      proposal stays pending. */
  lemma IndexPastEndRejected(request: MeetingRequest, suggested: seq<Candidate>,
                             authenticated: set<string>, outcome: EventOutcome)
    requires |suggested| == 3
    ensures var stored := Store(map[], "p", request, suggested, "");
            var (r, after) := Confirm(stored, "p", 5, authenticated, outcome);
            r == InvalidSlotIndex && after["p"].status == "pending"
  {
  }

  /** When nobody qualifies the analysis suggests nothing, so nothing is stored. */
  lemma NoQualifiedNoProposal(proposals: map<string, Proposal>, id: string, request: MeetingRequest,
                              reasoning: string, data: seq<ParticipantAvailability>, duration: int,
                              priority: string, workStart: int, workEnd: int, maxSuggestions: int)
    requires forall i :: 0 <= i < |data| ==> !Qualifies(data[i])
    ensures OptimalSlots(data, duration, priority, workStart, workEnd, maxSuggestions) == NoAuthenticatedParticipants
    ensures Store(proposals, id, request,
                  SuggestedOf(OptimalSlots(data, duration, priority, workStart, workEnd, maxSuggestions)),
                  reasoning) == proposals
  {
    FailsIffNoneQualifies(data, duration, priority, workStart, workEnd, maxSuggestions);
  }
}
