/** The slot-analysis tools of `SchedulingAgent` (app/services/agent_service.py):
    the tagging step of `_get_calendar_availability` (409-460) and
    `_analyze_optimal_slots` (462-560). */
module SlotAnalysis {
  import opened Instants
  import opened StableSort
  import opened FreeSlots
  import opened SlotScore

  /** One `free_slots` entry of the availability data: `durationMinutes` is
      carried next to start and end, and it is what line 502 reads. */
  datatype FreeSlotInfo = FreeSlotInfo(start: int, end: int, durationMinutes: int)

  datatype BusyInfo = BusyInfo(start: int, end: int)

  datatype ParticipantAvailability = ParticipantAvailability(
    participantEmail: string,
    isAuthenticated: bool,
    freeSlots: seq<FreeSlotInfo>,
    busySlots: seq<BusyInfo>)

  /** One entry of `common_slots` (lines 526-532); `dayOfWeek` is the weekday
      number behind the `%A` name. */
  datatype Candidate = Candidate(start: int, end: int, score: int, dayOfWeek: int)

  datatype AnalysisResult =
    | NoAuthenticatedParticipants
    | Suggested(suggestedSlots: seq<Candidate>, totalSlotsFound: nat, authenticatedCount: nat)

  function Describe(s: TimeSlot): FreeSlotInfo {
    FreeSlotInfo(s.start, s.end, s.end - s.start)
  }

  function BusyOf(s: TimeSlot): BusyInfo {
    BusyInfo(s.start, s.end)
  }

  /** Lines 434-442: the free slots at least `duration` minutes long, in order. */
  function LongFreeSlots(slots: seq<TimeSlot>, duration: int): (r: seq<FreeSlotInfo>)
    ensures |r| <= |slots|
    ensures forall k :: 0 <= k < |r| ==> r[k].durationMinutes == r[k].end - r[k].start >= duration
    ensures forall i :: 0 <= i < |slots| ==>
      (Describe(slots[i]) in r <==> slots[i].end - slots[i].start >= duration)
  {
    if slots == [] then []
    else
      (if slots[0].end - slots[0].start >= duration then [Describe(slots[0])] else [])
        + LongFreeSlots(slots[1..], duration)
  }

  /** Lines 428-450: one entry per availability response, in order, tagged
      with whether the address is in the accessible set. */
  method TagAvailability(responses: seq<AvailabilityResponse>, accessible: set<string>, duration: int)
    returns (result: seq<ParticipantAvailability>)
    ensures |result| == |responses|
    ensures forall i :: 0 <= i < |responses| ==>
      && result[i].participantEmail == responses[i].participantEmail
      && (result[i].isAuthenticated <==> responses[i].participantEmail in accessible)
      && result[i].freeSlots == LongFreeSlots(responses[i].freeSlots, duration)
      && result[i].busySlots == seq(|responses[i].busySlots|, k requires 0 <= k < |responses[i].busySlots| =>
                                      BusyOf(responses[i].busySlots[k]))
  {
    result := [];
    for i := 0 to |responses|
      invariant |result| == i
      invariant forall j :: 0 <= j < i ==>
        && result[j].participantEmail == responses[j].participantEmail
        && (result[j].isAuthenticated <==> responses[j].participantEmail in accessible)
        && result[j].freeSlots == LongFreeSlots(responses[j].freeSlots, duration)
        && result[j].busySlots == seq(|responses[j].busySlots|, k requires 0 <= k < |responses[j].busySlots| =>
                                        BusyOf(responses[j].busySlots[k]))
    {
      var response := responses[i];
      var isAuthenticated := response.participantEmail in accessible;
      var busy := seq(|response.busySlots|, k requires 0 <= k < |response.busySlots| => BusyOf(response.busySlots[k]));
      result := result + [ParticipantAvailability(response.participantEmail, isAuthenticated,
                                                  LongFreeSlots(response.freeSlots, duration), busy)];
    }
  }

  /** Line 480: authenticated and with at least one free slot. */
  predicate Qualifies(p: ParticipantAvailability) {
    p.isAuthenticated && |p.freeSlots| > 0
  }

  /** Lines 478-481: the qualifying participants, in input order. */
  function AuthenticatedParticipants(data: seq<ParticipantAvailability>): (r: seq<ParticipantAvailability>)
    ensures |r| <= |data|
    ensures forall k :: 0 <= k < |r| ==> Qualifies(r[k]) && r[k] in data
    ensures forall p :: p in data && Qualifies(p) ==> p in r
  {
    if data == [] then []
    else (if Qualifies(data[0]) then [data[0]] else []) + AuthenticatedParticipants(data[1..])
  }

  /** Line 498, as written: the hours of the driver's free interval, not of the meeting. */
  predicate InWorkHours(slot: FreeSlotInfo, workStart: int, workEnd: int) {
    !(Hour(slot.start) < workStart || Hour(slot.end) > workEnd)
  }

  /** Line 514: `other` holds the whole meeting [start, start + duration). */
  predicate Hosts(other: FreeSlotInfo, start: int, duration: int) {
    start >= other.start && start + duration <= other.end
  }

  predicate FreeAt(p: ParticipantAvailability, start: int, duration: int) {
    exists k :: 0 <= k < |p.freeSlots| && Hosts(p.freeSlots[k], start, duration)
  }

  predicate FreeForAll(others: seq<ParticipantAvailability>, start: int, duration: int) {
    forall j :: 0 <= j < |others| ==> FreeAt(others[j], start, duration)
  }

  /** Lines 497-522: a driver free slot that yields a candidate. */
  predicate Eligible(slot: FreeSlotInfo, others: seq<ParticipantAvailability>, duration: int,
                     workStart: int, workEnd: int)
  {
    && InWorkHours(slot, workStart, workEnd)
    && slot.durationMinutes >= duration
    && FreeForAll(others, slot.start, duration)
  }

  /** Lines 524-532. */
  function ToCandidate(start: int, duration: int, priority: string, workStart: int, workEnd: int): (c: Candidate)
    ensures c.start == start && c.end == start + duration
    ensures 100 <= c.score <= 175 && 0 <= c.dayOfWeek < 7
  {
    Candidate(start, start + duration, CalculateSlotScore(start, priority, workStart, workEnd), Weekday(start))
  }

  /** `c` is the candidate of an eligible free slot of the driver. */
  predicate FromEligible(c: Candidate, driverSlots: seq<FreeSlotInfo>, others: seq<ParticipantAvailability>,
                         duration: int, priority: string, workStart: int, workEnd: int)
  {
    exists k :: 0 <= k < |driverSlots|
      && Eligible(driverSlots[k], others, duration, workStart, workEnd)
      && c == ToCandidate(driverSlots[k].start, duration, priority, workStart, workEnd)
  }

  /** Lines 493-532: `common_slots` before the sort; at most one candidate per
      driver free slot, in driver order. */
  function CommonSlots(driverSlots: seq<FreeSlotInfo>, others: seq<ParticipantAvailability>,
                       duration: int, priority: string, workStart: int, workEnd: int): (r: seq<Candidate>)
    ensures |r| <= |driverSlots|
    ensures forall i :: 0 <= i < |r| ==>
      FromEligible(r[i], driverSlots, others, duration, priority, workStart, workEnd)
    ensures forall k :: 0 <= k < |driverSlots| && Eligible(driverSlots[k], others, duration, workStart, workEnd) ==>
      ToCandidate(driverSlots[k].start, duration, priority, workStart, workEnd) in r
  {
    if driverSlots == [] then []
    else
      var init, last := driverSlots[..|driverSlots| - 1], driverSlots[|driverSlots| - 1];
      CommonSlots(init, others, duration, priority, workStart, workEnd)
        + (if Eligible(last, others, duration, workStart, workEnd)
           then [ToCandidate(last.start, duration, priority, workStart, workEnd)] else [])
  }

  /** `common_slots` for the qualifying participants; the first one drives. */
  function CandidateSlots(authenticated: seq<ParticipantAvailability>, duration: int, priority: string,
                          workStart: int, workEnd: int): (r: seq<Candidate>)
    ensures authenticated == [] ==> r == []
    ensures authenticated != [] ==> |r| <= |authenticated[0].freeSlots|
  {
    if authenticated == [] then []
    else CommonSlots(authenticated[0].freeSlots, authenticated[1..], duration, priority, workStart, workEnd)
  }

  /** Line 535's key with `reverse=True`: Python keeps equal keys in order when
      reversing, so this is the stable ascending sort on the negated score. */
  function NegScore(c: Candidate): int { -c.score }

  /** Python's `s[:m]`; a negative `m` drops that many elements from the end. */
  function PyPrefix<T>(s: seq<T>, m: int): (r: seq<T>)
    ensures |r| <= |s| && r == s[..|r|]
    ensures 0 <= m ==> |r| == Min(m, |s|)
    ensures m < 0 ==> |r| == Max(0, |s| + m)
  {
    if m >= 0 then s[..Min(m, |s|)] else s[..Max(0, |s| + m)]
  }

  /** Lines 535-538: best score first, then cut to `max_suggestions`. */
  function Ranked(common: seq<Candidate>, maxSuggestions: int): (r: seq<Candidate>)
    ensures |r| <= |common|
    ensures multiset(r) <= multiset(common)
  {
    var ranked := SortBy(common, NegScore);
    var r := PyPrefix(ranked, maxSuggestions);
    assert ranked == r + ranked[|r|..];
    r
  }

  /** The whole of lines 462-557 as one value. */
  function OptimalSlots(data: seq<ParticipantAvailability>, duration: int, priority: string,
                        workStart: int, workEnd: int, maxSuggestions: int): (r: AnalysisResult)
    ensures r.Suggested? ==> 1 <= r.authenticatedCount <= |data| && |r.suggestedSlots| <= r.totalSlotsFound
  {
    var authenticated := AuthenticatedParticipants(data);
    if authenticated == [] then NoAuthenticatedParticipants
    else
      var common := CandidateSlots(authenticated, duration, priority, workStart, workEnd);
      Suggested(Ranked(common, maxSuggestions), |common|, |authenticated|)
  }

  /** Lines 510-518: does some free slot of `p` hold the whole meeting? */
  method ParticipantFree(p: ParticipantAvailability, start: int, duration: int) returns (free: bool)
    ensures free == FreeAt(p, start, duration)
  {
    free := false;
    for k := 0 to |p.freeSlots|
      invariant !free
      invariant forall k' :: 0 <= k' < k ==> !Hosts(p.freeSlots[k'], start, duration)
    {
      var other := p.freeSlots[k];
      if start >= other.start && start + duration <= other.end {
        free := true;
        break;
      }
    }
  }

  /** Lines 505-522: every other participant is free for the whole meeting. */
  method FreeForEveryone(others: seq<ParticipantAvailability>, start: int, duration: int)
    returns (worksForAll: bool)
    ensures worksForAll == FreeForAll(others, start, duration)
  {
    worksForAll := true;
    for j := 0 to |others|
      invariant worksForAll
      invariant forall j' :: 0 <= j' < j ==> FreeAt(others[j'], start, duration)
    {
      var participantFree := ParticipantFree(others[j], start, duration);
      if !participantFree {
        worksForAll := false;
        break;
      }
    }
  }

  /** The `suggested_slots` field of the tool result: empty on failure (line 487). */
  function SuggestedOf(a: AnalysisResult): seq<Candidate> {
    if a.Suggested? then a.suggestedSlots else []
  }

  /** Lines 462-557, with the nested loops of lines 493-532. */
  method AnalyzeOptimalSlots(data: seq<ParticipantAvailability>, duration: int, priority: string,
                             workStart: int, workEnd: int, maxSuggestions: int)
    returns (result: AnalysisResult)
    ensures result == OptimalSlots(data, duration, priority, workStart, workEnd, maxSuggestions)
  {
    var authenticated := AuthenticatedParticipants(data);
    if authenticated == [] {
      return NoAuthenticatedParticipants;
    }
    var base := authenticated[0];
    var others := authenticated[1..];
    var common: seq<Candidate> := [];
    for i := 0 to |base.freeSlots|
      invariant common == CommonSlots(base.freeSlots[..i], others, duration, priority, workStart, workEnd)
    {
      var slot := base.freeSlots[i];
      assert base.freeSlots[..i + 1][..i] == base.freeSlots[..i];
      if Hour(slot.start) < workStart || Hour(slot.end) > workEnd {
        continue;
      }
      if slot.durationMinutes < duration {
        continue;
      }
      var worksForAll := FreeForEveryone(others, slot.start, duration);
      if worksForAll {
        common := common + [ToCandidate(slot.start, duration, priority, workStart, workEnd)];
      }
    }
    assert base.freeSlots[..|base.freeSlots|] == base.freeSlots;
    var ranked := SortBy(common, NegScore);
    result := Suggested(PyPrefix(ranked, maxSuggestions), |common|, |authenticated|);
  }

  /** The failure branch (lines 483-488) is taken exactly when nobody qualifies. */
  lemma FailsIffNoneQualifies(data: seq<ParticipantAvailability>, duration: int, priority: string,
                              workStart: int, workEnd: int, maxSuggestions: int)
    ensures OptimalSlots(data, duration, priority, workStart, workEnd, maxSuggestions).NoAuthenticatedParticipants?
        <==> forall i :: 0 <= i < |data| ==> !Qualifies(data[i])
  {
    var authenticated := AuthenticatedParticipants(data);
    if authenticated != [] {
      assert Qualifies(authenticated[0]) && authenticated[0] in data;
    }
  }

  /** The comprehension of lines 434-442 works slot by slot, keeping order. */
  lemma {:induction false} LongFreeSlotsAppend(a: seq<TimeSlot>, b: seq<TimeSlot>, duration: int)
    ensures LongFreeSlots(a + b, duration) == LongFreeSlots(a, duration) + LongFreeSlots(b, duration)
  {
    if a == [] {
      assert a + b == b;
    } else {
      var head := if a[0].end - a[0].start >= duration then [Describe(a[0])] else [];
      calc {
        LongFreeSlots(a + b, duration);
        { LongFreeSlotsFirst(a + b, duration);
          assert (a + b)[0] == a[0] && (a + b)[1..] == a[1..] + b; }
        head + LongFreeSlots(a[1..] + b, duration);
        { LongFreeSlotsAppend(a[1..], b, duration); }
        head + (LongFreeSlots(a[1..], duration) + LongFreeSlots(b, duration));
        { LongFreeSlotsFirst(a, duration); }
        LongFreeSlots(a, duration) + LongFreeSlots(b, duration);
      }
    }
  }

  /** Every entry of `r` describes one of `slots`. */
  ghost predicate DescribesInput(r: seq<FreeSlotInfo>, slots: seq<TimeSlot>) {
    forall k :: 0 <= k < |r| ==> exists s :: s in slots && r[k] == Describe(s)
  }

  /** Every kept entry describes one of the input slots: nothing is invented. */
  lemma {:induction false} LongFreeSlotsFromInput(slots: seq<TimeSlot>, duration: int)
    ensures DescribesInput(LongFreeSlots(slots, duration), slots)
  {
    if slots != [] {
      LongFreeSlotsFirst(slots, duration);
      LongFreeSlotsFromInput(slots[1..], duration);
      var head := if slots[0].end - slots[0].start >= duration then [Describe(slots[0])] else [];
      var tail := LongFreeSlots(slots[1..], duration);
      assert LongFreeSlots(slots, duration) == head + tail;
      forall k | 0 <= k < |head + tail| ensures exists s :: s in slots && (head + tail)[k] == Describe(s) {
        if k < |head| {
          assert slots[0] in slots;
        } else {
          var s :| s in slots[1..] && tail[k - |head|] == Describe(s);
          assert s in slots;
        }
      }
      assert DescribesInput(head + tail, slots);
    }
  }

  lemma LongFreeSlotsFirst(slots: seq<TimeSlot>, duration: int)
    requires slots != []
    ensures LongFreeSlots(slots, duration)
         == (if slots[0].end - slots[0].start >= duration then [Describe(slots[0])] else [])
            + LongFreeSlots(slots[1..], duration)
  {
  }

  /** One driver free slot gives its candidate when eligible and nothing otherwise. */
  lemma CommonSlotsSingle(slot: FreeSlotInfo, others: seq<ParticipantAvailability>,
                          duration: int, priority: string, workStart: int, workEnd: int)
    ensures CommonSlots([slot], others, duration, priority, workStart, workEnd)
         == if Eligible(slot, others, duration, workStart, workEnd)
            then [ToCandidate(slot.start, duration, priority, workStart, workEnd)] else []
  {
    assert [slot][..0] == [];
  }

  /** The loop of lines 493-532 works slot by slot, in the driver's order;
      with `CommonSlotsSingle` this fixes `common_slots` and its length. */
  lemma {:induction false} CommonSlotsAppend(a: seq<FreeSlotInfo>, b: seq<FreeSlotInfo>,
                                              others: seq<ParticipantAvailability>,
                                              duration: int, priority: string, workStart: int, workEnd: int)
    ensures CommonSlots(a + b, others, duration, priority, workStart, workEnd)
         == CommonSlots(a, others, duration, priority, workStart, workEnd)
          + CommonSlots(b, others, duration, priority, workStart, workEnd)
    decreases |b|
  {
    if b == [] {
      assert a + b == a;
    } else {
      var init, last := b[..|b| - 1], b[|b| - 1];
      assert (a + b)[..|a + b| - 1] == a + init && (a + b)[|a + b| - 1] == last;
      CommonSlotsAppend(a, init, others, duration, priority, workStart, workEnd);
    }
  }

  ghost predicate SlotStartsIncrease(slots: seq<FreeSlotInfo>) {
    forall i, j :: 0 <= i < j < |slots| ==> slots[i].start < slots[j].start
  }

  ghost predicate CandidateStartsIncrease(cs: seq<Candidate>) {
    forall i, j :: 0 <= i < j < |cs| ==> cs[i].start < cs[j].start
  }

  /** Candidates come out in the driver's order: when its free slots start in
      increasing order, so do the candidates, whatever their scores. */
  lemma {:induction false} CommonSlotsInDriverOrder(driverSlots: seq<FreeSlotInfo>,
                                                     others: seq<ParticipantAvailability>,
                                                     duration: int, priority: string, workStart: int, workEnd: int)
    requires SlotStartsIncrease(driverSlots)
    ensures CandidateStartsIncrease(CommonSlots(driverSlots, others, duration, priority, workStart, workEnd))
  {
    if driverSlots != [] {
      var init, last := driverSlots[..|driverSlots| - 1], driverSlots[|driverSlots| - 1];
      assert SlotStartsIncrease(init) by {
        forall i, j | 0 <= i < j < |init| ensures init[i].start < init[j].start {
          assert init[i] == driverSlots[i] && init[j] == driverSlots[j];
        }
      }
      CommonSlotsInDriverOrder(init, others, duration, priority, workStart, workEnd);
      var front := CommonSlots(init, others, duration, priority, workStart, workEnd);
      var r := CommonSlots(driverSlots, others, duration, priority, workStart, workEnd);
      var tag := if Eligible(last, others, duration, workStart, workEnd)
                 then [ToCandidate(last.start, duration, priority, workStart, workEnd)] else [];
      assert r == front + tag;
      forall i, j | 0 <= i < j < |r| ensures r[i].start < r[j].start {
        if j >= |front| {
          assert r[j] == tag[0] && tag[0].start == last.start;
          assert r[i] == front[i];
          assert FromEligible(front[i], init, others, duration, priority, workStart, workEnd);
          var k :| 0 <= k < |init| && front[i] == ToCandidate(init[k].start, duration, priority, workStart, workEnd);
          assert init[k] == driverSlots[k];
        } else {
          assert r[i] == front[i] && r[j] == front[j];
        }
      }
    }
  }

  /** Lines 535-538 on any candidate list: at most `max_suggestions` entries
      (when it is not negative), drawn from the candidates, and all of them
      when the cap leaves room. */
  lemma RankedPrefix(common: seq<Candidate>, maxSuggestions: int)
    ensures |Ranked(common, maxSuggestions)| <= |common|
    ensures 0 <= maxSuggestions ==> |Ranked(common, maxSuggestions)| <= maxSuggestions
    ensures 0 <= maxSuggestions ==> |Ranked(common, maxSuggestions)| == Min(maxSuggestions, |common|)
    ensures Ranked(common, maxSuggestions) == SortBy(common, NegScore)[..|Ranked(common, maxSuggestions)|]
    ensures forall c :: c in Ranked(common, maxSuggestions) ==> c in common
    ensures |common| <= maxSuggestions ==> multiset(Ranked(common, maxSuggestions)) == multiset(common)
  {
    var ranked := SortBy(common, NegScore);
    var suggested := PyPrefix(ranked, maxSuggestions);
    forall c | c in suggested
      ensures c in common
    {
      var i :| 0 <= i < |suggested| && suggested[i] == c;
      assert ranked[i] == c;
      assert c in multiset(ranked);
    }
    if |common| <= maxSuggestions {
      assert suggested == ranked;
    }
  }

  /** Best score first, and candidates of equal score kept in the order found. */
  lemma RankedBestFirst(common: seq<Candidate>, maxSuggestions: int)
    ensures forall i, j :: 0 <= i < j < |Ranked(common, maxSuggestions)| ==>
              Ranked(common, maxSuggestions)[i].score >= Ranked(common, maxSuggestions)[j].score
    ensures forall k :: WithKey(SortBy(common, NegScore), NegScore, k) == WithKey(common, NegScore, k)
  {
    var ranked := SortBy(common, NegScore);
    var suggested := PyPrefix(ranked, maxSuggestions);
    SortBySorted(common, NegScore);
    forall i, j | 0 <= i < j < |suggested|
      ensures suggested[i].score >= suggested[j].score
    {
      assert suggested[i] == ranked[i] && suggested[j] == ranked[j];
      assert NegScore(ranked[i]) <= NegScore(ranked[j]);
    }
    forall k
      ensures WithKey(ranked, NegScore, k) == WithKey(common, NegScore, k)
    {
      SortByStable(common, NegScore, k);
    }
  }

  /** Under "high", a Tuesday 10:00 candidate found after a Wednesday 10:00
      one is still ranked first. */
  lemma TuesdayRanksFirst()
    ensures var wednesday := ToCandidate(2 * MinutesPerDay + 600, 30, "high", 9, 17);
            var tuesday := ToCandidate(MinutesPerDay + 600, 30, "high", 9, 17);
            Ranked([wednesday, tuesday], 3) == [tuesday, wednesday]
  {
    var wednesday := ToCandidate(2 * MinutesPerDay + 600, 30, "high", 9, 17);
    var tuesday := ToCandidate(MinutesPerDay + 600, 30, "high", 9, 17);
    TuesdayBeatsWednesdayUnderHigh();
    assert SortBy([wednesday], NegScore) == [wednesday];
    assert [wednesday, tuesday][..1] == [wednesday];
  }

  /** Every suggestion comes from an eligible free slot of the first qualifying
      participant: inside working hours, long enough, and inside some free
      slot of every other qualifying participant. */
  lemma SuggestionsSound(authenticated: seq<ParticipantAvailability>, duration: int, priority: string,
                         workStart: int, workEnd: int, maxSuggestions: int, c: Candidate)
    requires authenticated != []
    requires c in Ranked(CandidateSlots(authenticated, duration, priority, workStart, workEnd), maxSuggestions)
    ensures FromEligible(c, authenticated[0].freeSlots, authenticated[1..], duration, priority, workStart, workEnd)
    ensures c.end == c.start + duration && c.dayOfWeek == Weekday(c.start)
    ensures 100 <= c.score <= 175
  {
    var common := CandidateSlots(authenticated, duration, priority, workStart, workEnd);
    RankedPrefix(common, maxSuggestions);
    var n :| 0 <= n < |common| && common[n] == c;
  }

  /** Every eligible free slot of the first qualifying participant is counted
      in `total_slots_found`, and is suggested when the cap leaves room. */
  lemma SuggestionsComplete(authenticated: seq<ParticipantAvailability>, duration: int, priority: string,
                            workStart: int, workEnd: int, maxSuggestions: int, k: int)
    requires authenticated != [] && 0 <= k < |authenticated[0].freeSlots|
    requires Eligible(authenticated[0].freeSlots[k], authenticated[1..], duration, workStart, workEnd)
    ensures var c := ToCandidate(authenticated[0].freeSlots[k].start, duration, priority, workStart, workEnd);
            var common := CandidateSlots(authenticated, duration, priority, workStart, workEnd);
            && c in common
            && (|common| <= maxSuggestions ==> c in Ranked(common, maxSuggestions))
  {
    var c := ToCandidate(authenticated[0].freeSlots[k].start, duration, priority, workStart, workEnd);
    var common := CandidateSlots(authenticated, duration, priority, workStart, workEnd);
    RankedPrefix(common, maxSuggestions);
    assert c in multiset(common);
  }

  /** The success branch of lines 540-557 in terms of the qualifying list. */
  lemma AnalysisShape(data: seq<ParticipantAvailability>, duration: int, priority: string,
                      workStart: int, workEnd: int, maxSuggestions: int)
    ensures var authenticated := AuthenticatedParticipants(data);
            var r := OptimalSlots(data, duration, priority, workStart, workEnd, maxSuggestions);
            r.Suggested? ==>
              && 1 <= r.authenticatedCount == |authenticated| <= |data|
              && r.totalSlotsFound <= |authenticated[0].freeSlots|
              && |r.suggestedSlots| <= r.totalSlotsFound
              && (0 <= maxSuggestions ==> |r.suggestedSlots| <= maxSuggestions)
  {
    var authenticated := AuthenticatedParticipants(data);
    if authenticated != [] {
      RankedPrefix(CandidateSlots(authenticated, duration, priority, workStart, workEnd), maxSuggestions);
    }
  }

  lemma {:induction false} AuthenticatedAppend(a: seq<ParticipantAvailability>, b: seq<ParticipantAvailability>)
    ensures AuthenticatedParticipants(a + b) == AuthenticatedParticipants(a) + AuthenticatedParticipants(b)
  {
    if a == [] {
      assert a + b == b;
    } else {
      assert (a + b)[1..] == a[1..] + b;
      AuthenticatedAppend(a[1..], b);
    }
  }

  /** The outcome depends on the qualifying participants alone. */
  lemma OnlyQualifiedMatter(data: seq<ParticipantAvailability>, data': seq<ParticipantAvailability>,
                            duration: int, priority: string, workStart: int, workEnd: int, maxSuggestions: int)
    requires AuthenticatedParticipants(data) == AuthenticatedParticipants(data')
    ensures OptimalSlots(data, duration, priority, workStart, workEnd, maxSuggestions)
         == OptimalSlots(data', duration, priority, workStart, workEnd, maxSuggestions)
  {
  }

  /** A participant that does not qualify (not authenticated, or no free slot
      long enough) changes nothing, wherever it sits in the list. */
  lemma IgnoresUnqualified(before: seq<ParticipantAvailability>, p: ParticipantAvailability,
                           after: seq<ParticipantAvailability>,
                           duration: int, priority: string, workStart: int, workEnd: int, maxSuggestions: int)
    requires !Qualifies(p)
    ensures OptimalSlots(before + [p] + after, duration, priority, workStart, workEnd, maxSuggestions)
         == OptimalSlots(before + after, duration, priority, workStart, workEnd, maxSuggestions)
  {
    var q := AuthenticatedParticipants(before);
    assert AuthenticatedParticipants(before + [p]) == q by {
      AuthenticatedAppend(before, [p]);
      assert AuthenticatedParticipants([p]) == [] by {
        assert [p][1..] == [];
      }
      assert q + [] == q;
    }
    AuthenticatedAppend(before + [p], after);
    AuthenticatedAppend(before, after);
    OnlyQualifiedMatter(before + [p] + after, before + after, duration, priority, workStart, workEnd, maxSuggestions);
  }

  /** The first qualifying participant drives the search: with free slots
      9:00-12:00 and 10:00-11:30 and a 30-minute meeting, listing the first
      one first yields no candidate, although 10:00-10:30 suits both. */
  lemma LongerSlotFirstFindsNothing()
    ensures var a := ParticipantAvailability("a", true, [FreeSlotInfo(540, 720, 180)], []);
            var b := ParticipantAvailability("b", true, [FreeSlotInfo(600, 690, 90)], []);
            && Hosts(a.freeSlots[0], 600, 30) && Hosts(b.freeSlots[0], 600, 30)
            && OptimalSlots([a, b], 30, "medium", 9, 17, 3) == Suggested([], 0, 2)
  {
    var a := ParticipantAvailability("a", true, [FreeSlotInfo(540, 720, 180)], []);
    var b := ParticipantAvailability("b", true, [FreeSlotInfo(600, 690, 90)], []);
    assert AuthenticatedParticipants([b]) == [b];
    assert AuthenticatedParticipants([a, b]) == [a, b];
    assert !FreeAt(b, 540, 30);
    assert CandidateSlots([a, b], 30, "medium", 9, 17) == [];
  }

  /** The same two participants the other way round: 10:00-10:30 on a Monday. */
  lemma ShorterSlotFirstFindsIt()
    ensures var a := ParticipantAvailability("a", true, [FreeSlotInfo(540, 720, 180)], []);
            var b := ParticipantAvailability("b", true, [FreeSlotInfo(600, 690, 90)], []);
            OptimalSlots([b, a], 30, "medium", 9, 17, 3) == Suggested([Candidate(600, 630, 125, 0)], 1, 2)
  {
    var a := ParticipantAvailability("a", true, [FreeSlotInfo(540, 720, 180)], []);
    var b := ParticipantAvailability("b", true, [FreeSlotInfo(600, 690, 90)], []);
    assert AuthenticatedParticipants([a]) == [a];
    assert AuthenticatedParticipants([b, a]) == [b, a];
    assert Hosts(a.freeSlots[0], 600, 30);
    assert Eligible(b.freeSlots[0], [a], 30, 9, 17);
    assert ToCandidate(600, 30, "medium", 9, 17) == Candidate(600, 630, 125, 0);
    assert CandidateSlots([b, a], 30, "medium", 9, 17) == [Candidate(600, 630, 125, 0)];
  }

  /** The working-hours test reads the free slot's own end: a free slot from
      9:00 to 18:00 yields nothing for a 9-to-17 day, although a meeting at
      9:00 fits. */
  lemma LateFreeSlotEndRejected()
    ensures var a := ParticipantAvailability("a", true, [FreeSlotInfo(540, 1080, 540)], []);
            && Hosts(a.freeSlots[0], 540, 30)
            && OptimalSlots([a], 30, "medium", 9, 17, 3) == Suggested([], 0, 1)
  {
    var a := ParticipantAvailability("a", true, [FreeSlotInfo(540, 1080, 540)], []);
    assert AuthenticatedParticipants([a]) == [a];
    assert !InWorkHours(a.freeSlots[0], 9, 17);
  }
}
