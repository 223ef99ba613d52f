/** The recommendation request as a whole: the guards, the four stages, and
    the status chosen for the response. */
module Recommender {
  import opened Options
  import opened Clock
  import opened Entities
  import opened WindowBuilder
  import opened Slicer
  import opened Billing
  import opened Scoring
  import opened Ranking

  datatype Status = Success | NoAvailability | NoSlotsAvailable

  /** Why a request fails instead of answering: an unknown clinic, physician
      or patient; or an interval whose end precedes its start, which the date
      library turns into an invalid interval that the service then trips over. */
  datatype Failure = InvalidReference | InvalidInterval

  datatype Response =
    | Failed(failure: Failure)
    | Answered(status: Status, recommendedSlots: seq<int>, message: Option<string>)

  /** A request after the three existence lookups and the date resolution:
      whether each entity was found, the ISO weekday of the requested date in
      the clinic's zone, the duration, and the zone's offset from UTC. */
  datatype Request = Request(
    clinicFound: bool,
    physicianFound: bool,
    patientFound: bool,
    isoWeekday: int,
    durationMinutes: int,
    utcOffset: int)

  const MinDuration: int := 5
  const MaxDuration: int := 480

  const InvalidReferenceMessage: string := "Invalid clinic, physician, or patient ID."
  const NoAvailabilityMessage: string :=
    "No appointment slots are available for the selected criteria. (No availability configured for this clinic/physician on this date.)"
  const NoBillingRulesMessage: string :=
    "No appointment slots are available for the selected criteria. (No billing rules configured for this clinic/physician.)"
  const NoSlotsMessage: string :=
    "No appointment slots are available for the selected criteria. Please try a different date or contact support."

  /** What request validation and the date library guarantee. */
  predicate ValidRequest(req: Request)
  {
    && 1 <= req.isoWeekday <= 7
    && MinDuration <= req.durationMinutes <= MaxDuration
  }

  predicate EntitiesFound(req: Request)
  {
    req.clinicFound && req.physicianFound && req.patientFound
  }

  function RequestWindows(req: Request, blocks: seq<Block>): seq<Window>
    requires ValidRequest(req)
  {
    BuildWindows(blocks, DayOfWeek(req.isoWeekday))
  }

  /** The sliced slots that survive the conflict filter. */
  function OpenSlots(req: Request, blocks: seq<Block>, appts: seq<Appointment>): seq<Slot>
    requires ValidRequest(req)
  {
    RemoveConflicts(SliceAll(RequestWindows(req, blocks), req.durationMinutes), appts)
  }

  /** The request fails on an invalid interval: an inverted window fails while
      slicing; an inverted appointment fails while scoring, which only happens
      when some slot is left to score. */
  predicate HitsInvalidInterval(req: Request, blocks: seq<Block>, appts: seq<Appointment>)
    requires ValidRequest(req)
  {
    || (exists w :: w in RequestWindows(req, blocks) && !ValidWindow(w))
    || (|OpenSlots(req, blocks, appts)| > 0 && exists a :: a in appts && !ValidAppointment(a))
  }

  /** A slot is open as often as the windows for the date have it on their
      grid, unless it overlaps an appointment, in which case never. */
  lemma OpenSlotsCounts(req: Request, blocks: seq<Block>, appts: seq<Appointment>, s: Slot)
    requires ValidRequest(req)
    ensures multiset(OpenSlots(req, blocks, appts))[s]
         == if Conflicts(s, appts) then 0
            else |set i | 0 <= i < |RequestWindows(req, blocks)|
                          && OnGrid(s, RequestWindows(req, blocks)[i], req.durationMinutes)|
  {
    var windows := RequestWindows(req, blocks);
    RemoveConflictsCounts(SliceAll(windows, req.durationMinutes), appts, s);
    SliceAllCounts(windows, req.durationMinutes, s);
  }

  /** The ranked, scored top slots, in local time: at most ten, in rank
      order, each with a positive score no higher than the maximum. */
  function Shortlist(req: Request, blocks: seq<Block>, appts: seq<Appointment>, rules: seq<BillingRule>)
    : (top: seq<Candidate>)
    requires ValidRequest(req)
    ensures |top| <= MaxRecommendations
    ensures Ranked(top)
    ensures forall i :: 0 <= i < |top| ==> 0 < top[i].score <= MaxScore
  {
    Rank(ScoreAll(OpenSlots(req, blocks, appts), appts, MinGap(rules, req.durationMinutes)))
  }

  /** Every shortlisted slot is a conflict-free slot of the requested duration
      on the stride grid of some window built for the requested date. */
  lemma ShortlistSound(req: Request, blocks: seq<Block>, appts: seq<Appointment>, rules: seq<BillingRule>,
                       c: Candidate)
    requires ValidRequest(req)
    requires c in Shortlist(req, blocks, appts, rules)
    ensures c.slot in OpenSlots(req, blocks, appts)
    ensures !Conflicts(c.slot, appts)
    ensures OnGridOfSome(c.slot, RequestWindows(req, blocks), req.durationMinutes)
  {
  }

  /** The UTC instants of the candidates' starts, in list order. */
  function UtcStarts(cs: seq<Candidate>, utcOffset: int): (starts: seq<int>)
    ensures |starts| == |cs|
    ensures forall i :: 0 <= i < |cs| ==> FromUtc(starts[i], utcOffset) == cs[i].slot.start
  {
    seq(|cs|, i requires 0 <= i < |cs| => ToUtc(cs[i].slot.start, utcOffset))
  }

  /** The whole request. */
  function Recommend(req: Request, blocks: seq<Block>, appts: seq<Appointment>, rules: seq<BillingRule>)
    : (out: Response)
    requires ValidRequest(req)
    ensures out == Failed(InvalidReference) <==> !EntitiesFound(req)
    ensures out.Answered? && out.status == NoAvailability <==> EntitiesFound(req) && |blocks| == 0
    ensures EntitiesFound(req) && |blocks| == 0 ==>
              out == Answered(NoAvailability, [], Some(NoAvailabilityMessage))
    ensures EntitiesFound(req) && |blocks| > 0 && |rules| == 0 ==>
              out == Answered(NoSlotsAvailable, [], Some(NoBillingRulesMessage))
    ensures out == Failed(InvalidInterval) <==>
              EntitiesFound(req) && |blocks| > 0 && |rules| > 0 && HitsInvalidInterval(req, blocks, appts)
    ensures out.Answered? ==> |out.recommendedSlots| <= MaxRecommendations
    ensures out.Answered? ==> (out.status == Success <==> |out.recommendedSlots| > 0)
    ensures out.Answered? && out.status == Success ==>
              out.recommendedSlots == UtcStarts(Shortlist(req, blocks, appts, rules), req.utcOffset)
              && out.message.None?
    ensures EntitiesFound(req) && |blocks| > 0 && |rules| > 0 && !HitsInvalidInterval(req, blocks, appts) &&
            |Shortlist(req, blocks, appts, rules)| == 0 ==>
              out == Answered(NoSlotsAvailable, [], Some(NoSlotsMessage))
  {
    if !EntitiesFound(req) then Failed(InvalidReference)
    else if |blocks| == 0 then Answered(NoAvailability, [], Some(NoAvailabilityMessage))
    else if |rules| == 0 then Answered(NoSlotsAvailable, [], Some(NoBillingRulesMessage))
    else if HitsInvalidInterval(req, blocks, appts) then Failed(InvalidInterval)
    else
      var top := Shortlist(req, blocks, appts, rules);
      if |top| == 0 then Answered(NoSlotsAvailable, [], Some(NoSlotsMessage))
      else Answered(Success, UtcStarts(top, req.utcOffset), None)
  }

  /** With every guard passed and a non-empty shortlist, the answer is a
      success listing the shortlist's starts in UTC. */
  lemma SuccessAnswer(req: Request, blocks: seq<Block>, appts: seq<Appointment>, rules: seq<BillingRule>)
    requires ValidRequest(req)
    requires EntitiesFound(req) && |blocks| > 0 && |rules| > 0
    requires !HitsInvalidInterval(req, blocks, appts)
    requires |Shortlist(req, blocks, appts, rules)| > 0
    ensures Recommend(req, blocks, appts, rules)
         == Answered(Success, UtcStarts(Shortlist(req, blocks, appts, rules), req.utcOffset), None)
  {
  }

  /** A returned instant is the UTC start of the shortlisted slot at the same
      position. */
  lemma AnsweredSlotIsShortlisted(req: Request, blocks: seq<Block>, appts: seq<Appointment>,
                                  rules: seq<BillingRule>, i: int)
    requires ValidRequest(req)
    ensures Recommend(req, blocks, appts, rules).Answered? &&
            0 <= i < |Recommend(req, blocks, appts, rules).recommendedSlots| ==>
              && i < |Shortlist(req, blocks, appts, rules)|
              && FromUtc(Recommend(req, blocks, appts, rules).recommendedSlots[i], req.utcOffset)
                 == Shortlist(req, blocks, appts, rules)[i].slot.start
  {
  }

  /** No recommended slot overlaps an existing appointment: for every returned
      instant t (in local time) and every appointment, not (t < end and
      t + duration > start). A slot that only touches an appointment counts as
      free. */
  lemma RecommendedSlotsConflictFree(req: Request, blocks: seq<Block>, appts: seq<Appointment>,
                                     rules: seq<BillingRule>, i: int, t: int, a: Appointment)
    requires ValidRequest(req)
    ensures && Recommend(req, blocks, appts, rules).Answered?
            && 0 <= i < |Recommend(req, blocks, appts, rules).recommendedSlots|
            && t == FromUtc(Recommend(req, blocks, appts, rules).recommendedSlots[i], req.utcOffset)
            && a in appts
            ==> !(t < a.end && t + req.durationMinutes > a.start)
  {
    var out := Recommend(req, blocks, appts, rules);
    if out.Answered? && 0 <= i < |out.recommendedSlots| && t == FromUtc(out.recommendedSlots[i], req.utcOffset)
       && a in appts {
      AnsweredSlotIsShortlisted(req, blocks, appts, rules, i);
      var top := Shortlist(req, blocks, appts, rules);
      ShortlistSound(req, blocks, appts, rules, top[i]);
      assert !Overlaps(top[i].slot, a);
    }
  }

  /** Every recommended instant starts a slot of the requested duration on the
      15-minute grid of one of the windows built for the requested date. */
  lemma RecommendedSlotsInWindows(req: Request, blocks: seq<Block>, appts: seq<Appointment>,
                                  rules: seq<BillingRule>, i: int, t: int)
    requires ValidRequest(req)
    ensures && Recommend(req, blocks, appts, rules).Answered?
            && 0 <= i < |Recommend(req, blocks, appts, rules).recommendedSlots|
            && t == FromUtc(Recommend(req, blocks, appts, rules).recommendedSlots[i], req.utcOffset)
            ==> OnGridOfSome(Slot(t, t + req.durationMinutes), RequestWindows(req, blocks), req.durationMinutes)
  {
    var out := Recommend(req, blocks, appts, rules);
    if out.Answered? && 0 <= i < |out.recommendedSlots| && t == FromUtc(out.recommendedSlots[i], req.utcOffset) {
      AnsweredSlotIsShortlisted(req, blocks, appts, rules, i);
      var top := Shortlist(req, blocks, appts, rules);
      ShortlistSound(req, blocks, appts, rules, top[i]);
      assert top[i].slot == Slot(t, t + req.durationMinutes);
    }
  }
}
