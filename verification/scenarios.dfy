/** Worked requests from the service's own unit tests, evaluated on the model.
    The clinic is in America/Toronto in July (UTC-4, offset -240), the
    requested date is Tuesday 2025-07-01 (ISO weekday 2), and local 09:00 is
    minute 540. */
module Scenarios {
  import opened Options
  import opened Entities
  import opened WindowBuilder
  import opened Slicer
  import opened Billing
  import opened Scoring
  import opened Ranking
  import opened Recommender

  function TuesdayRequest(duration: int): Request
  {
    Request(true, true, true, 2, duration, -240)
  }

  /** A recurring Tuesday block 09:00-10:00, sliced into 15-minute slots. */
  lemma MorningHourSlices()
    ensures SliceAll(RequestWindows(TuesdayRequest(15), [Recurring(2, 540, 600)]), 15)
         == [Slot(540, 555), Slot(555, 570), Slot(570, 585), Slot(585, 600)]
  {
    assert BuildWindow(Recurring(2, 540, 600), 2) == Some(Window(540, 600));
    assert RequestWindows(TuesdayRequest(15), [Recurring(2, 540, 600)]) == [Window(540, 600)];
    assert SliceFrom(600, 600, 15) == [];
  }

  /** Of those, the 09:00 slot overlaps the 09:00-09:15 appointment; the
      09:15 slot only touches it and stays. */
  lemma MorningHourOpen()
    ensures RemoveConflicts([Slot(540, 555), Slot(555, 570), Slot(570, 585), Slot(585, 600)],
                            [Appointment(540, 555)])
         == [Slot(555, 570), Slot(570, 585), Slot(585, 600)]
  {
    var appts := [Appointment(540, 555)];
    var sliced := [Slot(540, 555), Slot(555, 570), Slot(570, 585), Slot(585, 600)];
    assert Conflicts(sliced[0], appts) by { assert Overlaps(sliced[0], appts[0]); }
    forall k | 1 <= k < 4 ensures !Conflicts(sliced[k], appts) {
      forall a | a in appts ensures !Overlaps(sliced[k], a) { assert a == appts[0]; }
    }
    assert RemoveConflicts([], appts) == [];
    assert RemoveConflicts(sliced[3..], appts) == [sliced[3]] by { assert sliced[3..][1..] == []; }
    assert RemoveConflicts(sliced[2..], appts) == sliced[2..] by { assert sliced[2..][1..] == sliced[3..]; }
    assert RemoveConflicts(sliced[1..], appts) == sliced[1..] by { assert sliced[1..][1..] == sliced[2..]; }
  }

  /** Scores with a 10-minute minimum gap: 09:15 has a zero gap (-100, no gap
      bonus, +15 morning), 09:30 and 09:45 keep the gap (+20, +15); each has the
      one appointment within the hour, so no density adjustment. */
  lemma MorningHourScores()
    ensures Score(Slot(555, 570), [Appointment(540, 555)], 10) == 15
    ensures Score(Slot(570, 585), [Appointment(540, 555)], 10) == 135
    ensures Score(Slot(585, 600), [Appointment(540, 555)], 10) == 135
  {
  }

  lemma MorningHourScored()
    ensures ScoreAll(Open(), [Appointment(540, 555)], 10) == Scored()
  {
    MorningHourScores();
  }

  function Scored(): seq<Candidate>
  {
    [Candidate(Slot(555, 570), 15), Candidate(Slot(570, 585), 135), Candidate(Slot(585, 600), 135)]
  }

  function Expected(): seq<Candidate>
  {
    [Candidate(Slot(570, 585), 135), Candidate(Slot(585, 600), 135), Candidate(Slot(555, 570), 15)]
  }

  lemma ScoredAllPositive()
    ensures KeepPositive(Scored()) == Scored()
  {
    var cs := Scored();
    assert cs[1..][1..][1..] == [];
  }

  lemma ExpectedRanked()
    ensures Ranked(Expected())
    ensures multiset(Expected()) == multiset(Scored())
    ensures forall c :: c in Expected() ==> c.slot.end == c.slot.start + 15
  {
  }

  /** 09:30, 09:45 and 09:15 in Toronto in July are 13:30Z, 13:45Z and 13:15Z. */
  lemma ExpectedInUtc()
    ensures UtcStarts(Expected(), -240) == [810, 825, 795]
  {
  }

  /** Ranked: the two 135-point slots by start time, then the 15-point one. */
  lemma MorningHourRanked(scored: seq<Candidate>)
    requires scored == Scored()
    ensures Rank(scored) == Expected()
  {
    ScoredAllPositive();
    ExpectedRanked();
    RankOfFew(scored, Expected(), 15);
  }

  function Open(): seq<Slot>
  {
    [Slot(555, 570), Slot(570, 585), Slot(585, 600)]
  }

  /** Windowing, slicing and the conflict filter on the test's inputs. */
  lemma MorningHourOpenSlots(req: Request, blocks: seq<Block>, appts: seq<Appointment>)
    requires req == TuesdayRequest(15)
    requires blocks == [Recurring(2, 540, 600)]
    requires appts == [Appointment(540, 555)]
    ensures RequestWindows(req, blocks) == [Window(540, 600)]
    ensures OpenSlots(req, blocks, appts) == Open()
  {
    assert BuildWindow(blocks[0], 2) == Some(Window(540, 600));
    MorningHourSlices();
    MorningHourOpen();
  }

  /** No window or appointment of the test is inverted. */
  lemma MorningHourValid(req: Request, blocks: seq<Block>, appts: seq<Appointment>)
    requires req == TuesdayRequest(15)
    requires blocks == [Recurring(2, 540, 600)]
    requires appts == [Appointment(540, 555)]
    ensures !HitsInvalidInterval(req, blocks, appts)
  {
    MorningHourOpenSlots(req, blocks, appts);
  }

  /** The one 15-minute rule applies to a 15-minute request. */
  lemma MorningHourGap(rules: seq<BillingRule>)
    requires rules == [BillingRule(15, 10)]
    ensures MinGap(rules, 15) == 10
  {
    assert ApplicableIndex(rules, 15) == Some(0);
  }

  /** The shortlist for the test's inputs. */
  lemma MinGapShortlist(req: Request, blocks: seq<Block>, appts: seq<Appointment>, rules: seq<BillingRule>)
    requires req == TuesdayRequest(15)
    requires blocks == [Recurring(2, 540, 600)]
    requires appts == [Appointment(540, 555)]
    requires rules == [BillingRule(15, 10)]
    ensures Shortlist(req, blocks, appts, rules) == Expected()
  {
    MorningHourOpenSlots(req, blocks, appts);
    MorningHourGap(rules);
    MorningHourScored();
    MorningHourRanked(Scored());
  }

  /** The service's "should apply minGapAfter" test: one appointment
      09:00-09:15 in a 09:00-10:00 window, 15-minute slots, a 10-minute gap
      rule. The answer leads with 09:30 and 09:45 local (13:30Z and 13:45Z),
      both at least ten minutes after the appointment, and ends with the
      penalised 09:15 (13:15Z). */
  lemma MinGapScenario(req: Request, blocks: seq<Block>, appts: seq<Appointment>, rules: seq<BillingRule>)
    requires req == TuesdayRequest(15)
    requires blocks == [Recurring(2, 540, 600)]
    requires appts == [Appointment(540, 555)]
    requires rules == [BillingRule(15, 10)]
    ensures Recommend(req, blocks, appts, rules) == Answered(Success, [810, 825, 795], None)
  {
    MorningHourValid(req, blocks, appts);
    MinGapShortlist(req, blocks, appts, rules);
    ExpectedInUtc();
    SuccessAnswer(req, blocks, appts, rules);
  }

  /** The "should select the correct billing rule" test: of rules with minimum
      durations 10, 15 and 30, a 15-minute request is governed by the 15-minute
      rule (gap 20) and a 30-minute request by the 30-minute one (gap 30); a
      5-minute request meets none and gets no minimum gap. */
  lemma RuleByDurationScenario(rules: seq<BillingRule>)
    requires rules == [BillingRule(10, 5), BillingRule(15, 20), BillingRule(30, 30)]
    ensures SelectRule(rules, 15) == Some(BillingRule(15, 20)) && MinGap(rules, 15) == 20
    ensures SelectRule(rules, 30) == Some(BillingRule(30, 30)) && MinGap(rules, 30) == 30
    ensures SelectRule(rules, 5) == None && MinGap(rules, 5) == 0
  {
    assert rules[..2][..1] == [rules[0]];
    assert rules[..2] == [rules[0], rules[1]];
    assert ApplicableIndex(rules, 15) == Some(1);
    assert ApplicableIndex(rules, 30) == Some(2);
  }

  /** A Tuesday 09:00-09:30 window sliced into two quarter hours; an appointment
      from 09:00 to any time past 09:15 overlaps both. */
  lemma BookedHalfHourOpenSlots(req: Request, blocks: seq<Block>, appts: seq<Appointment>, apptEnd: int)
    requires req == TuesdayRequest(15)
    requires blocks == [Recurring(2, 540, 570)]
    requires 555 < apptEnd
    requires appts == [Appointment(540, apptEnd)]
    ensures RequestWindows(req, blocks) == [Window(540, 570)]
    ensures OpenSlots(req, blocks, appts) == []
  {
    assert BuildWindow(blocks[0], 2) == Some(Window(540, 570));
    assert RequestWindows(req, blocks) == [Window(540, 570)];
    var sliced := [Slot(540, 555), Slot(555, 570)];
    assert SliceFrom(570, 570, 15) == [];
    assert SliceAll(RequestWindows(req, blocks), 15) == sliced;
    assert Overlaps(sliced[0], appts[0]) && Overlaps(sliced[1], appts[0]);
    assert RemoveConflicts(sliced[1..], appts) == [] by { assert sliced[1..][1..] == []; }
  }

  /** The "all slots are blocked by appointments" and "all slots are scored
      <= 0" tests: with the 09:00-09:30 window fully overlapped, the answer is
      NO_SLOTS_AVAILABLE with the generic message, whatever the billing rules. */
  lemma FullyBookedScenario(req: Request, blocks: seq<Block>, appts: seq<Appointment>,
                            rules: seq<BillingRule>, apptEnd: int)
    requires req == TuesdayRequest(15)
    requires blocks == [Recurring(2, 540, 570)]
    requires 555 < apptEnd
    requires appts == [Appointment(540, apptEnd)]
    requires |rules| > 0
    ensures Recommend(req, blocks, appts, rules) == Answered(NoSlotsAvailable, [], Some(NoSlotsMessage))
  {
    BookedHalfHourOpenSlots(req, blocks, appts, apptEnd);
    assert !HitsInvalidInterval(req, blocks, appts);
    assert KeepPositive(ScoreAll([], appts, MinGap(rules, 15))) == [];
  }

  function RepeatedBlocks(): seq<Block>
  {
    [DateSpecific(540, 555), Recurring(2, 540, 555)]
  }

  function RepeatedOpen(): seq<Slot>
  {
    [Slot(540, 555), Slot(540, 555)]
  }

  function Repeated(): seq<Candidate>
  {
    [Candidate(Slot(540, 555), 160), Candidate(Slot(540, 555), 160)]
  }

  /** Both records yield the 09:00-09:15 window, so the slot appears twice. */
  lemma RepeatedOpenSlots(req: Request, blocks: seq<Block>)
    requires req == TuesdayRequest(15)
    requires blocks == RepeatedBlocks()
    ensures RequestWindows(req, blocks) == [Window(540, 555), Window(540, 555)]
    ensures OpenSlots(req, blocks, []) == RepeatedOpen()
  {
    assert BuildWindow(blocks[1], 2) == Some(Window(540, 555));
    assert blocks[1..][1..] == [];
    assert RequestWindows(req, blocks) == [Window(540, 555), Window(540, 555)];
    assert SliceFrom(555, 555, 15) == [];
    assert SliceWindow(Window(540, 555), 15) == [Slot(540, 555)];
  }

  /** With no appointments the 09:00 slot gets every bonus: 160 points. */
  lemma RepeatedScored()
    ensures ScoreAll(RepeatedOpen(), [], 10) == Repeated()
  {
    assert Score(Slot(540, 555), [], 10) == 160;
  }

  lemma RepeatedRanked(cs: seq<Candidate>)
    requires cs == Repeated()
    ensures Rank(cs) == Repeated()
  {
    assert KeepPositive(cs) == cs by { assert cs[1..][1..] == []; }
    RankOfFew(cs, Repeated(), 15);
  }

  lemma RepeatedValid(req: Request, blocks: seq<Block>, appts: seq<Appointment>)
    requires req == TuesdayRequest(15)
    requires blocks == RepeatedBlocks()
    requires appts == []
    ensures !HitsInvalidInterval(req, blocks, appts)
  {
    RepeatedOpenSlots(req, blocks);
  }

  lemma RepeatedShortlist(req: Request, blocks: seq<Block>, appts: seq<Appointment>, rules: seq<BillingRule>)
    requires req == TuesdayRequest(15)
    requires blocks == RepeatedBlocks()
    requires appts == []
    requires rules == [BillingRule(15, 10)]
    ensures Shortlist(req, blocks, appts, rules) == Repeated()
  {
    RepeatedOpenSlots(req, blocks);
    MorningHourGap(rules);
    RepeatedScored();
    RepeatedRanked(Repeated());
  }

  lemma RepeatedInUtc()
    ensures UtcStarts(Repeated(), -240) == [780, 780]
  {
  }

  /** Overlapping availability records are not merged: a date-specific record
      and a recurring one covering the same quarter hour make the answer list
      the same instant, 13:00Z, twice. */
  lemma RepeatedSlotScenario(req: Request, blocks: seq<Block>, rules: seq<BillingRule>)
    requires req == TuesdayRequest(15)
    requires blocks == RepeatedBlocks()
    requires rules == [BillingRule(15, 10)]
    ensures Recommend(req, blocks, [], rules) == Answered(Success, [780, 780], None)
  {
    RepeatedValid(req, blocks, []);
    RepeatedShortlist(req, blocks, [], rules);
    RepeatedInUtc();
    SuccessAnswer(req, blocks, [], rules);
  }

  /** Three appointments starting within the hour make 09:00 busy (-15); the
      fourth, at 15:00, is not counted. */
  lemma BusyHourScenario(appts: seq<Appointment>)
    requires appts == [Appointment(540, 555), Appointment(545, 560), Appointment(550, 565),
                       Appointment(900, 915)]
    ensures NearbyCount(appts, 540) == 3
    ensures DensityAdjustment(NearbyCount(appts, 540)) == -BusyPenalty
  {
    assert !Near(appts[3], 540);
    assert NearbyCount(appts[3..], 540) == 0 by { assert appts[3..][1..] == []; }
    assert NearbyCount(appts[2..], 540) == 1 by { assert appts[2..][1..] == appts[3..]; }
    assert NearbyCount(appts[1..], 540) == 2 by { assert appts[1..][1..] == appts[2..]; }
  }
}
