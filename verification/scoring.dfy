/** The scorer: base score, gap penalties and bonus, morning bonus, density
    adjustment, clamped at zero. */
module Scoring {
  import opened Options
  import opened Clock
  import opened Entities

  const BaseScore: int := 100
  const PenaltyPerMissingMinute: int := 10
  const GapBonus: int := 20
  const MorningBonus: int := 15
  const QuietBonus: int := 25
  const BusyPenalty: int := 15
  const NearbyRadius: int := 60
  /** The largest score any slot can get: every bonus, no penalty. */
  const MaxScore: int := BaseScore + GapBonus + MorningBonus + QuietBonus

  /** The latest end among appointments ending at or before `t`. */
  function LatestEndBefore(appts: seq<Appointment>, t: int): (e: Option<int>)
    ensures e.None? <==> forall a :: a in appts ==> a.end > t
    ensures e.Some? ==> e.value <= t && exists a :: a in appts && a.end == e.value
    ensures e.Some? ==> forall a :: a in appts && a.end <= t ==> a.end <= e.value
  {
    if |appts| == 0 then None
    else
      var rest := LatestEndBefore(appts[1..], t);
      var a := appts[0];
      assert forall b :: b in appts <==> b == a || b in appts[1..];
      if a.end <= t && (rest.None? || a.end >= rest.value) then Some(a.end) else rest
  }

  /** The earliest start among appointments starting at or after `t`. */
  function EarliestStartAfter(appts: seq<Appointment>, t: int): (s: Option<int>)
    ensures s.None? <==> forall a :: a in appts ==> a.start < t
    ensures s.Some? ==> s.value >= t && exists a :: a in appts && a.start == s.value
    ensures s.Some? ==> forall a :: a in appts && a.start >= t ==> a.start >= s.value
  {
    if |appts| == 0 then None
    else
      var rest := EarliestStartAfter(appts[1..], t);
      var a := appts[0];
      assert forall b :: b in appts <==> b == a || b in appts[1..];
      if a.start >= t && (rest.None? || a.start <= rest.value) then Some(a.start) else rest
  }

  /** Free minutes between the nearest preceding appointment and the slot,
      None when no appointment ends at or before the slot starts. */
  function GapBefore(s: Slot, appts: seq<Appointment>): Option<int>
  {
    match LatestEndBefore(appts, s.start)
    case None => None
    case Some(e) => Some(s.start - e)
  }

  /** Free minutes between the slot and the nearest following appointment,
      None when no appointment starts at or after the slot ends. */
  function GapAfter(s: Slot, appts: seq<Appointment>): Option<int>
  {
    match EarliestStartAfter(appts, s.end)
    case None => None
    case Some(b) => Some(b - s.end)
  }

  /** A neighbour gap is acceptable when there is no neighbour or the gap is
      at least the minimum. */
  predicate GapRespected(gap: Option<int>, minGap: int)
  {
    gap.None? || gap.value >= minGap
  }

  /** Ten points per minute the gap falls short of the minimum. */
  function GapPenalty(gap: Option<int>, minGap: int): (p: int)
    ensures p >= 0
    ensures p == 0 <==> GapRespected(gap, minGap)
    ensures !GapRespected(gap, minGap) ==> p >= PenaltyPerMissingMinute
  {
    if gap.Some? && gap.value < minGap then PenaltyPerMissingMinute * (minGap - gap.value) else 0
  }

  predicate InMorning(s: Slot)
  {
    9 <= HourOf(s.start) < 12
  }

  function Abs(x: int): int
  {
    if x < 0 then -x else x
  }

  /** An appointment starts or ends within an hour of `t`. */
  predicate Near(a: Appointment, t: int)
  {
    Abs(a.start - t) <= NearbyRadius || Abs(a.end - t) <= NearbyRadius
  }

  /** How many appointments lie near `t`, counting each list entry. */
  function NearbyCount(appts: seq<Appointment>, t: int): (n: nat)
    ensures n <= |appts|
    ensures n == 0 <==> forall a :: a in appts ==> !Near(a, t)
    ensures n == |appts| <==> forall a :: a in appts ==> Near(a, t)
  {
    if |appts| == 0 then 0
    else
      assert forall b :: b in appts <==> b == appts[0] || b in appts[1..];
      (if Near(appts[0], t) then 1 else 0) + NearbyCount(appts[1..], t)
  }

  /** The positions from `k` on whose appointment lies near `t`. */
  function NearFrom(appts: seq<Appointment>, t: int, k: nat): set<int>
  {
    set i | k <= i < |appts| && Near(appts[i], t)
  }

  lemma {:induction false} NearbyCountFrom(appts: seq<Appointment>, t: int, k: nat)
    requires k <= |appts|
    ensures NearbyCount(appts[k..], t) == |NearFrom(appts, t, k)|
    decreases |appts| - k
  {
    if k == |appts| {
      assert NearFrom(appts, t, k) == {};
    } else {
      var tail := appts[k..];
      assert tail[0] == appts[k];
      assert tail[1..] == appts[k + 1..];
      NearbyCountFrom(appts, t, k + 1);
      var later := NearFrom(appts, t, k + 1);
      assert k !in later;
      if Near(appts[k], t) {
        assert NearFrom(appts, t, k) == later + {k};
      } else {
        assert NearFrom(appts, t, k) == later;
      }
    }
  }

  /** The count is the length of the source's filter: the number of list
      positions whose appointment starts or ends within an hour of `t`. */
  lemma NearbyCountIsFilterLength(appts: seq<Appointment>, t: int)
    ensures NearbyCount(appts, t) == |set i | 0 <= i < |appts| && Near(appts[i], t)|
  {
    NearbyCountFrom(appts, t, 0);
    assert appts[0..] == appts;
  }

  /** +25 with no appointment nearby, -15 with more than two, otherwise 0. */
  function DensityAdjustment(nearby: nat): (adj: int)
    ensures -BusyPenalty <= adj <= QuietBonus
  {
    if nearby == 0 then QuietBonus else if nearby > 2 then -BusyPenalty else 0
  }

  /** The score before clamping. */
  function RawScore(s: Slot, appts: seq<Appointment>, minGap: int): (raw: int)
    ensures raw <= MaxScore
  {
    var before := GapBefore(s, appts);
    var after := GapAfter(s, appts);
    BaseScore
      - GapPenalty(before, minGap)
      - GapPenalty(after, minGap)
      + (if GapRespected(before, minGap) && GapRespected(after, minGap) then GapBonus else 0)
      + (if InMorning(s) then MorningBonus else 0)
      + DensityAdjustment(NearbyCount(appts, s.start))
  }

  /** The final score: the raw score clamped so that it is never negative. */
  function Score(s: Slot, appts: seq<Appointment>, minGap: int): (score: int)
    ensures 0 <= score <= MaxScore
    ensures score > 0 <==> RawScore(s, appts, minGap) > 0
    ensures score > 0 ==> score == RawScore(s, appts, minGap)
  {
    var raw := RawScore(s, appts, minGap);
    if raw < 0 then 0 else raw
  }

  /** A slot that keeps the minimum gap on both sides scores at least 105 and
      so is always eligible for recommendation. */
  lemma RespectedGapsScoreHigh(s: Slot, appts: seq<Appointment>, minGap: int)
    requires GapRespected(GapBefore(s, appts), minGap) && GapRespected(GapAfter(s, appts), minGap)
    ensures Score(s, appts, minGap) >= BaseScore + GapBonus - BusyPenalty
  {
  }

  /** The neighbour gaps of a slot are never negative: a preceding appointment
      ends at or before it, a following one starts at or after it. */
  lemma GapsNonNegative(s: Slot, appts: seq<Appointment>)
    ensures GapBefore(s, appts).Some? ==> GapBefore(s, appts).value >= 0
    ensures GapAfter(s, appts).Some? ==> GapAfter(s, appts).value >= 0
  {
  }

  /** Without a minimum gap (no qualifying billing rule) every slot keeps both
      gaps, so every slot scores at least 105. */
  lemma NoMinGapScoresHigh(s: Slot, appts: seq<Appointment>, minGap: int)
    requires minGap <= 0
    ensures Score(s, appts, minGap) >= BaseScore + GapBonus - BusyPenalty
  {
    GapsNonNegative(s, appts);
    RespectedGapsScoreHigh(s, appts, minGap);
  }

  /** A slot whose gap to the preceding appointment is `k > 0` minutes short of
      the minimum loses the gap bonus and ten points per missing minute, so its
      score is at most max(0, 140 - 10k); it drops out once k reaches 14. */
  lemma ShortGapBeforeCosts(s: Slot, appts: seq<Appointment>, minGap: int, k: int)
    requires GapBefore(s, appts).Some? && k == minGap - GapBefore(s, appts).value && k > 0
    ensures Score(s, appts, minGap) <= if 140 - 10 * k > 0 then 140 - 10 * k else 0
  {
  }

  /** The same for the gap to the following appointment. */
  lemma ShortGapAfterCosts(s: Slot, appts: seq<Appointment>, minGap: int, k: int)
    requires GapAfter(s, appts).Some? && k == minGap - GapAfter(s, appts).value && k > 0
    ensures Score(s, appts, minGap) <= if 140 - 10 * k > 0 then 140 - 10 * k else 0
  {
  }

  /** Scores every slot, keeping their order. */
  function ScoreAll(slots: seq<Slot>, appts: seq<Appointment>, minGap: int): (cs: seq<Candidate>)
    ensures |cs| == |slots|
    ensures forall i :: 0 <= i < |cs| ==> cs[i].slot == slots[i]
    ensures forall i :: 0 <= i < |cs| ==> cs[i].score == Score(slots[i], appts, minGap)
    ensures forall c :: c in cs ==> c.slot in slots
  {
    seq(|slots|, i requires 0 <= i < |slots| => Candidate(slots[i], Score(slots[i], appts, minGap)))
  }
}
