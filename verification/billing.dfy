/** Selection of the billing rule that governs the requested duration. */
module Billing {
  import opened Options
  import opened Entities

  predicate Qualifies(rule: BillingRule, duration: int)
  {
    rule.minDurationMinutes <= duration
  }

  /** `rules[i]` is the applicable rule: it qualifies, no qualifying rule has a
      larger minimum duration, and no earlier qualifying rule ties with it
      (the source sorts stably and takes the first). */
  predicate Applicable(rules: seq<BillingRule>, i: int, duration: int)
  {
    && 0 <= i < |rules|
    && Qualifies(rules[i], duration)
    && (forall j :: 0 <= j < |rules| && Qualifies(rules[j], duration) ==>
          rules[j].minDurationMinutes <= rules[i].minDurationMinutes)
    && (forall j :: 0 <= j < i && Qualifies(rules[j], duration) ==>
          rules[j].minDurationMinutes < rules[i].minDurationMinutes)
  }

  /** The position of the applicable rule, or None when no rule qualifies. */
  function ApplicableIndex(rules: seq<BillingRule>, duration: int): (r: Option<nat>)
    ensures r.None? <==> forall j :: 0 <= j < |rules| ==> !Qualifies(rules[j], duration)
    ensures r.Some? ==> Applicable(rules, r.value, duration)
  {
    if |rules| == 0 then None
    else
      var init := rules[..|rules| - 1];
      var n := |rules| - 1;
      var best := ApplicableIndex(init, duration);
      assert forall j :: 0 <= j < n ==> rules[j] == init[j];
      if Qualifies(rules[n], duration) &&
         (best.None? || rules[n].minDurationMinutes > rules[best.value].minDurationMinutes)
      then Some(n)
      else best
  }

  /** The applicable rule itself: the qualifying rule with the largest minimum
      duration, or None when no rule's minimum duration is within the request. */
  function SelectRule(rules: seq<BillingRule>, duration: int): (r: Option<BillingRule>)
    ensures r.None? <==> forall q :: q in rules ==> !Qualifies(q, duration)
    ensures r.Some? ==> r.value in rules && Qualifies(r.value, duration)
    ensures r.Some? ==> forall q :: q in rules && Qualifies(q, duration) ==>
                          q.minDurationMinutes <= r.value.minDurationMinutes
    ensures r.Some? ==> exists i :: Applicable(rules, i, duration) && r.value == rules[i]
  {
    match ApplicableIndex(rules, duration)
    case None => None
    case Some(i) => Some(rules[i])
  }

  /** The minimum gap in minutes: the applicable rule's `minGapAfter`, or 0
      when no rule qualifies. */
  function MinGap(rules: seq<BillingRule>, duration: int): (gap: int)
    ensures (forall q :: q in rules ==> !Qualifies(q, duration)) ==> gap == 0
    ensures forall i :: Applicable(rules, i, duration) ==> gap == rules[i].minGapAfter
  {
    match ApplicableIndex(rules, duration)
    case None => 0
    case Some(i) =>
      ApplicableUnique(rules, i, duration);
      rules[i].minGapAfter
  }

  /** At most one position is the applicable rule. */
  lemma ApplicableUnique(rules: seq<BillingRule>, i: int, duration: int)
    requires Applicable(rules, i, duration)
    ensures forall k :: Applicable(rules, k, duration) ==> k == i
  {
  }
}
