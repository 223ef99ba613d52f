/** The window builder: turns the availability records returned for the
    requested date into concrete local windows on that date. */
module WindowBuilder {
  import opened Options
  import opened Clock
  import opened Entities

  /** The instant on the requested date that shows the placeholder's hour and
      minute, with seconds set to zero. */
  function OnRequestedDate(placeholder: int): (t: int)
    ensures 0 <= t < MinutesPerDay
    ensures HourOf(t) == HourOf(placeholder)
    ensures MinuteOf(t) == MinuteOf(placeholder)
  {
    HourOf(placeholder) * MinutesPerHour + MinuteOf(placeholder)
  }

  /** Reapplying hour and minute keeps the time of day: the window lands on the
      requested date at the same wall-clock time as the placeholder. */
  lemma OnRequestedDateKeepsTimeOfDay(placeholder: int)
    ensures OnRequestedDate(placeholder) == placeholder % MinutesPerDay
  {
    var r := placeholder % MinutesPerDay;
    var q := placeholder / MinutesPerDay;
    assert placeholder == q * MinutesPerDay + r;
    assert placeholder - r == (q * 24) * MinutesPerHour;
    assert MinuteOf(placeholder) == r % MinutesPerHour;
  }

  /** The window one record contributes, or None when a recurring record is
      for another day of the week. Date-specific records are taken as stored. */
  function BuildWindow(b: Block, dayOfWeek: int): (r: Option<Window>)
    ensures b.Recurring? ==> (r.Some? <==> b.dayOfWeek == dayOfWeek)
    ensures b.Recurring? && r.Some? ==>
              && 0 <= r.value.start < MinutesPerDay
              && 0 <= r.value.end < MinutesPerDay
              && r.value.start % MinutesPerDay == b.startTime % MinutesPerDay
              && r.value.end % MinutesPerDay == b.endTime % MinutesPerDay
    ensures b.DateSpecific? ==> r == Some(Window(b.startTime, b.endTime))
  {
    match b
    case Recurring(day, startTime, endTime) =>
      if day != dayOfWeek then None
      else
        OnRequestedDateKeepsTimeOfDay(startTime);
        OnRequestedDateKeepsTimeOfDay(endTime);
        Some(Window(OnRequestedDate(startTime), OnRequestedDate(endTime)))
    case DateSpecific(startTime, endTime) =>
      Some(Window(startTime, endTime))
  }

  /** The windows of all records, in record order, dropping the records that
      yield none. */
  function BuildWindows(blocks: seq<Block>, dayOfWeek: int): (ws: seq<Window>)
    ensures |ws| <= |blocks|
    ensures forall w :: w in ws <==> exists b :: b in blocks && BuildWindow(b, dayOfWeek) == Some(w)
  {
    if |blocks| == 0 then []
    else
      var rest := BuildWindows(blocks[1..], dayOfWeek);
      assert forall b :: b in blocks <==> b == blocks[0] || b in blocks[1..];
      match BuildWindow(blocks[0], dayOfWeek)
      case None => rest
      case Some(w) => [w] + rest
  }

  /** Building windows distributes over concatenation of the record list. */
  lemma {:induction false} BuildWindowsAppend(xs: seq<Block>, ys: seq<Block>, dayOfWeek: int)
    ensures BuildWindows(xs + ys, dayOfWeek) == BuildWindows(xs, dayOfWeek) + BuildWindows(ys, dayOfWeek)
    decreases |xs|
  {
    if |xs| == 0 {
      assert xs + ys == ys;
    } else {
      assert (xs + ys)[1..] == xs[1..] + ys;
      BuildWindowsAppend(xs[1..], ys, dayOfWeek);
    }
  }

  /** A recurring record for another weekday contributes no window, wherever it
      sits in the list. */
  lemma OtherWeekdayDropped(xs: seq<Block>, b: Block, ys: seq<Block>, dayOfWeek: int)
    requires b.Recurring? && b.dayOfWeek != dayOfWeek
    ensures BuildWindows(xs + [b] + ys, dayOfWeek) == BuildWindows(xs + ys, dayOfWeek)
  {
    var d := dayOfWeek;
    assert BuildWindows([b], d) == [] by {
      assert BuildWindow(b, d) == None;
      assert [b][1..] == [];
      assert BuildWindows([b][1..], d) == [];
    }
    calc {
      BuildWindows(xs + [b] + ys, d);
      { BuildWindowsAppend(xs + [b], ys, d); }
      BuildWindows(xs + [b], d) + BuildWindows(ys, d);
      { BuildWindowsAppend(xs, [b], d); }
      BuildWindows(xs, d) + BuildWindows([b], d) + BuildWindows(ys, d);
      BuildWindows(xs, d) + BuildWindows(ys, d);
      { BuildWindowsAppend(xs, ys, d); }
      BuildWindows(xs + ys, d);
    }
  }
}
