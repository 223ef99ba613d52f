/** The slot slicer and the conflict filter. */
module Slicer {
  import opened Entities

  /** Slots start every 15 minutes, whatever the requested duration. */
  const Stride: int := 15

  /** The slots [t, t + duration), [t + 15, t + 15 + duration), ... that fit
      before `end`: exactly those at the stride offsets, and no more. */
  function SliceFrom(t: int, end: int, duration: int): (slots: seq<Slot>)
    requires duration > 0
    ensures forall i :: 0 <= i < |slots| ==>
              slots[i] == Slot(t + Stride * i, t + Stride * i + duration)
    ensures forall i :: 0 <= i < |slots| ==> slots[i].end <= end
    ensures t + Stride * |slots| + duration > end
    decreases end - t
  {
    if t + duration <= end then [Slot(t, t + duration)] + SliceFrom(t + Stride, end, duration)
    else []
  }

  /** The slots cut from one window. The first starts at the window's start;
      each next one starts 15 minutes later; all end within the window. */
  function SliceWindow(w: Window, duration: int): (slots: seq<Slot>)
    requires duration > 0
    ensures |slots| > 0 ==> slots[0].start == w.start
    ensures forall i :: 0 <= i < |slots| ==> slots[i].end == slots[i].start + duration
    ensures forall i :: 0 <= i < |slots| ==> w.start <= slots[i].start && slots[i].end <= w.end
    ensures forall i :: 0 < i < |slots| ==> slots[i].start == slots[i - 1].start + Stride
    ensures w.start + Stride * |slots| + duration > w.end
  {
    SliceFrom(w.start, w.end, duration)
  }

  /** A slot lies on the stride grid of a window. */
  predicate OnGrid(s: Slot, w: Window, duration: int)
  {
    && w.start <= s.start
    && (s.start - w.start) % Stride == 0
    && s.end == s.start + duration
    && s.end <= w.end
  }

  predicate OnGridOfSome(s: Slot, windows: seq<Window>, duration: int)
  {
    exists w :: w in windows && OnGrid(s, w, duration)
  }

  /** Slicing a window yields exactly the grid slots that fit in it. */
  lemma {:induction false} SliceWindowIsGrid(w: Window, duration: int, s: Slot)
    requires duration > 0
    ensures s in SliceWindow(w, duration) <==> OnGrid(s, w, duration)
  {
    var slots := SliceWindow(w, duration);
    if s in slots {
      var i :| 0 <= i < |slots| && slots[i] == s;
      assert s.start - w.start == Stride * i;
    }
    if OnGrid(s, w, duration) {
      var k := (s.start - w.start) / Stride;
      assert s.start == w.start + Stride * k;
      assert Stride * k < Stride * |slots|;
      assert slots[k] == s;
    }
  }

  /** All windows' slots, window by window. Overlapping windows may yield the
      same slot twice; nothing is deduplicated. */
  function SliceAll(windows: seq<Window>, duration: int): (slots: seq<Slot>)
    requires duration > 0
    ensures forall s :: s in slots <==> OnGridOfSome(s, windows, duration)
  {
    if |windows| == 0 then []
    else
      var first := SliceWindow(windows[0], duration);
      var rest := SliceAll(windows[1..], duration);
      assert forall s :: s in first <==> OnGrid(s, windows[0], duration) by {
        forall s {
          SliceWindowIsGrid(windows[0], duration, s);
        }
      }
      assert forall w :: w in windows <==> w == windows[0] || w in windows[1..];
      first + rest
  }

  /** A sequence of pairwise different slots holds each slot at most once. */
  lemma {:induction false} DistinctSlotCount(xs: seq<Slot>, x: Slot)
    requires forall i, j :: 0 <= i < j < |xs| ==> xs[i] != xs[j]
    ensures multiset(xs)[x] == if x in xs then 1 else 0
  {
    if |xs| > 0 {
      assert xs == [xs[0]] + xs[1..];
      DistinctSlotCount(xs[1..], x);
      assert forall k :: 0 <= k < |xs[1..]| ==> xs[1..][k] != xs[0];
    }
  }

  /** A window yields each slot of its grid exactly once: the starts strictly
      increase. */
  lemma SliceWindowCounts(w: Window, duration: int, s: Slot)
    requires duration > 0
    ensures multiset(SliceWindow(w, duration))[s] == if OnGrid(s, w, duration) then 1 else 0
  {
    var slots := SliceWindow(w, duration);
    assert forall i :: 0 <= i < |slots| ==> slots[i].start == w.start + Stride * i;
    assert forall i, j :: 0 <= i < j < |slots| ==> slots[i] != slots[j] by {
      forall i, j | 0 <= i < j < |slots| ensures slots[i] != slots[j] {
        assert slots[i].start < slots[j].start;
      }
    }
    DistinctSlotCount(slots, s);
    SliceWindowIsGrid(w, duration, s);
  }

  /** The positions from `k` on whose window has `s` on its grid. */
  function CoveringFrom(s: Slot, windows: seq<Window>, duration: int, k: nat): set<int>
  {
    set i | k <= i < |windows| && OnGrid(s, windows[i], duration)
  }

  lemma {:induction false} SliceAllCountsFrom(windows: seq<Window>, duration: int, s: Slot, k: nat)
    requires duration > 0 && k <= |windows|
    ensures multiset(SliceAll(windows[k..], duration))[s] == |CoveringFrom(s, windows, duration, k)|
    decreases |windows| - k
  {
    if k == |windows| {
      assert CoveringFrom(s, windows, duration, k) == {};
    } else {
      var tail := windows[k..];
      assert tail[0] == windows[k];
      assert tail[1..] == windows[k + 1..];
      SliceAllCountsFrom(windows, duration, s, k + 1);
      SliceWindowCounts(windows[k], duration, s);
      var later := CoveringFrom(s, windows, duration, k + 1);
      assert k !in later;
      if OnGrid(s, windows[k], duration) {
        assert CoveringFrom(s, windows, duration, k) == later + {k};
      } else {
        assert CoveringFrom(s, windows, duration, k) == later;
      }
    }
  }

  /** Nothing is deduplicated: a slot occurs once for every window whose grid
      holds it. */
  lemma SliceAllCounts(windows: seq<Window>, duration: int, s: Slot)
    requires duration > 0
    ensures multiset(SliceAll(windows, duration))[s]
         == |set i | 0 <= i < |windows| && OnGrid(s, windows[i], duration)|
  {
    SliceAllCountsFrom(windows, duration, s, 0);
    assert windows[0..] == windows;
  }

  /** The source's open-interval overlap test. An inverted appointment is an
      invalid interval whose start and end are missing; the slot's start is
      then compared with 0, which for any slot after 1970-01-01T00:00Z never
      reports an overlap. */
  predicate Overlaps(s: Slot, a: Appointment)
  {
    ValidAppointment(a) && s.start < a.end && s.end > a.start
  }

  predicate Conflicts(s: Slot, appts: seq<Appointment>)
  {
    exists a :: a in appts && Overlaps(s, a)
  }

  /** The slots that overlap no appointment, in order. */
  function RemoveConflicts(slots: seq<Slot>, appts: seq<Appointment>): (kept: seq<Slot>)
    ensures forall s :: s in kept ==> !Conflicts(s, appts) && s in slots
  {
    if |slots| == 0 then []
    else
      var rest := RemoveConflicts(slots[1..], appts);
      if Conflicts(slots[0], appts) then rest else [slots[0]] + rest
  }

  /** The filter drops every occurrence of a conflicting slot and keeps every
      occurrence of any other. */
  lemma {:induction false} RemoveConflictsCounts(slots: seq<Slot>, appts: seq<Appointment>, s: Slot)
    ensures multiset(RemoveConflicts(slots, appts))[s] ==
              if Conflicts(s, appts) then 0 else multiset(slots)[s]
  {
    if |slots| > 0 {
      assert slots == [slots[0]] + slots[1..];
      RemoveConflictsCounts(slots[1..], appts, s);
    }
  }
}
