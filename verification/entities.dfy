/** The values the recommender works on. All are request-scoped and immutable;
    every time is an integer minute on the local timeline of `Clock`. */
module Entities {

  /** An availability record of the physician at the clinic.
      A recurring record stores its times on an arbitrary reference date and
      only their time of day is meaningful; a date-specific record stores the
      actual instants. */
  datatype Block =
    | Recurring(dayOfWeek: int, startTime: int, endTime: int)
    | DateSpecific(startTime: int, endTime: int)

  /** A concrete availability interval [start, end) on the requested date. */
  datatype Window = Window(start: int, end: int)

  /** An existing, non-cancelled appointment [start, end). */
  datatype Appointment = Appointment(start: int, end: int)

  /** A billing rule: appointments of at least `minDurationMinutes` need
      `minGapAfter` free minutes around them. */
  datatype BillingRule = BillingRule(minDurationMinutes: int, minGapAfter: int)

  /** A candidate appointment [start, end). */
  datatype Slot = Slot(start: int, end: int)

  /** A slot together with the score the ranking uses. */
  datatype Candidate = Candidate(slot: Slot, score: int)

  /** An interval the date library accepts: its end is not before its start.
      An inverted interval is "invalid" and has no start or end at all. */
  predicate ValidWindow(w: Window)
  {
    w.start <= w.end
  }

  predicate ValidAppointment(a: Appointment)
  {
    a.start <= a.end
  }
}
