/** The date checks `main` makes before any company is processed. */
module DateWindow {
  import opened Reviews

  datatype AbortReason = FutureStart | StartAfterEnd

  /** The outcome of the checks: the run stops, or proceeds with a window of calendar days. */
  datatype Validation = Aborted(reason: AbortReason) | Window(start: Day, end: Day)

  /**
   * A start after today aborts; otherwise an end after today is clamped to
   * today, and a start after the (clamped) end aborts.
   */
  function Validate(start: Day, end: Day, today: Day): (v: Validation)
    ensures v == Aborted(FutureStart) <==> start > today
    ensures v == Aborted(StartAfterEnd) <==> start <= today && start > end
    ensures v.Window? <==> start <= today && start <= end
    ensures v.Window? ==> v.start == start && v.start <= v.end <= today
    ensures v.Window? && end <= today ==> v.end == end
    ensures v.Window? && end > today ==> v.end == today
  {
    if start > today then Aborted(FutureStart)
    else
      var clamped := if end > today then today else end;
      if start > clamped then Aborted(StartAfterEnd) else Window(start, clamped)
  }
}
