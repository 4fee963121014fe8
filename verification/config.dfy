/** Layout constants of the notification stack. */
module Config {
  /** Top margin of the newest (counter 0) notification window. */
  const BeginningUpMargin: int := 10
  /** Vertical distance between two stacked notification windows. */
  const UnitMargin: int := 135
  /** Most notification windows shown at once; the rest are hidden. */
  const MaxShownNotificationsCount: nat := 4
  /** Top margin of the "hidden notifications" indicator, just below the last slot. */
  const ExtraInfMargin: int := BeginningUpMargin + 4 * UnitMargin

  /** The offset a record at stack position `counter` is drawn at. */
  function UpperFor(counter: nat): (upper: int)
    ensures upper >= BeginningUpMargin
    ensures counter < MaxShownNotificationsCount ==> upper < ExtraInfMargin
    ensures counter >= MaxShownNotificationsCount ==> upper >= ExtraInfMargin
  {
    BeginningUpMargin + counter * UnitMargin
  }
}
