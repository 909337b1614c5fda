/** The status predicate that decides which sources get an availability recheck. */
module Status {
  /** The status whose target also selects never-checked and stalled sources. */
  const UnavailableStatus: string := "unavailable"
  /** The default `-status` flag value: every listed source is rechecked. */
  const AllStatus: string := "all"
  const AvailableStatus: string := "available"
  const InProgressStatus: string := "in_progress"
  const PartiallyAvailableStatus: string := "partially_available"

  /**
   * availabilityStatusMatches: under the "unavailable" target, a source that was never
   * checked (empty status) or whose check is still in progress counts as unavailable;
   * under any other target the statuses must be equal, case included.
   */
  function AvailabilityStatusMatches(sourceStatus: string, targetStatus: string): (r: bool)
    ensures targetStatus == UnavailableStatus ==>
              (r <==> sourceStatus in {UnavailableStatus, "", InProgressStatus})
    ensures targetStatus != UnavailableStatus ==> (r <==> sourceStatus == targetStatus)
    ensures sourceStatus == targetStatus ==> r
  {
    if targetStatus == UnavailableStatus then
      sourceStatus == targetStatus || sourceStatus == "" || sourceStatus == InProgressStatus
    else
      sourceStatus == targetStatus
  }

  /**
   * The condition guarding a dispatch in the main loop: the "all" flag selects every
   * source, whatever its status; any other flag defers to the matcher.
   */
  function ShouldCheck(flag: string, sourceStatus: string): (r: bool)
    ensures flag == AllStatus ==> r
    ensures flag != AllStatus && flag != UnavailableStatus ==> (r <==> sourceStatus == flag)
    ensures flag == UnavailableStatus ==>
              (r <==> sourceStatus == UnavailableStatus || sourceStatus == "" || sourceStatus == InProgressStatus)
  {
    flag == AllStatus || AvailabilityStatusMatches(sourceStatus, flag)
  }

  /** The truth table the repository's unit test checks. */
  lemma MatchesTestTable()
    ensures AvailabilityStatusMatches(AvailableStatus, AvailableStatus)
    ensures !AvailabilityStatusMatches(InProgressStatus, AvailableStatus)
    ensures !AvailabilityStatusMatches(PartiallyAvailableStatus, AvailableStatus)
    ensures !AvailabilityStatusMatches(UnavailableStatus, AvailableStatus)
    ensures !AvailabilityStatusMatches(AvailableStatus, UnavailableStatus)
    ensures AvailabilityStatusMatches(InProgressStatus, UnavailableStatus)
    ensures !AvailabilityStatusMatches(PartiallyAvailableStatus, UnavailableStatus)
    ensures AvailabilityStatusMatches(UnavailableStatus, UnavailableStatus)
    ensures AvailabilityStatusMatches("", UnavailableStatus)
  {
  }
}
