/** The statuses of a work item that release what it holds. */
module WorkItemStatus {
  const TERMINAL := ["wrapped", "failed", "cancelled"]

  predicate IsTerminal(status: string) { status in TERMINAL }

  // The statuses a work item can have.
  const ALL := ["queued", "running", "blocked", "paused", "wrapped", "failed", "cancelled"]

  /** Nothing is released by work that is queued, running, blocked or paused. */
  lemma TerminalIff(status: string)
    ensures IsTerminal(status) <==> status == "wrapped" || status == "failed" || status == "cancelled"
    ensures status in ALL ==> (!IsTerminal(status) <==> status == "queued" || status == "running" || status == "blocked" || status == "paused")
  {
  }
}
