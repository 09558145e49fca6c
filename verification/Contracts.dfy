/** Wire contract of the sandbox broker: job states, the transition table and
    the structured codes (backend/app/sandbox/contracts.py). */
module Contracts {
  datatype JobState = Pending | Running | Succeeded | Failed | Cancelled | TimedOut

  datatype ErrorCode =
    | ExecutionTimeout
    | OutputLimitExceeded
    | SandboxUnavailable
    | InvalidSandboxResponse
    | ExecutionFailed
    | CancelledByClient

  datatype ResultCode = Ok | NonzeroExit

  predicate IsTerminal(s: JobState) {
    s.Succeeded? || s.Failed? || s.Cancelled? || s.TimedOut?
  }

  /** The table of allowed forward edges. */
  predicate CanTransition(current: JobState, target: JobState) {
    match current
    case Pending => target.Running? || IsTerminal(target)
    case Running => IsTerminal(target)
    case _ => false
  }

  /** Terminal is exactly "has no way out", and every other state can still be cancelled. */
  lemma TerminalHasNoWayOut(s: JobState)
    ensures IsTerminal(s) <==> forall t :: !CanTransition(s, t)
    ensures !IsTerminal(s) ==> CanTransition(s, Cancelled)
  {
    if !IsTerminal(s) {
      assert CanTransition(s, Cancelled);
    }
  }

  /** The edges, one by one. */
  lemma AllowedEdges(s: JobState, t: JobState)
    ensures CanTransition(s, t) <==> (s, t) in {
      (Pending, Running), (Pending, Succeeded), (Pending, Failed), (Pending, Cancelled), (Pending, TimedOut),
      (Running, Succeeded), (Running, Failed), (Running, Cancelled), (Running, TimedOut)
    }
  {
  }
}
