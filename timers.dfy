/** The `interval` handle of index.js: null, or the handle setInterval
    returned, which clearInterval stops but never resets to null. */
module Timers {

  /** Seconds between the background re-checks. */
  const RESTART_INTERVAL: nat := 60

  datatype Timer =
    | NoTimer                                  // interval == null
    | Armed(periodMs: nat, running: bool)      // a handle; running until cleared

  predicate Ticking(t: Timer)
  {
    t.Armed? && t.running
  }

  /** The hand-off at the end of a cycle (index.js:131-134): a repeating
      re-check is created only when the handle is null. */
  function ArmOnFinish(t: Timer): (u: Timer)
    ensures u.Armed?
    ensures t.NoTimer? ==> u == Armed(RESTART_INTERVAL * 1000, true)
    ensures t.Armed? ==> u == t
  {
    if t.NoTimer? then Armed(RESTART_INTERVAL * 1000, true) else t
  }

  /** clearInterval(interval) (index.js:297): stops the timer, keeps the
      handle; clearing null does nothing. */
  function Cancel(t: Timer): (u: Timer)
    ensures !Ticking(u)
    ensures u.NoTimer? <==> t.NoTimer?
    ensures u.Armed? ==> u.periodMs == t.periodMs
  {
    match t
    case NoTimer => NoTimer
    case Armed(period, _) => Armed(period, false)
  }

  /** Completions never create a second timer: arming is idempotent. */
  lemma ArmOnFinishIdempotent(t: Timer)
    ensures ArmOnFinish(ArmOnFinish(t)) == ArmOnFinish(t)
  {
  }

  /** Once a handle has been cancelled, no number of completions restarts it:
      the background re-check stays off for good. */
  lemma {:induction false} CancelledStaysOff(t: Timer, completions: nat)
    requires t.Armed?
    ensures !Ticking(ArmOnFinishN(Cancel(t), completions))
    ensures ArmOnFinishN(Cancel(t), completions) == Cancel(t)
  {
    if completions > 0 {
      CancelledStaysOff(t, completions - 1);
    }
  }

  /** `n` completed cycles in a row without a trigger in between. */
  function ArmOnFinishN(t: Timer, n: nat): Timer
  {
    if n == 0 then t else ArmOnFinish(ArmOnFinishN(t, n - 1))
  }
}
