/**
 * Waiting for a download to land: the file's existence is checked once per
 * tick, starting at the moment the download is triggered, until it is seen
 * or the deadline passes. Existence alone counts as completion.
 */
module FileWaiter {
  import opened Options

  /** Ticks after which the wait gives up. */
  const Timeout: nat := 30

  /** `elapsed` is the number of ticks slept before the wait ended. */
  datatype WaitOutcome = Arrived(elapsed: nat) | TimedOut(elapsed: nat)

  /**
   * The wait from `elapsed` ticks on; `present(k)` says whether the file
   * exists when it is checked `k` ticks after the download was triggered.
   */
  function PollFrom(present: nat -> bool, elapsed: nat): (r: WaitOutcome)
    requires elapsed <= Timeout
    ensures r.Arrived? ==> elapsed <= r.elapsed < Timeout && present(r.elapsed)
    ensures r.Arrived? ==> forall k :: elapsed <= k < r.elapsed ==> !present(k)
    ensures r.TimedOut? ==> r.elapsed == Timeout
    ensures r.TimedOut? ==> forall k :: elapsed <= k < Timeout ==> !present(k)
    decreases Timeout - elapsed
  {
    if elapsed == Timeout then TimedOut(elapsed)
    else if present(elapsed) then Arrived(elapsed)
    else PollFrom(present, elapsed + 1)
  }

  /**
   * The whole wait: the file is checked at ticks 0, 1, ..., Timeout - 1 (at
   * most Timeout checks); the first check that sees it reports arrival, and a
   * timeout is reported only after all Timeout ticks have passed unseen.
   */
  function AwaitFile(present: nat -> bool): (r: WaitOutcome)
    ensures r.Arrived? ==> r.elapsed < Timeout && present(r.elapsed)
    ensures r.Arrived? ==> forall k :: 0 <= k < r.elapsed ==> !present(k)
    ensures r.TimedOut? <==> forall k :: 0 <= k < Timeout ==> !present(k)
    ensures r.TimedOut? ==> r.elapsed == Timeout
  {
    PollFrom(present, 0)
  }

  /**
   * Whether a file that appears `arrival` ticks after the trigger, and stays,
   * exists at tick `k`; `None` is a file that never appears.
   */
  predicate Landed(arrival: Option<nat>, k: nat) {
    arrival.Some? && arrival.value <= k
  }

  /** The reference outcome for a file appearing at `arrival`. */
  function FirstSighting(arrival: Option<nat>): WaitOutcome {
    if arrival.Some? && arrival.value < Timeout then Arrived(arrival.value) else TimedOut(Timeout)
  }

  /**
   * A file that appears at tick `a` and stays is reported at tick `a`, the
   * first check after it appears, when `a` is before the deadline; otherwise,
   * or when it never appears, the wait times out.
   */
  lemma AwaitArrival(present: nat -> bool, arrival: Option<nat>)
    requires forall k :: present(k) <==> Landed(arrival, k)
    ensures AwaitFile(present) == FirstSighting(arrival)
  {
    if arrival.Some? && arrival.value < Timeout {
      assert present(arrival.value);
    }
  }

  /** A file already present when the wait starts ends it at once, whatever the download does. */
  lemma PresentAtStart(present: nat -> bool)
    requires present(0)
    ensures AwaitFile(present) == Arrived(0)
  {
  }
}
