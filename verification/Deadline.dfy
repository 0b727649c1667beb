/** toe_deadline_passed: waiting on a 32-bit microsecond counter that wraps. */
module Deadline {
  import opened Bytes

  /** The value of the counter `elapsed` microseconds after it read `start`. */
  function CounterAfter(start: uint32, elapsed: nat): uint32 {
    (start + elapsed) % TWO_32
  }

  /** Both operands are computed in 32 bits without sign. */
  predicate Passed(now: uint32, started: uint32, timeoutMs: uint32) {
    timeoutMs != 0 && (now - started) % TWO_32 >= (timeoutMs * 1000) % TWO_32
  }

  const MAX_EXACT_MS: uint32 := 4294967

  lemma ElapsedSurvivesWrap(started: uint32, elapsed: uint32)
    ensures (CounterAfter(started, elapsed) - started) % TWO_32 == elapsed
  {
  }

  /** Exact deadlines: true of a timeout, for every starting counter value and every elapsed
      time the counter can tell apart, precisely when timeout_ms * 1000 fits the counter. */
  ghost predicate Exact(timeoutMs: uint32) {
    forall started: uint32, elapsed: uint32 ::
      Passed(CounterAfter(started, elapsed), started, timeoutMs) <==> timeoutMs != 0 && elapsed >= timeoutMs * 1000
  }

  lemma ExactIff(timeoutMs: uint32)
    ensures Exact(timeoutMs) <==> timeoutMs <= MAX_EXACT_MS
  {
    if timeoutMs <= MAX_EXACT_MS {
      forall started: uint32, elapsed: uint32
        ensures Passed(CounterAfter(started, elapsed), started, timeoutMs) <==> timeoutMs != 0 && elapsed >= timeoutMs * 1000
      {
        ElapsedSurvivesWrap(started, elapsed);
      }
    } else {
      // The product wraps below 2^32, so it is reached while the true deadline is not.
      ElapsedSurvivesWrap(0, TWO_32 - 1);
      assert !(TWO_32 - 1 >= timeoutMs * 1000);
      assert Passed(CounterAfter(0, TWO_32 - 1), 0, timeoutMs);
    }
  }

  /** The moments at which a wait loop reads the counter: increasing, at most `gap` apart. */
  predicate PolledEvery(moments: seq<nat>, gap: nat) {
    && (|moments| > 0 ==> moments[0] <= gap)
    && forall i :: 0 < i < |moments| ==> moments[i - 1] <= moments[i] <= moments[i - 1] + gap
  }

  lemma NotYet(started: uint32, timeoutMs: uint32, elapsed: uint32)
    requires 0 < timeoutMs <= MAX_EXACT_MS
    ensures Passed(CounterAfter(started, elapsed), started, timeoutMs) <==> elapsed >= timeoutMs * 1000
  {
    ElapsedSurvivesWrap(started, elapsed);
  }

  /** A loop that is still waiting at its last poll has not been waiting past its timeout. */
  lemma {:induction false} StillWaiting(started: uint32, timeoutMs: uint32, gap: nat, moments: seq<nat>)
    requires 0 < timeoutMs <= MAX_EXACT_MS && timeoutMs * 1000 + gap <= TWO_32
    requires |moments| > 0 && PolledEvery(moments, gap)
    requires forall i :: 0 <= i < |moments| ==> !Passed(CounterAfter(started, moments[i]), started, timeoutMs)
    ensures moments[|moments| - 1] < timeoutMs * 1000
  {
    var last := |moments| - 1;
    if last > 0 {
      StillWaiting(started, timeoutMs, gap, moments[..last]);
      assert moments[..last][last - 1] == moments[last - 1];
    }
    NotYet(started, timeoutMs, moments[last]);
  }

  /** So the loop leaves at the latest `gap` after the timeout. */
  lemma WaitEndsInTime(started: uint32, timeoutMs: uint32, gap: nat, moments: seq<nat>, exit: nat)
    requires 0 < timeoutMs <= MAX_EXACT_MS && timeoutMs * 1000 + gap <= TWO_32
    requires PolledEvery(moments + [exit], gap)
    requires forall i :: 0 <= i < |moments| ==> !Passed(CounterAfter(started, moments[i]), started, timeoutMs)
    requires Passed(CounterAfter(started, exit), started, timeoutMs)
    ensures timeoutMs * 1000 <= exit < timeoutMs * 1000 + gap
  {
    var all, n := moments + [exit], |moments|;
    if n > 0 {
      assert PolledEvery(moments, gap) by {
        assert forall i :: 0 <= i < n ==> all[i] == moments[i];
      }
      StillWaiting(started, timeoutMs, gap, moments);
      assert all[n - 1] <= all[n] <= all[n - 1] + gap;
    }
    assert all[n] == exit < timeoutMs * 1000 + gap;
    NotYet(started, timeoutMs, exit);
  }
}
