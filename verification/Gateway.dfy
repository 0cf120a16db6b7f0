/** Waiting for the port-forwarding gateway. */
module Gateway {
  import opened Common

  const DEFAULT_INTERVAL: Duration := 5 * SECOND

  /** One probe: whether the gateway answered, and when the probe ended. */
  datatype Probe = Probe(answered: bool, at: Time)

  function Interval(interval: Duration): Duration {
    if interval <= 0 then DEFAULT_INTERVAL else interval
  }

  /** The smallest whole number of intervals that covers the timeout. */
  function Rounds(timeout: Duration, interval: Duration): int
    requires interval > 0
  {
    (timeout + interval - 1) / interval
  }

  lemma AboveMinusOne(x: int, d: int)
    requires d > 0 && x * d > -d
    ensures x >= 0
  {
  }

  lemma RoundsBound(n: int, timeout: Duration, interval: Duration)
    requires interval > 0 && (n - 1) * interval < timeout
    ensures n <= Rounds(timeout, interval)
  {
    var all, q := timeout + interval - 1, Rounds(timeout, interval);
    assert (n - 1) * interval == n * interval - interval;
    assert all == q * interval + all % interval;
    assert (q - n) * interval == q * interval - n * interval;
    AboveMinusOne(q - n, interval);
  }

  /** The wait always ends: with no timeout after one probe, otherwise after at most
      as many probes as intervals fit the timeout. It sleeps only when the sleep is
      due to end before the deadline, and gives up only when the next would not. */
  method WaitForGateway(addressed: bool, start: Time, timeout: Duration, interval: Duration, probes: nat -> Probe)
    returns (reached: bool, count: nat)
    requires start <= probes(0).at
    requires forall i: nat :: probes(i).at + Interval(interval) <= probes(i + 1).at
    ensures !addressed ==> !reached && count == 0
    ensures addressed ==> count >= 1 && (reached <==> probes(count - 1).answered)
    ensures forall i :: 0 <= i < count - 1 ==> !probes(i).answered
    ensures forall i :: 0 <= i < count - 1 ==> probes(i).at + Interval(interval) < start + timeout
    ensures addressed && !reached && timeout > 0 ==> probes(count - 1).at + Interval(interval) >= start + timeout
    ensures addressed && timeout <= 0 ==> count == 1
    ensures addressed && timeout > 0 ==> count <= Rounds(timeout, Interval(interval))
  {
    if !addressed {
      return false, 0;
    }
    var pause := interval;
    if pause <= 0 {
      pause := DEFAULT_INTERVAL;
    }
    var deadline := start + timeout;
    count := 0;
    while true
      invariant timeout <= 0 ==> count == 0
      invariant start + count * pause <= probes(count).at
      invariant timeout > 0 ==> count * pause < timeout
      invariant forall i :: 0 <= i < count ==> !probes(i).answered
      invariant forall i :: 0 <= i < count ==> probes(i).at + pause < deadline
      decreases deadline - probes(count).at
    {
      var probe := probes(count);
      count := count + 1;
      assert count * pause == (count - 1) * pause + pause;
      if timeout > 0 {
        RoundsBound(count, timeout, pause);
      }
      if probe.answered {
        return true, count;
      }
      if timeout <= 0 || !(probe.at + pause < deadline) {
        return false, count;
      }
    }
  }
}
