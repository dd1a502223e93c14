/**
 The server-clock estimate from heartbeat round trips. Times are whole microseconds, as Python's
 datetimes are, and halving a duration rounds half to even; both matter for the exact error bound.
 */
module ServerClock {
  const MAX_ROUND_TRIP: int := 5_000_000

  /** `timedelta / 2`. */
  function Half(x: int): int {
    if x % 2 == 1 && (x / 2) % 2 == 1 then x / 2 + 1 else x / 2
  }

  /** One heartbeat: two readings of the local clock around it, two of the server clock inside it. */
  datatype Sample = Sample(sent: int, received: int, serverReceived: int, serverSent: int)

  function RoundTrip(s: Sample): int { s.received - s.sent }

  function HoldTime(s: Sample): int { s.serverSent - s.serverReceived }

  function Estimate(s: Sample): int { (s.serverReceived + Half(HoldTime(s))) - (s.sent + Half(RoundTrip(s))) }

  function Distance(a: int, b: int): int { Abs(a - b) }

  class ServerClock {
    var clockOffset: int

    constructor ()
      ensures clockOffset == 0
    {
      clockOffset := 0;
    }

    /** `_update_clock_offset`: a slow round trip is discarded. */
    method UpdateClockOffset(s: Sample)
      modifies this
      ensures clockOffset == Adjusted(old(clockOffset), s)
    {
      var roundTrip := s.received - s.sent;
      if roundTrip > MAX_ROUND_TRIP { return; }
      var serverMidpoint := s.serverReceived + Half(s.serverSent - s.serverReceived);
      var localMidpoint := s.sent + Half(roundTrip);
      clockOffset := serverMidpoint - localMidpoint;
    }

    /** The estimate misses the true server time by what the offset misses the true one. */
    function EstimatedServerTime(localNow: int): (estimate: int)
      reads this
      ensures forall offset :: Distance(estimate, localNow + offset) == Distance(clockOffset, offset)
    {
      localNow + clockOffset
    }
  }

  function Adjusted(offset: int, s: Sample): int {
    if RoundTrip(s) > MAX_ROUND_TRIP then offset else Estimate(s)
  }

  /** The sample is possible when the server clock is `offset` ahead: requests and answers take no negative time. */
  predicate Causal(s: Sample, offset: int) {
    s.sent + offset <= s.serverReceived <= s.serverSent <= s.received + offset
  }

  function Abs(x: int): int { if x < 0 then -x else x }

  lemma HalfBounds(x: int)
    ensures x - 1 <= 2 * Half(x) <= x + 1
    ensures x % 2 == 0 ==> 2 * Half(x) == x
  {}

  /** The error of one accepted sample: at most half the round trip and half a microsecond, and never more than two
      and a half seconds. */
  lemma SampleError(s: Sample, offset: int)
    requires Causal(s, offset)
    ensures 2 * Abs(Estimate(s) - offset) <= RoundTrip(s) + 1
    ensures RoundTrip(s) <= MAX_ROUND_TRIP ==> 2 * Abs(Estimate(s) - offset) <= MAX_ROUND_TRIP
  {
    var p, hold, rtt := s.serverReceived - s.sent - offset, HoldTime(s), RoundTrip(s);
    assert Estimate(s) - offset == p + Half(hold) - Half(rtt);
    RoundingError(p, hold, rtt);
  }

  lemma RoundingError(p: int, hold: int, rtt: int)
    requires 0 <= p && 0 <= hold && p + hold <= rtt
    ensures 2 * Abs(p + Half(hold) - Half(rtt)) <= rtt + rtt % 2
  {
    HalfBounds(hold);
    HalfBounds(rtt);
    if hold == 0 {
      assert Half(hold) == 0;
    } else if hold == 1 {
      assert Half(hold) == 0;
    }
  }

  /** "At most half the round trip" holds for every possible true offset exactly when the round trip is an even number
      of microseconds, or the server held the request long enough to absorb the rounding. */
  predicate RoundingAbsorbed(rtt: int, hold: int) {
    rtt % 4 == 0 || rtt % 4 == 2 || (rtt % 4 == 1 && hold >= 1) || (rtt % 4 == 3 && hold >= 2)
  }

  /** The half-round-trip bound for every offset that a sample with these two durations allows. */
  ghost predicate HalfBoundHolds(rtt: int, hold: int) {
    forall s: Sample, offset: int ::
      Causal(s, offset) && RoundTrip(s) == rtt && HoldTime(s) == hold ==> 2 * Abs(Estimate(s) - offset) <= rtt
  }

  lemma HalfRoundTripExactly(rtt: int, hold: int)
    requires 0 <= hold <= rtt
    ensures HalfBoundHolds(rtt, hold) <==> RoundingAbsorbed(rtt, hold)
  {
    if RoundingAbsorbed(rtt, hold) {
      forall s: Sample, offset: int | Causal(s, offset) && RoundTrip(s) == rtt && HoldTime(s) == hold
        ensures 2 * Abs(Estimate(s) - offset) <= rtt
      {
        AbsorbedError(s.serverReceived - s.sent - offset, hold, rtt);
      }
    } else {
      // all of the travel before the server, or all of it after
      var p := if rtt % 4 == 1 then rtt - hold else 0;
      var s := Sample(0, rtt, p, p + hold);
      assert Causal(s, 0) && RoundTrip(s) == rtt && HoldTime(s) == hold;
      UnabsorbedError(p, hold, rtt);
      assert 2 * Abs(Estimate(s) - 0) > rtt;
    }
  }

  lemma AbsorbedError(p: int, hold: int, rtt: int)
    requires 0 <= p && 0 <= hold && p + hold <= rtt && RoundingAbsorbed(rtt, hold)
    ensures 2 * Abs(p + Half(hold) - Half(rtt)) <= rtt
  {
    HalfBounds(hold);
    if rtt % 2 == 0 {
      HalfBounds(rtt);
      RoundingError(p, hold, rtt);
    } else if rtt % 4 == 1 {
      assert 2 * Half(rtt) == rtt - 1;
    } else {
      assert 2 * Half(rtt) == rtt + 1;
    }
  }

  /** Halving an odd number of microseconds goes to the even neighbour. */
  lemma HalfOfOdd(quarter: int)
    ensures Half(4 * quarter + 1) == 2 * quarter
    ensures Half(4 * quarter + 3) == 2 * quarter + 2
  {}

  lemma UnabsorbedOne(quarter: int)
    requires quarter >= 0
    ensures 2 * Abs(4 * quarter + 1 + Half(0) - Half(4 * quarter + 1)) > 4 * quarter + 1
  {
    HalfOfOdd(quarter);
  }

  lemma UnabsorbedThree(quarter: int, hold: int)
    requires quarter >= 0 && 0 <= hold <= 1
    ensures 2 * Abs(Half(hold) - Half(4 * quarter + 3)) > 4 * quarter + 3
  {
    HalfOfOdd(quarter);
  }

  lemma InQuarters(rtt: int)
    ensures rtt == 4 * (rtt / 4) + rtt % 4
  {}

  lemma Unabsorbed(rtt: int, hold: int)
    requires !RoundingAbsorbed(rtt, hold)
    ensures (rtt % 4 == 1 && hold < 1) || (rtt % 4 == 3 && hold < 2)
  {}

  lemma UnabsorbedError(p: int, hold: int, rtt: int)
    requires 0 <= hold <= rtt && !RoundingAbsorbed(rtt, hold) && p == if rtt % 4 == 1 then rtt - hold else 0
    ensures 2 * Abs(p + Half(hold) - Half(rtt)) > rtt
  {
    hide Half, Abs, RoundingAbsorbed;
    Unabsorbed(rtt, hold);
    InQuarters(rtt);
    if rtt % 4 == 1 {
      UnabsorbedOne(rtt / 4);
      assert p == rtt && hold == 0;
    } else {
      UnabsorbedThree(rtt / 4, hold);
      assert p == 0;
    }
  }

  /** The offset after a history of samples, and whether any was accepted. */
  function OffsetAfter(history: seq<Sample>): int {
    if history == [] then 0 else Adjusted(OffsetAfter(history[..|history| - 1]), history[|history| - 1])
  }

  predicate Accepted(history: seq<Sample>) { exists i :: 0 <= i < |history| && RoundTrip(history[i]) <= MAX_ROUND_TRIP }

  /** Clock error bound: for a constant true offset and any history of heartbeats, once one sample was accepted the
      estimate is within two and a half seconds of the truth, and stays so. */
  lemma {:induction false} ClockError(history: seq<Sample>, offset: int)
    requires forall i :: 0 <= i < |history| ==> Causal(history[i], offset)
    requires Accepted(history)
    ensures 2 * Abs(OffsetAfter(history) - offset) <= 5_000_000
  {
    var n := |history| - 1;
    if RoundTrip(history[n]) <= MAX_ROUND_TRIP {
      SampleError(history[n], offset);
    } else {
      var i :| 0 <= i < |history| && RoundTrip(history[i]) <= MAX_ROUND_TRIP;
      assert history[..n][i] == history[i];
      ClockError(history[..n], offset);
    }
  }

  /** A tool attempt starts only while the estimated time is before the deadline, so never more than two and a half
      seconds after it on the true server clock. */
  lemma AttemptStartsInTime(history: seq<Sample>, offset: int, localNow: int, deadline: int)
    requires forall i :: 0 <= i < |history| ==> Causal(history[i], offset)
    requires Accepted(history)
    requires localNow + OffsetAfter(history) < deadline
    ensures 2 * (localNow + offset - deadline) < MAX_ROUND_TRIP
  {
    ClockError(history, offset);
  }
}
