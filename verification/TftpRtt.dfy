/** The adaptive retransmission timeout of the TFTP client. Seconds are reals: rounding is not modelled. */
module TftpRtt {
  const RTT_RXTMIN := 2.0
  const RTT_RXTMAX := 60.0
  const RTT_MAXNREXMT := 3

  datatype Rtt = Rtt(rtt: real, srtt: real, rttvar: real, rto: real, nrexmt: int)

  function MinMax(rto: real): real {
    if rto < RTT_RXTMIN then RTT_RXTMIN else if rto > RTT_RXTMAX then RTT_RXTMAX else rto
  }

  function Abs(x: real): real { if x < 0.0 then -x else x }

  /** A weighted mean: `weight` of the new sample, the rest of the old estimate. */
  function Mean(weight: real, estimate: real, sample: real): real { (1.0 - weight) * estimate + weight * sample }

  function Init(r: Rtt): Rtt { Rtt(0.0, 0.0, 0.75, 3.0, r.nrexmt) }

  function NewPack(r: Rtt): Rtt { r.(nrexmt := 0) }

  /** The argument of alarm: the timeout rounded to whole seconds. */
  function Seconds(r: Rtt): int { (r.rto + 0.5).Floor }

  /** Jacobson's estimators: gain 1/8 for the round trip, 1/4 for its deviation from the old estimate. */
  function Stop(r: Rtt, ms: nat): Rtt {
    var sample := ms as real / 1000.0;
    var srtt := Mean(0.125, r.srtt, sample);
    var rttvar := Mean(0.25, r.rttvar, Abs(sample - r.srtt));
    Rtt(sample, srtt, rttvar, MinMax(srtt + 4.0 * rttvar), r.nrexmt)
  }

  function Backoff(r: Rtt): Rtt { r.(rto := 2.0 * r.rto, nrexmt := r.nrexmt + 1) }

  function GivesUp(r: Rtt): bool { Backoff(r).nrexmt > RTT_MAXNREXMT }

  function Scale(k: nat): (s: real)
    ensures s >= 1.0
  {
    if k == 0 then 1.0 else 2.0 * Scale(k - 1)
  }

  /** The timeout was clamped before the first transmission of a packet and has doubled with each retransmission
      since: rtt_timeout does not clamp. */
  ghost predicate Clamped(r: Rtt) {
    && 0 <= r.nrexmt <= RTT_MAXNREXMT
    && RTT_RXTMIN * Scale(r.nrexmt) <= r.rto <= RTT_RXTMAX * Scale(r.nrexmt)
    && 0.0 <= r.srtt && 0.0 <= r.rttvar
  }

  /** rto lies in [2, 60] whenever a packet is begun. */
  ghost predicate Settled(r: Rtt) {
    && RTT_RXTMIN <= r.rto <= RTT_RXTMAX
    && 0.0 <= r.srtt && 0.0 <= r.rttvar
  }

  lemma InitSettles(r: Rtt)
    ensures Settled(Init(r)) && Clamped(NewPack(Init(r)))
  {}

  lemma StopSettles(r: Rtt, ms: nat)
    requires 0.0 <= r.srtt && 0.0 <= r.rttvar
    ensures Settled(Stop(r, ms)) && Clamped(NewPack(Stop(r, ms)))
  {}

  /** A smoothed estimate never leaves the range of what it was made from. */
  lemma StopStaysBetween(r: Rtt, ms: nat, low: real, high: real)
    requires low <= r.srtt <= high && low <= ms as real / 1000.0 <= high
    ensures low <= Stop(r, ms).srtt <= high
    ensures 0.0 <= r.rttvar <= high - low ==> 0.0 <= Stop(r, ms).rttvar <= high - low
  {}

  /** The new estimates are seven eighths and three quarters of the old ones plus the new sample and its deviation, and
      the timeout is their sum, the deviation four times, between 2 and 60 seconds. */
  lemma StopWeighs(r: Rtt, ms: nat)
    ensures var s, sample := Stop(r, ms), ms as real / 1000.0;
            && 8.0 * s.srtt == 7.0 * r.srtt + sample
            && 4.0 * s.rttvar == 3.0 * r.rttvar + (if sample < r.srtt then r.srtt - sample else sample - r.srtt)
            && 2.0 <= s.rto <= 60.0
            && (2.0 <= s.srtt + 4.0 * s.rttvar <= 60.0 ==> s.rto == s.srtt + 4.0 * s.rttvar)
            && (s.srtt + 4.0 * s.rttvar < 2.0 ==> s.rto == 2.0) && (60.0 < s.srtt + 4.0 * s.rttvar ==> s.rto == 60.0)
  {}

  /** The first packet of a call that starts afresh waits 3, 6, 12 and 24 seconds, and is then given up. */
  lemma FirstWaits(r: Rtt)
    ensures var r0 := NewPack(Init(r)); var r1 := Backoff(r0); var r2 := Backoff(r1); var r3 := Backoff(r2);
            && Seconds(r0) == 3 && Seconds(r1) == 6 && Seconds(r2) == 12 && Seconds(r3) == 24
            && !GivesUp(r0) && !GivesUp(r1) && !GivesUp(r2) && GivesUp(r3)
  {}

  lemma BackoffKeeps(r: Rtt)
    requires Clamped(r) && !GivesUp(r)
    ensures Clamped(Backoff(r))
  {}

  /** alarm is never asked for zero seconds, which would disarm it, nor for more than eight minutes. */
  lemma AlarmArmed(r: Rtt)
    requires Clamped(r)
    ensures 2 <= Seconds(r) <= 480
  {
    assert Scale(1) == 2.0 && Scale(2) == 4.0 && Scale(3) == 8.0;
    assert r.nrexmt == 0 || r.nrexmt == 1 || r.nrexmt == 2 || r.nrexmt == 3;
  }

  /** rtt_info, updated in place. */
  class RttInfo {
    var rtt: real
    var srtt: real
    var rttvar: real
    var rto: real
    var nrexmt: int

    function View(): Rtt
      reads this
    {
      Rtt(rtt, srtt, rttvar, rto, nrexmt)
    }

    constructor ()
      ensures View() == Rtt(0.0, 0.0, 0.0, 0.0, 0)
    {
      rtt, srtt, rttvar, rto, nrexmt := 0.0, 0.0, 0.0, 0.0, 0;
    }

    method RttInit()
      modifies this
      ensures View() == Init(old(View())) && Settled(View())
    {
      rtt := 0.0;
      srtt := 0.0;
      rttvar := 0.75;
      rto := MinMax(srtt + 4.0 * rttvar);
    }

    method RttNewPack()
      modifies this`nrexmt
      ensures View() == NewPack(old(View()))
    {
      nrexmt := 0;
    }

    method RttStart() returns (seconds: int)
      ensures seconds == Seconds(View())
    {
      seconds := (rto + 0.5).Floor;
    }

    method RttStop(ms: nat)
      modifies this
      ensures View() == Stop(old(View()), ms)
      ensures 0.0 <= old(srtt) && 0.0 <= old(rttvar) ==> Settled(View())
    {
      rtt := ms as real / 1000.0;
      var delta := rtt - srtt;
      srtt := srtt + delta / 8.0;
      if delta < 0.0 { delta := -delta; }
      rttvar := rttvar + (delta - rttvar) / 4.0;
      rto := MinMax(srtt + 4.0 * rttvar);
    }

    method RttTimeout() returns (status: int)
      modifies this`rto, this`nrexmt
      ensures View() == Backoff(old(View()))
      ensures status == if GivesUp(old(View())) then -1 else 0
    {
      rto := rto * 2.0;
      nrexmt := nrexmt + 1;
      if nrexmt > RTT_MAXNREXMT { return -1; }
      return 0;
    }
  }
}
