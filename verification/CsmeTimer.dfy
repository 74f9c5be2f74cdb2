/** The retransmission timer: how long a queue takes to drain, and how toggling ack suppression can stop it. */
module CsmeTimer {
  import opened CsmeChannel

  /** Timer and queue agree, with acks required for everything queued. */
  predicate Live(s: Sender) {
    && (s.timer <==> s.txQueue != [])
    && 0 <= s.retries <= RETRIES
    && forall i | 0 <= i < |s.txQueue| :: !s.txQueue[i].ackSup
  }

  /** Expiries left until the queue is empty, if no ack and no new message comes. */
  function Potential(s: Sender): int {
    if s.txQueue == [] then 0 else s.retries + 1 + (RETRIES + 1) * (|s.txQueue| - 1)
  }

  lemma TimeoutLowers(s: Sender)
    requires Live(s) && s.timer
    ensures Live(Timeout(s).s) && Potential(Timeout(s).s) == Potential(s) - 1
  {}

  /** The sender after k expiries. */
  function Expiries(s: Sender, k: nat): Sender {
    if k == 0 then s else Timeout(Expiries(s, k - 1)).s
  }

  /** The timer stays armed through Potential(s) expiries, no more and no fewer, and then the queue is empty. */
  lemma {:induction false} Drains(s: Sender, k: nat)
    requires Live(s) && k <= Potential(s)
    ensures Live(Expiries(s, k)) && Potential(Expiries(s, k)) == Potential(s) - k
    ensures Expiries(s, k).timer <==> k < Potential(s)
    ensures k == Potential(s) ==> Expiries(s, k).txQueue == []
  {
    if k > 0 {
      Drains(s, k - 1);
      TimeoutLowers(Expiries(s, k - 1));
    }
    PotentialZero(Expiries(s, k));
  }

  lemma PotentialZero(s: Sender)
    requires Live(s)
    ensures Potential(s) >= 0 && (Potential(s) == 0 <==> s.txQueue == [])
  {}

  /** Something waits and nothing will wake the sender. */
  predicate Stalled(s: Sender) { s.txQueue != [] && !s.timer }

  /** Exactly when csme_tx_msg_next, called with the timer off, leaves the queue stalled: its head is suppressed
      and not the only message. */
  lemma NextStalls(s: Sender)
    requires !s.timer
    ensures Stalled(TxNext(s).s) <==> |s.txQueue| > 1 && s.txQueue[0].ackSup
  {}

  // ----- when queues stall, and when they go on -----

  /** What can happen to a sender. Every message brings its own ack suppression: the setting may be toggled. */
  datatype Event = Sends(opcode: nat, ackSup: bool, payload: seq<bv8>) | Expires | Acks(opcode: nat, seqNumber: nat)

  /** A message whose opcode does not exist, and an expiry of a timer that is not armed, change nothing. */
  function Handle(s: Sender, e: Event): (r: Sending)
    requires s.Valid()
    ensures r.s.Valid()
  {
    match e
    case Sends(opcode, ackSup, payload) =>
      if opcode < OPCODES then Tx(s, NextMsg(s, opcode, ackSup, payload)) else Sending(s, [])
    case Expires => if s.timer then Timeout(s) else Sending(s, [])
    case Acks(opcode, seqNumber) => RxAck(s, opcode, seqNumber)
  }

  /** The event takes the head off the queue: it acknowledges it, or it is the expiry after the last retry. */
  predicate Removes(s: Sender, e: Event) {
    (e.Acks? && AckAccepted(s, e.opcode, e.seqNumber)) || (e.Expires? && s.timer && GivesUp(s))
  }

  /** A suppressed message in front of others. */
  predicate Blocked(queue: seq<Msg>) { |queue| > 1 && queue[0].ackSup }

  /** Exactly which steps stall a queue and which end a stall: removing the head decides, by what is behind it, and
      every other step leaves things as they are. While a queue is stalled only an ack of its unsent head transmits. */
  lemma StallsExactly(s: Sender, e: Event)
    requires s.Valid()
    ensures Stalled(Handle(s, e).s) <==> if Removes(s, e) then Blocked(s.txQueue[1..]) else Stalled(s)
    ensures Stalled(s) && !Removes(s, e) ==> Handle(s, e).out == []
  {}

  function Handled(events: seq<Event>): (s: Sender)
    ensures s.Valid()
  {
    if events == [] then Fresh() else Handle(Handled(events[..|events| - 1]), events[|events| - 1]).s
  }

  /** Step k of the run removes the head. */
  predicate RemovesAt(events: seq<Event>, k: nat)
    requires k < |events|
  {
    Removes(Handled(events[..k]), events[k])
  }

  /** Step k is the last to remove a head, and it left a suppressed message in front of others. */
  predicate LeftBlocked(events: seq<Event>, k: nat)
    requires k < |events|
  {
    RemovesAt(events, k) && Blocked(Handled(events[..k]).txQueue[1..])
    && forall j | k < j < |events| :: !RemovesAt(events, j)
  }

  lemma RemovesBefore(events: seq<Event>, k: nat)
    requires k + 1 < |events|
    ensures var before := events[..|events| - 1];
            before[..k] == events[..k] && RemovesAt(events, k) == RemovesAt(before, k)
  {
    assert events[..|events| - 1][..k] == events[..k];
  }

  lemma LeftBefore(events: seq<Event>, k: nat)
    requires k + 1 < |events|
    ensures var n := |events| - 1;
            LeftBlocked(events, k) == (LeftBlocked(events[..n], k) && !RemovesAt(events, n))
  {
    hide RemovesAt, Blocked, Handled;
    var n := |events| - 1;
    forall j | k <= j < n ensures RemovesAt(events, j) == RemovesAt(events[..n], j) { RemovesBefore(events, j); }
    RemovesBefore(events, k);
  }

  lemma HandledLast(events: seq<Event>)
    requires events != []
    ensures var n := |events| - 1;
            && Handled(events[..n]).Valid() && Handled(events) == Handle(Handled(events[..n]), events[n]).s
            && RemovesAt(events, n) == Removes(Handled(events[..n]), events[n])
            && LeftBlocked(events, n) == (RemovesAt(events, n) && Blocked(Handled(events[..n]).txQueue[1..]))
  {
    hide Handle, Removes, Blocked;
  }

  /** The last step either is the last removal or leaves it the last. */
  lemma LeftBlockedLast(events: seq<Event>)
    requires events != []
    ensures (exists k | 0 <= k < |events| :: LeftBlocked(events, k))
       <==> (var n := |events| - 1;
             LeftBlocked(events, n) || (!RemovesAt(events, n) && exists k | 0 <= k < n :: LeftBlocked(events[..n], k)))
  {
    hide LeftBlocked, RemovesAt;
    var n := |events| - 1;
    forall k | 0 <= k < n
      ensures LeftBlocked(events, k) == (LeftBlocked(events[..n], k) && !RemovesAt(events, n))
    {
      LeftBefore(events, k);
    }
    if k :| 0 <= k < n && LeftBlocked(events[..n], k) { assert !RemovesAt(events, n) ==> LeftBlocked(events, k); }
  }

  /** In every run, also when suppression is toggled, the queue is stalled exactly when the last removal of a head left
      a suppressed message in front of others. */
  lemma {:induction false} StalledRun(events: seq<Event>)
    ensures Stalled(Handled(events)) <==> exists k | 0 <= k < |events| :: LeftBlocked(events, k)
  {
    if events != [] {
      hide LeftBlocked, Blocked, Stalled, Handle, Handled, Removes, RemovesAt;
      var n := |events| - 1;
      StalledRun(events[..n]);
      HandledLast(events);
      StallsExactly(Handled(events[..n]), events[n]);
      LeftBlockedLast(events);
    }
  }

  /** Acks required, suppressed, required again: the ack of the first message strands the third. */
  lemma TogglingStalls(p: seq<bv8>)
    ensures var m0 := NextMsg(Fresh(), 1, false, p);
            var s1 := Tx(Fresh(), m0).s;
            var s2 := Tx(s1, NextMsg(s1, 1, true, p)).s;
            var s3 := Tx(s2, NextMsg(s2, 1, false, p)).s;
            Stalled(RxAck(s3, m0.opcode, m0.seqNumber).s)
  {
    var m0 := NextMsg(Fresh(), 1, false, p);
    var s1 := Tx(Fresh(), m0).s;
    assert s1.txQueue == [m0];
    var m1 := NextMsg(s1, 1, true, p);
    var s2 := Tx(s1, m1).s;
    assert s2.txQueue == [m0, m1];
    var m2 := NextMsg(s2, 1, false, p);
    var s3 := Tx(s2, m2).s;
    assert s3.txQueue == [m0, m1, m2];
    assert s3.txQueue[1..] == [m1, m2];
  }
}
