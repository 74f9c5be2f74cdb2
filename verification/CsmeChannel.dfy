/** One CSME channel: the handlers of af_csmencaps.c as steps on a channel's state. */
module CsmeChannel {

  const TIMEOUT_MS := 200
  const RETRIES := 5000 / TIMEOUT_MS
  const OPCODES := 5
  const NONE_RECEIVED := 0xff

  datatype Msg = Msg(opcode: nat, seqNumber: nat, ackSup: bool, payload: seq<bv8>)

  datatype Packet = Data(msg: Msg) | Ack(opcode: nat, seqNumber: nat)

  /** The fields a channel sends with. */
  datatype Sender = Sender(txQueue: seq<Msg>, txSeqNumber: seq<nat>, retries: int, timer: bool) {
    predicate Valid() {
      |txSeqNumber| == OPCODES && forall op | 0 <= op < OPCODES :: txSeqNumber[op] < 16
    }
  }

  /** A handler's effect on the sending side: the new fields and what goes on the wire. */
  datatype Sending = Sending(s: Sender, out: seq<Packet>)

  /** A handler's effect on the receiving side: the new sequence numbers, whether the message goes up, the ack. */
  datatype Receiving = Receiving(lastRx: seq<nat>, deliver: bool, out: seq<Packet>)

  predicate ValidRx(lastRx: seq<nat>) { |lastRx| == OPCODES }

  function Fresh(): Sender { Sender([], [0, 0, 0, 0, 0], 0, false) }

  function NothingReceived(): seq<nat> { [NONE_RECEIVED, NONE_RECEIVED, NONE_RECEIVED, NONE_RECEIVED, NONE_RECEIVED] }

  // ----- the handlers -----

  /** The message csme_tx builds: it takes the next number of its opcode. */
  function NextMsg(s: Sender, opcode: nat, ackSup: bool, payload: seq<bv8>): Msg
    requires s.Valid() && opcode < OPCODES
  {
    Msg(opcode, s.txSeqNumber[opcode], ackSup, payload)
  }

  /** csme_tx once the channel is found. */
  function Tx(s: Sender, m: Msg): Sending
    requires s.Valid() && m.opcode < OPCODES
  {
    var s1 := s.(txSeqNumber := s.txSeqNumber[m.opcode := (s.txSeqNumber[m.opcode] + 1) % 16]);
    if s.txQueue != [] then Sending(s1.(txQueue := s.txQueue + [m]), [])
    else if m.ackSup then Sending(s1, [Data(m)])
    else Sending(s1.(txQueue := [m], retries := RETRIES, timer := true), [Data(m)])
  }

  /** csme_tx_msg_next. */
  function TxNext(s: Sender): Sending {
    if s.txQueue == [] then Sending(s, [])
    else if !s.txQueue[0].ackSup then Sending(s.(retries := RETRIES, timer := true), [Data(s.txQueue[0])])
    else Sending(s.(txQueue := s.txQueue[1..]), [Data(s.txQueue[0])])
  }

  predicate GivesUp(s: Sender) { s.txQueue != [] && s.retries == 0 }

  /** handle_channel_timeout, run when the armed timer expires. */
  function Timeout(s: Sender): Sending {
    var s0 := s.(timer := false);
    if s.txQueue == [] then Sending(s0, [])
    else if s.retries == 0 then TxNext(s0.(txQueue := s.txQueue[1..]))
    else Sending(s0.(retries := s.retries - 1, timer := true), [Data(s.txQueue[0])])
  }

  /** Whether csme_rx_ack takes the ack for the head of the queue. */
  predicate AckAccepted(s: Sender, opcode: nat, seqNumber: nat) {
    s.txQueue != [] && s.txQueue[0].opcode == opcode && s.txQueue[0].seqNumber == seqNumber
  }

  /** csme_rx_ack. */
  function RxAck(s: Sender, opcode: nat, seqNumber: nat): Sending {
    if AckAccepted(s, opcode, seqNumber) then TxNext(s.(txQueue := s.txQueue[1..], timer := false))
    else Sending(s, [])
  }

  /** csme_rx's switch and csme_rx_msg: opcodes 1 to 4 are taken, anything else is dropped unacknowledged. */
  function RxMsg(lastRx: seq<nat>, m: Msg): Receiving
    requires ValidRx(lastRx)
  {
    if !(1 <= m.opcode < OPCODES) then Receiving(lastRx, false, [])
    else
      var ack := if m.ackSup then [] else [Ack(m.opcode, m.seqNumber)];
      if m.seqNumber == lastRx[m.opcode] then Receiving(lastRx, false, ack)
      else Receiving(lastRx[m.opcode := m.seqNumber], true, ack)
  }

  // ----- the object the handlers update -----

  class Channel {
    var txQueue: seq<Msg>
    const txSeqNumber: array<nat>
    var retries: int
    var timer: bool
    const lastRxSeqNumber: array<nat>

    ghost predicate Valid()
      reads this, txSeqNumber, lastRxSeqNumber
      ensures Valid() ==> txSeqNumber.Length == lastRxSeqNumber.Length == OPCODES
    {
      && txSeqNumber.Length == lastRxSeqNumber.Length == OPCODES
      && txSeqNumber != lastRxSeqNumber
      && SenderState().Valid()
    }

    ghost function SenderState(): Sender
      reads this, txSeqNumber
    {
      Sender(txQueue, txSeqNumber[..], retries, timer)
    }

    ghost function ReceiverState(): seq<nat>
      reads lastRxSeqNumber
    {
      lastRxSeqNumber[..]
    }

    constructor ()
      ensures Valid() && fresh(txSeqNumber) && fresh(lastRxSeqNumber)
      ensures SenderState() == Fresh() && ReceiverState() == NothingReceived()
    {
      txQueue := [];
      txSeqNumber := new nat[OPCODES](_ => 0);
      retries := 0;
      timer := false;
      lastRxSeqNumber := new nat[OPCODES](_ => NONE_RECEIVED);
    }

    /** __channel_reset: everything as on a fresh channel except the retry counter. */
    method Reset()
      requires Valid()
      modifies this, txSeqNumber, lastRxSeqNumber
      ensures Valid()
      ensures SenderState() == Fresh().(retries := old(retries)) && ReceiverState() == NothingReceived()
    {
      timer := false;
      txQueue := [];
      forall i | 0 <= i < OPCODES { txSeqNumber[i] := 0; }
      forall i | 0 <= i < OPCODES { lastRxSeqNumber[i] := NONE_RECEIVED; }
    }

    method CsmeTx(opcode: nat, ackSup: bool, payload: seq<bv8>) returns (out: seq<Packet>)
      requires Valid() && opcode < OPCODES
      modifies this, txSeqNumber
      ensures Valid() && ReceiverState() == old(ReceiverState())
      ensures var m := NextMsg(old(SenderState()), opcode, ackSup, payload);
              Sending(SenderState(), out) == Tx(old(SenderState()), m)
    {
      var m := Msg(opcode, txSeqNumber[opcode], ackSup, payload);
      txSeqNumber[opcode] := txSeqNumber[opcode] + 1;
      txSeqNumber[opcode] := txSeqNumber[opcode] % 16;
      out := [];
      if txQueue == [] {
        if !m.ackSup {
          txQueue := txQueue + [m];
          retries := RETRIES;
          timer := true;
        }
        out := [Data(m)];
      } else {
        txQueue := txQueue + [m];
      }
    }

    method CsmeTxMsgNext() returns (out: seq<Packet>)
      requires Valid()
      modifies this
      ensures Valid() && ReceiverState() == old(ReceiverState())
      ensures Sending(SenderState(), out) == TxNext(old(SenderState()))
    {
      if txQueue == [] { return []; }
      var skb := txQueue[0];
      if !skb.ackSup {
        retries := RETRIES;
        timer := true;
      } else {
        txQueue := txQueue[1..];
      }
      out := [Data(skb)];
    }

    method HandleChannelTimeout() returns (out: seq<Packet>)
      requires Valid() && timer
      modifies this
      ensures Valid() && ReceiverState() == old(ReceiverState())
      ensures Sending(SenderState(), out) == Timeout(old(SenderState()))
    {
      timer := false;
      if txQueue == [] { return []; }
      var skb := txQueue[0];
      if retries == 0 {
        txQueue := txQueue[1..];
        out := CsmeTxMsgNext();
        return;
      }
      retries := retries - 1;
      timer := true;
      out := [Data(skb)];
    }

    method CsmeRxAck(opcode: nat, seqNumber: nat) returns (out: seq<Packet>, accepted: bool)
      requires Valid()
      modifies this
      ensures Valid() && ReceiverState() == old(ReceiverState())
      ensures accepted == AckAccepted(old(SenderState()), opcode, seqNumber)
      ensures Sending(SenderState(), out) == RxAck(old(SenderState()), opcode, seqNumber)
    {
      if txQueue == [] { return [], false; }
      if txQueue[0].opcode != opcode { return [], false; }
      if txQueue[0].seqNumber != seqNumber { return [], false; }
      txQueue := txQueue[1..];
      timer := false;
      out := CsmeTxMsgNext();
      accepted := true;
    }

    method CsmeRxMsg(m: Msg) returns (deliver: bool, out: seq<Packet>)
      requires Valid()
      modifies lastRxSeqNumber
      ensures Valid() && SenderState() == old(SenderState())
      ensures Receiving(ReceiverState(), deliver, out) == RxMsg(old(ReceiverState()), m)
    {
      deliver, out := false, [];
      if !(1 <= m.opcode < OPCODES) { return; }
      if m.seqNumber == lastRxSeqNumber[m.opcode] {
        if !m.ackSup { out := [Ack(m.opcode, m.seqNumber)]; }
        return;
      }
      lastRxSeqNumber[m.opcode] := m.seqNumber;
      if !m.ackSup { out := [Ack(m.opcode, m.seqNumber)]; }
      deliver := true;
    }
  }
}
