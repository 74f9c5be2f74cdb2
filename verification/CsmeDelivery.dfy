/** With acks required and no message given up, nothing is lost, repeated or reordered. */
module CsmeDelivery {
  import opened CsmeChannel
  import opened CsmeFlow
  import opened CsmeSafety

  /** The number a receiver remembers for an opcode after taking in these messages. */
  function LastNumber(taken: seq<Msg>, opcode: nat): nat {
    if Count(taken, opcode) == 0 then NONE_RECEIVED else (Count(taken, opcode) - 1) % 16
  }

  ghost predicate UpTo(s: seq<int>, n: int) {
    |s| == n && forall k | 0 <= k < |s| :: s[k] == k
  }

  /** The receiver has taken in the first r messages; the sender is done with all of them or all but the last. */
  ghost predicate Lockstep(f: Flow) {
    var head, r := Head(f.s, f.h), |f.h.delivered|;
    && UpTo(f.h.delivered, r) && UpTo(f.h.acked, head)
    && head <= r <= head + 1 && r <= |f.h.sent|
    && (forall i | 0 <= i < |f.data| :: r - 1 <= f.data[i].idx)
    && (forall i | 0 <= i < |f.acks| :: head - 1 <= f.acks[i].idx < r)
    && Sorted(f.acks)
    && |f.rx| == OPCODES
    && forall op | 1 <= op < OPCODES :: f.rx[op] == LastNumber(f.h.sent[..r], op)
  }

  lemma StartLockstep()
    ensures Lockstep(Start())
  {}

  /** The next message is told from the last of its opcode, and the last one from a new one. */
  lemma Discriminates(sent: seq<Msg>, r: nat, j: int)
    requires Numbered(sent) && r <= |sent| && 0 <= j < |sent| && r - 1 <= j <= r
    ensures (sent[j].seqNumber == LastNumber(sent[..r], sent[j].opcode)) <==> j == r - 1
    ensures j == r ==> forall op: nat :: op != sent[r].opcode ==>
              LastNumber(sent[..r + 1], op) == LastNumber(sent[..r], op)
    ensures j == r ==> LastNumber(sent[..r + 1], sent[r].opcode) == sent[r].seqNumber
  {
    if j == r - 1 {
      assert sent[..r] == sent[..r - 1] + [sent[r - 1]];
      CountSnoc(sent[..r - 1], sent[r - 1], sent[j].opcode);
    } else {
      assert sent[..r + 1] == sent[..r] + [sent[r]];
      forall op: nat
        ensures Count(sent[..r + 1], op) == Count(sent[..r], op) + if sent[r].opcode == op then 1 else 0
      {
        CountSnoc(sent[..r], sent[r], op);
      }
    }
  }

  lemma DataArrivesLockstep(f: Flow, keep: bool)
    requires Inv(f, false) && Lockstep(f)
    ensures Lockstep(Step(f, DataArrives(keep), false))
  {
    hide Count, Numbered, LastNumber, Timed, InOrder;
    if f.data != [] && f.data[0].pkt.Data? {
      var w := f.data[0];
      assert IsDataOf(w, f.h.sent);
      Discriminates(f.h.sent, |f.h.delivered|, w.idx);
    }
  }

  /** An ack that is accepted is the head's. */
  lemma AcceptedIsHead(f: Flow)
    requires Inv(f, false) && Lockstep(f) && f.acks != [] && f.acks[0].pkt.Ack?
    requires AckAccepted(f.s, f.acks[0].pkt.opcode, f.acks[0].pkt.seqNumber)
    ensures f.acks[0].idx == Head(f.s, f.h)
  {
    hide Count, LastNumber, Timed, InOrder;
    var w, head := f.acks[0], Head(f.s, f.h);
    assert IsAckOf(w, f.h.sent) && f.s.txQueue[0] == f.h.sent[head];
    if w.idx + 1 == head { NeighboursDiffer(f.h.sent, w.idx); }
  }

  /** One more packet, with this tag. */
  predicate Extends(link: seq<Wire>, longer: seq<Wire>, idx: int) {
    |longer| == |link| + 1 && longer[..|link|] == link && longer[|link|].idx == idx
  }

  /** The head leaves the queue, and the one behind it may be sent. */
  lemma AdvanceLockstep(f: Flow, f': Flow, keep: bool)
    requires Lockstep(f) && f.acks != [] && f.acks[0].idx == Head(f.s, f.h)
    requires f'.acks == Rest(f.acks, keep) && f'.rx == f.rx && Head(f'.s, f'.h) == Head(f.s, f.h) + 1
    requires f'.h.sent == f.h.sent && f'.h.delivered == f.h.delivered && f'.h.acked == f.h.acked + [Head(f.s, f.h)]
    requires f'.data == f.data || Extends(f.data, f'.data, Head(f'.s, f'.h))
    ensures Lockstep(f')
  {
    hide LastNumber, Head;
  }

  /** What the step does then. */
  lemma AckAccepts(f: Flow, keep: bool)
    requires f.s.Valid() && ValidRx(f.rx) && f.acks != [] && f.acks[0].pkt.Ack?
    requires AckAccepted(f.s, f.acks[0].pkt.opcode, f.acks[0].pkt.seqNumber)
    requires |f.s.txQueue| > 1 ==> !f.s.txQueue[1].ackSup
    ensures var f' := Step(f, AckArrives(keep), false);
            && f'.acks == Rest(f.acks, keep) && f'.rx == f.rx && Head(f'.s, f'.h) == Head(f.s, f.h) + 1
            && f'.h.sent == f.h.sent && f'.h.delivered == f.h.delivered && f'.h.acked == f.h.acked + [Head(f.s, f.h)]
            && (f'.data == f.data || Extends(f.data, f'.data, Head(f'.s, f'.h)))
  {}

  lemma AckArrivesLockstep(f: Flow, keep: bool)
    requires Inv(f, false) && Lockstep(f)
    ensures Lockstep(Step(f, AckArrives(keep), false))
  {
    if f.acks != [] && f.acks[0].pkt.Ack? && AckAccepted(f.s, f.acks[0].pkt.opcode, f.acks[0].pkt.seqNumber) {
      AcceptedIsHead(f);
      assert |f.s.txQueue| > 1 ==> f.s.txQueue[1] == f.h.sent[Head(f.s, f.h) + 1];
      AckAccepts(f, keep);
      hide Inv, Lockstep, Step, AckAccepted;
      AdvanceLockstep(f, Step(f, AckArrives(keep), false), keep);
    } else {
      hide Inv, LastNumber, TxNext;
    }
  }

  lemma SubmitLockstep(f: Flow, opcode: nat, payload: seq<bv8>)
    requires Inv(f, false) && Lockstep(f) && opcode < OPCODES
    ensures Lockstep(Step(f, Submit(opcode, payload), false))
  {
    hide Count, LastNumber, Timed, InOrder, Numbered;
    var f' := Step(f, Submit(opcode, payload), false);
    assert f'.h.sent[..|f.h.delivered|] == f.h.sent[..|f.h.delivered|];
  }

  lemma ExpireLockstep(f: Flow)
    requires Inv(f, false) && Lockstep(f)
    ensures var f' := Step(f, Expire, false); f'.h.gaveUp || Lockstep(f')
  {
    hide Count, LastNumber, Timed, InOrder, Numbered, TxNext;
  }

  lemma StepLockstep(f: Flow, a: Action)
    requires Inv(f, false) && Lockstep(f)
    ensures var f' := Step(f, a, false); f'.h.gaveUp || Lockstep(f')
  {
    hide Count, LastNumber, Numbered, Timed, InOrder;
    match a
    case Submit(opcode, payload) => if opcode < OPCODES { SubmitLockstep(f, opcode, payload); }
    case Expire => ExpireLockstep(f);
    case DataArrives(keep) => DataArrivesLockstep(f, keep);
    case AckArrives(keep) => AckArrivesLockstep(f, keep);
    case DataLost =>
    case AckLost =>
    case Idle =>
  }
}
