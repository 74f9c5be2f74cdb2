/** What every run of one direction keeps, whatever the links lose or repeat. */
module CsmeSafety {
  import opened CsmeChannel
  import opened CsmeFlow

  ghost predicate Sorted(link: seq<Wire>) {
    forall i, j | 0 <= i < j < |link| :: link[i].idx <= link[j].idx
  }

  // ----- the invariants -----

  /** The queue is the unsent and unacknowledged end of what was submitted, numbered by opcode. */
  ghost predicate Bookkeeping(f: Flow, ackSup: bool) {
    && f.s.Valid() && ValidRx(f.rx)
    && Numbered(f.h.sent) && |f.h.sends| == |f.h.sent|
    && (forall i | 0 <= i < |f.h.sent| :: f.h.sent[i].ackSup == ackSup)
    && (forall op | 0 <= op < OPCODES :: f.s.txSeqNumber[op] == Count(f.h.sent, op) % 16)
    && 0 <= Head(f.s, f.h) && f.s.txQueue == f.h.sent[Head(f.s, f.h)..]
  }

  ghost predicate IsDataOf(w: Wire, sent: seq<Msg>) {
    0 <= w.idx < |sent| && w.pkt == Data(sent[w.idx])
  }

  ghost predicate IsAckOf(w: Wire, sent: seq<Msg>) {
    0 <= w.idx < |sent| && w.pkt == Ack(sent[w.idx].opcode, sent[w.idx].seqNumber)
  }

  /** A packet in transit carries the message, or the ack of the message, that its tag names. */
  ghost predicate Genuine(f: Flow) {
    && (forall i | 0 <= i < |f.data| :: IsDataOf(f.data[i], f.h.sent))
    && (forall i | 0 <= i < |f.acks| :: IsAckOf(f.acks[i], f.h.sent))
    && Sorted(f.data)
    && (forall i | 0 <= i < |f.data| :: f.data[i].idx <= Head(f.s, f.h))
  }

  /** With acks required the timer runs exactly while something waits, and no message is sent more than
      RETRIES + 1 times; with acks suppressed nothing ever waits, and every message is sent once. */
  ghost predicate Timed(f: Flow, ackSup: bool) {
    && (f.s.timer <==> f.s.txQueue != [])
    && (ackSup ==> f.s.txQueue == [] && forall i | 0 <= i < |f.h.sends| :: f.h.sends[i] == 1)
    && 0 <= f.s.retries <= RETRIES
    && |f.h.sends| == |f.h.sent| && 0 <= Head(f.s, f.h)
    && (forall i | 0 <= i < |f.h.sends| :: f.h.sends[i] <= RETRIES + 1)
    && (forall i | Head(f.s, f.h) < i < |f.h.sends| :: f.h.sends[i] == 0)
    && (f.s.txQueue != [] ==> f.h.sends[Head(f.s, f.h)] == RETRIES + 1 - f.s.retries)
  }

  /** Messages go up at most once and in the order of submission. */
  ghost predicate InOrder(f: Flow) {
    && (forall i, j | 0 <= i < j < |f.h.delivered| :: f.h.delivered[i] < f.h.delivered[j])
    && (forall i | 0 <= i < |f.h.delivered| :: 0 <= f.h.delivered[i] < |f.h.sent|)
    && (f.h.delivered != [] ==>
          var last := f.h.delivered[|f.h.delivered| - 1];
          && last <= Head(f.s, f.h)
          && f.h.sent[last].opcode < |f.rx| && f.rx[f.h.sent[last].opcode] == f.h.sent[last].seqNumber
          && forall i | 0 <= i < |f.data| :: last <= f.data[i].idx)
  }

  ghost predicate Inv(f: Flow, ackSup: bool) {
    Bookkeeping(f, ackSup) && Genuine(f) && Timed(f, ackSup) && InOrder(f)
  }

  // ----- every step keeps them -----

  lemma StartInv(ackSup: bool)
    ensures Inv(Start(), ackSup)
  {}

  lemma CountSnoc(sent: seq<Msg>, m: Msg, opcode: nat)
    ensures Count(sent + [m], opcode) == Count(sent, opcode) + if m.opcode == opcode then 1 else 0
  {
    assert (sent + [m])[..|sent|] == sent;
  }

  lemma SubmitKeepsBooks(f: Flow, opcode: nat, payload: seq<bv8>, ackSup: bool)
    requires Bookkeeping(f, ackSup) && opcode < OPCODES && (ackSup ==> f.s.txQueue == [])
    ensures Bookkeeping(Step(f, Submit(opcode, payload), ackSup), ackSup)
  {
    hide Count;
    var m := NextMsg(f.s, opcode, ackSup, payload);
    var f' := Step(f, Submit(opcode, payload), ackSup);
    var sent := f.h.sent;
    assert f'.h.sent == sent + [m];
    forall i | 0 <= i <= |sent|
      ensures (sent + [m])[i].seqNumber == Count((sent + [m])[..i], (sent + [m])[i].opcode) % 16
    {
      assert (sent + [m])[..i] == sent[..i];
      assert i == |sent| ==> sent[..i] == sent;
    }
    forall op: nat | op < OPCODES
      ensures f'.s.txSeqNumber[op] == Count(sent + [m], op) % 16
    {
      CountSnoc(sent, m, op);
    }
  }

  /** What a step that only sends does to the flow: the queue loses at most its head, at most one packet is sent,
      and it carries the message its tag names. */
  ghost predicate SendsOnly(f: Flow, f': Flow) {
    && f.h.sent <= f'.h.sent && f'.h.delivered == f.h.delivered && f'.rx == f.rx
    && 0 <= Head(f.s, f.h) <= Head(f'.s, f'.h)
    && (f'.acks == f.acks || (f.acks != [] && f'.acks == f.acks[1..]))
    && (f'.data == f.data
        || (&& |f'.data| == |f.data| + 1 && f'.data == f.data + [f'.data[|f.data|]]
            && IsDataOf(f'.data[|f.data|], f'.h.sent)
            && Head(f.s, f.h) <= f'.data[|f.data|].idx <= Head(f'.s, f'.h)))
  }

  lemma SendsOnlyKeeps(f: Flow, f': Flow)
    requires Genuine(f) && InOrder(f) && SendsOnly(f, f')
    ensures Genuine(f') && InOrder(f')
  {
    var sent, sent' := f.h.sent, f'.h.sent;
    assert forall i | 0 <= i < |sent| :: sent[i] == sent'[i];
    assert forall w: Wire | IsDataOf(w, sent) :: IsDataOf(w, sent');
    assert forall w: Wire | IsAckOf(w, sent) :: IsAckOf(w, sent');
  }

  lemma SubmitSends(f: Flow, opcode: nat, payload: seq<bv8>, ackSup: bool)
    requires Bookkeeping(f, ackSup) && Timed(f, ackSup) && opcode < OPCODES
    ensures var f' := Step(f, Submit(opcode, payload), ackSup); SendsOnly(f, f') && Timed(f', ackSup)
  {
    hide Count, Numbered;
  }

  /** The head leaves the queue, acked or given up, and csme_tx_msg_next sends the one behind it. */
  lemma AdvanceSends(f: Flow, h: History, ackSup: bool)
    requires Bookkeeping(f, ackSup) && Timed(f, ackSup) && f.s.txQueue != []
    requires h.sent == f.h.sent && h.sends == f.h.sends && h.delivered == f.h.delivered
    ensures var f' := Sent(f, TxNext(f.s.(txQueue := f.s.txQueue[1..], timer := false)), h);
            SendsOnly(f, f') && Timed(f', ackSup) && Bookkeeping(f', ackSup)
  {
    hide Count, Numbered;
    var tail := f.s.txQueue[1..];
    assert tail == f.h.sent[Head(f.s, f.h) + 1..];
  }

  lemma ExpireSends(f: Flow, ackSup: bool)
    requires Bookkeeping(f, ackSup) && Timed(f, ackSup)
    ensures var f' := Step(f, Expire, ackSup);
            SendsOnly(f, f') && Timed(f', ackSup) && Bookkeeping(f', ackSup)
  {
    if f.s.timer {
      if GivesUp(f.s) {
        hide Count, Numbered, TxNext, Sent, Timed, Bookkeeping, SendsOnly;
        AdvanceSends(f, f.h.(gaveUp := true), ackSup);
      } else {
        RetrySends(f, ackSup);
      }
    }
  }

  lemma RetrySends(f: Flow, ackSup: bool)
    requires Bookkeeping(f, ackSup) && Timed(f, ackSup) && f.s.timer && !GivesUp(f.s)
    ensures var f' := Step(f, Expire, ackSup);
            SendsOnly(f, f') && Timed(f', ackSup) && Bookkeeping(f', ackSup)
  {
    hide Count, Numbered, TxNext;
  }

  lemma AckArrivesSends(f: Flow, keep: bool, ackSup: bool)
    requires Bookkeeping(f, ackSup) && Timed(f, ackSup)
    ensures var f' := Step(f, AckArrives(keep), ackSup);
            SendsOnly(f, f') && Timed(f', ackSup) && Bookkeeping(f', ackSup)
  {
    hide Count, Numbered, TxNext;
    if f.acks != [] && f.acks[0].pkt.Ack? {
      var p := f.acks[0].pkt;
      if AckAccepted(f.s, p.opcode, p.seqNumber) {
        AdvanceSends(f, f.h.(acked := f.h.acked + [Head(f.s, f.h)]), ackSup);
      }
    }
  }

  /** What arrives and is not handed up changes nothing here. */
  lemma DropsInOrder(f: Flow, f': Flow)
    requires InOrder(f) && f'.h == f.h && f'.rx == f.rx && f'.s == f.s
    requires f'.data == f.data || (f.data != [] && f'.data == f.data[1..])
    ensures InOrder(f')
  {}

  /** What is handed up is no message handed up before. */
  lemma DeliversInOrder(f: Flow, f': Flow)
    requires InOrder(f) && f.data != [] && Sorted(f.data)
    requires IsDataOf(f.data[0], f.h.sent) && f.data[0].idx <= Head(f.s, f.h)
    requires var m := f.data[0].pkt.msg;
             m.opcode < |f.rx| && f.rx[m.opcode] != m.seqNumber && f'.rx == f.rx[m.opcode := m.seqNumber]
    requires f'.h == f.h.(delivered := f.h.delivered + [f.data[0].idx]) && f'.s == f.s
    requires f'.data == f.data || f'.data == f.data[1..]
    ensures InOrder(f')
  {
    hide IsDataOf;
    var w, d := f.data[0], f.h.delivered;
    assert w.pkt.Data? && w.pkt.msg == f.h.sent[w.idx] && 0 <= w.idx < |f.h.sent| by { DataOf(w, f.h.sent); }
    assert forall i | 0 <= i < |f.data| :: w.idx <= f.data[i].idx;
    if d != [] {
      assert d[|d| - 1] != w.idx;
      assert forall i | 0 <= i < |d| :: d[i] <= d[|d| - 1];
    }
  }

  lemma DataOf(w: Wire, sent: seq<Msg>)
    requires IsDataOf(w, sent)
    ensures 0 <= w.idx < |sent| && w.pkt.Data? && w.pkt.msg == sent[w.idx]
  {}

  lemma DataArrivesInOrder(f: Flow, keep: bool, ackSup: bool)
    requires Inv(f, ackSup)
    ensures InOrder(Step(f, DataArrives(keep), ackSup))
  {
    hide Count, Numbered, Timed, InOrder;
    var f' := Step(f, DataArrives(keep), ackSup);
    if f' != f {
      var m := f.data[0].pkt.msg;
      assert IsDataOf(f.data[0], f.h.sent);
      if RxMsg(f.rx, m).deliver {
        DeliversInOrder(f, f');
      } else {
        assert f'.h == f.h;
        DropsInOrder(f, f');
      }
    } else {
      DropsInOrder(f, f');
    }
  }

  lemma DataArrivesGenuine(f: Flow, keep: bool, ackSup: bool)
    requires Inv(f, ackSup)
    ensures Genuine(Step(f, DataArrives(keep), ackSup))
  {
    hide Count, Numbered, Timed, InOrder;
    if f.data != [] {
      assert IsDataOf(f.data[0], f.h.sent);
    }
  }

  /** The sender's books do not depend on the receiver and the links. */
  lemma BooksFrame(f: Flow, f': Flow, ackSup: bool)
    requires Bookkeeping(f, ackSup) && Timed(f, ackSup)
    requires f'.s == f.s && f'.h.sent == f.h.sent && f'.h.sends == f.h.sends && ValidRx(f'.rx)
    ensures Bookkeeping(f', ackSup) && Timed(f', ackSup)
  {}

  lemma DataArrivesKeeps(f: Flow, keep: bool, ackSup: bool)
    requires Inv(f, ackSup)
    ensures Inv(Step(f, DataArrives(keep), ackSup), ackSup)
  {
    assert f.s.Valid() && ValidRx(f.rx);
    hide Bookkeeping, Timed, Genuine, InOrder;
    DataArrivesInOrder(f, keep, ackSup);
    DataArrivesGenuine(f, keep, ackSup);
    BooksFrame(f, Step(f, DataArrives(keep), ackSup), ackSup);
  }

  lemma LostKeeps(f: Flow, a: Action, ackSup: bool)
    requires Inv(f, ackSup) && (a.DataLost? || a.AckLost? || a.Idle?)
    ensures Inv(Step(f, a, ackSup), ackSup)
  {
    hide Count, Numbered;
  }

  lemma SubmitKeeps(f: Flow, opcode: nat, payload: seq<bv8>, ackSup: bool)
    requires Inv(f, ackSup)
    ensures Inv(Step(f, Submit(opcode, payload), ackSup), ackSup)
  {
    if opcode < OPCODES {
      assert ackSup ==> f.s.txQueue == [];
      SubmitKeepsBooks(f, opcode, payload, ackSup);
      SubmitSends(f, opcode, payload, ackSup);
      hide Bookkeeping, Genuine, Timed, InOrder, SendsOnly;
      SendsOnlyKeeps(f, Step(f, Submit(opcode, payload), ackSup));
    }
  }

  /** Every step keeps the invariant, for either setting of ack suppression. */
  lemma StepInv(f: Flow, a: Action, ackSup: bool)
    requires Inv(f, ackSup)
    ensures Inv(Step(f, a, ackSup), ackSup)
  {
    assert f.s.Valid() && ValidRx(f.rx);
    hide Step, Bookkeeping, Genuine, Timed, InOrder, SendsOnly;
    match a
    case Submit(opcode, payload) => SubmitKeeps(f, opcode, payload, ackSup);
    case Expire =>
      ExpireSends(f, ackSup);
      SendsOnlyKeeps(f, Step(f, a, ackSup));
    case AckArrives(keep) =>
      AckArrivesSends(f, keep, ackSup);
      SendsOnlyKeeps(f, Step(f, a, ackSup));
    case DataArrives(keep) => DataArrivesKeeps(f, keep, ackSup);
    case _ => LostKeeps(f, a, ackSup);
  }
}
