/** One direction of a CSME conversation: a sender, a receiver, and a lossy, repeating FIFO link each way. */
module CsmeFlow {
  import opened CsmeChannel

  /** A packet in transit. The tag names the message it belongs to by its place among all messages sent; the
      handlers never see it. */
  datatype Wire = Wire(pkt: Packet, idx: int)

  /** What happened so far, by place in `sent`: messages handed up, messages removed by an ack, transmissions of
      each message, and whether the sender ever gave one up. */
  datatype History = History(sent: seq<Msg>, delivered: seq<int>, acked: seq<int>, sends: seq<nat>, gaveUp: bool)

  datatype Flow = Flow(s: Sender, rx: seq<nat>, data: seq<Wire>, acks: seq<Wire>, h: History)

  /** A packet at the head of a link may arrive and stay there (`keep`: the link repeats it) or be lost. */
  datatype Action =
    | Submit(opcode: nat, payload: seq<bv8>)
    | Expire
    | DataArrives(keep: bool)
    | DataLost
    | AckArrives(keep: bool)
    | AckLost
    | Idle

  function Start(): Flow {
    Flow(Fresh(), NothingReceived(), [], [], History([], [], [], [], false))
  }

  /** Place of the message at the head of the queue. */
  function Head(s: Sender, h: History): int { |h.sent| - |s.txQueue| }

  /** What a handler transmits is tagged with the message it belongs to. */
  function Tagged(out: seq<Packet>, idx: int): seq<Wire> {
    if out == [] then [] else [Wire(out[0], idx)]
  }

  /** A transmission is counted for its message. */
  function Counted(h: History, out: seq<Packet>, idx: int): History {
    if out == [] || !(0 <= idx < |h.sends|) then h else h.(sends := h.sends[idx := h.sends[idx] + 1])
  }

  /** The message a transmission belongs to; a suppressed one has already left the queue. */
  function TagOf(e: Sending, h: History): int {
    if e.out != [] && e.out[0].Data? && e.out[0].msg.ackSup then Head(e.s, h) - 1 else Head(e.s, h)
  }

  /** The sender's new fields and its transmission. */
  function Sent(f: Flow, e: Sending, h: History): Flow {
    f.(s := e.s, data := f.data + Tagged(e.out, TagOf(e, h)), h := Counted(h, e.out, TagOf(e, h)))
  }

  function Rest(link: seq<Wire>, keep: bool): seq<Wire>
    requires link != []
  {
    if keep then link else link[1..]
  }

  /** One step. An action that is not possible leaves the flow as it is. `ackSup` is the target's setting. */
  function Step(f: Flow, a: Action, ackSup: bool): Flow
    requires f.s.Valid() && ValidRx(f.rx)
  {
    match a
    case Submit(opcode, payload) =>
      if opcode >= OPCODES then f
      else
        var m := NextMsg(f.s, opcode, ackSup, payload);
        Sent(f, Tx(f.s, m), f.h.(sent := f.h.sent + [m], sends := f.h.sends + [0]))
    case Expire =>
      if !f.s.timer then f
      else Sent(f, Timeout(f.s), f.h.(gaveUp := f.h.gaveUp || GivesUp(f.s)))
    case DataArrives(keep) =>
      if f.data == [] || !f.data[0].pkt.Data? then f
      else
        var w := f.data[0];
        var r := RxMsg(f.rx, w.pkt.msg);
        f.(rx := r.lastRx, data := Rest(f.data, keep), acks := f.acks + Tagged(r.out, w.idx),
           h := f.h.(delivered := f.h.delivered + if r.deliver then [w.idx] else []))
    case DataLost => if f.data == [] then f else f.(data := f.data[1..])
    case AckArrives(keep) =>
      if f.acks == [] || !f.acks[0].pkt.Ack? then f
      else
        var p := f.acks[0].pkt;
        var h := if AckAccepted(f.s, p.opcode, p.seqNumber) then f.h.(acked := f.h.acked + [Head(f.s, f.h)]) else f.h;
        Sent(f, RxAck(f.s, p.opcode, p.seqNumber), h).(acks := Rest(f.acks, keep))
    case AckLost => if f.acks == [] then f else f.(acks := f.acks[1..])
    case Idle => f
  }

  // ----- sequence numbers -----

  /** How many of the messages have this opcode. */
  function Count(sent: seq<Msg>, opcode: nat): nat {
    if sent == [] then 0
    else Count(sent[..|sent| - 1], opcode) + if sent[|sent| - 1].opcode == opcode then 1 else 0
  }

  /** Messages are numbered by opcode, modulo 16. */
  ghost predicate Numbered(sent: seq<Msg>) {
    forall i | 0 <= i < |sent| ::
      sent[i].opcode < OPCODES && sent[i].seqNumber == Count(sent[..i], sent[i].opcode) % 16
  }

  lemma {:induction false} CountPrefix(sent: seq<Msg>, i: nat, j: nat, opcode: nat)
    requires i <= j <= |sent|
    ensures Count(sent[..i], opcode) + Count(sent[i..j], opcode) == Count(sent[..j], opcode)
    decreases j
  {
    if i == j {
      assert sent[i..j] == [];
    } else {
      CountPrefix(sent, i, j - 1, opcode);
      assert sent[..j][..j - 1] == sent[..j - 1];
      assert sent[i..j][..j - 1 - i] == sent[i..j - 1];
    }
  }

  /** The reach of a 4-bit number: two messages of one opcode carry the same number exactly when a multiple of 16
      messages of that opcode were sent from the first up to the second. A stale ack is taken for a later head,
      or a new message for a repeat, in just this case. */
  lemma SameNumber(sent: seq<Msg>, i: nat, j: nat)
    requires Numbered(sent) && i <= j < |sent| && sent[i].opcode == sent[j].opcode
    ensures sent[i].seqNumber == sent[j].seqNumber <==> Count(sent[i..j], sent[i].opcode) % 16 == 0
  {
    hide Count;
    CountPrefix(sent, i, j, sent[i].opcode);
    SameModulo(Count(sent[..i], sent[i].opcode), Count(sent[i..j], sent[i].opcode));
  }

  lemma SameModulo(a: nat, b: nat)
    ensures a % 16 == (a + b) % 16 <==> b % 16 == 0
  {}

  lemma NeighboursDiffer(sent: seq<Msg>, i: nat)
    requires Numbered(sent) && i + 1 < |sent| && sent[i].opcode == sent[i + 1].opcode
    ensures sent[i].seqNumber != sent[i + 1].seqNumber
  {
    assert sent[i..i + 1] == [sent[i]];
    assert Count([sent[i]], sent[i].opcode) == 1;
    SameNumber(sent, i, i + 1);
  }
}
