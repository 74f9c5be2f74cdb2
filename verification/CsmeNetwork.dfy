/** Two CSME endpoints that talk both ways over one lossy, repeating FIFO link in each direction. */
module CsmeNetwork {
  import opened CsmeChannel
  import opened CsmeFlow
  import opened CsmeSafety
  import opened CsmeDelivery
  import CsmeTimer

  /** Endpoints a and b, the link from a to b and the link from b to a. Data and acks share the links.
      `ha` is the history of what a submitted, `hb` of what b submitted. */
  datatype Net = Net(a: Sender, aRx: seq<nat>, b: Sender, bRx: seq<nat>, ab: seq<Wire>, ba: seq<Wire>,
                     ha: History, hb: History)
  {
    predicate Valid() { a.Valid() && b.Valid() && ValidRx(aRx) && ValidRx(bRx) }
  }

  datatype Side = A | B

  datatype Event =
    | Submitted(side: Side, opcode: nat, payload: seq<bv8>)
    | TimerExpires(side: Side)
    | Arrives(side: Side, keep: bool)
    | Lost(side: Side)

  function NoHistory(): History { History([], [], [], [], false) }

  function Initial(): Net {
    Net(Fresh(), NothingReceived(), Fresh(), NothingReceived(), [], [], NoHistory(), NoHistory())
  }

  /** The same network seen from the other end. */
  function Swap(n: Net): Net { Net(n.b, n.bRx, n.a, n.aRx, n.ba, n.ab, n.hb, n.ha) }

  /** Endpoint a transmits. */
  function FromA(n: Net, e: Sending, h: History): Net {
    n.(a := e.s, ab := n.ab + Tagged(e.out, TagOf(e, h)), ha := Counted(h, e.out, TagOf(e, h)))
  }

  /** csme_rx at endpoint a: acks go to csme_rx_ack, the rest to csme_rx_msg. */
  function ArrivesAtA(n: Net, keep: bool): Net
    requires n.Valid() && n.ba != []
  {
    var w, rest := n.ba[0], Rest(n.ba, keep);
    match w.pkt
    case Data(m) =>
      var r := RxMsg(n.aRx, m);
      n.(aRx := r.lastRx, ba := rest, ab := n.ab + Tagged(r.out, w.idx),
         hb := n.hb.(delivered := n.hb.delivered + if r.deliver then [w.idx] else []))
    case Ack(opcode, seqNumber) =>
      var h := if AckAccepted(n.a, opcode, seqNumber) then n.ha.(acked := n.ha.acked + [Head(n.a, n.ha)]) else n.ha;
      FromA(n.(ba := rest), RxAck(n.a, opcode, seqNumber), h)
  }

  function StepA(n: Net, e: Event, ackSup: bool): Net
    requires n.Valid()
  {
    match e
    case Submitted(_, opcode, payload) =>
      if opcode >= OPCODES then n
      else
        var m := NextMsg(n.a, opcode, ackSup, payload);
        FromA(n, Tx(n.a, m), n.ha.(sent := n.ha.sent + [m], sends := n.ha.sends + [0]))
    case TimerExpires(_) =>
      if !n.a.timer then n
      else FromA(n, Timeout(n.a), n.ha.(gaveUp := n.ha.gaveUp || GivesUp(n.a)))
    case Arrives(_, keep) => if n.ba == [] then n else ArrivesAtA(n, keep)
    case Lost(_) => if n.ba == [] then n else n.(ba := n.ba[1..])
  }

  function NetStep(n: Net, e: Event, ackSup: bool): Net
    requires n.Valid()
  {
    if e.side.A? then StepA(n, e, ackSup) else Swap(StepA(Swap(n), e, ackSup))
  }

  lemma StepAValid(n: Net, e: Event, ackSup: bool)
    requires n.Valid()
    ensures StepA(n, e, ackSup).Valid()
  {
    hide Tagged, TagOf, Counted, Rest;
  }

  lemma StepValid(n: Net, e: Event, ackSup: bool)
    requires n.Valid()
    ensures NetStep(n, e, ackSup).Valid()
  {
    hide StepA;
    StepAValid(n, e, ackSup);
    StepAValid(Swap(n), e, ackSup);
  }

  /** The network after any list of events; impossible events change nothing. */
  function Run(events: seq<Event>, ackSup: bool): (n: Net)
    ensures n.Valid()
  {
    if events == [] then Initial()
    else
      var n := Run(events[..|events| - 1], ackSup);
      StepValid(n, events[|events| - 1], ackSup);
      NetStep(n, events[|events| - 1], ackSup)
  }

  // ----- each direction of the network is a flow -----

  /** The packets of a link that are data, or the ones that are not. */
  function Only(data: bool, link: seq<Wire>): seq<Wire> {
    if link == [] then []
    else if link[0].pkt.Data? == data then [link[0]] + Only(data, link[1..])
    else Only(data, link[1..])
  }

  lemma {:induction false} OnlyAppend(data: bool, link: seq<Wire>, more: seq<Wire>)
    ensures Only(data, link + more) == Only(data, link) + Only(data, more)
  {
    if link == [] {
      assert link + more == more;
    } else {
      assert (link + more)[1..] == link[1..] + more;
      OnlyAppend(data, link[1..], more);
    }
  }

  /** A transmission joins its own kind and is invisible to the other. */
  lemma OnlyTagged(data: bool, link: seq<Wire>, out: seq<Packet>, idx: int)
    requires |out| <= 1
    ensures Only(data, link + Tagged(out, idx))
         == Only(data, link) + if out != [] && out[0].Data? == data then Tagged(out, idx) else []
  {
    OnlyAppend(data, link, Tagged(out, idx));
  }

  lemma OnlyRest(data: bool, link: seq<Wire>, keep: bool)
    requires link != []
    ensures var only := Only(data, link);
            if link[0].pkt.Data? == data then only != [] && only[0] == link[0] && Only(data, Rest(link, keep)) == Rest(only, keep)
            else Only(data, Rest(link, keep)) == only
  {}

  /** What a says to b, with the acks that come back. */
  function FlowAB(n: Net): Flow { Flow(n.a, n.bRx, Only(true, n.ab), Only(false, n.ba), n.ha) }

  function FlowBA(n: Net): Flow { FlowAB(Swap(n)) }

  /** The step a's event is for its own direction, and for the other one. */
  function OwnAction(n: Net, e: Event): Action {
    match e
    case Submitted(_, opcode, payload) => Submit(opcode, payload)
    case TimerExpires(_) => Expire
    case Arrives(_, keep) => if n.ba != [] && n.ba[0].pkt.Ack? then AckArrives(keep) else Idle
    case Lost(_) => if n.ba != [] && n.ba[0].pkt.Ack? then AckLost else Idle
  }

  function OtherAction(n: Net, e: Event): Action {
    match e
    case Arrives(_, keep) => if n.ba != [] && n.ba[0].pkt.Data? then DataArrives(keep) else Idle
    case Lost(_) => if n.ba != [] && n.ba[0].pkt.Data? then DataLost else Idle
    case _ => Idle
  }

  lemma FromAProjects(n: Net, e: Sending, h: History)
    requires |e.out| <= 1 && forall p | p in e.out :: p.Data?
    ensures FlowAB(FromA(n, e, h)) == Sent(FlowAB(n), e, h)
    ensures FlowBA(FromA(n, e, h)) == FlowBA(n)
  {
    OnlyTagged(true, n.ab, e.out, TagOf(e, h));
    OnlyTagged(false, n.ab, e.out, TagOf(e, h));
  }

  /** Refinement: one event at a is one step of each direction on its own. */
  lemma StepAProjects(n: Net, e: Event, ackSup: bool)
    requires n.Valid()
    ensures var n' := StepA(n, e, ackSup);
            && FlowAB(n') == Step(FlowAB(n), OwnAction(n, e), ackSup)
            && FlowBA(n') == Step(FlowBA(n), OtherAction(n, e), ackSup)
  {
    hide Only, Counted, Head, TagOf;
    match e
    case Submitted(_, opcode, payload) =>
      if opcode < OPCODES {
        var m := NextMsg(n.a, opcode, ackSup, payload);
        FromAProjects(n, Tx(n.a, m), n.ha.(sent := n.ha.sent + [m], sends := n.ha.sends + [0]));
      }
    case TimerExpires(_) =>
      if n.a.timer { FromAProjects(n, Timeout(n.a), n.ha.(gaveUp := n.ha.gaveUp || GivesUp(n.a))); }
    case Lost(_) =>
      if n.ba != [] {
        OnlyRest(true, n.ba, false);
        OnlyRest(false, n.ba, false);
      }
    case Arrives(_, keep) =>
      if n.ba != [] { ArrivalProjects(n, e, ackSup); }
  }

  lemma ArrivalProjects(n: Net, e: Event, ackSup: bool)
    requires n.Valid() && e.Arrives? && n.ba != []
    ensures var n' := StepA(n, e, ackSup);
            && FlowAB(n') == Step(FlowAB(n), OwnAction(n, e), ackSup)
            && FlowBA(n') == Step(FlowBA(n), OtherAction(n, e), ackSup)
  {
    hide Only, Counted, Head, TagOf, Rest;
    OnlyRest(true, n.ba, e.keep);
    OnlyRest(false, n.ba, e.keep);
    var w := n.ba[0];
    match w.pkt
    case Data(m) =>
      OnlyTagged(true, n.ab, RxMsg(n.aRx, m).out, w.idx);
      OnlyTagged(false, n.ab, RxMsg(n.aRx, m).out, w.idx);
    case Ack(opcode, seqNumber) =>
      var h := if AckAccepted(n.a, opcode, seqNumber) then n.ha.(acked := n.ha.acked + [Head(n.a, n.ha)]) else n.ha;
      FromAProjects(n.(ba := Rest(n.ba, e.keep)), RxAck(n.a, opcode, seqNumber), h);
  }

  // ----- what every run keeps -----

  lemma StepProjects(n: Net, e: Event, ackSup: bool)
    requires n.Valid()
    ensures var n' := NetStep(n, e, ackSup);
            && FlowAB(n') == Step(FlowAB(n), if e.side.A? then OwnAction(n, e) else OtherAction(Swap(n), e), ackSup)
            && FlowBA(n') == Step(FlowBA(n), if e.side.A? then OtherAction(n, e) else OwnAction(Swap(n), e), ackSup)
  {
    hide Only, Step, StepA, OwnAction, OtherAction;
    StepAProjects(n, e, ackSup);
    StepAProjects(Swap(n), e, ackSup);
  }

  ghost predicate NetInv(n: Net, ackSup: bool) {
    && Inv(FlowAB(n), ackSup) && Inv(FlowBA(n), ackSup)
    && (!ackSup && !n.ha.gaveUp ==> Lockstep(FlowAB(n)))
    && (!ackSup && !n.hb.gaveUp ==> Lockstep(FlowBA(n)))
  }

  lemma GaveUpStays(f: Flow, a: Action, ackSup: bool)
    requires f.s.Valid() && ValidRx(f.rx)
    ensures f.h.gaveUp ==> Step(f, a, ackSup).h.gaveUp
  {
    hide Tx, TxNext, Timeout, RxAck, RxMsg, NextMsg, Tagged;
  }

  lemma FlowStep(f: Flow, a: Action, ackSup: bool)
    requires Inv(f, ackSup) && (!ackSup && !f.h.gaveUp ==> Lockstep(f))
    ensures var f' := Step(f, a, ackSup); Inv(f', ackSup) && (!ackSup && !f'.h.gaveUp ==> Lockstep(f'))
  {
    hide Step, Inv, Lockstep, Bookkeeping, Genuine, Timed, InOrder;
    StepInv(f, a, ackSup);
    assert f.s.Valid() && ValidRx(f.rx) by { InvValid(f, ackSup); }
    GaveUpStays(f, a, ackSup);
    if !ackSup && !f.h.gaveUp { StepLockstep(f, a); }
  }

  lemma InvValid(f: Flow, ackSup: bool)
    requires Inv(f, ackSup)
    ensures f.s.Valid() && ValidRx(f.rx)
  {}

  lemma {:induction false} RunInv(events: seq<Event>, ackSup: bool)
    ensures NetInv(Run(events, ackSup), ackSup)
  {
    if events == [] {
      StartInv(ackSup);
      StartLockstep();
      assert FlowAB(Initial()) == Start() && FlowBA(Initial()) == Start();
    } else {
      hide Inv, Lockstep, FlowAB, Step, NetStep, OwnAction, OtherAction;
      var n, e := Run(events[..|events| - 1], ackSup), events[|events| - 1];
      RunInv(events[..|events| - 1], ackSup);
      StepProjects(n, e, ackSup);
      HistoryOfFlow(n);
      HistoryOfFlow(NetStep(n, e, ackSup));
      FlowStep(FlowAB(n), if e.side.A? then OwnAction(n, e) else OtherAction(Swap(n), e), ackSup);
      FlowStep(FlowBA(n), if e.side.A? then OtherAction(n, e) else OwnAction(Swap(n), e), ackSup);
    }
  }

  lemma HistoryOfFlow(n: Net)
    ensures FlowAB(n).h == n.ha && FlowBA(n).h == n.hb
  {}

  // ----- the theorems -----

  /** The messages handed up at the far end, in order. */
  function Handed(h: History): (r: seq<Msg>)
    requires forall i | 0 <= i < |h.delivered| :: 0 <= h.delivered[i] < |h.sent|
  {
    seq(|h.delivered|, i requires 0 <= i < |h.delivered| => h.sent[h.delivered[i]])
  }

  /** With acks required, as long as a has given nothing up: b has taken in, once each and in order, a prefix of
      what a submitted; everything an ack removed from a's queue is in it; at most one more message is. */
  lemma ReliableDelivery(events: seq<Event>)
    requires !Run(events, false).ha.gaveUp
    ensures var h := Run(events, false).ha;
            && (forall i | 0 <= i < |h.delivered| :: h.delivered[i] == i < |h.sent|)
            && Handed(h) <= h.sent
            && (forall i | 0 <= i < |h.acked| :: h.acked[i] == i)
            && |h.acked| <= |h.delivered| <= |h.acked| + 1
            && h.sent[|h.acked|..] == Run(events, false).a.txQueue
  {
    RunInv(events, false);
    hide Run;
  }

  /** In every run, whatever is given up and whether acks are required or suppressed, delivery is at most once and
      in the order of submission. */
  lemma AtMostOnceInOrder(events: seq<Event>, ackSup: bool)
    ensures var h := Run(events, ackSup).ha;
            && (forall i | 0 <= i < |h.delivered| :: 0 <= h.delivered[i] < |h.sent|)
            && (forall i, j | 0 <= i < j < |h.delivered| :: h.delivered[i] < h.delivered[j])
  {
    RunInv(events, ackSup);
    hide Run;
  }

  /** In every run with acks required the timer is armed exactly while a message waits, the retry counter stays in
      range, and no message is transmitted more than 26 times. */
  lemma TimerAndRetries(events: seq<Event>)
    ensures var n := Run(events, false);
            && (n.a.timer <==> n.a.txQueue != [])
            && 0 <= n.a.retries <= 25
            && |n.ha.sends| == |n.ha.sent|
            && forall i | 0 <= i < |n.ha.sends| :: n.ha.sends[i] <= 26
  {
    RunInv(events, false);
    hide Run;
  }

  /** In every run with acks suppressed nothing is ever queued, no timer armed, and every message transmitted once. */
  lemma SuppressedSentOnce(events: seq<Event>)
    ensures var n := Run(events, true);
            && n.a.txQueue == [] && !n.a.timer && |n.ha.sends| == |n.ha.sent|
            && forall i | 0 <= i < |n.ha.sends| :: n.ha.sends[i] == 1
  {
    RunInv(events, true);
    hide Run;
  }

  /** After every run with acks required the sender is live, so that its queue drains: without further acks and messages
      the timer expires exactly Potential times. */
  lemma RunDrains(events: seq<Event>, k: nat)
    requires k <= CsmeTimer.Potential(Run(events, false).a)
    ensures var s := Run(events, false).a;
            && CsmeTimer.Live(s)
            && (CsmeTimer.Expiries(s, k).timer <==> k < CsmeTimer.Potential(s))
            && (k == CsmeTimer.Potential(s) ==> CsmeTimer.Expiries(s, k).txQueue == [])
  {
    RunInv(events, false);
    hide Run;
    CsmeTimer.Drains(Run(events, false).a, k);
  }

  /** Either end may be called a: the same holds of what b submits. */
  lemma SymmetricRun(events: seq<Event>, ackSup: bool)
    ensures Swap(Run(events, ackSup)) == Run(seq(|events|, i requires 0 <= i < |events| => Mirror(events[i])), ackSup)
  {
    var mirrored := seq(|events|, i requires 0 <= i < |events| => Mirror(events[i]));
    if events != [] {
      var k := |events| - 1;
      SymmetricRun(events[..k], ackSup);
      assert mirrored[..k] == seq(k, i requires 0 <= i < k => Mirror(events[..k][i]));
      hide Run;
      assert NetStep(Swap(Run(events[..k], ackSup)), Mirror(events[k]), ackSup)
          == Swap(NetStep(Run(events[..k], ackSup), events[k], ackSup)) by {
        MirrorStep(Run(events[..k], ackSup), events[k], ackSup);
      }
    }
  }

  function Mirror(e: Event): Event {
    var s := if e.side.A? then B else A;
    match e
    case Submitted(_, opcode, payload) => Submitted(s, opcode, payload)
    case TimerExpires(_) => TimerExpires(s)
    case Arrives(_, keep) => Arrives(s, keep)
    case Lost(_) => Lost(s)
  }

  lemma MirrorStep(n: Net, e: Event, ackSup: bool)
    requires n.Valid()
    ensures NetStep(Swap(n), Mirror(e), ackSup) == Swap(NetStep(n, e, ackSup))
  {
    hide FromA, ArrivesAtA;
  }
}
