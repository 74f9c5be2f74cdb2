/** When nothing is lost and no timer overtakes a packet on its way, everything arrives and is acknowledged. */
module CsmeProgress {
  import opened CsmeChannel
  import opened CsmeFlow
  import opened CsmeSafety
  import opened CsmeDelivery
  import opened CsmeNetwork

  // ----- the answer to one message -----

  /** In every state of the receiver a message of opcode 1 to 4 that wants an ack gets exactly one packet back, the ack
      with its opcode and number, whether it is handed up or was handed up before; it is handed up unless its number is
      the one remembered. Nothing else is ever answered. */
  lemma EveryMessageIsAnswered(lastRx: seq<nat>, m: Msg)
    requires ValidRx(lastRx)
    ensures var r, known := RxMsg(lastRx, m), m.opcode == 1 || m.opcode == 2 || m.opcode == 3 || m.opcode == 4;
            && r.out == (if known && !m.ackSup then [Ack(m.opcode, m.seqNumber)] else [])
            && (r.deliver <==> known && lastRx[m.opcode] != m.seqNumber)
            && (known ==> r.lastRx[m.opcode] == m.seqNumber)
            && forall op | 0 <= op < 5 && op != m.opcode :: r.lastRx[op] == lastRx[op]
  {}

  // ----- one direction -----

  /** The head of the queue, or the ack of it, is on its way. */
  ghost predicate InFlight(f: Flow) {
    || (exists i | 0 <= i < |f.data| :: f.data[i].idx == Head(f.s, f.h))
    || (exists i | 0 <= i < |f.acks| :: f.acks[i].idx == Head(f.s, f.h))
  }

  /** The sender has a retry left for the head, unless the head is on its way, and every message that waits is one the
      receiver takes. */
  ghost predicate Patient(f: Flow) {
    && (f.s.txQueue != [] ==> f.s.retries > 0 || InFlight(f))
    && forall i | 0 <= i < |f.s.txQueue| :: 1 <= f.s.txQueue[i].opcode
  }

  /** Steps left at most. */
  ghost function Work(f: Flow): nat {
    2 * |f.data| + |f.acks| + if f.s.txQueue == [] then 0 else 3 * |f.s.txQueue| + if InFlight(f) then 0 else 3
  }

  /** An arrival that takes its packet off the link, or an expiry when nothing is on its way. */
  predicate Quick(f: Flow, a: Action) {
    match a
    case DataArrives(keep) => !keep && f.data != []
    case AckArrives(keep) => !keep && f.acks != []
    case Expire => f.s.timer && f.data == [] && f.acks == []
    case _ => false
  }

  ghost predicate Progress(f: Flow, f': Flow) {
    && Patient(f') && Work(f') < Work(f)
    && f'.h.sent == f.h.sent && f'.h.gaveUp == f.h.gaveUp
  }

  lemma DataProgress(f: Flow)
    requires Inv(f, false) && Patient(f) && f.data != []
    ensures Progress(f, Step(f, DataArrives(false), false))
  {
    var w, f' := f.data[0], Step(f, DataArrives(false), false);
    assert IsDataOf(w, f.h.sent);
    if f.s.txQueue != [] && InFlight(f) { DataKeepsFlying(f); }
    hide Inv, InFlight;
  }

  /** What takes its place is the ack of it. */
  lemma DataKeepsFlying(f: Flow)
    requires Inv(f, false) && Patient(f) && f.data != [] && f.s.txQueue != [] && InFlight(f)
    ensures InFlight(Step(f, DataArrives(false), false))
  {
    var w, f', head := f.data[0], Step(f, DataArrives(false), false), Head(f.s, f.h);
    assert IsDataOf(w, f.h.sent) && f.h.sent[w.idx].opcode < OPCODES && !f.h.sent[w.idx].ackSup;
    hide Timed, InOrder, Numbered, Count;
    if i :| 0 <= i < |f.acks| && f.acks[i].idx == head {
      assert f'.acks[i].idx == head;
    } else if w.idx == head {
      assert f.h.sent[head] == f.s.txQueue[0];
      assert f'.acks[|f.acks|].idx == head;
    } else {
      var i :| 0 <= i < |f.data| && f.data[i].idx == head;
      assert f'.data[i - 1].idx == head;
    }
  }

  lemma AckProgress(f: Flow)
    requires Inv(f, false) && Patient(f) && f.acks != []
    ensures Progress(f, Step(f, AckArrives(false), false))
  {
    var w := f.acks[0];
    assert IsAckOf(w, f.h.sent);
    if AckAccepted(f.s, w.pkt.opcode, w.pkt.seqNumber) {
      AcceptProgress(f);
    } else {
      if f.s.txQueue != [] && InFlight(f) { AckKeepsFlying(f); }
      hide Inv, InFlight;
    }
  }

  /** The ack of the head is accepted, so that one that is not accepted is not the head's. */
  lemma AckKeepsFlying(f: Flow)
    requires Inv(f, false) && f.acks != [] && f.s.txQueue != [] && InFlight(f) && f.acks[0].pkt.Ack?
    requires !AckAccepted(f.s, f.acks[0].pkt.opcode, f.acks[0].pkt.seqNumber)
    ensures InFlight(Step(f, AckArrives(false), false))
  {
    hide Timed, InOrder, Numbered, Count;
    var w, f', head := f.acks[0], Step(f, AckArrives(false), false), Head(f.s, f.h);
    assert IsAckOf(w, f.h.sent) && f.h.sent[head] == f.s.txQueue[0];
    if i :| 0 <= i < |f.data| && f.data[i].idx == head {
      assert f'.data[i].idx == head;
    } else {
      var i :| 0 <= i < |f.acks| && f.acks[i].idx == head;
      assert f'.acks[i - 1].idx == head;
    }
  }

  /** The message behind the head is sent at once. */
  lemma AcceptProgress(f: Flow)
    requires Inv(f, false) && Patient(f) && f.acks != [] && f.acks[0].pkt.Ack?
    requires AckAccepted(f.s, f.acks[0].pkt.opcode, f.acks[0].pkt.seqNumber)
    ensures Progress(f, Step(f, AckArrives(false), false))
  {
    hide Timed, InOrder, Genuine, Numbered, Count;
    var f', head := Step(f, AckArrives(false), false), Head(f.s, f.h);
    assert f'.s.txQueue == f.s.txQueue[1..];
    if |f.s.txQueue| > 1 {
      assert f.s.txQueue[1] == f.h.sent[head + 1];
      assert f'.data[|f.data|].idx == head + 1;
      assert InFlight(f');
    }
  }

  lemma ExpireProgress(f: Flow)
    requires Inv(f, false) && Patient(f) && Quick(f, Expire)
    ensures Progress(f, Step(f, Expire, false))
  {
    hide InOrder, Genuine, Numbered, Count;
    var f', head := Step(f, Expire, false), Head(f.s, f.h);
    assert f.s.txQueue[0] == f.h.sent[head];
    assert f'.data[0].idx == head;
  }

  /** Each such step leaves less to do, and none gives a message up. */
  lemma QuickProgress(f: Flow, a: Action)
    requires Inv(f, false) && Patient(f) && Quick(f, a)
    ensures Progress(f, Step(f, a, false))
  {
    hide Inv, Patient, Progress, Step;
    match a
    case DataArrives(_) => DataProgress(f);
    case AckArrives(_) => AckProgress(f);
    case Expire => ExpireProgress(f);
  }

  // ----- both directions -----

  /** An arrival that takes its packet off the link, or an expiry while both links are empty. */
  predicate QuickEvent(n: Net, e: Event) {
    match e
    case Arrives(side, keep) => !keep && (if side.A? then n.ba else n.ab) != []
    case TimerExpires(side) => n.ab == [] && n.ba == [] && if side.A? then n.a.timer else n.b.timer
    case _ => false
  }

  ghost predicate NetPatient(n: Net) { Patient(FlowAB(n)) && Patient(FlowBA(n)) }

  ghost function NetWork(n: Net): nat { Work(FlowAB(n)) + Work(FlowBA(n)) }

  /** Such an event is such a step of one direction and leaves the other alone. */
  lemma QuickProjects(n: Net, e: Event)
    requires n.Valid() && QuickEvent(n, e)
    ensures var own := if e.side.A? then OwnAction(n, e) else OtherAction(Swap(n), e);
            var other := if e.side.A? then OtherAction(n, e) else OwnAction(Swap(n), e);
            && (own == Idle || Quick(FlowAB(n), own)) && (other == Idle || Quick(FlowBA(n), other))
            && (own == Idle <==> other != Idle)
  {}

  /** This many steps or more are done, and nothing was submitted or given up. */
  ghost predicate Closer(n: Net, m: Net, steps: int) {
    && NetPatient(m) && NetWork(m) + steps <= NetWork(n)
    && m.ha.sent == n.ha.sent && m.ha.gaveUp == n.ha.gaveUp
    && m.hb.sent == n.hb.sent && m.hb.gaveUp == n.hb.gaveUp
  }

  lemma NetStepProgress(n: Net, e: Event)
    requires n.Valid() && NetInv(n, false) && NetPatient(n) && QuickEvent(n, e)
    ensures Closer(n, NetStep(n, e, false), 1)
  {
    hide Inv, Lockstep, Patient, Work, Quick, QuickEvent, NetStep, FlowAB, FlowBA, OwnAction, OtherAction;
    QuickProjects(n, e);
    StepProjects(n, e, false);
    HistoryOfFlow(n);
    HistoryOfFlow(NetStep(n, e, false));
    var own := if e.side.A? then OwnAction(n, e) else OtherAction(Swap(n), e);
    var other := if e.side.A? then OtherAction(n, e) else OwnAction(Swap(n), e);
    if own == Idle { QuickProgress(FlowBA(n), other); } else { QuickProgress(FlowAB(n), own); }
  }

  /** The head was handed up before, or the receiver does not remember its number. */
  lemma HeadOnce(n: Net)
    requires NetInv(n, false) && n.a.txQueue != [] && !n.ha.gaveUp && n.a.txQueue[0].opcode >= 1
    ensures var head := |n.ha.sent| - |n.a.txQueue|;
            n.a.txQueue[0].opcode < |n.bRx| && (head in n.ha.delivered || n.bRx[n.a.txQueue[0].opcode] != n.a.txQueue[0].seqNumber)
  {
    var head, r := |n.ha.sent| - |n.a.txQueue|, |n.ha.delivered|;
    assert n.a.txQueue[0] == n.ha.sent[head];
    hide Timed, InOrder, Genuine, Count;
    if r == head { Discriminates(n.ha.sent, r, head); } else { assert n.ha.delivered[head] == head; }
  }

  lemma Retransmits(n: Net)
    requires n.Valid() && n.ab == [] && n.a.timer && n.a.txQueue != [] && n.a.retries > 0 && !n.a.txQueue[0].ackSup
    ensures var m := NetStep(n, TimerExpires(A), false);
            && m.a.txQueue == n.a.txQueue && m.bRx == n.bRx && m.ba == n.ba
            && m.ab == [Wire(Data(n.a.txQueue[0]), |n.ha.sent| - |n.a.txQueue|)]
            && m.ha.sent == n.ha.sent && m.ha.delivered == n.ha.delivered && m.ha.acked == n.ha.acked
  {}

  lemma Answered(n: Net, msg: Msg, idx: int)
    requires n.Valid() && n.ab == [Wire(Data(msg), idx)] && n.ba == [] && msg.opcode < OPCODES && !msg.ackSup
    ensures var m := NetStep(n, Arrives(B, false), false);
            && m.a == n.a && m.ba == (if msg.opcode == 0 then [] else [Wire(Ack(msg.opcode, msg.seqNumber), idx)])
            && m.ha == n.ha.(delivered := m.ha.delivered)
            && m.ha.delivered == n.ha.delivered + if msg.opcode > 0 && n.bRx[msg.opcode] != msg.seqNumber then [idx] else []
  {}

  lemma HeadRemoved(n: Net)
    requires n.Valid() && n.a.txQueue != [] && n.ba != []
    requires n.ba[0].pkt == Ack(n.a.txQueue[0].opcode, n.a.txQueue[0].seqNumber)
    requires |n.a.txQueue| > 1 ==> !n.a.txQueue[1].ackSup
    ensures var m := NetStep(n, Arrives(A, false), false);
            && m.a.txQueue == n.a.txQueue[1..] && m.ha.acked == n.ha.acked + [|n.ha.sent| - |n.a.txQueue|]
            && m.ha.delivered == n.ha.delivered
  {}

  lemma Waiting(n: Net)
    requires NetInv(n, false) && n.a.txQueue != []
    ensures n.Valid() && n.a.timer && n.a.txQueue[0].opcode < OPCODES && !n.a.txQueue[0].ackSup
    ensures |n.a.txQueue| > 1 ==> !n.a.txQueue[1].ackSup
  {
    var head := |n.ha.sent| - |n.a.txQueue|;
    assert n.a.txQueue[0] == n.ha.sent[head] && (|n.a.txQueue| > 1 ==> n.a.txQueue[1] == n.ha.sent[head + 1]);
  }

  lemma NothingArrives(n: Net)
    requires n.Valid() && n.ba == []
    ensures NetStep(n, Arrives(A, false), false) == n
  {}

  lemma RunOn(events: seq<Event>, e: Event)
    ensures Run(events + [e], false) == NetStep(Run(events, false), e, false)
  {
    assert (events + [e])[..|events|] == events;
    hide NetStep;
  }

  /** From n to m an ack took the head off the queue, and it was handed up then or before; a NOOP stayed. */
  predicate RoundDone(n: Net, m: Net)
    requires n.a.txQueue != []
  {
    var head := |n.ha.sent| - |n.a.txQueue|;
    if n.a.txQueue[0].opcode == 0 then
      m.a.txQueue == n.a.txQueue && m.ha.acked == n.ha.acked && m.ha.delivered == n.ha.delivered
    else
      && m.a.txQueue == n.a.txQueue[1..] && m.ha.acked == n.ha.acked + [head]
      && (!n.ha.gaveUp ==> head in m.ha.delivered)
  }

  lemma RoundSteps(n: Net, n1: Net, n2: Net, m: Net)
    requires NetInv(n, false) && n.ab == [] && n.ba == [] && n.a.txQueue != [] && n.a.retries > 0
    requires n.Valid() && n1 == NetStep(n, TimerExpires(A), false)
    requires n1.Valid() && n2 == NetStep(n1, Arrives(B, false), false)
    requires n2.Valid() && m == NetStep(n2, Arrives(A, false), false)
    ensures RoundDone(n, m)
  {
    hide NetInv, NetStep;
    Waiting(n);
    if !n.ha.gaveUp && n.a.txQueue[0].opcode > 0 { HeadOnce(n); }
    Retransmits(n);
    Answered(n1, n.a.txQueue[0], |n.ha.sent| - |n.a.txQueue|);
    if n.a.txQueue[0].opcode > 0 { HeadRemoved(n2); } else { NothingArrives(n2); }
  }

  /** One round from every reachable state with quiet links: the timer expires, the message arrives, its answer arrives.
      An ack takes the head off the queue exactly if its opcode is not NOOP, 0. */
  lemma OneRound(events: seq<Event>)
    requires var n := Run(events, false); n.ab == [] && n.ba == [] && n.a.txQueue != [] && n.a.retries > 0
    ensures RoundDone(Run(events, false), Run(events + [TimerExpires(A)] + [Arrives(B, false)] + [Arrives(A, false)], false))
  {
    hide Run, NetInv, NetStep, RoundDone;
    RunInv(events, false);
    RunOn(events, TimerExpires(A));
    RunOn(events + [TimerExpires(A)], Arrives(B, false));
    RunOn(events + [TimerExpires(A)] + [Arrives(B, false)], Arrives(A, false));
    RoundSteps(Run(events, false), Run(events + [TimerExpires(A)], false),
               Run(events + [TimerExpires(A)] + [Arrives(B, false)], false),
               Run(events + [TimerExpires(A)] + [Arrives(B, false)] + [Arrives(A, false)], false));
  }

  // ----- runs -----

  /** From its first k events on, the run loses nothing, repeats nothing, submits nothing, and no timer expires while
      a packet is on its way. */
  predicate QuickFrom(events: seq<Event>, k: nat)
    requires k <= |events|
  {
    forall i | k <= i < |events| :: QuickEvent(Run(events[..i], false), events[i])
  }

  /** Both senders have a retry left for what waits, and nothing waits that the receiver ignores: NOOP, opcode 0. */
  predicate Rested(n: Net) {
    && (n.a.txQueue != [] ==> n.a.retries > 0) && (n.b.txQueue != [] ==> n.b.retries > 0)
    && (forall i | 0 <= i < |n.a.txQueue| :: 1 <= n.a.txQueue[i].opcode)
    && (forall i | 0 <= i < |n.b.txQueue| :: 1 <= n.b.txQueue[i].opcode)
  }

  /** Nothing waits and nothing is on its way. */
  predicate Quiet(n: Net) { n.a.txQueue == [] && n.b.txQueue == [] && n.ab == [] && n.ba == [] }

  lemma QuickBefore(events: seq<Event>, k: nat)
    requires k < |events| && QuickFrom(events, k)
    ensures var before, last := events[..|events| - 1], events[|events| - 1];
            && before[..k] == events[..k] && QuickFrom(before, k)
            && QuickEvent(Run(before, false), last)
            && Run(events, false) == NetStep(Run(before, false), last, false)
  {
    var before := events[..|events| - 1];
    assert forall i | k <= i < |before| :: before[..i] == events[..i] && before[i] == events[i];
    assert QuickEvent(Run(events[..|before|], false), events[|before|]);
    hide QuickEvent, NetStep;
  }

  lemma RestedIsPatient(n: Net)
    ensures Rested(n) ==> NetPatient(n)
  {}

  lemma {:induction false} QuickRunProgress(events: seq<Event>, k: nat)
    requires k <= |events| && Rested(Run(events[..k], false)) && QuickFrom(events, k)
    ensures Closer(Run(events[..k], false), Run(events, false), |events| - k)
  {
    hide Run, Rested, NetStep, NetPatient, NetWork, NetInv, QuickEvent, QuickFrom;
    if |events| == k {
      assert events[..k] == events;
      RestedIsPatient(Run(events, false));
    } else {
      var before := events[..|events| - 1];
      QuickBefore(events, k);
      QuickRunProgress(before, k);
      RunInv(before, false);
      NetStepProgress(Run(before, false), events[|events| - 1]);
    }
  }

  /** Something can happen until the network is quiet: the timer of a message that waits is armed. */
  lemma QuietExactly(n: Net)
    requires NetInv(n, false)
    ensures Quiet(n) <==> forall e :: !QuickEvent(n, e)
  {
    assert n.a.txQueue != [] ==> n.a.timer;
    assert n.b.txQueue != [] ==> n.b.timer;
    hide NetInv;
    if !Quiet(n) {
      var e := if n.ba != [] then Arrives(A, false) else if n.ab != [] then Arrives(B, false)
               else if n.a.txQueue != [] then TimerExpires(A) else TimerExpires(B);
      assert QuickEvent(n, e);
    }
  }

  /** Everything submitted was handed up, once each and in order, and acknowledged. */
  predicate Complete(h: History) {
    && |h.delivered| == |h.sent| && |h.acked| == |h.sent|
    && (forall i | 0 <= i < |h.sent| :: h.delivered[i] == i && h.acked[i] == i)
  }

  lemma QuietCompletes(n: Net)
    requires NetInv(n, false) && Quiet(n)
    ensures (!n.ha.gaveUp ==> Complete(n.ha)) && (!n.hb.gaveUp ==> Complete(n.hb))
  {}

  /** Whatever was lost, repeated, submitted and waited for before, and in whatever order packets now arrive and timers
      expire: a run that is quick from some point on ends, it goes on until the network is quiet, no message is given
      up in it, and then everything ever submitted was delivered and acknowledged, unless something was given up
      before. */
  lemma QuickRunCompletes(events: seq<Event>, k: nat)
    requires k <= |events| && Rested(Run(events[..k], false)) && QuickFrom(events, k)
    ensures var n, m := Run(events[..k], false), Run(events, false);
            && |events| - k <= NetWork(n)
            && m.ha.sent == n.ha.sent && m.ha.gaveUp == n.ha.gaveUp && m.hb.sent == n.hb.sent && m.hb.gaveUp == n.hb.gaveUp
            && (Quiet(m) <==> forall e :: !QuickEvent(m, e))
            && (Quiet(m) && !n.ha.gaveUp ==> Complete(m.ha)) && (Quiet(m) && !n.hb.gaveUp ==> Complete(m.hb))
  {
    QuickRunProgress(events, k);
    RunInv(events, false);
    hide Run, Rested, QuickFrom, NetInv, NetPatient, QuickEvent, Quiet, Complete;
    QuietExactly(Run(events, false));
    if Quiet(Run(events, false)) { QuietCompletes(Run(events, false)); }
  }

  /** There is such a run from every such point. */
  lemma {:induction false} QuickRunExists(events: seq<Event>, k: nat) returns (all: seq<Event>)
    requires k <= |events| && Rested(Run(events[..k], false)) && QuickFrom(events, k)
    ensures events <= all && QuickFrom(all, k) && Quiet(Run(all, false))
    decreases NetWork(Run(events[..k], false)) + k - |events|
  {
    QuickRunCompletes(events, k);
    hide Run, Rested, NetWork, QuickEvent, Quiet;
    if Quiet(Run(events, false)) {
      all := events;
    } else {
      var e :| QuickEvent(Run(events, false), e);
      QuickAfter(events, k, e);
      QuickRunCompletes(events + [e], k);
      all := QuickRunExists(events + [e], k);
    }
  }

  lemma QuickAfter(events: seq<Event>, k: nat, e: Event)
    requires k <= |events| && QuickFrom(events, k) && QuickEvent(Run(events, false), e)
    ensures (events + [e])[..k] == events[..k] && QuickFrom(events + [e], k)
  {
    hide Run, QuickEvent;
    var all := events + [e];
    forall i | k <= i < |all| ensures QuickEvent(Run(all[..i], false), all[i]) {
      assert all[..i] == if i < |events| then events[..i] else events;
      if i < |events| { assert all[i] == events[i] && events[..i] == all[..i]; }
    }
  }
}
