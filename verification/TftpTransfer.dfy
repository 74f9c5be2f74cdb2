/** tftp_put against a lock-step server, over links that lose and repeat datagrams but keep their order. */
module TftpTransfer {
  import opened TftpRtt
  import opened TftpClient

  /** A lock-step receiver: `num` is the block it acknowledged last, `open` once the write request came, `done` once
      a short block came, `failed` once it answered with an error and stopped taking blocks. */
  datatype Server = Server(file: seq<bv8>, num: nat, open: bool, done: bool, failed: bool)

  /** What is in transit. The tag is the true number of the block concerned, which no end sees. */
  datatype Up = Up(request: bool, pkt: Packet, tag: nat)
  datatype Down = Down(opcode: nat, num: nat, tag: nat)

  /** `sends[i]` counts the transmissions of block i + 1, `received` the blocks the server took, `alarms` the
      transmissions an alarm caused. */
  datatype History = History(sends: seq<nat>, received: nat, alarms: nat)

  datatype Net = Net(c: Client, s: Server, up: seq<Up>, down: seq<Down>, h: History)

  /** A datagram at the head of a link may arrive and stay there (`keep`) or be lost. The server may send its last
      acknowledgement again at any time, or fail. */
  datatype Step =
    | AlarmRings
    | UpArrives(keep: bool)
    | UpLost
    | DownArrives(keep: bool, ms: nat)
    | DownLost
    | ServerRepeats
    | ServerFails(code: nat)

  function Request(): Up { Up(true, Data(0, []), 0) }

  function Initial(file: seq<bv8>, rtt: Rtt): Net {
    Net(Begin(file, rtt), Server([], 0, false, false, false), [Request()], [], History([], 0, 0))
  }

  function Rest<T>(link: seq<T>, keep: bool): seq<T>
    requires link != []
  {
    if keep then link else link[1..]
  }

  /** The current acknowledgement. */
  function AckOf(s: Server, h: History): Down { Down(OPCODE_ACK, s.num, h.received) }

  predicate Takes(s: Server, u: Up) {
    !u.request && s.open && !s.done && !s.failed && u.pkt.num == (s.num + 1) % NUMBERS
  }

  predicate Repeats(s: Server, u: Up) { !s.failed && s.open && !u.request && u.pkt.num == s.num }

  /** The next block in turn is stored and acknowledged, the last one is acknowledged again, others are ignored. */
  function Serve(n: Net, u: Up): Net {
    if u.request && n.s.num == 0 && !n.s.failed then
      var s := n.s.(open := true);
      n.(s := s, down := n.down + [AckOf(s, n.h)])
    else if Takes(n.s, u) then
      var s := n.s.(file := n.s.file + u.pkt.payload, num := u.pkt.num, done := |u.pkt.payload| < BLOCK);
      var h := n.h.(received := n.h.received + 1);
      n.(s := s, h := h, down := n.down + [AckOf(s, h)])
    else if Repeats(n.s, u) then n.(down := n.down + [AckOf(n.s, n.h)])
    else n
  }

  /** The client reacts; a transmission is counted for its block and tagged with it. */
  function ClientStep(n: Net, e: Event): (m: Net)
    requires n.c.Valid()
    ensures m.c.Valid() && m.c.file == n.c.file
  {
    ReactValid(n.c, e);
    var r := React(n.c, e);
    if r.out == [] then n.(c := r.c)
    else
      var sends := if !e.Alarm? || n.h.sends == [] then n.h.sends + [1]
                   else n.h.sends[|n.h.sends| - 1 := n.h.sends[|n.h.sends| - 1] + 1];
      var h := n.h.(sends := sends, alarms := n.h.alarms + if e.Alarm? then 1 else 0);
      n.(c := r.c, h := h, up := n.up + [Up(false, r.out[0], |sends|)])
  }

  function NetStep(n: Net, e: Step): (m: Net)
    requires n.c.Valid()
    ensures m.c.Valid() && m.c.file == n.c.file
  {
    match e
    case AlarmRings => if n.c.alarm == 0 then n else ClientStep(n, Alarm)
    case UpArrives(keep) => if n.up == [] then n else Serve(n.(up := Rest(n.up, keep)), n.up[0])
    case UpLost => if n.up == [] then n else n.(up := n.up[1..])
    case DownArrives(keep, ms) =>
      if n.down == [] then n
      else ClientStep(n.(down := Rest(n.down, keep)), Reply(n.down[0].opcode, n.down[0].num, ms))
    case DownLost => if n.down == [] then n else n.(down := n.down[1..])
    case ServerRepeats => if !n.s.open || n.s.failed then n else n.(down := n.down + [AckOf(n.s, n.h)])
    case ServerFails(code) =>
      if !n.s.open then n
      else n.(s := n.s.(failed := true), down := n.down + [Down(OPCODE_ERROR, code, n.h.received)])
  }

  function Run(file: seq<bv8>, rtt: Rtt, steps: seq<Step>): (n: Net)
    ensures n.c.Valid() && n.c.file == file
  {
    if steps == [] then Initial(file, rtt)
    else NetStep(Run(file, rtt, steps[..|steps| - 1]), steps[|steps| - 1])
  }

  // ----- the invariant -----

  /** Where block i begins, counting from 1: every block before it is full. */
  function At(file: seq<bv8>, i: nat): nat { Min(BLOCK * i, |file|) }

  ghost predicate Carries(file: seq<bv8>, u: Up) {
    if u.request then u.tag == 0
    else u.tag > 0 && u.pkt.num == u.tag % NUMBERS && u.pkt.payload == file[At(file, u.tag - 1)..At(file, u.tag)]
  }

  /** Both links carry true contents. */
  ghost predicate Genuine(n: Net) {
    && (forall k | 0 <= k < |n.up| :: Carries(n.c.file, n.up[k]))
    && (forall k | 0 <= k < |n.down| :: n.down[k].opcode == OPCODE_ERROR
                                     || (n.down[k].opcode == OPCODE_ACK && n.down[k].num == n.down[k].tag % NUMBERS))
  }

  /** Tags never decrease along a link, and lie between the two ends' progress. */
  ghost predicate Ordered(n: Net) {
    var c, r := |n.h.sends|, n.h.received;
    && (forall k | 0 <= k < |n.up| :: r <= n.up[k].tag <= c)
    && (forall j, k | 0 <= j < k < |n.up| :: n.up[j].tag <= n.up[k].tag)
    && (forall k | 0 <= k < |n.down| :: c - 1 <= n.down[k].tag <= r)
    && (forall j, k | 0 <= j < k < |n.down| :: n.down[j].tag <= n.down[k].tag)
  }

  /** The server has what the client was told it has, or one block more. */
  ghost predicate InStep(n: Net) {
    var c, r := |n.h.sends|, n.h.received;
    && c - 1 <= r <= c
    && n.c.num == c % NUMBERS && n.s.num == r % NUMBERS
    && n.c.count == At(n.c.file, c) && n.s.file == n.c.file[..At(n.c.file, r)]
    && (c > 0 ==> BLOCK * (c - 1) <= |n.c.file| && n.c.count - n.c.n == At(n.c.file, c - 1))
    && (n.s.done <==> BLOCK * r > |n.c.file|)
    && (!n.s.open ==> n.down == [] && c == 0 && !n.s.failed)
  }

  /** The state of the wait. */
  ghost predicate Waits(n: Net) {
    var c := |n.h.sends|;
    match n.c.status
    case AwaitReply => c == 0 && n.c.alarm == 0 && Settled(n.c.rtt)
    case Sending => c > 0 && Clamped(n.c.rtt) && n.c.rtt.nrexmt + 1 == n.h.sends[c - 1] && n.c.alarm == Seconds(n.c.rtt)
    case Returned(code) =>
      && c > 0 && n.c.alarm == 0
      && (code == 0 || (code == 1 && n.h.sends[c - 1] == 4))
      && (code == 0 ==> n.h.received == c && BLOCK * c > |n.c.file| && n.c.file != [] && Settled(n.c.rtt))
    case DividedByZero => c == 1 && n.h.received == 1 && n.c.file == [] && n.c.alarm == 0
  }

  function Sum(s: seq<nat>): nat { if s == [] then 0 else Sum(s[..|s| - 1]) + s[|s| - 1] }

  ghost predicate Counted(h: History) {
    && (forall i | 0 <= i < |h.sends| :: 1 <= h.sends[i] <= 4)
    && Sum(h.sends) == |h.sends| + h.alarms
  }

  ghost predicate Inv(n: Net) {
    n.c.Valid() && Links(n) && InStep(n) && Waits(n) && Counted(n.h)
  }

  lemma SumOfOneMore(s: seq<nat>, x: nat)
    ensures Sum(s + [x]) == Sum(s) + x
    ensures s != [] ==> Sum(s[|s| - 1 := x]) == Sum(s) - s[|s| - 1] + x
  {
    assert (s + [x])[..|s|] == s;
    if s != [] { assert s[|s| - 1 := x][..|s| - 1] == s[..|s| - 1]; }
  }

  lemma InitialInv(file: seq<bv8>, rtt: Rtt)
    requires Settled(rtt)
    ensures Inv(Initial(file, rtt))
  {}

  // ----- the links -----

  ghost predicate Links(n: Net) { Genuine(n) && Ordered(n) }

  lemma RestLinks(n: Net, keepUp: bool, keepDown: bool)
    requires Links(n)
    ensures n.up != [] ==> Links(n.(up := Rest(n.up, keepUp)))
    ensures n.down != [] ==> Links(n.(down := Rest(n.down, keepDown)))
  {}

  /** The server answers. */
  lemma AnswerLinks(n: Net, d: Down)
    requires Links(n) && d.tag == n.h.received && |n.h.sends| - 1 <= n.h.received
    requires d.opcode == OPCODE_ERROR || (d.opcode == OPCODE_ACK && d.num == d.tag % NUMBERS)
    ensures Links(n.(down := n.down + [d]))
  {}

  /** The client transmits. */
  lemma TransmitLinks(n: Net, u: Up)
    requires Links(n) && Carries(n.c.file, u) && u.tag == |n.h.sends| && n.h.received <= |n.h.sends|
    ensures Links(n.(up := n.up + [u]))
  {}

  // ----- the server's steps -----

  /** The head of the link is the next block in turn: everything behind it is too. */
  lemma TakeLinks(n: Net, s: Server)
    requires Links(n) && n.up != [] && n.up[0].tag == n.h.received + 1
    ensures Links(n.(s := s, h := n.h.(received := n.h.received + 1)))
  {}

  lemma TakeInStep(n: Net, n2: Net, u: Up)
    requires InStep(n) && Takes(n.s, u) && Carries(n.c.file, u) && n.h.received <= u.tag <= |n.h.sends|
    requires n2 == Serve(n, u)
    ensures u.tag == n.h.received + 1 == n2.h.received <= |n.h.sends| && InStep(n2)
    ensures n2.s.num == n2.h.received % NUMBERS
  {}

  /** The head of the link is what arrives, whether it stays or not. */
  lemma HeadOfUp(n: Net)
    requires Inv(n) && n.up != []
    ensures Carries(n.c.file, n.up[0]) && n.h.received <= n.up[0].tag <= |n.h.sends|
  {}

  lemma TakeInv(n: Net, keep: bool)
    requires Inv(n) && n.up != [] && Takes(n.s, n.up[0])
    ensures Inv(Serve(n.(up := Rest(n.up, keep)), n.up[0]))
  {
    HeadOfUp(n);
    hide Counted, Waits, Genuine, Ordered, Carries, InStep;
    var n1 := n.(up := Rest(n.up, keep));
    var n2 := Serve(n1, n.up[0]);
    UpInStep(n, n1.up);
    TakeInStep(n1, n2, n.up[0]);
    TakeLinks(n, n2.s);
    RestLinks(n.(s := n2.s, h := n2.h), keep, true);
    AnswerLinks(n1.(s := n2.s, h := n2.h), AckOf(n2.s, n2.h));
    ServeWaits(n, n2);
  }

  lemma UpInStep(n: Net, up: seq<Up>)
    requires InStep(n)
    ensures InStep(n.(up := up))
  {}

  lemma ServeInv(n: Net, keep: bool)
    requires Inv(n) && n.up != []
    ensures Inv(Serve(n.(up := Rest(n.up, keep)), n.up[0]))
  {
    var n1 := n.(up := Rest(n.up, keep));
    if Takes(n1.s, n.up[0]) {
      TakeInv(n, keep);
    } else {
      hide Counted, Waits, Genuine, Ordered, Carries, At;
      var n2 := Serve(n1, n.up[0]);
      RestLinks(n, keep, true);
      if n2 != n1 {
        ServerLinks(n1, n2.s);
        AnswerLinks(n1.(s := n2.s), AckOf(n2.s, n.h));
      }
      ServeWaits(n, n2);
    }
  }

  /** The links do not depend on the rest of the server's state. */
  lemma ServerLinks(n: Net, s: Server)
    requires Links(n)
    ensures Links(n.(s := s))
  {}

  lemma ServeWaits(n: Net, n2: Net)
    requires Waits(n) && n2.c == n.c && n2.h.sends == n.h.sends
    requires n.h.received <= n2.h.received <= |n.h.sends|
    ensures Waits(n2)
  {}

  lemma LinkInv(n: Net, e: Step)
    requires Inv(n) && !e.AlarmRings? && !e.UpArrives? && !e.DownArrives?
    ensures Inv(NetStep(n, e))
  {
    hide Counted, Waits, Genuine, Ordered, Carries;
    var n2 := NetStep(n, e);
    if n2 != n {
      match e
      case ServerRepeats => AnswerLinks(n, AckOf(n.s, n.h));
      case ServerFails(code) =>
        ServerLinks(n, n2.s);
        AnswerLinks(n.(s := n2.s), Down(OPCODE_ERROR, code, n.h.received));
      case _ => RestLinks(n, false, false);
    }
    ServeWaits(n, n2);
  }

  // ----- the client's steps -----

  /** An alarm changes the wait: one more transmission of the same block, or the end. */
  lemma AlarmWaits(n: Net)
    requires Waits(n) && Counted(n.h) && n.c.alarm != 0 && n.c.Valid()
    ensures n.c.status.Sending? && Waits(ClientStep(n, Alarm)) && Counted(ClientStep(n, Alarm).h)
  {
    var k := |n.h.sends| - 1;
    hide Scale, Seconds, Sum;
    if !GivesUp(n.c.rtt) {
      BackoffKeeps(n.c.rtt);
      SumOfOneMore(n.h.sends, n.h.sends[k] + 1);
    }
  }

  /** It sends the block again that is in flight. */
  lemma AlarmInStep(n: Net)
    requires InStep(n) && n.c.status.Sending? && n.c.Valid() && |n.h.sends| > 0
    ensures InStep(ClientStep(n, Alarm))
    ensures Carries(n.c.file, Up(false, Transmit(n.c).out[0], |n.h.sends|))
  {}

  lemma AlarmLinks(n: Net)
    requires Links(n) && n.c.Valid() && n.c.status.Sending? && |n.h.sends| > 0 && n.h.received <= |n.h.sends|
    requires Carries(n.c.file, Up(false, Transmit(n.c).out[0], |n.h.sends|))
    ensures Links(ClientStep(n, Alarm))
  {
    hide Links, Carries, Seconds;
    var n2 := ClientStep(n, Alarm);
    if GivesUp(n.c.rtt) {
      ClientLinks(n, n2.c, n.h.sends, n2.h.alarms);
    } else {
      TransmitLinks(n, Up(false, Transmit(n.c).out[0], |n.h.sends|));
      ClientLinks(n.(up := n2.up), n2.c, n2.h.sends, n2.h.alarms);
    }
  }

  lemma AlarmInv(n: Net)
    requires Inv(n) && n.c.alarm != 0
    ensures Inv(ClientStep(n, Alarm))
  {
    AlarmWaits(n);
    assert |n.h.sends| > 0 && n.h.received <= |n.h.sends|;
    AlarmInStep(n);
    hide InStep, Waits, Counted, Links, Carries, React;
    AlarmLinks(n);
  }

  /** Nor on the rest of the client's state. */
  lemma ClientLinks(n: Net, c: Client, sends: seq<nat>, alarms: nat)
    requires Links(n) && c.file == n.c.file && |sends| == |n.h.sends|
    ensures Links(n.(c := c, h := n.h.(sends := sends, alarms := alarms)))
  {}

  /** Only the acknowledgement of the block in flight is taken for it: the number is 16 bits wide, but the links
      keep their order. */
  lemma OnlyTheCurrentAck(n: Net, ms: nat)
    requires Inv(n) && n.down != [] && n.c.status.Sending?
    ensures var d := n.down[0];
            Accepts(n.c, Reply(d.opcode, d.num, ms)) <==> d.opcode != 5 && d.tag == |n.h.sends|
  {}

  /** The client goes on to its next block: everything still on the way to it belongs to the last one. */
  lemma AdvanceLinks(n: Net, c: Client, sends: seq<nat>, u: Up)
    requires Links(n) && c.file == n.c.file && |sends| == |n.h.sends| + 1 && n.h.received == |n.h.sends|
    requires Carries(c.file, u) && u.tag == |sends|
    requires n.down != [] ==> n.down[0].tag == |n.h.sends|
    ensures Links(n.(c := c, h := n.h.(sends := sends), up := n.up + [u]))
  {}

  lemma AdvanceInStep(n: Net, c: Client, m: Net)
    requires InStep(n) && c.Valid() && c.num == n.c.num && c.count == n.c.count && c.file == n.c.file
    requires n.h.received == |n.h.sends| && BLOCK * |n.h.sends| <= |c.file| && n.s.open
    requires m == n.(c := NextBlock(c).c, up := m.up, h := n.h.(sends := n.h.sends + [1]))
    ensures InStep(m) && Carries(c.file, Up(false, NextBlock(c).out[0], |n.h.sends| + 1))
  {}

  /** The client and what it transmits when it goes on. */
  function Advanced(n: Net, c: Client): (m: Net)
    requires c.Valid()
    ensures m.c.Valid()
  {
    var r := NextBlock(c);
    n.(c := r.c, h := n.h.(sends := n.h.sends + [1]), up := n.up + [Up(false, r.out[0], |n.h.sends| + 1)])
  }

  lemma AdvanceWaits(n: Net, c: Client)
    requires c.Valid() && Settled(c.rtt) && Counted(n.h)
    ensures Waits(Advanced(n, c)) && Counted(Advanced(n, c).h)
  {
    hide Seconds, Sum;
    assert Clamped(NextBlock(c).c.rtt) by { assert Scale(0) == 1.0; }
    hide Clamped, Scale;
    SumOfOneMore(n.h.sends, 1);
  }

  lemma AdvanceInv(n: Net, c: Client)
    requires Inv(n) && c.Valid() && c.num == n.c.num && c.count == n.c.count && c.n == n.c.n && c.file == n.c.file
    requires n.h.received == |n.h.sends| && Settled(c.rtt) && n.s.open
    requires BLOCK * |n.h.sends| <= |c.file|
    requires n.down != [] ==> n.down[0].tag == |n.h.sends|
    ensures Inv(Advanced(n, c))
  {
    var m := Advanced(n, c);
    AdvanceInStep(n, c, m);
    AdvanceWaits(n, c);
    assert m.c.file == n.c.file;
    hide Genuine, Ordered, InStep, Waits, Counted, Carries;
    AdvanceLinks(n, m.c, m.h.sends, m.up[|n.up|]);
  }

  /** The head of the link is the acknowledgement of the block in flight: so is everything behind it. */
  lemma HeadOfDown(n: Net, keep: bool)
    requires Inv(n) && n.down != []
    ensures |n.h.sends| - 1 <= n.down[0].tag <= n.h.received <= |n.h.sends| && n.s.open
    ensures var down := Rest(n.down, keep); down != [] ==> n.down[0].tag <= down[0].tag <= n.h.received
    ensures Inv(n.(down := Rest(n.down, keep)))
  {}

  /** The acknowledgement of the last block ends the transfer. */
  lemma AckEnds(n: Net, e: Event)
    requires Inv(n) && n.c.status.Sending? && Accepts(n.c, e) && n.h.received == |n.h.sends|
    requires (Redraws(n.c) && |n.c.file| == 0) || n.c.n < BLOCK
    ensures Inv(ClientStep(n, e))
  {
    hide Scale, Seconds, Sum, Stop, Genuine, Ordered, Carries, Counted;
    StopSettles(n.c.rtt, e.ms);
    AckReact(n.c, e);
    ClientLinks(n, React(n.c, e).c, n.h.sends, n.h.alarms);
  }

  /** The acknowledgement of a full block brings the next. */
  lemma AckAdvances(n: Net, e: Event)
    requires n.c.Valid() && n.c.status.Sending? && Accepts(n.c, e)
    requires !(Redraws(n.c) && |n.c.file| == 0) && n.c.n >= BLOCK
    ensures ClientStep(n, e) == Advanced(n, n.c.(alarm := 0, rtt := Stop(n.c.rtt, e.ms)))
  {
    AckReact(n.c, e);
    hide React, Begun, Stop, Seconds;
  }

  /** The block was full, so the file goes on. */
  lemma FullBlock(n: Net)
    requires Inv(n) && n.c.status.Sending? && n.c.n >= BLOCK
    ensures BLOCK * |n.h.sends| <= |n.c.file| && Clamped(n.c.rtt)
  {
    hide Links, Counted, Clamped, Seconds;
  }

  lemma AckInv(n: Net, e: Event)
    requires Inv(n) && n.c.status.Sending? && Accepts(n.c, e)
    requires n.h.received == |n.h.sends| && n.s.open
    requires n.down != [] ==> n.down[0].tag == |n.h.sends|
    ensures Inv(ClientStep(n, e))
  {
    if (Redraws(n.c) && |n.c.file| == 0) || n.c.n < BLOCK {
      AckEnds(n, e);
    } else {
      FullBlock(n);
      AckAdvances(n, e);
      StopSettles(n.c.rtt, e.ms);
      hide Inv, Settled, Clamped, Stop, Redraws, React, Accepts, Advanced;
      AdvanceInv(n, n.c.(alarm := 0, rtt := Stop(n.c.rtt, e.ms)));
    }
  }

  /** The reply to the write request brings the first block. */
  lemma RequestAnswered(n: Net, e: Event)
    requires Inv(n) && n.c.status.AwaitReply? && e.Reply? && n.s.open && (n.down != [] ==> n.down[0].tag == 0)
    requires n.h.received == 0
    ensures Inv(ClientStep(n, e))
  {
    FirstAdvance(n, e);
    assert |n.h.sends| == 0 && Settled(n.c.rtt) by { hide Links, Counted, InStep, Settled; }
    hide Inv, React, Advanced, ClientStep, Settled;
    AdvanceInv(n, n.c);
  }

  lemma FirstAdvance(n: Net, e: Event)
    requires n.c.Valid() && n.c.status.AwaitReply? && e.Reply?
    ensures ClientStep(n, e) == Advanced(n, n.c)
  {
    hide Begun, Seconds;
  }

  /** Whatever else arrives is dropped without a transmission. */
  lemma ReplyInv(n: Net, keep: bool, ms: nat)
    requires Inv(n) && n.down != []
    ensures Inv(ClientStep(n.(down := Rest(n.down, keep)), Reply(n.down[0].opcode, n.down[0].num, ms)))
  {
    var d, n1 := n.down[0], n.(down := Rest(n.down, keep));
    var e := Reply(d.opcode, d.num, ms);
    HeadOfDown(n, keep);
    if n.c.status.AwaitReply? {
      assert |n.h.sends| == 0 by { hide Links, Counted, InStep, Settled; }
      hide Inv, React;
      RequestAnswered(n1, e);
    } else if n.c.status.Sending? && Accepts(n.c, e) {
      OnlyTheCurrentAck(n, ms);
      hide Inv, React, Accepts;
      AckInv(n1, e);
    } else {
      assert React(n.c, e).c == n.c;
    }
  }

  // ----- every run -----

  lemma StepInv(n: Net, e: Step)
    requires Inv(n)
    ensures Inv(NetStep(n, e))
  {
    match e
    case AlarmRings => if n.c.alarm != 0 { hide Inv; AlarmInv(n); }
    case UpArrives(keep) => if n.up != [] { hide Inv; ServeInv(n, keep); }
    case DownArrives(keep, ms) => if n.down != [] { hide Inv; ReplyInv(n, keep, ms); }
    case _ => hide Inv; LinkInv(n, e);
  }

  lemma {:induction false} RunInv(file: seq<bv8>, rtt: Rtt, steps: seq<Step>)
    requires Settled(rtt)
    ensures Inv(Run(file, rtt, steps))
  {
    if steps == [] {
      InitialInv(file, rtt);
    } else {
      RunInv(file, rtt, steps[..|steps| - 1]);
      hide Inv, NetStep;
      StepInv(Run(file, rtt, steps[..|steps| - 1]), steps[|steps| - 1]);
    }
  }

  /** What a step brings to the client, if anything. */
  function Brings(n: Net, e: Step): seq<Event> {
    match e
    case AlarmRings => if n.c.alarm == 0 then [] else [Alarm]
    case DownArrives(keep, ms) => if n.down == [] then [] else [Reply(n.down[0].opcode, n.down[0].num, ms)]
    case _ => []
  }

  function Seen(file: seq<bv8>, rtt: Rtt, steps: seq<Step>): seq<Event> {
    if steps == [] then []
    else
      var before := steps[..|steps| - 1];
      Seen(file, rtt, before) + Brings(Run(file, rtt, before), steps[|steps| - 1])
  }

  /** One step is one reaction to what it brings; each transmission is counted. */
  lemma BringsReaction(n: Net, e: Step)
    requires n.c.Valid() && (n.c.alarm != 0 ==> n.h.sends != [])
    ensures var m, b := NetStep(n, e), Brings(n, e);
            if b == [] then m.c == n.c && m.h.sends == n.h.sends
            else |b| == 1 && m.c == React(n.c, b[0]).c && Sum(m.h.sends) == Sum(n.h.sends) + |React(n.c, b[0]).out|
  {
    hide React, Sum;
    var b := Brings(n, e);
    if b != [] {
      ReactValid(n.c, b[0]);
      SumOfOneMore(n.h.sends, 1);
      if n.h.sends != [] { SumOfOneMore(n.h.sends, n.h.sends[|n.h.sends| - 1] + 1); }
    }
  }

  /** The network's client is tftp_put run on the events that reach it, transmission for transmission. */
  lemma {:induction false} ClientIsTftpPut(file: seq<bv8>, rtt: Rtt, steps: seq<Step>)
    requires Settled(rtt)
    ensures var n, r := Run(file, rtt, steps), Reacts(Begin(file, rtt), Seen(file, rtt, steps));
            n.c == r.c && Sum(n.h.sends) == |r.out|
  {
    if steps != [] {
      var before, e := steps[..|steps| - 1], steps[|steps| - 1];
      ClientIsTftpPut(file, rtt, before);
      var n, seen := Run(file, rtt, before), Seen(file, rtt, before);
      var b := Brings(n, e);
      assert n.c.alarm != 0 ==> n.h.sends != [] by { RunInv(file, rtt, before); }
      BringsReaction(n, e);
      assert b != [] ==> (seen + b)[..|seen|] == seen;
      assert b == [] ==> seen + b == seen;
      assert Run(file, rtt, steps) == NetStep(n, e);
      assert Seen(file, rtt, steps) == seen + b;
      hide Run, React, NetStep, Brings, Sum, Seen;
      assert b != [] ==> Reacts(Begin(file, rtt), seen + b).c == React(n.c, b[0]).c;
    }
  }

  /** Whatever the links and the server do, the server holds a prefix of the file, and tftp_put returns 0 only when
      it holds all of it, whose length may exceed 65536 blocks. When it gives up the server lacks at most the rest
      from the block it was sending. */
  lemma ServerHoldsPrefix(file: seq<bv8>, rtt: Rtt, steps: seq<Step>)
    requires Settled(rtt)
    ensures var n := Run(file, rtt, steps);
            && n.s.file <= file
            && (n.c.status == Returned(0) || n.c.status == DividedByZero ==> n.s.file == file)
            && (n.c.status == Returned(1) ==> |n.s.file| >= n.c.count - n.c.n)
  {
    RunInv(file, rtt, steps);
    hide Run, Links, Counted;
  }

  /** An empty file is the failing family. The division by zero is reached by some run exactly when the file is empty,
      and return 0 by some run exactly when it is not. */
  lemma DividesExactlyWhenEmpty(file: seq<bv8>, rtt: Rtt)
    requires Settled(rtt)
    ensures (exists steps :: Run(file, rtt, steps).c.status == DividedByZero) <==> file == []
    ensures (exists steps :: Run(file, rtt, steps).c.status == Returned(0)) <==> file != []
  {
    FaultlessRunCompletes(file, rtt);
    forall steps ensures EndsRight(Run(file, rtt, steps)) { RunEnds(file, rtt, steps); }
    hide Run;
    var n := Run(file, rtt, Faultless(|file| / BLOCK + 1));
    assert forall steps :: EndsRight(Run(file, rtt, steps)) && Run(file, rtt, steps).c.file == file;
  }

  predicate EndsRight(n: Net) {
    (n.c.status == DividedByZero ==> n.c.file == []) && (n.c.status == Returned(0) ==> n.c.file != [])
  }

  lemma RunEnds(file: seq<bv8>, rtt: Rtt, steps: seq<Step>)
    requires Settled(rtt)
    ensures EndsRight(Run(file, rtt, steps))
  {
    RunInv(file, rtt, steps);
    hide Run, Links, Counted, InStep;
  }

  /** Every datagram on its way to the server is the request, or block i of the file with its number modulo 2^16: the 512
      bytes from 512 * (i - 1) on, fewer at the end of the file, none after a file of whole blocks. */
  lemma BlocksOnTheWay(file: seq<bv8>, rtt: Rtt, steps: seq<Step>, k: nat)
    requires Settled(rtt) && k < |Run(file, rtt, steps).up|
    ensures var u := Run(file, rtt, steps).up[k];
            u.request
            || (&& u.tag >= 1 && u.pkt.num == u.tag % 65536
                && 512 * (u.tag - 1) <= |file|
                && u.pkt.payload == file[512 * (u.tag - 1)..if 512 * u.tag < |file| then 512 * u.tag else |file|])
  {
    RunInv(file, rtt, steps);
    var n := Run(file, rtt, steps);
    hide Run, Waits, Counted;
    assert Carries(n.c.file, n.up[k]) && n.up[k].tag <= |n.h.sends|;
  }

  /** Each block is sent once and then only when an alarm rings, four times at most; giving up follows the fourth. */
  lemma SendsAreCaused(file: seq<bv8>, rtt: Rtt, steps: seq<Step>)
    requires Settled(rtt)
    ensures var n := Run(file, rtt, steps);
            && (forall i | 0 <= i < |n.h.sends| :: 1 <= n.h.sends[i] <= 4)
            && Sum(n.h.sends) == |n.h.sends| + n.h.alarms
            && (n.c.status == Returned(1) ==> n.h.sends != [] && n.h.sends[|n.h.sends| - 1] == 4)
  {
    RunInv(file, rtt, steps);
    hide Run, Inv, Sum;
    InvSends(Run(file, rtt, steps));
  }

  lemma InvSends(n: Net)
    requires Inv(n)
    ensures (forall i | 0 <= i < |n.h.sends| :: 1 <= n.h.sends[i] <= 4) && Sum(n.h.sends) == |n.h.sends| + n.h.alarms
    ensures n.c.status == Returned(1) ==> n.h.sends != [] && n.h.sends[|n.h.sends| - 1] == 4
  {
    hide Links, InStep, Sum, Clamped, Settled, Seconds;
  }

  /** A repeated acknowledgement never causes a transmission (section 4.2.3.1 of RFC 1123): in every reachable state
      an acknowledgement of an earlier block, or an error, changes nothing but the link it came on. */
  lemma StaleAckIsSilent(file: seq<bv8>, rtt: Rtt, steps: seq<Step>, keep: bool, ms: nat)
    requires Settled(rtt)
    requires var n := Run(file, rtt, steps); n.down != [] && !n.c.status.AwaitReply?
    requires var n := Run(file, rtt, steps); n.down[0].opcode == OPCODE_ERROR || n.down[0].tag < |n.h.sends|
    ensures var n := Run(file, rtt, steps);
            NetStep(n, DownArrives(keep, ms)) == n.(down := Rest(n.down, keep))
  {
    RunInv(file, rtt, steps);
    var n := Run(file, rtt, steps);
    hide Run;
    if n.c.status.Sending? { OnlyTheCurrentAck(n, ms); }
  }

  /** While a block is out an alarm of 2 to 480 seconds is pending, and otherwise none is. */
  lemma AlarmWhileSending(file: seq<bv8>, rtt: Rtt, steps: seq<Step>)
    requires Settled(rtt)
    ensures var c := Run(file, rtt, steps).c;
            (c.status.Sending? ==> 2 <= c.alarm <= 480) && (!c.status.Sending? ==> c.alarm == 0)
  {
    RunInv(file, rtt, steps);
    var c := Run(file, rtt, steps).c;
    hide Run, Links, Counted, InStep, Clamped, Settled;
    if c.status.Sending? { AlarmArmed(c.rtt); }
  }

  /** A finished transfer leaves estimates the next one can start from. */
  lemma NextPutSettled(file: seq<bv8>, rtt: Rtt, steps: seq<Step>)
    requires Settled(rtt) && Run(file, rtt, steps).c.status == Returned(0)
    ensures Settled(Run(file, rtt, steps).c.rtt)
  {
    RunInv(file, rtt, steps);
    hide Run, Links, Counted, InStep, Clamped, Settled;
  }

  // ----- a client that waits for ever -----

  /** The run goes on from a state. */
  function From(n: Net, steps: seq<Step>): (m: Net)
    requires n.c.Valid()
    ensures m.c.Valid()
  {
    if steps == [] then n else NetStep(From(n, steps[..|steps| - 1]), steps[|steps| - 1])
  }

  /** No datagram is on its way and the server knows of no request. */
  predicate Silent(n: Net) { n.up == [] && n.down == [] && !n.s.open }

  lemma {:induction false} SilentStays(n: Net, steps: seq<Step>)
    requires n.c.Valid() && n.c.status.AwaitReply? && n.c.alarm == 0 && Silent(n)
    ensures From(n, steps) == n
  {
    if steps != [] { SilentStays(n, steps[..|steps| - 1]); }
  }

  /** While anything is on its way, or the server knows of the request, the client can still be woken: one step or two
      bring it a datagram. */
  lemma Wakes(n: Net) returns (steps: seq<Step>)
    requires Inv(n) && n.c.status.AwaitReply? && !Silent(n)
    ensures !From(n, steps).c.status.AwaitReply?
  {
    if n.down != [] {
      steps := [DownArrives(false, 0)];
      ReplyWakes(n);
      FromOne(n, steps[0]);
    } else {
      var e := if !n.s.open then UpArrives(false) else if n.s.failed then ServerFails(0) else ServerRepeats;
      steps := [e, DownArrives(false, 0)];
      if !n.s.open { OnlyRequests(n); }
      FromTwo(n, e, DownArrives(false, 0));
      assert NetStep(n, e).c == n.c && NetStep(n, e).down != [];
      hide Inv, NetStep;
      ReplyWakes(NetStep(n, e));
    }
  }

  lemma ReplyWakes(n: Net)
    requires n.c.Valid() && n.c.status.AwaitReply? && n.down != []
    ensures !NetStep(n, DownArrives(false, 0)).c.status.AwaitReply?
  {}

  lemma OnlyRequests(n: Net)
    requires Inv(n) && n.c.status.AwaitReply? && n.up != []
    ensures n.up[0].request && n.s.num == 0
  {
    assert Carries(n.c.file, n.up[0]) && n.up[0].tag <= |n.h.sends|;
  }

  lemma FromOne(n: Net, e: Step)
    requires n.c.Valid()
    ensures From(n, [e]) == NetStep(n, e)
  {
    assert [e][..0] == [];
  }

  lemma FromTwo(n: Net, e: Step, f: Step)
    requires n.c.Valid()
    ensures From(n, [e, f]) == NetStep(NetStep(n, e), f)
  {
    assert [e, f][..1] == [e];
    FromOne(n, e);
  }

  /** The write request is sent once, with no alarm. In every reachable state in which tftp_put waits for the reply it
      waits for ever, whatever happens, exactly when nothing is on its way and no request reached the server. */
  lemma WaitsForEver(file: seq<bv8>, rtt: Rtt, before: seq<Step>)
    requires Settled(rtt) && Run(file, rtt, before).c.status.AwaitReply?
    ensures var n := Run(file, rtt, before);
            (forall steps :: From(n, steps).c.status.AwaitReply?) <==> Silent(n)
  {
    RunInv(file, rtt, before);
    var n := Run(file, rtt, before);
    if Silent(n) {
      forall steps ensures From(n, steps).c.status.AwaitReply? { SilentStays(n, steps); }
    } else {
      var steps := Wakes(n);
    }
  }

  /** An input that shows it: the one request is lost. */
  lemma LostRequestHangs(file: seq<bv8>, rtt: Rtt, steps: seq<Step>)
    ensures var n := Run(file, rtt, [UpLost]); Silent(n) && n.c.status.AwaitReply? && From(n, steps) == n
  {
    assert [UpLost][..0] == [];
    assert Run(file, rtt, []) == Initial(file, rtt);
    assert Run(file, rtt, [UpLost]) == NetStep(Initial(file, rtt), UpLost);
    SilentStays(Run(file, rtt, [UpLost]), steps);
  }

  // ----- one call after another -----

  /** A call of tftp_put: the file, and what happened on the network. */
  datatype Call = Call(file: seq<bv8>, steps: seq<Step>)

  /** The estimates the next call starts with, after these; giving up clears rttinit, so that the next call begins with
      fresh ones. */
  function Estimates(calls: seq<Call>): Rtt {
    if calls == [] then Init(Rtt(0.0, 0.0, 0.0, 0.0, 0))
    else
      var last := calls[|calls| - 1];
      var c := Run(last.file, Estimates(calls[..|calls| - 1]), last.steps).c;
      if c.status == Returned(1) then Init(c.rtt) else c.rtt
  }

  /** Each call returned before the next began. */
  predicate Returns(calls: seq<Call>) {
    calls == []
    || (var before, last := calls[..|calls| - 1], calls[|calls| - 1];
        Returns(before) && Run(last.file, Estimates(before), last.steps).c.status.Returned?)
  }

  /** Every call starts with estimates in range. */
  lemma {:induction false} EveryCallSettled(calls: seq<Call>)
    requires Returns(calls)
    ensures Settled(Estimates(calls))
  {
    if calls == [] {
      InitSettles(Rtt(0.0, 0.0, 0.0, 0.0, 0));
    } else {
      var before, last := calls[..|calls| - 1], calls[|calls| - 1];
      EveryCallSettled(before);
      var n := Run(last.file, Estimates(before), last.steps);
      RunInv(last.file, Estimates(before), last.steps);
      hide Run, Links, Counted, InStep, Settled;
      InitSettles(n.c.rtt);
    }
  }

  /** So what is said of one transfer holds of each in a row of calls. */
  lemma EveryCallHoldsPrefix(calls: seq<Call>, file: seq<bv8>, steps: seq<Step>)
    requires Returns(calls)
    ensures var n := Run(file, Estimates(calls), steps);
            && n.s.file <= file
            && (n.c.status == Returned(0) || n.c.status == DividedByZero ==> n.s.file == file)
            && (n.c.status == Returned(1) ==> |n.s.file| >= n.c.count - n.c.n)
  {
    EveryCallSettled(calls);
    ServerHoldsPrefix(file, Estimates(calls), steps);
  }

  // ----- a run that completes -----

  /** Request or block across, its acknowledgement back, `k` times over after the request. */
  function Faultless(k: nat): seq<Step> {
    (if k == 0 then [] else Faultless(k - 1)) + [UpArrives(false), DownArrives(false, 0)]
  }

  /** Block k + 1 is on its way and nothing else is. */
  ghost predicate AfterRounds(n: Net, k: nat) {
    && n.c.status.Sending? && |n.h.sends| == k + 1 && n.h.received == k
    && n.down == [] && |n.up| == 1 && n.up[0].tag == k + 1
    && n.s.open && !n.s.failed && !n.s.done
  }

  lemma RunTwo(file: seq<bv8>, rtt: Rtt, steps: seq<Step>, e: Step, f: Step)
    ensures Run(file, rtt, steps + [e, f]) == NetStep(NetStep(Run(file, rtt, steps), e), f)
  {
    hide NetStep;
    assert (steps + [e, f])[..|steps| + 1] == steps + [e];
    assert (steps + [e])[..|steps|] == steps;
  }

  /** The block across. */
  lemma BlockCrosses(n: Net, k: nat)
    requires Inv(n) && AfterRounds(n, k)
    ensures var u, m := n.up[0], NetStep(n, UpArrives(false));
            && m.c == n.c && m.up == [] && m.down == [Down(OPCODE_ACK, n.c.num, k + 1)]
            && m.h.sends == n.h.sends && m.h.received == k + 1
            && m.s.open && !m.s.failed && m.s.done == (BLOCK * (k + 1) > |n.c.file|)
    ensures n.c.n < BLOCK <==> BLOCK * (k + 1) > |n.c.file|
    ensures n.c.n < BLOCK ==> |n.c.file| == n.c.count
  {
    var u := n.up[0];
    assert Carries(n.c.file, u);
    assert u.pkt.num == (k + 1) % NUMBERS && n.s.num == k % NUMBERS && n.c.num == (k + 1) % NUMBERS;
    assert Takes(n.s, u) && |u.pkt.payload| == n.c.n;
    hide Links, Waits, Counted;
  }

  lemma Round(n: Net, k: nat)
    requires Inv(n) && AfterRounds(n, k)
    ensures var m := NetStep(NetStep(n, UpArrives(false)), DownArrives(false, 0));
            if BLOCK * (k + 1) <= |n.c.file| then AfterRounds(m, k + 1)
            else m.c.status == if n.c.file == [] then DividedByZero else Returned(0)
  {
    BlockCrosses(n, k);
    var n1 := NetStep(n, UpArrives(false));
    AckReact(n.c, Reply(OPCODE_ACK, n.c.num, 0));
    hide Inv, Stop, React, Serve, Seconds;
    assert NetStep(n1, DownArrives(false, 0)) == ClientStep(n1.(down := []), Reply(OPCODE_ACK, n.c.num, 0));
  }

  /** The request is answered. */
  function Opened(file: seq<bv8>, rtt: Rtt): Net {
    Net(Begin(file, rtt), Server([], 0, true, false, false), [], [Down(OPCODE_ACK, 0, 0)], History([], 0, 0))
  }

  lemma RequestServed(file: seq<bv8>, rtt: Rtt)
    ensures NetStep(Initial(file, rtt), UpArrives(false)) == Opened(file, rtt)
  {}

  lemma FirstRound(file: seq<bv8>, rtt: Rtt)
    ensures AfterRounds(NetStep(Opened(file, rtt), DownArrives(false, 0)), 0)
  {
    var n := Opened(file, rtt);
    assert NetStep(n, DownArrives(false, 0)) == ClientStep(n.(down := []), Reply(OPCODE_ACK, 0, 0));
  }

  lemma RoundZero(file: seq<bv8>, rtt: Rtt)
    ensures AfterRounds(Run(file, rtt, Faultless(0)), 0)
  {
    assert Faultless(0) == [] + [UpArrives(false), DownArrives(false, 0)];
    assert Run(file, rtt, []) == Initial(file, rtt);
    hide Run, NetStep, Initial, Opened, AfterRounds, Faultless;
    RunTwo(file, rtt, [], UpArrives(false), DownArrives(false, 0));
    RequestServed(file, rtt);
    FirstRound(file, rtt);
  }

  lemma {:induction false} Rounds(file: seq<bv8>, rtt: Rtt, k: nat)
    requires Settled(rtt) && BLOCK * k <= |file|
    ensures AfterRounds(Run(file, rtt, Faultless(k)), k)
  {
    if k == 0 {
      RoundZero(file, rtt);
    } else {
      Rounds(file, rtt, k - 1);
      assert Faultless(k) == Faultless(k - 1) + [UpArrives(false), DownArrives(false, 0)];
      hide Run, Inv, NetStep, AfterRounds, Faultless;
      RunInv(file, rtt, Faultless(k - 1));
      RunTwo(file, rtt, Faultless(k - 1), UpArrives(false), DownArrives(false, 0));
      Round(Run(file, rtt, Faultless(k - 1)), k - 1);
    }
  }

  /** When nothing is lost every file reaches the server, however long: one round for the request, one for each full
      block and one for the short block that ends it. Then tftp_put returns 0, or divides by zero if the file is
      empty. */
  lemma FaultlessRunCompletes(file: seq<bv8>, rtt: Rtt)
    requires Settled(rtt)
    ensures var n := Run(file, rtt, Faultless(|file| / BLOCK + 1));
            n.s.file == file && n.c.status == if file == [] then DividedByZero else Returned(0)
  {
    var k := |file| / BLOCK;
    Rounds(file, rtt, k);
    RunInv(file, rtt, Faultless(k));
    RunTwo(file, rtt, Faultless(k), UpArrives(false), DownArrives(false, 0));
    ServerHoldsPrefix(file, rtt, Faultless(k + 1));
    hide Run, Inv, NetStep, AfterRounds;
    Round(Run(file, rtt, Faultless(k)), k);
  }
}
