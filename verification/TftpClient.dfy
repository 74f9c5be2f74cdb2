/** tftp_put: the sending client, one received packet or one alarm at a time. */
module TftpClient {
  import opened TftpRtt

  const BLOCK := 512
  const NUMBERS := 0x1_0000
  const OPCODE_ACK := 4
  const OPCODE_ERROR := 5

  datatype Packet = Data(num: nat, payload: seq<bv8>)

  /** What ends a wait: the alarm, or a datagram and the milliseconds since the last transmission. */
  datatype Event = Alarm | Reply(opcode: nat, num: nat, ms: nat)

  /** `AwaitReply`: the write request is out. `Sending`: a block is out. An empty file makes the progress bar divide
      by the file size, zero. */
  datatype Status = AwaitReply | Sending | Returned(code: int) | DividedByZero

  /** The locals of tftp_put: `count` bytes of `file` were read, the last `n` of them are block `num`.
      `alarm` is the pending alarm in seconds, 0 when there is none. */
  datatype Client = Client(file: seq<bv8>, num: nat, n: nat, count: nat, rtt: Rtt, alarm: int, status: Status)
  {
    predicate Valid() { n <= count <= |file| }
    predicate Done() { status.Returned? || status.DividedByZero? }
    function Payload(): seq<bv8>
      requires Valid()
    {
      file[count - n..count]
    }
  }

  datatype Reaction = Reaction(c: Client, out: seq<Packet>)

  function Min(a: int, b: int): int { if a < b then a else b }

  function Begin(file: seq<bv8>, rtt: Rtt): Client { Client(file, 0, 0, 0, rtt, 0, AwaitReply) }

  function Transmit(c: Client): Reaction
    requires c.Valid()
  {
    Reaction(c.(alarm := Seconds(c.rtt)), [Data(c.num, c.Payload())])
  }

  /** The next block read from the file, which is the empty one at its end. */
  function Begun(c: Client): (d: Client)
    requires c.Valid()
    ensures d.Valid() && d.n <= BLOCK && d.count - d.n == c.count && d.file == c.file
    ensures d.Payload() == c.file[c.count..d.count]
  {
    var n := Min(BLOCK, |c.file| - c.count);
    c.(num := (c.num + 1) % NUMBERS, n := n, count := c.count + n, rtt := NewPack(c.rtt), status := Sending)
  }

  function NextBlock(c: Client): Reaction
    requires c.Valid()
  {
    Transmit(Begun(c))
  }

  predicate Accepts(c: Client, e: Event) { e.Reply? && e.num == c.num && e.opcode != OPCODE_ERROR }

  /** The progress bar is redrawn every 25 blocks and at the end of the file; it divides by the file size. */
  predicate Redraws(c: Client) { c.num % 25 == 0 || |c.file| == c.count }

  function Acknowledged(c: Client, ms: nat): Reaction
    requires c.Valid()
  {
    var d := c.(alarm := 0, rtt := Stop(c.rtt, ms));
    if Redraws(c) && |c.file| == 0 then Reaction(d.(status := DividedByZero), [])
    else if c.n < BLOCK then Reaction(d.(status := Returned(0)), [])
    else NextBlock(d)
  }

  /** The alarm when none is pending, and anything once the client is done, changes nothing. */
  function React(c: Client, e: Event): Reaction
    requires c.Valid()
  {
    if c.status.AwaitReply? then
      if e.Reply? then NextBlock(c) else Reaction(c, [])
    else if !c.status.Sending? then Reaction(c, [])
    else if e.Alarm? then
      var d := c.(rtt := Backoff(c.rtt));
      if GivesUp(c.rtt) then Reaction(d.(alarm := 0, status := Returned(1)), []) else Transmit(d)
    else if Accepts(c, e) then Acknowledged(c, e.ms)
    else Reaction(c, [])
  }

  lemma ReactValid(c: Client, e: Event)
    requires c.Valid()
    ensures React(c, e).c.Valid() && React(c, e).c.file == c.file
    ensures |React(c, e).out| <= 1
  {}

  /** Where the client stands after these events, and all it has transmitted. */
  function Reacts(c: Client, events: seq<Event>): (r: Reaction)
    requires c.Valid()
    ensures r.c.Valid() && r.c.file == c.file
  {
    if events == [] then Reaction(c, [])
    else
      var before := Reacts(c, events[..|events| - 1]);
      ReactValid(before.c, events[|events| - 1]);
      var r := React(before.c, events[|events| - 1]);
      Reaction(r.c, before.out + r.out)
  }

  lemma ReactsNext(c: Client, events: seq<Event>, i: nat)
    requires c.Valid() && i < |events|
    ensures React(Reacts(c, events[..i]).c, events[i]).c == Reacts(c, events[..i + 1]).c
    ensures Reacts(c, events[..i]).out + React(Reacts(c, events[..i]).c, events[i]).out
         == Reacts(c, events[..i + 1]).out
  {
    assert events[..i + 1][..i] == events[..i];
  }

  /** Nothing follows the end. */
  lemma {:induction false} DoneStays(c: Client, events: seq<Event>, i: nat)
    requires c.Valid() && i <= |events|
    requires i == |events| || Reacts(c, events[..i]).c.Done()
    ensures Reacts(c, events) == Reacts(c, events[..i])
    decreases |events| - i
  {
    if i == |events| {
      assert events[..i] == events;
    } else {
      ReactsNext(c, events, i);
      DoneStays(c, events, i + 1);
    }
  }

  lemma AckReact(c: Client, e: Event)
    requires c.Valid() && c.status.Sending? && Accepts(c, e)
    ensures var d := c.(alarm := 0, rtt := Stop(c.rtt, e.ms));
            React(c, e) == if Redraws(c) && |c.file| == 0 then Reaction(d.(status := DividedByZero), [])
                           else if c.n < BLOCK then Reaction(d.(status := Returned(0)), []) else NextBlock(d)
  {}

  /** The estimates are in range wherever the next packet, or the next call, begins with them. */
  ghost predicate Healthy(c: Client) {
    match c.status
    case AwaitReply => Settled(c.rtt)
    case Sending => Clamped(c.rtt)
    case Returned(code) => code == 1 || (code == 0 && Settled(c.rtt))
    case DividedByZero => true
  }

  lemma NextBlockHealthy(c: Client)
    requires c.Valid() && Settled(c.rtt)
    ensures Healthy(NextBlock(c).c)
  {
    assert Scale(0) == 1.0;
  }

  lemma ReactHealthy(c: Client, e: Event)
    requires c.Valid() && Healthy(c)
    ensures Healthy(React(c, e).c)
  {
    hide NextBlock, Stop, Seconds, Scale;
    if c.status.AwaitReply? {
      if e.Reply? { NextBlockHealthy(c); }
    } else if c.status.Sending? {
      if e.Alarm? {
        if !GivesUp(c.rtt) { BackoffKeeps(c.rtt); }
      } else if Accepts(c, e) {
        AckReact(c, e);
        StopSettles(c.rtt, e.ms);
        NextBlockHealthy(c.(alarm := 0, rtt := Stop(c.rtt, e.ms)));
      }
    }
  }

  lemma {:induction false} ReactsHealthy(c: Client, events: seq<Event>)
    requires c.Valid() && Healthy(c)
    ensures Healthy(Reacts(c, events).c)
  {
    if events != [] {
      ReactsHealthy(c, events[..|events| - 1]);
      hide Healthy, React;
      ReactHealthy(Reacts(c, events[..|events| - 1]).c, events[|events| - 1]);
    }
  }

  /** How a wait for an acknowledgement ends; `Pending` when nothing more reaches the client. */
  datatype Wait = Acked | TimedOut | Pending

  /** The program's static state: rtt_info and whether it was initialised. */
  class Tftp {
    const rttinfo: RttInfo
    var rttinit: bool

    /** The saved estimates are fit for the next call. */
    ghost predicate Ready()
      reads this, rttinfo
    {
      rttinit ==> Settled(rttinfo.View())
    }

    constructor ()
      ensures fresh(rttinfo) && !rttinit && Ready()
    {
      rttinfo := new RttInfo();
      rttinit := false;
    }

    /** From the label sendagain to the end of the wait for block `num`: send it, send it again at every alarm until
        the fourth, and read datagrams until one acknowledges it. `before` and `out` are where the client stood. */
    method SendBlock(num: nat, payload: seq<bv8>, events: seq<Event>, from: nat,
                     ghost begin: Client, ghost before: Client, ghost out: seq<Packet>)
      returns (i: nat, wait: Wait, sent: seq<Packet>, ghost c: Client)
      requires from <= |events| && begin.Valid() && before.Valid() && before.status.Sending?
      requires num == before.num && payload == before.Payload() && rttinfo.View() == before.rtt
      requires Reacts(begin, events[..from]) == Reaction(Transmit(before).c, out + Transmit(before).out)
      modifies rttinfo
      ensures wait.Acked? ==> from < i <= |events| && Accepts(c, events[i - 1])
      ensures wait.Acked? ==> Reacts(begin, events[..i - 1]) == Reaction(c, out + sent)
      ensures !wait.TimedOut? ==> c == before.(rtt := c.rtt, alarm := c.alarm)
      ensures wait.Pending? ==> i == |events|
      ensures wait.TimedOut? ==> 0 < i <= |events| && c.status == Returned(1)
      ensures !wait.Acked? ==> Reacts(begin, events[..i]) == Reaction(c, out + sent)
      ensures rttinfo.View() == c.rtt
    {
      hide Stop, Backoff, NewPack, Init, Seconds, Reacts, GivesUp, Settled;
      sent := [Data(num, payload)];
      var alarm := rttinfo.RttStart();
      i, c := from, Transmit(before).c;
      while true
        invariant i <= |events|
        invariant Reacts(begin, events[..i]) == Reaction(c, out + sent)
        invariant c == before.(rtt := c.rtt, alarm := c.alarm) && rttinfo.View() == c.rtt
        decreases |events| - i
      {
        if i == |events| { return i, Pending, sent, c; }
        ReactsNext(begin, events, i);
        match events[i]
        case Alarm =>
          var t := rttinfo.RttTimeout();
          c := React(c, Alarm).c;
          i := i + 1;
          if t < 0 { return i, TimedOut, sent, c; }
          assert out + (sent + [Data(num, payload)]) == out + sent + [Data(num, payload)];
          sent := sent + [Data(num, payload)];
          alarm := rttinfo.RttStart();
        case Reply(opcode, ackNum, ms) =>
          i := i + 1;
          if ackNum == num && opcode != OPCODE_ERROR { return i, Acked, sent, c; }
      }
    }

    /** The loop over blocks, once a reply to the write request has come. */
    method SendFile(file: seq<bv8>, events: seq<Event>, from: nat, ghost begin: Client)
      returns (status: Status, sent: seq<Packet>)
      requires 0 < from <= |events| && begin == Begin(file, rttinfo.View()) && rttinit
      requires Reacts(begin, events[..from]) == NextBlock(begin)
      modifies this`rttinit, rttinfo
      ensures var end := Reacts(begin, events);
              && status == end.c.status && sent == end.out
              && rttinfo.View() == end.c.rtt
              && rttinit == (status != Returned(1))
    {
      hide Stop, Backoff, NewPack, Init, Seconds, Reacts, GivesUp, Settled, React, Transmit, Acknowledged, Client.Payload;
      var i, num, n, count := from, 0, BLOCK, 0;
      ghost var c := begin;
      sent := [];
      while n == BLOCK
        invariant 0 < i <= |events| && 0 <= n <= BLOCK && rttinit && 0 <= count <= |file|
        invariant c.Valid() && c.file == file && num == c.num && count == c.count && rttinfo.View() == c.rtt
        invariant n == BLOCK ==> Reacts(begin, events[..i]) == Reaction(NextBlock(c).c, sent + NextBlock(c).out)
        invariant n < BLOCK ==> Reacts(begin, events[..i]) == Reaction(c, sent) && c.status == Returned(0)
        decreases |events| - i
      {
        num := (num + 1) % NUMBERS;
        n := Min(BLOCK, |file| - count);
        var payload := file[count..count + n];
        count := count + n;
        rttinfo.RttNewPack();
        c := Begun(c);
        var wait, more;
        i, wait, more, c := SendBlock(num, payload, events, i, begin, c, sent);
        sent := sent + more;
        if !wait.Acked? {
          DoneStays(begin, events, i);
          rttinit := wait.Pending?;
          return if wait.Pending? then Sending else Returned(1), sent;
        }
        ReactsNext(begin, events, i - 1);
        AckReact(c, events[i - 1]);
        rttinfo.RttStop(events[i - 1].ms);
        if num % 25 == 0 || |file| == count {
          if |file| == 0 {
            DoneStays(begin, events, i);
            return DividedByZero, sent;
          }
        }
        c := c.(alarm := 0, rtt := Stop(c.rtt, events[i - 1].ms));
        if n < BLOCK { c := c.(status := Returned(0)); }
      }
      DoneStays(begin, events, i);
      return Returned(0), sent;
    }

    /** tftp_put from the write request on, against everything that reaches it until `events` run out: `status` is
        then what it returned or what it waits for. Giving up makes the next call start with fresh estimates, and after
        any return the next call's estimates are in range. */
    method TftpPut(file: seq<bv8>, events: seq<Event>) returns (status: Status, sent: seq<Packet>)
      modifies this, rttinfo
      ensures var start := if old(rttinit) then old(rttinfo.View()) else Init(old(rttinfo.View()));
              var end := Reacts(Begin(file, start), events);
              && status == end.c.status && sent == end.out
              && rttinfo.View() == end.c.rtt
              && rttinit == (status != Returned(1))
      ensures old(Ready()) && status.Returned? ==> Ready()
    {
      ghost var ready := Ready();
      if !rttinit {
        rttinfo.RttInit();
        rttinit := true;
      }
      ghost var begin := Begin(file, rttinfo.View());
      if ready { ReactsHealthy(begin, events); }
      hide Settled, Clamped;
      var i := 0;
      while i < |events| && events[i] == Alarm
        invariant i <= |events| && Reacts(begin, events[..i]) == Reaction(begin, [])
        invariant rttinit && rttinfo.View() == begin.rtt
      {
        ReactsNext(begin, events, i);
        i := i + 1;
      }
      assert i == |events| ==> events[..i] == events;
      if i == |events| { return AwaitReply, []; }
      ReactsNext(begin, events, i);
      status, sent := SendFile(file, events, i + 1, begin);
    }
  }
}
