/** csme_ntoh: the walk over the commands of a control message. */
module CsmeNtoh {

  const API_HDR_LEN := 8
  const OPCODE_CONTROL := 1

  /** The number of commands found, and where the walk stopped: the new end of the message. */
  datatype Walked = Walked(cmds: nat, end: nat)

  function Padded(length: int): int { (length + 3) / 4 * 4 }

  predicate Zero4(mem: seq<bv8>, at: nat)
    requires at + 4 <= |mem|
  {
    mem[at] == 0 && mem[at + 1] == 0 && mem[at + 2] == 0 && mem[at + 3] == 0
  }

  /** The walk from marker `at`; `mem` holds the message and whatever follows it, `tail` is the message's end. */
  function Walk(mem: seq<bv8>, tail: nat, at: nat): Walked
    requires at <= tail && tail + 4 <= |mem|
    decreases tail - at
  {
    if Zero4(mem, at) || at + API_HDR_LEN >= tail then Walked(0, at)
    else
      var length := mem[at] as int;
      if length < API_HDR_LEN then Walked(0, at)
      else
        var next := at + Padded(length);
        if next > tail then Walked(1, next)
        else
          var rest := Walk(mem, tail, next);
          Walked(rest.cmds + 1, rest.end)
  }

  /** The loop. `read` is the end of the last four bytes it looked at. */
  method Ntoh(opcode: nat, endianess: bool, mem: array<bv8>, tail: nat) returns (cmds: nat, newTail: nat, ghost read: nat)
    requires tail + 4 <= mem.Length
    ensures opcode == OPCODE_CONTROL && endianess ==> Walked(cmds, newTail) == Walk(mem[..], tail, 0)
    ensures opcode == OPCODE_CONTROL && endianess ==> (read <= tail <==> newTail + 4 <= tail || newTail > tail)
    ensures !(opcode == OPCODE_CONTROL && endianess) ==> cmds == 1 && newTail == tail && read == 0
  {
    cmds, newTail, read := 1, tail, 0;
    if opcode == OPCODE_CONTROL && endianess {
      var marker := 0;
      cmds := 0;
      read := 4;
      while !(mem[marker] == 0 && mem[marker + 1] == 0 && mem[marker + 2] == 0 && mem[marker + 3] == 0)
            && marker + API_HDR_LEN < tail
        invariant marker <= tail
        invariant read == marker + 4
        invariant var rest := Walk(mem[..], tail, marker); var all := Walk(mem[..], tail, 0);
                  all.cmds == cmds + rest.cmds && all.end == rest.end
        decreases tail - marker
      {
        var length := mem[marker] as int;
        if length < API_HDR_LEN { break; }
        cmds := cmds + 1;
        marker := marker + (length + 3) - (length + 3) % 4;
        if marker > tail { break; }
        read := marker + 4;
      }
      newTail := marker;
    }
  }

  // ----- well-formed messages -----

  /** A command as sent: its first byte is its length, 8 or more. */
  ghost predicate IsCommand(c: seq<bv8>) {
    8 <= |c| < 256 && c[0] as int == |c|
  }

  /** A command padded to a multiple of four with whatever bytes. */
  ghost predicate IsPaddedCommand(c: seq<bv8>) {
    |c| % 4 == 0 && exists n :: 0 < n <= |c| < n + 4 && IsCommand(c[..n])
  }

  function Concat(cs: seq<seq<bv8>>): seq<bv8> {
    if cs == [] then [] else cs[0] + Concat(cs[1..])
  }

  function Message(cs: seq<seq<bv8>>): seq<bv8> { Concat(cs) + [0, 0, 0, 0] }

  /** On a list of commands followed by the terminator csme_tx appends, the walk from any command boundary counts
      the commands left and stops at the terminator, whatever bytes follow the message. */
  lemma {:induction false} WalkCounts(before: seq<bv8>, cs: seq<seq<bv8>>, after: seq<bv8>)
    requires forall i | 0 <= i < |cs| :: IsPaddedCommand(cs[i])
    requires |after| >= 4
    ensures var mem := before + Message(cs) + after;
            var tail := |before| + |Message(cs)|;
            Walk(mem, tail, |before|) == Walked(|cs|, tail - 4)
    decreases |cs|
  {
    hide Walk, Zero4, IsPaddedCommand;
    var mem := before + Message(cs) + after;
    var tail := |before| + |Message(cs)|;
    if cs == [] {
      AtTerminator(mem, tail);
    } else {
      var c, rest := cs[0], Message(cs[1..]);
      PaddedNotEmpty(c);
      assert Message(cs) == c + rest;
      assert mem == (before + c) + rest + after;
      CommandStep(mem, tail, |before|, c);
      WalkCounts(before + c, cs[1..], after);
    }
  }

  lemma AtTerminator(mem: seq<bv8>, tail: nat)
    requires 4 <= tail && tail + 4 <= |mem| && mem[tail - 4..tail] == [0, 0, 0, 0]
    ensures Walk(mem, tail, tail - 4) == Walked(0, tail - 4)
  {}

  lemma PaddedNotEmpty(c: seq<bv8>)
    requires IsPaddedCommand(c)
    ensures c != []
  {}

  /** A command's first byte is its length, and the next one begins where its padding ends. */
  lemma PaddedLength(c: seq<bv8>)
    requires IsPaddedCommand(c)
    ensures c != [] && c[0] as int >= 8 && Padded(c[0] as int) == |c|
  {
    var n :| 0 < n <= |c| < n + 4 && IsCommand(c[..n]);
    assert c[..n][0] == c[0];
    PaddedIs(n, |c|);
  }

  lemma PaddedIs(n: int, m: int)
    requires 0 < n <= m < n + 4 && m % 4 == 0
    ensures Padded(n) == m
  {}

  lemma WalkStep(mem: seq<bv8>, tail: nat, at: nat, length: int)
    requires at + 8 < tail && tail + 4 <= |mem| && mem[at] as int == length >= 8
    requires 0 < Padded(length) && at + Padded(length) <= tail
    ensures var more := Walk(mem, tail, at + Padded(length)); Walk(mem, tail, at) == Walked(more.cmds + 1, more.end)
  {
    hide Padded;
    assert mem[at] != 0;
  }

  /** At a command with four more bytes of the message behind it, the walk takes exactly that command. */
  lemma CommandStep(mem: seq<bv8>, tail: nat, at: nat, c: seq<bv8>)
    requires IsPaddedCommand(c) && at + |c| + 4 <= tail && tail + 4 <= |mem| && mem[at] == c[0]
    ensures var more := Walk(mem, tail, at + |c|);
            Walk(mem, tail, at) == Walked(more.cmds + 1, more.end)
  {
    hide Walk, IsPaddedCommand, Zero4;
    PaddedLength(c);
    assert Padded(c[0] as int) >= 8 by { assert c[0] as int >= 8; }
    hide Padded;
    WalkStep(mem, tail, at, c[0] as int);
  }

  /** csme_ntoh undoes the framing: it counts the commands and trims exactly the terminator. */
  lemma NtohOfMessage(cs: seq<seq<bv8>>, after: seq<bv8>)
    requires forall i | 0 <= i < |cs| :: IsPaddedCommand(cs[i])
    requires |after| >= 4
    ensures Walk(Message(cs) + after, |Message(cs)|, 0) == Walked(|cs|, |Concat(cs)|)
  {
    WalkCounts([], cs, after);
    assert [] + Message(cs) + after == Message(cs) + after;
  }
}
