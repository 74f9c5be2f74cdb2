/** my_read and readline: a buffered reader of bytes and lines over a socket. */
module LineReader {

  type Byte = bv8

  const MAXLINE := 1024
  const NEWLINE: Byte := 10

  /** What one read() on the socket does. A chunk holds 1 to MAXLINE bytes, `Closed` is the return value 0, and
      past the last of these the peer has closed. */
  datatype Outcome = Chunk(bytes: seq<Byte>) | Interrupted | Failed | Closed

  predicate ValidOutcome(o: Outcome) { o.Chunk? ==> 1 <= |o.bytes| <= MAXLINE }

  /** What a caller of my_read sees of the socket, whatever the chunks are. */
  datatype Token = Got(byte: Byte) | End | Error

  function Gots(bytes: seq<Byte>): (t: seq<Token>)
    ensures |t| == |bytes|
  {
    seq(|bytes|, i requires 0 <= i < |bytes| => Got(bytes[i]))
  }

  /** The stream of a socket: its bytes one after the other, however they were cut, and its ends and errors;
      interruptions leave no trace. */
  function Tokens(script: seq<Outcome>): seq<Token> {
    if script == [] then []
    else
      (match script[0]
       case Chunk(bytes) => Gots(bytes)
       case Interrupted => []
       case Failed => [Error]
       case Closed => [End]) + Tokens(script[1..])
  }

  lemma GotsConcat(a: seq<Byte>, b: seq<Byte>)
    ensures Gots(a + b) == Gots(a) + Gots(b)
  {}

  /** Two ways of cutting the same bytes into chunks, with interruptions anywhere, give the same stream. */
  lemma {:induction false} OnlyBytesMatter(script: seq<Outcome>)
    requires forall i | 0 <= i < |script| :: script[i].Chunk? || script[i].Interrupted?
    ensures Tokens(script) == Gots(Payload(script))
  {
    if script != [] {
      OnlyBytesMatter(script[1..]);
      if script[0].Chunk? {
        GotsConcat(script[0].bytes, Payload(script[1..]));
      } else {
        assert [] + Tokens(script[1..]) == Tokens(script[1..]);
      }
    }
  }

  function Payload(script: seq<Outcome>): seq<Byte> {
    if script == [] then []
    else (if script[0].Chunk? then script[0].bytes else []) + Payload(script[1..])
  }

  // ----- a line of the stream -----

  /** How a call of readline ends: after a newline, with the buffer full, at the end of the stream, or on an error. */
  datatype Stop = AtNewline | Full | AtEnd | AtError

  datatype Line = Line(bytes: seq<Byte>, stop: Stop, rest: seq<Token>)

  /** At most `room` bytes up to and including the first newline. The end and the error are taken off the stream. */
  function LineOf(stream: seq<Token>, room: nat): (l: Line)
    ensures |l.bytes| <= room
  {
    if room == 0 then Line([], Full, stream)
    else if stream == [] then Line([], AtEnd, [])
    else
      match stream[0]
      case End => Line([], AtEnd, stream[1..])
      case Error => Line([], AtError, stream[1..])
      case Got(c) =>
        if c == NEWLINE then Line([c], AtNewline, stream[1..])
        else
          var l := LineOf(stream[1..], room - 1);
          l.(bytes := [c] + l.bytes)
  }

  /** No byte is lost or repeated. */
  lemma {:induction false} LineIsPrefix(stream: seq<Token>, room: nat)
    ensures var l := LineOf(stream, room);
            && |l.bytes| <= |stream| && Gots(l.bytes) == stream[..|l.bytes|]
            && (l.stop.AtNewline? || l.stop.Full? ==> l.rest == stream[|l.bytes|..])
            && (l.stop.AtEnd? ==> if |l.bytes| == |stream| then l.rest == []
                                  else stream[|l.bytes|] == End && l.rest == stream[|l.bytes| + 1..])
            && (l.stop.AtError? ==> |l.bytes| < |stream| && stream[|l.bytes|] == Error && l.rest == stream[|l.bytes| + 1..])
  {
    if room > 0 && stream != [] && stream[0].Got? && stream[0].byte != NEWLINE {
      var l := LineOf(stream[1..], room - 1);
      LineIsPrefix(stream[1..], room - 1);
      GotsConcat([stream[0].byte], l.bytes);
      assert Gots([stream[0].byte]) == [stream[0]];
      assert stream == [stream[0]] + stream[1..];
    }
  }

  /** A newline, byte 10, is only ever the last byte, and is there exactly when the call ends at one. */
  lemma {:induction false} LineShape(stream: seq<Token>, room: nat)
    ensures var l := LineOf(stream, room);
            && (forall i | 0 <= i < |l.bytes| - 1 :: l.bytes[i] != 10)
            && (l.stop.AtNewline? <==> l.bytes != [] && l.bytes[|l.bytes| - 1] == 10)
            && (l.stop.Full? ==> |l.bytes| == room)
            && (l.stop.AtEnd? || l.stop.AtError? ==> |l.bytes| < room)
  {
    if room > 0 && stream != [] && stream[0].Got? && stream[0].byte != NEWLINE {
      LineShape(stream[1..], room - 1);
    }
  }

  /** What readline returns. */
  function ReturnOf(l: Line): int {
    match l.stop
    case AtError => -1
    case Full => |l.bytes| + 1
    case AtNewline => |l.bytes|
    case AtEnd => |l.bytes|
  }

  /** The next bytes of the stream fill the buffer before a newline, an end or an error comes. */
  predicate Overflows(stream: seq<Token>, room: nat) {
    room <= |stream| && forall i | 0 <= i < room :: stream[i].Got? && stream[i].byte != 10
  }

  lemma {:induction false} FullExactly(stream: seq<Token>, room: nat)
    ensures LineOf(stream, room).stop.Full? <==> Overflows(stream, room)
  {
    if room > 0 && stream != [] && stream[0].Got? && stream[0].byte != NEWLINE {
      FullExactly(stream[1..], room - 1);
      assert Overflows(stream, room) <==> Overflows(stream[1..], room - 1) by {
        if Overflows(stream[1..], room - 1) {
          forall i | 0 <= i < room ensures stream[i].Got? && stream[i].byte != NEWLINE {
            if i > 0 { assert stream[i] == stream[1..][i - 1]; }
          }
        }
      }
    }
  }

  /** Apart from errors the return value is the number of bytes stored, but one more exactly when the next maxlen - 1
      tokens of the stream are bytes without a newline among them. */
  lemma ReturnCounts(stream: seq<Token>, maxlen: nat)
    requires maxlen >= 1
    ensures var l := LineOf(stream, maxlen - 1);
            ReturnOf(l) == if l.stop.AtError? then -1 else |l.bytes| + if Overflows(stream, maxlen - 1) then 1 else 0
  {
    FullExactly(stream, maxlen - 1);
  }

  /** The line when these bytes were stored before. */
  function After(stored: seq<Byte>, l: Line): Line { l.(bytes := stored + l.bytes) }

  /** One token of a line. */
  lemma LineUnfolds(stream: seq<Token>, room: nat, stored: seq<Byte>)
    ensures var l := After(stored, LineOf(stream, room));
            if room == 0 then l == Line(stored, Full, stream)
            else if stream == [] then l == Line(stored, AtEnd, [])
            else if stream[0] == End then l == Line(stored, AtEnd, stream[1..])
            else if stream[0] == Error then l == Line(stored, AtError, stream[1..])
            else
              var c := stream[0].byte;
              if c == NEWLINE then l == Line(stored + [c], AtNewline, stream[1..])
              else l == After(stored + [c], LineOf(stream[1..], room - 1))
  {
    if room > 0 && stream != [] && stream[0].Got? {
      var c := stream[0].byte;
      assert stored + ([c] + LineOf(stream[1..], room - 1).bytes) == stored + [c] + LineOf(stream[1..], room - 1).bytes;
    } else {
      assert stored + [] == stored;
    }
  }

  // ----- successive calls -----

  /** The first k calls of readline, with what they leave. */
  function Lines(stream: seq<Token>, room: nat, k: nat): (seq<Line>, seq<Token>)
    decreases k
  {
    if k == 0 then ([], stream)
    else
      var l := LineOf(stream, room);
      var more := Lines(l.rest, room, k - 1);
      ([l] + more.0, more.1)
  }

  function Joined(lines: seq<Line>): seq<Byte> {
    if lines == [] then [] else lines[0].bytes + Joined(lines[1..])
  }

  /** Over a stream of bytes the lines joined together are what was taken off it, and the rest is still there. */
  lemma {:induction false} LinesAreTheStream(bytes: seq<Byte>, room: nat, k: nat)
    ensures var (lines, rest) := Lines(Gots(bytes), room, k);
            var n := |Joined(lines)|;
            n <= |bytes| && Joined(lines) == bytes[..n] && rest == Gots(bytes[n..])
    decreases k
  {
    if k > 0 {
      var l := LineOf(Gots(bytes), room);
      var m := |l.bytes|;
      LineOfBytes(bytes, room);
      hide LineOf, Gots;
      LinesAreTheStream(bytes[m..], room, k - 1);
      var (more, rest) := Lines(l.rest, room, k - 1);
      assert ([l] + more)[1..] == more;
      var n := |Joined(more)|;
      SliceSum(bytes, m, n);
    } else {
      assert bytes[0..] == bytes;
    }
  }

  lemma SliceSum(bytes: seq<Byte>, m: nat, n: nat)
    requires m + n <= |bytes|
    ensures bytes[m..][n..] == bytes[m + n..] && bytes[..m + n] == bytes[..m] + bytes[m..][..n]
  {}

  lemma LineOfBytes(bytes: seq<Byte>, room: nat)
    ensures var l := LineOf(Gots(bytes), room);
            |l.bytes| <= |bytes| && l.bytes == bytes[..|l.bytes|] && l.rest == Gots(bytes[|l.bytes|..])
  {
    var l := LineOf(Gots(bytes), room);
    LineIsPrefix(Gots(bytes), room);
    var m := |l.bytes|;
    GotsPrefix(bytes, l.bytes);
    assert l.rest == Gots(bytes)[m..] by {
      assert m < |bytes| ==> Gots(bytes)[m].Got?;
      assert m == |bytes| ==> Gots(bytes)[m..] == [];
    }
    assert Gots(bytes)[m..] == Gots(bytes[m..]);
  }

  lemma GotsPrefix(bytes: seq<Byte>, head: seq<Byte>)
    requires |head| <= |bytes| && Gots(head) == Gots(bytes)[..|head|]
    ensures head == bytes[..|head|]
  {
    forall i | 0 <= i < |head| ensures head[i] == bytes[i] {
      assert Gots(head)[i] == Gots(bytes)[i];
    }
  }

  // ----- the code -----

  class Reader {
    var readCnt: int
    var readPtr: nat
    const readBuf: array<Byte>
    /** The socket: what the next calls of read() will do. */
    var script: seq<Outcome>

    ghost predicate Connected()
      reads this
    {
      readBuf.Length == MAXLINE && forall i | 0 <= i < |script| :: ValidOutcome(script[i])
    }

    ghost predicate Valid()
      reads this
    {
      Connected() && (readCnt > 0 ==> readPtr + readCnt <= MAXLINE)
    }

    ghost function Buffered(): seq<Byte>
      requires Valid()
      reads this, readBuf
    {
      if readCnt > 0 then readBuf[readPtr..readPtr + readCnt] else []
    }

    /** Everything my_read has still to hand out. */
    ghost function Stream(): seq<Token>
      requires Valid()
      reads this, readBuf
    {
      Gots(Buffered()) + Tokens(script)
    }

    constructor (script: seq<Outcome>)
      requires forall i | 0 <= i < |script| :: ValidOutcome(script[i])
      ensures Valid() && Stream() == Tokens(script) && fresh(readBuf)
    {
      readCnt, readPtr, readBuf, this.script := 0, 0, new Byte[MAXLINE], script;
    }

    /** read(): the number of bytes stored, 0, or -1 with errno telling whether it was interrupted. */
    method Read() returns (n: int, interrupted: bool)
      requires Connected()
      modifies this`script, readBuf
      ensures Connected() && n <= MAXLINE
      ensures |script| < |old(script)| || (n == 0 && script == old(script) == [])
      ensures interrupted ==> n == -1
      ensures Tokens(old(script))
           == (if interrupted then [] else if n < 0 then [Error]
               else if n > 0 then Gots(readBuf[..n]) else if old(script) == [] then [] else [End]) + Tokens(script)
    {
      if script == [] { return 0, false; }
      var o := script[0];
      script := script[1..];
      assert ValidOutcome(o) && Connected();
      match o
      case Interrupted => return -1, true;
      case Failed => return -1, false;
      case Closed => return 0, false;
      case Chunk(bytes) =>
        n, interrupted := |bytes|, false;
        for i := 0 to |bytes|
          invariant readBuf[..i] == bytes[..i] && script == old(script)[1..]
        {
          readBuf[i] := bytes[i];
        }
        assert readBuf[..n] == bytes;
    }

    /** The part of my_read that runs when the buffer is empty: read again while interrupted. */
    method Refill()
      requires Connected() && readCnt <= 0
      modifies this`readCnt, this`readPtr, this`script, readBuf
      ensures Valid()
      ensures var start := old(Tokens(script));
              if readCnt < 0 then start == [Error] + Tokens(script)
              else if readCnt == 0 then start == (if start == [] then [] else [End]) + Tokens(script)
              else start == Stream()
    {
      ghost var start := Tokens(script);
      var interrupted := true;
      while interrupted
        invariant Connected() && readCnt <= MAXLINE
        invariant interrupted ==> readCnt <= 0 && Tokens(script) == start
        invariant !interrupted ==> start == (if readCnt < 0 then [Error] else if readCnt > 0 then Gots(readBuf[..readCnt])
                                             else if start == [] then [] else [End]) + Tokens(script)
        decreases |script|, interrupted
      {
        readCnt, interrupted := Read();
      }
      if readCnt > 0 { readPtr := 0; }
    }

    /** my_read hands out the next token of the stream: 1 and a byte, 0 at an end, -1 on an error. */
    method MyRead() returns (rc: int, c: Byte)
      requires Valid()
      modifies this`readCnt, this`readPtr, this`script, readBuf
      ensures Valid()
      ensures rc == (if old(Stream()) == [] || old(Stream())[0] == End then 0
                     else if old(Stream())[0] == Error then -1 else 1)
      ensures rc == 1 ==> old(Stream())[0] == Got(c)
      ensures Stream() == if old(Stream()) == [] then [] else old(Stream())[1..]
    {
      hide Tokens, Gots;
      c := 0;
      ghost var start := Stream();
      if readCnt <= 0 {
        assert start == Tokens(script) by { assert Gots([]) == []; }
        Refill();
        if readCnt < 0 { return -1, c; }
        if readCnt == 0 { return 0, c; }
      }
      hide Stream;
      c := Take();
      rc := 1;
    }

    /** The end of my_read: the next byte of the buffer. */
    method Take() returns (c: Byte)
      requires Valid() && readCnt > 0
      modifies this`readCnt, this`readPtr
      ensures Valid() && old(Stream()) == [Got(c)] + Stream()
    {
      ghost var all := Buffered();
      GotsConcat([all[0]], all[1..]);
      assert [all[0]] + all[1..] == all;
      assert Gots([all[0]]) == [Got(all[0])];
      hide Gots, Tokens;
      readCnt := readCnt - 1;
      c := readBuf[readPtr];
      readPtr := readPtr + 1;
      assert Buffered() == all[1..];
    }

    /** readline stores a line of the stream and a NUL after it; after an error the bytes are stored but not counted
        and no NUL follows them. */
    method Readline(vptr: array<Byte>, maxlen: nat) returns (n: int)
      requires Valid() && vptr != readBuf && 1 <= maxlen <= vptr.Length
      modifies this`readCnt, this`readPtr, this`script, readBuf, vptr
      ensures Valid()
      ensures var l := LineOf(old(Stream()), maxlen - 1);
              && n == ReturnOf(l) && Stream() == l.rest
              && vptr[..|l.bytes|] == l.bytes
              && (!l.stop.AtError? ==> vptr[|l.bytes|] == 0)
              && forall k | |l.bytes| < k < vptr.Length :: vptr[k] == old(vptr[k])
    {
      hide Tokens, Gots, Buffered, Stream, LineOf;
      ghost var line := LineOf(Stream(), maxlen - 1);
      n := 1;
      var ptr := 0;
      while n < maxlen
        invariant Valid() && 1 <= n <= maxlen && ptr == n - 1
        invariant line == After(vptr[..ptr], LineOf(Stream(), maxlen - n))
        invariant forall k | ptr <= k < vptr.Length :: vptr[k] == old(vptr[k])
      {
        ghost var stored := vptr[..ptr];
        LineUnfolds(Stream(), maxlen - n, stored);
        var rc, c := MyRead();
        assert vptr[..ptr] == stored;
        if rc == 1 {
          vptr[ptr] := c;
          ptr := ptr + 1;
          assert vptr[..ptr] == stored + [c];
          if c == NEWLINE { break; }
        } else if rc == 0 {
          vptr[ptr] := 0;
          assert vptr[..ptr] == stored;
          return n - 1;
        } else {
          return -1;
        }
        n := n + 1;
      }
      if n == maxlen { LineUnfolds(Stream(), 0, vptr[..ptr]); }
      ghost var stored := vptr[..ptr];
      vptr[ptr] := 0;
      assert vptr[..ptr] == stored;
    }
  }
}
