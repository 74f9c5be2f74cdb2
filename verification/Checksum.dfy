/** The Internet checksum of ping.c (RFC 1071). */
module Checksum {
  import opened Bits

  type byte = x: int | 0 <= x < 256

  const LIMIT := 0x1_0000_0000

  // ----- one's complement arithmetic (section 1 of RFC 1071) -----

  /** 16-bit addition with end-around carry. */
  function Plus(a: int, b: int): int { if a + b > 0xffff then a + b - 0xffff else a + b }

  function OnesSum(words: seq<int>): int {
    if words == [] then 0 else Plus(OnesSum(words[..|words| - 1]), words[|words| - 1])
  }

  function Complement(w: int): int { 0xffff - w }

  function Total(words: seq<int>): int {
    if words == [] then 0 else Total(words[..|words| - 1]) + words[|words| - 1]
  }

  ghost predicate AreWords(words: seq<int>) { forall i | 0 <= i < |words| :: 0 <= words[i] <= 0xffff }

  // ----- memory as 16-bit words of the host -----

  function Load(b0: byte, b1: byte, bigEndian: bool): int { if bigEndian then 256 * b0 + b1 else b0 + 256 * b1 }

  /** Word k of the data; a last odd byte is the first byte of a word whose other byte is zero. */
  function WordAt(data: seq<byte>, k: nat, bigEndian: bool): (w: int)
    requires 2 * k < |data|
    ensures 0 <= w <= 0xffff
  {
    Load(data[2 * k], if 2 * k + 1 < |data| then data[2 * k + 1] else 0, bigEndian)
  }

  function Words(data: seq<byte>, bigEndian: bool): (ws: seq<int>)
    ensures |ws| == (|data| + 1) / 2 && AreWords(ws)
  {
    seq((|data| + 1) / 2, k requires 0 <= 2 * k < |data| => WordAt(data, k, bigEndian))
  }

  // ----- folding -----

  /** What a sum comes to modulo 0xffff, where only an empty sum gives 0. */
  function Fold(t: int): int { if t == 0 then 0 else (t - 1) % 0xffff + 1 }

  lemma FoldIs(t: int, r: int, q: int)
    requires 1 <= r <= 0xffff && t == 0xffff * q + r && t > 0
    ensures Fold(t) == r
  {
    DivisionIs(t - 1, 0xffff, q, r - 1);
  }

  /** Every positive sum is its fold plus a multiple of 0xffff. */
  lemma FoldSplit(t: int) returns (q: int)
    requires t >= 0
    ensures 0 <= Fold(t) <= 0xffff && (t > 0 ==> Fold(t) > 0) && t == 0xffff * q + Fold(t) && q >= 0
  {
    q := if t == 0 then 0 else (t - 1) / 0xffff;
  }

  lemma {:induction false} TotalBounds(words: seq<int>)
    requires AreWords(words)
    ensures 0 <= Total(words) <= 0xffff * |words|
  {
    if words != [] { TotalBounds(words[..|words| - 1]); }
  }

  /** The one's complement sum is the fold of the ordinary sum. */
  lemma {:induction false} OnesSumIsFold(words: seq<int>)
    requires AreWords(words)
    ensures OnesSum(words) == Fold(Total(words))
  {
    if words != [] {
      var init, w := words[..|words| - 1], words[|words| - 1];
      OnesSumIsFold(init);
      TotalBounds(init);
      var q := FoldSplit(Total(init));
      var s := Fold(Total(init)) + w;
      if s > 0xffff { FoldIs(Total(words), s - 0xffff, q + 1); } else if s > 0 { FoldIs(Total(words), s, q); }
    }
  }

  /** The two folds of in_cksum always suffice: no third one is needed for any 32-bit sum. */
  lemma TwoFolds(sum: int)
    requires 0 <= sum < LIMIT
    ensures var once := sum / 0x1_0000 + sum % 0x1_0000;
            var twice := once + once / 0x1_0000;
            twice % 0x1_0000 == Fold(sum) && twice < LIMIT
  {
    var h, l := sum / 0x1_0000, sum % 0x1_0000;
    var once := h + l;
    assert sum == 0x1_0000 * h + l;
    if once > 0xffff {
      assert once / 0x1_0000 == 1;
      FoldIs(sum, once - 0xffff, h + 1);
    } else if sum > 0 {
      FoldIs(sum, once, h);
    }
  }

  // ----- in_cksum -----

  /** The loop keeps the sum modulo 2^32; the result is the folded complement of that. */
  method InCksum(addr: array<byte>, len: nat, bigEndian: bool) returns (answer: int)
    requires len <= addr.Length
    ensures answer == Complement(Fold(Total(Words(addr[..len], bigEndian)) % LIMIT))
  {
    hide Total, Words, Load, Fold;
    var nleft: int := len;
    var sum := 0;
    var w := 0;
    ghost var data: seq<byte> := addr[..len];
    assert data[..0] == [] && Total(Words([], bigEndian)) == 0 by { EmptyTotal(bigEndian); }
    while nleft > 1
      invariant w == len - nleft && w % 2 == 0 && 0 <= nleft <= len
      invariant sum == Total(Words(data[..w], bigEndian)) % LIMIT
    {
      SumNext(data, w, bigEndian);
      sum := (sum + Load(addr[w], addr[w + 1], bigEndian)) % LIMIT;
      w := w + 2;
      nleft := nleft - 2;
    }
    if nleft == 1 {
      SumLast(data, w, bigEndian);
      sum := (sum + Load(addr[w], 0, bigEndian)) % LIMIT;
    }
    assert data[..len] == data;
    answer := FoldTwice(sum);
  }

  method FoldTwice(sum0: int) returns (answer: int)
    requires 0 <= sum0 < LIMIT
    ensures answer == Complement(Fold(sum0))
  {
    var sum := sum0;
    TwoFolds(sum);
    sum := sum / 0x1_0000 + sum % 0x1_0000;
    sum := sum + sum / 0x1_0000;
    answer := Complement(sum % 0x1_0000);
  }

  lemma SumNext(data: seq<byte>, w: nat, bigEndian: bool)
    requires w % 2 == 0 && w + 2 <= |data|
    ensures (Total(Words(data[..w], bigEndian)) % LIMIT + Load(data[w], data[w + 1], bigEndian)) % LIMIT
         == Total(Words(data[..w + 2], bigEndian)) % LIMIT
  {
    hide Total, Words, Load;
    NextWord(data, w, bigEndian);
    TotalBounds(Words(data[..w], bigEndian));
    LoadBounds(data[w], data[w + 1], bigEndian);
    WrapSum(Total(Words(data[..w], bigEndian)), Load(data[w], data[w + 1], bigEndian));
  }

  lemma SumLast(data: seq<byte>, w: nat, bigEndian: bool)
    requires w % 2 == 0 && w + 1 == |data|
    ensures (Total(Words(data[..w], bigEndian)) % LIMIT + Load(data[w], 0, bigEndian)) % LIMIT
         == Total(Words(data, bigEndian)) % LIMIT
  {
    hide Total, Words, Load;
    LastByte(data, w, bigEndian);
    TotalBounds(Words(data[..w], bigEndian));
    LoadBounds(data[w], 0, bigEndian);
    WrapSum(Total(Words(data[..w], bigEndian)), Load(data[w], 0, bigEndian));
  }

  lemma EmptyTotal(bigEndian: bool)
    ensures Total(Words([], bigEndian)) == 0
  {}

  lemma LoadBounds(b0: byte, b1: byte, bigEndian: bool)
    ensures 0 <= Load(b0, b1, bigEndian) <= 0xffff
  {}

  lemma TotalSnoc(ws: seq<int>, w: int)
    ensures Total(ws + [w]) == Total(ws) + w
  {
    assert (ws + [w])[..|ws|] == ws;
  }

  lemma NextWord(data: seq<byte>, w: nat, bigEndian: bool)
    requires w % 2 == 0 && w + 2 <= |data|
    ensures Total(Words(data[..w + 2], bigEndian))
         == Total(Words(data[..w], bigEndian)) + Load(data[w], data[w + 1], bigEndian)
  {
    hide Total, Load;
    TotalSnoc(Words(data[..w], bigEndian), Load(data[w], data[w + 1], bigEndian));
    assert Words(data[..w + 2], bigEndian) == Words(data[..w], bigEndian) + [Load(data[w], data[w + 1], bigEndian)];
  }

  lemma LastByte(data: seq<byte>, w: nat, bigEndian: bool)
    requires w % 2 == 0 && w + 1 == |data|
    ensures Total(Words(data, bigEndian)) == Total(Words(data[..w], bigEndian)) + Load(data[w], 0, bigEndian)
  {
    hide Total, Load;
    TotalSnoc(Words(data[..w], bigEndian), Load(data[w], 0, bigEndian));
    assert Words(data, bigEndian) == Words(data[..w], bigEndian) + [Load(data[w], 0, bigEndian)];
  }

  /** Wrapping each addition is wrapping the sum. */
  lemma WrapSum(t: int, w: int)
    requires 0 <= t && 0 <= w
    ensures (t % LIMIT + w) % LIMIT == (t + w) % LIMIT
  {
    var q := t / LIMIT;
    var s := t % LIMIT + w;
    DivisionIs(t + w, LIMIT, q + s / LIMIT, s % LIMIT);
  }

  /** For up to 65537 words the 32-bit sum does not wrap, so the result is the checksum of RFC 1071. */
  lemma NoWrap(words: seq<int>)
    requires AreWords(words) && |words| <= 65537
    ensures Total(words) < LIMIT
    ensures Complement(Fold(Total(words) % LIMIT)) == Complement(OnesSum(words))
  {
    TotalBounds(words);
    OnesSumIsFold(words);
  }

  /** For any length a C int can hold, the result is the checksum exactly when the ordinary sum fits 32 bits. */
  lemma RightExactlyBelowLimit(words: seq<int>)
    requires AreWords(words) && |words| <= 0x4000_0000
    ensures Complement(Fold(Total(words) % LIMIT)) == Complement(OnesSum(words)) <==> Total(words) < LIMIT
  {
    TotalBounds(words);
    OnesSumIsFold(words);
    var t := Total(words);
    if t >= LIMIT {
      var k, low := t / LIMIT, t % LIMIT;
      assert t == LIMIT * k + low && 1 <= k < 0x4000;
      var q := FoldSplit(low);
      var p := FoldSplit(t);
      // t and low differ by k modulo 0xffff
      assert 0xffff * (p - q - 65537 * k) == Fold(low) - Fold(t) + k;
    }
  }

  // ----- byte by byte -----

  /** What byte i adds: as the high byte of its word, or as the low one. */
  function Weight(b: byte, i: nat, bigEndian: bool): int { if (i % 2 == 0) == bigEndian then 256 * b else b }

  function Weighted(data: seq<byte>, bigEndian: bool): int {
    if data == [] then 0
    else
      var i := |data| - 1;
      Weighted(data[..i], bigEndian) + Weight(data[i], i, bigEndian)
  }

  lemma LastOne(data: seq<byte>, bigEndian: bool)
    requires |data| % 2 == 1
    ensures var i, w := |data| - 1, Load(data[|data| - 1], 0, bigEndian);
            && Weighted(data, bigEndian) == Weighted(data[..i], bigEndian) + w
            && Total(Words(data, bigEndian)) == Total(Words(data[..i], bigEndian)) + w && w >= 0
  {
    hide Words, Total;
    LastByte(data, |data| - 1, bigEndian);
  }

  lemma LastTwo(data: seq<byte>, bigEndian: bool)
    requires |data| >= 2 && |data| % 2 == 0
    ensures var i, w := |data| - 2, Load(data[|data| - 2], data[|data| - 1], bigEndian);
            && Weighted(data, bigEndian) == Weighted(data[..i], bigEndian) + w
            && Total(Words(data, bigEndian)) == Total(Words(data[..i], bigEndian)) + w && w >= 0
  {
    hide Words, Total;
    WeightOfTwo(data, bigEndian);
    assert data[..|data| - 2 + 2] == data;
    NextWord(data, |data| - 2, bigEndian);
    LoadBounds(data[|data| - 2], data[|data| - 1], bigEndian);
    hide *;
  }

  lemma WeightOfTwo(data: seq<byte>, bigEndian: bool)
    requires |data| >= 2 && |data| % 2 == 0
    ensures Weighted(data, bigEndian)
         == Weighted(data[..|data| - 2], bigEndian) + Load(data[|data| - 2], data[|data| - 1], bigEndian)
  {
    hide Weighted, Weight, Load;
    var i := |data| - 2;
    LastWeight(data, bigEndian);
    LastWeight(data[..i + 1], bigEndian);
    assert data[..i + 1][..i] == data[..i];
    WeightsOfWord(data[i], data[i + 1], i, bigEndian);
  }

  lemma LastWeight(data: seq<byte>, bigEndian: bool)
    requires data != []
    ensures var i := |data| - 1;
            Weighted(data, bigEndian) == Weighted(data[..i], bigEndian) + Weight(data[i], i, bigEndian)
  {}

  lemma WeightsOfWord(b0: byte, b1: byte, i: nat, bigEndian: bool)
    requires i % 2 == 0
    ensures Weight(b0, i, bigEndian) + Weight(b1, i + 1, bigEndian) == Load(b0, b1, bigEndian)
  {}

  lemma {:induction false} TotalIsWeighted(data: seq<byte>, bigEndian: bool)
    ensures Total(Words(data, bigEndian)) == Weighted(data, bigEndian) >= 0
  {
    hide Words, Total, Load;
    if data == [] {
      EmptyTotal(bigEndian);
    } else {
      hide Weighted;
      if |data| % 2 == 1 { LastOne(data, bigEndian); } else { LastTwo(data, bigEndian); }
      TotalIsWeighted(data[..|data| - if |data| % 2 == 1 then 1 else 2], bigEndian);
    }
  }

  /** The one's complement sum of a message is the sum of its bytes, every other one times 256, folded. */
  lemma SumOfBytes(data: seq<byte>, bigEndian: bool)
    ensures OnesSum(Words(data, bigEndian)) == Fold(Weighted(data, bigEndian))
  {
    hide Words;
    TotalIsWeighted(data, bigEndian);
    OnesSumIsFold(Words(data, bigEndian));
  }

  lemma {:induction false} WeightedUpdate(data: seq<byte>, i: nat, b: byte, bigEndian: bool)
    requires i < |data|
    ensures Weighted(data[i := b], bigEndian) == Weighted(data, bigEndian) - Weight(data[i], i, bigEndian) + Weight(b, i, bigEndian)
  {
    var k := |data| - 1;
    if i < k {
      WeightedUpdate(data[..k], i, b, bigEndian);
      assert data[i := b][..k] == data[..k][i := b];
    } else {
      assert data[i := b][..k] == data[..k];
    }
  }

  /** Every byte counts: changing one, wherever it is, changes the checksum. */
  lemma EveryByteCounts(data: seq<byte>, i: nat, b: byte, bigEndian: bool)
    requires i < |data| && b != data[i]
    ensures OnesSum(Words(data[i := b], bigEndian)) != OnesSum(Words(data, bigEndian))
  {
    SumOfBytes(data, bigEndian);
    SumOfBytes(data[i := b], bigEndian);
    WeightedUpdate(data, i, b, bigEndian);
    TotalIsWeighted(data, bigEndian);
    TotalIsWeighted(data[i := b], bigEndian);
    FoldsDiffer(Weighted(data, bigEndian), Weighted(data[i := b], bigEndian));
  }

  lemma FoldsDiffer(x: nat, y: nat)
    requires -0xffff < y - x < 0xffff && x != y
    ensures Fold(x) != Fold(y)
  {
    var p := FoldSplit(x);
    var q := FoldSplit(y);
    assert y - x == 0xffff * (q - p) + Fold(y) - Fold(x);
    hide Fold;
  }

  /** The example of section 3 of RFC 1071. */
  lemma ChecksumExample()
    ensures OnesSum(Words([0x00, 0x01, 0xf2, 0x03, 0xf4, 0xf5, 0xf6, 0xf7], true)) == 0xddf2
  {
    assert Words([0x00, 0x01, 0xf2, 0x03, 0xf4, 0xf5, 0xf6, 0xf7], true) == [0x0001] + [0xf203] + [0xf4f5] + [0xf6f7];
    OnesSumSnoc([], 0x0001);
    OnesSumSnoc([0x0001], 0xf203);
    OnesSumSnoc([0x0001] + [0xf203], 0xf4f5);
    OnesSumSnoc([0x0001] + [0xf203] + [0xf4f5], 0xf6f7);
    assert [] + [0x0001] == [0x0001];
  }

  lemma OnesSumSnoc(words: seq<int>, w: int)
    ensures OnesSum(words + [w]) == Plus(OnesSum(words), w)
  {
    assert (words + [w])[..|words|] == words;
  }

  // ----- a checksum stored in its own data -----

  lemma {:induction false} TotalUpdate(words: seq<int>, j: nat, v: int)
    requires j < |words|
    ensures Total(words[j := v]) == Total(words) - words[j] + v
  {
    var k := |words| - 1;
    if j < k {
      TotalUpdate(words[..k], j, v);
      assert words[j := v][..k] == words[..k][j := v];
    } else {
      assert words[j := v][..k] == words[..k];
    }
  }

  /** Storing the checksum in a zeroed field makes the checksum of the whole 0. */
  lemma StoredChecksum(words: seq<int>, j: nat)
    requires AreWords(words) && j < |words| && words[j] == 0
    ensures var stored := words[j := Complement(OnesSum(words))];
            AreWords(stored) && Complement(OnesSum(stored)) == 0
  {
    OnesSumIsFold(words);
    TotalBounds(words);
    var t := Total(words);
    var q := FoldSplit(t);
    var stored := words[j := Complement(OnesSum(words))];
    TotalUpdate(words, j, Complement(OnesSum(words)));
    assert Total(stored) == 0xffff * q + 0xffff;
    FoldIs(Total(stored), 0xffff, q);
    OnesSumIsFold(stored);
  }

  function Store(w: int, bigEndian: bool): (r: (byte, byte))
    requires 0 <= w <= 0xffff
    ensures Load(r.0, r.1, bigEndian) == w
  {
    if bigEndian then (w / 256, w % 256) else (w % 256, w / 256)
  }

  /** Two aligned bytes are one word of the data. */
  lemma WordsUpdate(data: seq<byte>, j: nat, b0: byte, b1: byte, bigEndian: bool)
    requires 2 * j + 1 < |data|
    ensures Words(data, bigEndian)[j] == Load(data[2 * j], data[2 * j + 1], bigEndian)
    ensures Words(data[2 * j := b0][2 * j + 1 := b1], bigEndian) == Words(data, bigEndian)[j := Load(b0, b1, bigEndian)]
  {
    hide Load;
  }

  /** 65538 words of all ones: the plain sum no longer fits, and the result is wrong. The program itself never gets
      there: send_v4 sums at most the 1500 bytes of sendbuf. */
  lemma SumWraps()
    ensures var words := seq(65538, i => 0xffff);
            AreWords(words) && Complement(Fold(Total(words) % LIMIT)) != Complement(OnesSum(words))
  {
    var words := seq(65538, i => 0xffff);
    TotalOfOnes(65538);
    RightExactlyBelowLimit(words);
  }

  lemma {:induction false} TotalOfOnes(n: nat)
    ensures Total(seq(n, i => 0xffff)) == 0xffff * n
  {
    if n > 0 {
      assert seq(n, i => 0xffff)[..n - 1] == seq(n - 1, i => 0xffff);
      TotalOfOnes(n - 1);
    }
  }

  // ----- send_v4 -----

  const BUFSIZE := 1500
  const ICMP_ECHO: byte := 8
  const PATTERN: byte := 0xa5

  /** The data of an echo request: the time stamp over the pattern. */
  function EchoData(tv: seq<byte>, datalen: nat): (d: seq<byte>)
    ensures |d| == datalen
  {
    if |tv| <= datalen then tv + seq(datalen - |tv|, i => PATTERN) else tv[..datalen]
  }

  /** An echo request with its checksum field zero; identifier and sequence number are cut to 16 bits. */
  function Echo(pid: nat, nsent: nat, tv: seq<byte>, datalen: nat, bigEndian: bool): (m: seq<byte>)
    ensures |m| == 8 + datalen && m[2] == 0 && m[3] == 0
  {
    var id, number := Store(pid % 0x1_0000, bigEndian), Store(nsent % 0x1_0000, bigEndian);
    [ICMP_ECHO, 0, 0, 0, id.0, id.1, number.0, number.1] + EchoData(tv, datalen)
  }

  /** With the checksum in its field. */
  function Checked(m: seq<byte>, bigEndian: bool): (r: seq<byte>)
    requires 4 <= |m| && 0 <= OnesSum(Words(m, bigEndian)) <= 0xffff
    ensures |r| == |m|
  {
    var b := Store(Complement(OnesSum(Words(m, bigEndian))), bigEndian);
    m[2 := b.0][3 := b.1]
  }

  /** What is sent, field by field: type 8, code 0, the identifier and the sequence number in the host's byte order, the
      time stamp, and 0xa5 for the rest. */
  lemma EchoFields(pid: nat, nsent: nat, tv: seq<byte>, datalen: nat, bigEndian: bool)
    ensures var m := Echo(pid, nsent, tv, datalen, bigEndian);
            && m[0] == 8 && m[1] == 0
            && Load(m[4], m[5], bigEndian) == pid % 65536 && Load(m[6], m[7], bigEndian) == nsent % 65536
            && forall i | 8 <= i < |m| :: m[i] == if i - 8 < |tv| then tv[i - 8] else 0xa5
  {
    hide Load;
  }

  lemma SumIsWord(words: seq<int>)
    requires AreWords(words)
    ensures 0 <= OnesSum(words) <= 0xffff
  {
    OnesSumIsFold(words);
    TotalBounds(words);
    var q := FoldSplit(Total(words));
  }

  /** A message with a checksum checks to 0. */
  lemma CheckedIsZero(m: seq<byte>, bigEndian: bool)
    requires 4 <= |m| && m[2] == 0 && m[3] == 0 && 0 <= OnesSum(Words(m, bigEndian)) <= 0xffff
    ensures Complement(OnesSum(Words(Checked(m, bigEndian), bigEndian))) == 0
  {
    hide Words, OnesSum;
    var b := Store(Complement(OnesSum(Words(m, bigEndian))), bigEndian);
    WordsUpdate(m, 1, b.0, b.1, bigEndian);
    StoredChecksum(Words(m, bigEndian), 1);
  }

  /** memset(p, c, n) */
  method Memset(buf: array<byte>, p: nat, c: byte, n: nat)
    requires p + n <= buf.Length
    modifies buf
    ensures buf[..] == old(buf[..p]) + seq(n, i => c) + old(buf[p + n..])
  {
    for k := 0 to n
      invariant forall j | p <= j < p + k :: buf[j] == c
      invariant forall j | 0 <= j < p || p + k <= j < buf.Length :: buf[j] == old(buf[j])
    {
      buf[p + k] := c;
    }
  }

  method Store16(buf: array<byte>, p: nat, w: int, bigEndian: bool)
    requires p + 2 <= buf.Length && 0 <= w <= 0xffff
    modifies buf
    ensures buf[..] == old(buf[..])[p := Store(w, bigEndian).0][p + 1 := Store(w, bigEndian).1]
  {
    var b := Store(w, bigEndian);
    buf[p] := b.0;
    buf[p + 1] := b.1;
  }

  /** gettimeofday into the data. */
  method StoreTime(buf: array<byte>, p: nat, tv: seq<byte>)
    requires p + |tv| <= buf.Length
    modifies buf
    ensures buf[..] == old(buf[..p]) + tv + old(buf[p + |tv|..])
  {
    for k := 0 to |tv|
      invariant forall j | p <= j < p + k :: buf[j] == tv[j - p]
      invariant forall j | 0 <= j < p || p + k <= j < buf.Length :: buf[j] == old(buf[j])
    {
      buf[p + k] := tv[k];
    }
  }

  /** The header but for its checksum. */
  method ComposeHeader(sendbuf: array<byte>, pid: nat, nsent: nat, bigEndian: bool)
    requires 8 <= sendbuf.Length
    modifies sendbuf
    ensures sendbuf[0] == ICMP_ECHO && sendbuf[1] == 0
    ensures var id := Store(pid % 0x1_0000, bigEndian); sendbuf[4] == id.0 && sendbuf[5] == id.1
    ensures var number := Store(nsent % 0x1_0000, bigEndian); sendbuf[6] == number.0 && sendbuf[7] == number.1
    ensures sendbuf[8..] == old(sendbuf[8..])
  {
    hide Store;
    sendbuf[0] := ICMP_ECHO;
    sendbuf[1] := 0;
    Store16(sendbuf, 4, pid % 0x1_0000, bigEndian);
    Store16(sendbuf, 6, nsent % 0x1_0000, bigEndian);
  }

  /** The pattern and the time stamp over it. */
  method ComposeData(sendbuf: array<byte>, datalen: nat, tv: seq<byte>)
    requires 8 + datalen <= sendbuf.Length && 8 + |tv| <= sendbuf.Length
    modifies sendbuf
    ensures sendbuf[..8] == old(sendbuf[..8]) && sendbuf[8..8 + datalen] == EchoData(tv, datalen)
    ensures forall k | 8 + datalen <= k && 8 + |tv| <= k < sendbuf.Length :: sendbuf[k] == old(sendbuf[k])
  {
    Memset(sendbuf, 8, PATTERN, datalen);
    assert sendbuf[..8] == old(sendbuf[..8]);
    StoreTime(sendbuf, 8, tv);
    assert sendbuf[..8] == old(sendbuf[..8]);
    assert sendbuf[8..8 + datalen] == EchoData(tv, datalen) by {
      assert forall k | 0 <= k < datalen :: sendbuf[8 + k] == EchoData(tv, datalen)[k];
    }
  }

  /** Everything but the checksum, whose field is zero. */
  method Compose(sendbuf: array<byte>, pid: nat, nsent: nat, datalen: nat, tv: seq<byte>, bigEndian: bool)
    requires 8 + datalen <= sendbuf.Length && 8 + |tv| <= sendbuf.Length
    modifies sendbuf
    ensures sendbuf[..8 + datalen] == Echo(pid, nsent, tv, datalen, bigEndian)
    ensures forall k | 8 + datalen <= k && 8 + |tv| <= k < sendbuf.Length :: sendbuf[k] == old(sendbuf[k])
  {
    hide Store, EchoData;
    ComposeHeader(sendbuf, pid, nsent, bigEndian);
    ghost var header: seq<byte> := sendbuf[..8];
    ComposeData(sendbuf, datalen, tv);
    assert sendbuf[..8] == header;
    sendbuf[2] := 0;
    sendbuf[3] := 0;
    assert sendbuf[..8] == header[2 := 0][3 := 0];
    assert sendbuf[8..8 + datalen] == EchoData(tv, datalen);
    assert sendbuf[..8 + datalen] == sendbuf[..8] + sendbuf[8..8 + datalen];
  }

  /** send_v4: what is sent is the echo request with its checksum, and checks to 0. `tv` is the time of day as it lies
      in memory. */
  method SendV4(sendbuf: array<byte>, pid: nat, nsent0: nat, datalen: nat, tv: seq<byte>, bigEndian: bool)
    returns (nsent: nat, len: nat)
    requires sendbuf.Length == BUFSIZE && 8 + datalen <= BUFSIZE && 8 + |tv| <= BUFSIZE
    modifies sendbuf
    ensures nsent == nsent0 + 1 && len == 8 + datalen
    ensures var m := Echo(pid, nsent0, tv, datalen, bigEndian);
            0 <= OnesSum(Words(m, bigEndian)) <= 0xffff && sendbuf[..len] == Checked(m, bigEndian)
    ensures Complement(OnesSum(Words(sendbuf[..len], bigEndian))) == 0
    ensures forall k | len <= k && 8 + |tv| <= k < BUFSIZE :: sendbuf[k] == old(sendbuf[k])
  {
    hide Words, OnesSum, Total, Fold, Echo;
    Compose(sendbuf, pid, nsent0, datalen, tv, bigEndian);
    nsent, len := nsent0 + 1, 8 + datalen;
    ghost var m := Echo(pid, nsent0, tv, datalen, bigEndian);
    SumIsWord(Words(m, bigEndian));
    NoWrap(Words(m, bigEndian));
    var answer := InCksum(sendbuf, len, bigEndian);
    Store16(sendbuf, 2, answer, bigEndian);
    assert sendbuf[..len] == Checked(m, bigEndian);
    CheckedIsZero(m, bigEndian);
  }

  // ----- byte order -----

  function SwapBytes(w: int): int { w % 256 * 256 + w / 256 }

  function SwapAll(words: seq<int>): (r: seq<int>)
    ensures |r| == |words|
  {
    seq(|words|, i requires 0 <= i < |words| => SwapBytes(words[i]))
  }

  /** High bytes of all words. */
  function Highs(words: seq<int>): int {
    if words == [] then 0 else Highs(words[..|words| - 1]) + words[|words| - 1] / 256
  }

  lemma {:induction false} TotalSwapped(words: seq<int>)
    requires AreWords(words)
    ensures AreWords(SwapAll(words))
    ensures Total(SwapAll(words)) == 256 * Total(words) - 0xffff * Highs(words)
    ensures 256 * Total(SwapAll(words)) >= Total(words) && Highs(words) >= 0
  {
    if words != [] {
      var init, w := words[..|words| - 1], words[|words| - 1];
      TotalSwapped(init);
      assert SwapAll(words)[..|words| - 1] == SwapAll(init);
    }
  }

  /** Byte order independence (section 2 of RFC 1071): swapping the bytes of every word swaps those of the checksum. */
  lemma SwappedChecksum(words: seq<int>)
    requires AreWords(words)
    ensures AreWords(SwapAll(words)) && OnesSum(SwapAll(words)) == SwapBytes(OnesSum(words))
    ensures Complement(OnesSum(SwapAll(words))) == SwapBytes(Complement(OnesSum(words)))
  {
    hide SwapAll, OnesSum, Total, Fold, Highs;
    TotalSwapped(words);
    OnesSumIsFold(words);
    OnesSumIsFold(SwapAll(words));
    TotalBounds(words);
    TotalBounds(SwapAll(words));
    var q := FoldSplit(Total(words));
    var r := Fold(Total(words));
    SwapComplement(r);
    if Total(words) > 0 {
      FoldIs(Total(SwapAll(words)), SwapBytes(r), 256 * q - Highs(words) + r / 256);
    } else {
      var _ := FoldSplit(Total(SwapAll(words)));
    }
  }

  lemma SwapComplement(r: int)
    requires 0 <= r <= 0xffff
    ensures 0 <= SwapBytes(r) <= 0xffff && (r > 0 ==> SwapBytes(r) > 0) && SwapBytes(0) == 0
    ensures SwapBytes(Complement(r)) == Complement(SwapBytes(r))
  {
    DivisionIs(Complement(r), 256, 255 - r / 256, 255 - r % 256);
  }

  lemma WordsOfOtherHost(data: seq<byte>)
    ensures Words(data, true) == SwapAll(Words(data, false))
  {
    forall k | 0 <= 2 * k < |data|
      ensures WordAt(data, k, true) == SwapBytes(WordAt(data, k, false))
    {}
  }

  /** Hosts of either byte order store the same two bytes for the same data, odd lengths included. */
  lemma SameBytesOnEveryHost(data: seq<byte>)
    ensures var little, big := OnesSum(Words(data, false)), OnesSum(Words(data, true));
            && 0 <= little <= 0xffff && 0 <= big <= 0xffff
            && Store(Complement(little), false) == Store(Complement(big), true)
  {
    hide Words, SwapAll, OnesSum, Total, Fold;
    var words := Words(data, false);
    WordsOfOtherHost(data);
    SwappedChecksum(words);
    OnesSumIsFold(words);
    TotalBounds(words);
    var q := FoldSplit(Total(words));
    SwapComplement(OnesSum(words));
    SwappedStore(Complement(OnesSum(words)));
  }

  lemma SwappedStore(w: int)
    requires 0 <= w <= 0xffff
    ensures 0 <= SwapBytes(w) <= 0xffff && Store(w, false) == Store(SwapBytes(w), true)
  {
    DivisionIs(SwapBytes(w), 256, w % 256, w / 256);
  }
}
