/** The Internet checksum, and wrapping an IP packet in another one and back. */
module Tunnel {

  type Byte = b: int | 0 <= b < 256

  const WORD := 0x1_0000
  const UINT32 := 0x1_0000_0000
  const MAX_INT := 0x7FFF_FFFF
  const MAX_SUMMED := 131074  // bytes whose sum cannot run over 32 bits
  const TEMP := 512           // size of the temporary buffer

  // ---------- the sum of section 1 of RFC 1071 ----------

  // Two bytes as the machine reads them.
  function Word(lo: Byte, hi: Byte): (w: nat)
    ensures w < WORD
  {
    var h: int := hi;
    lo + 256 * h
  }

  // The words added up; a last single byte stands for itself.
  function Total(s: seq<Byte>): nat {
    if s == [] then 0 else if |s| == 1 then s[0] else Word(s[0], s[1]) + Total(s[2..])
  }

  function EndAround(x: nat, y: nat): nat {
    if x + y >= WORD then x + y - WORD + 1 else x + y
  }

  /** The ones' complement sum. */
  function OnesSum(s: seq<Byte>): (r: nat)
    ensures r < WORD
  {
    if s == [] then 0 else if |s| == 1 then s[0] else EndAround(Word(s[0], s[1]), OnesSum(s[2..]))
  }

  // The representative of `n` modulo 65535 that is zero for zero only.
  function Folded(n: nat): (r: nat)
    ensures r < WORD && (r == 0 <==> n == 0)
  {
    if n == 0 then 0 else (n - 1) % (WORD - 1) + 1
  }

  lemma FoldedSmall(n: nat)
    requires n <= 2 * (WORD - 1)
    ensures Folded(n) == if n < WORD then n else n - WORD + 1
  {
  }

  lemma FoldedCongruent(n: nat, k: nat)
    requires n > 0
    ensures Folded(n + k * (WORD - 1)) == Folded(n)
  {
    ModPlus(n - 1, k);
  }

  lemma {:induction false} ModPlus(a: nat, k: nat)
    ensures (a + k * (WORD - 1)) % (WORD - 1) == a % (WORD - 1)
    decreases k
  {
    if k > 0 {
      ModPlus(a, k - 1);
      assert a + k * (WORD - 1) == (a + (k - 1) * (WORD - 1)) + (WORD - 1);
    }
  }

  // `n` is its representative and a multiple of 65535.
  lemma Multiple(n: nat) returns (k: nat)
    ensures n == Folded(n) + k * (WORD - 1)
  {
    k := if n == 0 then 0 else (n - 1) / (WORD - 1);
  }

  lemma FoldedPlus(w: nat, t: nat)
    requires w < WORD
    ensures Folded(w + t) == EndAround(w, Folded(t))
  {
    var k := Multiple(t);
    if w + Folded(t) > 0 { FoldedCongruent(w + Folded(t), k); }
    FoldedSmall(w + Folded(t));
  }

  /** The ones' complement sum is the plain sum, folded. */
  lemma {:induction false} OnesSumIsFolded(s: seq<Byte>)
    ensures OnesSum(s) == Folded(Total(s))
    decreases |s|
  {
    hide Folded, Word, EndAround;
    if |s| == 1 {
      FoldedSmall(s[0]);
    } else if |s| >= 2 {
      OnesSumIsFolded(s[2..]);
      FoldedPlus(Word(s[0], s[1]), Total(s[2..]));
    }
  }

  lemma {:induction false} TotalBound(s: seq<Byte>)
    ensures Total(s) <= (|s| + 1) / 2 * (WORD - 1)
    decreases |s|
  {
    if |s| >= 2 { TotalBound(s[2..]); }
  }

  /** Two foldings are enough for any 32-bit sum. */
  lemma TwoFolds(t: nat)
    requires t < UINT32
    ensures var s := t / WORD + t % WORD; (s + s / WORD) % WORD == Folded(t)
  {
    var a, b := t / WORD, t % WORD;
    assert t == a + b + a * (WORD - 1);
    if a + b > 0 { FoldedCongruent(a + b, a); }
    FoldedSmall(a + b);
  }

  // ---------- the checksum ----------

  // What two foldings and the complement make of a 32-bit sum.
  function Closing(sum: nat): (r: nat)
    ensures r < WORD
  {
    var s := sum / WORD + sum % WORD;
    WORD - 1 - (s + s / WORD) % WORD
  }

  // `sum` is the sum of the words before place `k`, in 32 bits.
  ghost predicate Summed(s: seq<Byte>, k: nat, sum: nat) {
    k <= |s| && sum < UINT32 && (sum + Total(s[k..])) % UINT32 == Total(s) % UINT32
  }

  /** The complement of the ones' complement sum, if and only if the sum of the words fits in 32 bits. */
  method Checksum(buf: array<Byte>, start: nat, len: nat) returns (r: nat)
    requires start + len <= buf.Length
    ensures r < WORD
    ensures r == Closing(Total(buf[start..start + len]) % UINT32)
    ensures len <= MAX_SUMMED ==> r == WORD - 1 - OnesSum(buf[start..start + len])
    ensures len <= MAX_INT ==>
      (r == WORD - 1 - OnesSum(buf[start..start + len]) <==> Total(buf[start..start + len]) < UINT32)
  {
    ghost var s := buf[start..start + len];
    var sum, at, left := 0, start, len;
    assert Summed(s, 0, 0) by { assert s[0..] == s; }
    hide Summed, Total, OnesSum, Closing;
    while left > 1
      invariant 0 <= left <= len && at + left == start + len && Summed(s, at - start, sum)
    {
      sum := AddWord(sum, buf[at], buf[at + 1], s, at - start);
      at, left := at + 2, left - 2;
    }
    if left > 0 {
      sum := AddByte(sum, buf[at], s, at - start);
    }
    r := Close(sum, s);
    if len <= MAX_INT { RightIfItFits(s); }
    if len <= MAX_SUMMED { ClosingIsOnes(s); }
  }

  lemma TotalNext(s: seq<Byte>, k: nat)
    requires k + 1 < |s|
    ensures Total(s[k..]) == Word(s[k], s[k + 1]) + Total(s[k + 2..])
  {
    assert s[k..][2..] == s[k + 2..];
    hide Word;
  }

  method AddWord(sum: nat, lo: Byte, hi: Byte, ghost s: seq<Byte>, ghost k: nat) returns (r: nat)
    requires k + 1 < |s| && lo == s[k] && hi == s[k + 1] && Summed(s, k, sum)
    ensures Summed(s, k + 2, r)
  {
    TotalNext(s, k);
    hide Word, Total;
    r := (sum + Word(lo, hi)) % UINT32;
    WrapPlus(sum + Word(lo, hi), Total(s[k + 2..]));
  }

  lemma TotalLast(s: seq<Byte>, k: nat)
    requires k + 1 == |s|
    ensures Total(s[k..]) == s[k] && Total(s[|s|..]) == 0
  {
    assert s[k..] == [s[k]] && s[|s|..] == [];
  }

  method AddByte(sum: nat, last: Byte, ghost s: seq<Byte>, ghost k: nat) returns (r: nat)
    requires k + 1 == |s| && last == s[k] && Summed(s, k, sum)
    ensures Summed(s, |s|, r)
  {
    TotalLast(s, k);
    hide Total;
    r := (sum + last) % UINT32;
    WrapPlus(sum + last, 0);
  }

  lemma WrapPlus(a: nat, b: nat)
    ensures (a % UINT32 + b) % UINT32 == (a + b) % UINT32
  {
  }

  lemma SummedAll(s: seq<Byte>, sum: nat)
    requires Summed(s, |s|, sum)
    ensures sum == Total(s) % UINT32
  {
    assert s[|s|..] == [];
    assert Total([]) == 0;
    hide Total;
  }

  // Two foldings, and the complement in 16 bits.
  method Close(sum: nat, ghost s: seq<Byte>) returns (r: nat)
    requires Summed(s, |s|, sum)
    ensures r < WORD && r == Closing(Total(s) % UINT32)
  {
    SummedAll(s, sum);
    hide Summed, Total;
    var s := sum / WORD + sum % WORD;
    s := s + s / WORD;
    r := WORD - 1 - s % WORD;
  }

  lemma ClosingIsOnes(s: seq<Byte>)
    requires |s| <= MAX_SUMMED
    ensures Total(s) < UINT32 && Closing(Total(s) % UINT32) == WORD - 1 - OnesSum(s)
  {
    TotalFits(s);
    OnesSumIsFolded(s);
    hide Total, OnesSum, Folded, Closing;
    ClosingFolded(Total(s));
  }

  lemma TotalFits(s: seq<Byte>)
    requires |s| <= MAX_SUMMED
    ensures Total(s) < UINT32
  {
    TotalBound(s);
    hide Total;
  }

  lemma ClosingFolded(t: nat)
    requires t < UINT32
    ensures Closing(t % UINT32) == WORD - 1 - Folded(t)
  {
    hide Folded;
    assert t % UINT32 == t;
    TwoFolds(t);
  }

  // What the code computes for the bytes `s` is their checksum.
  ghost predicate Right(s: seq<Byte>) {
    Closing(Total(s) % UINT32) == WORD - 1 - OnesSum(s)
  }

  // 2^32 is 65537 * 65535 + 1, so what runs over counts as often as it has run over.
  lemma RunsOver(q: nat, r: nat)
    ensures q * UINT32 + r == (q + r) + (q * (WORD + 1)) * (WORD - 1)
  {
  }

  lemma OverflowFolded(t: nat)
    ensures Folded(t) == Folded(t / UINT32 + t % UINT32)
  {
    var q, r := t / UINT32, t % UINT32;
    RunsOver(q, r);
    assert t == q * UINT32 + r;
    hide Folded;
    if q + r > 0 { FoldedCongruent(q + r, q * (WORD + 1)); }
  }

  // Something more changes the representative, unless it is a multiple of 65535.
  lemma FoldedDiffers(r: nat, q: nat)
    requires 0 < q < WORD - 1
    ensures Folded(r + q) != Folded(r)
  {
    if r > 0 {
      var a, m := (r - 1) % (WORD - 1), (r - 1) / (WORD - 1);
      assert r - 1 == a + m * (WORD - 1);
      ModPlus(a + q, m);
      assert (r + q - 1) % (WORD - 1) == (a + q) % (WORD - 1);
      assert (a + q) % (WORD - 1) == if a + q < WORD - 1 then a + q else a + q - (WORD - 1);
    }
  }

  /** Exact for every buffer whose length is an `int`: the result is right if and only if the sum of the
      words is less than 2^32. */
  lemma RightIfItFits(s: seq<Byte>)
    requires |s| <= MAX_INT
    ensures Right(s) <==> Total(s) < UINT32
  {
    var t := Total(s);
    TotalBound(s);
    OnesSumIsFolded(s);
    hide Total, OnesSum, Folded, Closing;
    ClosingFolded(t % UINT32);
    if t >= UINT32 {
      OverflowFolded(t);
      assert t < (WORD - 1) * UINT32;
      FoldedDiffers(t % UINT32, t / UINT32);
    }
  }

  function AllOnes(n: nat): seq<Byte> {
    seq(n, _ => 255)
  }

  function Zeros(n: nat): seq<Byte> {
    seq(n, _ => 0)
  }

  lemma {:induction false} TotalZeros(n: nat)
    ensures Total(Zeros(n)) == 0
    decreases n
  {
    if n >= 2 {
      assert Zeros(n)[2..] == Zeros(n - 2);
      TotalZeros(n - 2);
    }
  }

  lemma {:induction false} TotalAfterOnes(n: nat, s: seq<Byte>)
    ensures Total(AllOnes(2 * n) + s) == n * (WORD - 1) + Total(s)
    decreases n
  {
    var more := AllOnes(2 * n) + s;
    if n == 0 {
      assert more == s;
    } else {
      assert more[2..] == AllOnes(2 * (n - 1)) + s;
      TotalAfterOnes(n - 1, s);
    }
  }

  /** One byte more than that is too many: 131074 bytes of 255, a 1 and then zeros sum up to 2^32. */
  function TooMuch(n: nat): (s: seq<Byte>)
    requires n > MAX_SUMMED
    ensures |s| == n
  {
    AllOnes(MAX_SUMMED) + ([1] + Zeros(n - MAX_SUMMED - 1))
  }

  lemma TooMuchRunsOver(n: nat)
    requires n > MAX_SUMMED
    ensures Total(TooMuch(n)) == UINT32
  {
    var tail: seq<Byte> := [1] + Zeros(n - MAX_SUMMED - 1);
    if |tail| > 1 {
      assert tail[2..] == Zeros(n - MAX_SUMMED - 2);
      TotalZeros(n - MAX_SUMMED - 2);
    }
    assert Total(tail) == 1;
    TotalAfterOnes(MAX_SUMMED / 2, tail);
  }

  /** So every buffer of some length is summed right if and only if it has at most 131074 bytes. */
  lemma OneByteTooMany(n: nat)
    requires n <= MAX_INT
    ensures (forall s: seq<Byte> :: |s| == n ==> Right(s)) <==> n <= MAX_SUMMED
  {
    if n <= MAX_SUMMED {
      forall s: seq<Byte> | |s| == n
        ensures Right(s)
      {
        ClosingIsOnes(s);
      }
    } else {
      TooMuchRunsOver(n);
      RightIfItFits(TooMuch(n));
    }
  }

  // ---------- checking ----------

  lemma {:induction false} TotalUpdate(s: seq<Byte>, k: nat, lo: Byte, hi: Byte)
    requires k % 2 == 0 && k + 1 < |s|
    ensures Total(s[k := lo][k + 1 := hi]) == Total(s) - Word(s[k], s[k + 1]) + Word(lo, hi)
    decreases |s|
  {
    var t := s[k := lo][k + 1 := hi];
    if k == 0 {
      assert t[2..] == s[2..];
    } else {
      assert t[2..] == s[2..][k - 2 := lo][k - 1 := hi];
      TotalUpdate(s[2..], k - 2, lo, hi);
    }
  }

  /** With the checksum filled in at an even place that was zero, the whole sums up to all ones. */
  lemma FilledChecks(s: seq<Byte>, k: nat, c: nat)
    requires k % 2 == 0 && k + 1 < |s| && s[k] == 0 && s[k + 1] == 0
    requires c == WORD - 1 - OnesSum(s)
    ensures OnesSum(s[k := c % 256][k + 1 := c / 256]) == WORD - 1
  {
    var t := s[k := c % 256][k + 1 := c / 256];
    TotalUpdate(s, k, c % 256, c / 256);
    OnesSumIsFolded(s);
    OnesSumIsFolded(t);
    var m := Multiple(Total(s));
    assert Total(t) == (WORD - 1) + m * (WORD - 1);
    FoldedCongruent(WORD - 1, m);
    FoldedSmall(WORD - 1);
  }

  // ---------- the tunnel ----------

  const ETHER := 14   // length of an Ethernet header
  const HEADER := 20  // length of an IP header without options

  type Mac = m: seq<Byte> | |m| == 6 witness [0, 0, 0, 0, 0, 0]
  type Ip = a: seq<Byte> | |a| == 4 witness [0, 0, 0, 0]

  method Copy(to: array<Byte>, at: nat, from: seq<Byte>)
    requires at + |from| <= to.Length
    modifies to
    ensures to[at..at + |from|] == from
    ensures to[..at] == old(to[..at]) && to[at + |from|..] == old(to[at + |from|..])
  {
    forall k | 0 <= k < |from| { to[at + k] := from[k]; }
  }

  function EtherHeader(dst: Mac, src: Mac): seq<Byte> {
    dst + src + [0x08, 0x00]
  }

  /** The new outer header: version 4, length of the packet in it and its own, protocol 4. */
  function OuterHeader(len: nat, id: nat, src: Ip, dst: Ip, sum: nat): (h: seq<Byte>)
    requires len < WORD && id < WORD && sum < WORD
    ensures |h| == HEADER
  {
    [0x45, 0x00, len / 256, len % 256, id % 256, id / 256, 0x00, 0x40, 64, 4, sum % 256, sum / 256] + src + dst
  }

  // What a receiver reads in it.
  lemma HeaderFields(len: nat, id: nat, src: Ip, dst: Ip, sum: nat)
    requires len < WORD && id < WORD && sum < WORD
    ensures var h := OuterHeader(len, id, src, dst, sum);
      && h[0] == 4 * 16 + 5 && h[1] == 0
      && Number(h[2], h[3]) == len && Number(h[5], h[4]) == id && h[6..8] == [0, 0x40]
      && h[8] == 64 && h[9] == 4 && Number(h[11], h[10]) == sum
      && h[12..16] == src && h[16..] == dst
  {
  }

  // Two bytes, the higher one first.
  function Number(hi: Byte, lo: Byte): nat {
    var h: int := hi;
    256 * h + lo
  }

  lemma HeaderChecks(len: nat, id: nat, src: Ip, dst: Ip, sum: nat)
    requires len < WORD && id < WORD && sum < WORD
    requires sum == WORD - 1 - OnesSum(OuterHeader(len, id, src, dst, 0))
    ensures OnesSum(OuterHeader(len, id, src, dst, sum)) == WORD - 1
  {
    var h: seq<Byte> := OuterHeader(len, id, src, dst, 0);
    FilledChecks(h, 10, sum);
    assert h[10 := sum % 256][11 := sum / 256] == OuterHeader(len, id, src, dst, sum);
  }

  lemma EtherFields(b: seq<Byte>, dst: Mac, src: Mac)
    requires |b| >= ETHER && b[..ETHER] == EtherHeader(dst, src)
    ensures b[..6] == dst && b[6..12] == src && b[12..14] == [0x08, 0x00]
  {
    assert b[..6] == b[..ETHER][..6] && b[6..12] == b[..ETHER][6..12] && b[12..14] == b[..ETHER][12..14];
  }

  // The fields where they stand in the frame.
  lemma PlacedFields(b: seq<Byte>, len: nat, id: nat, src: Ip, dst: Ip, sum: nat)
    requires len < WORD && id < WORD && sum < WORD
    requires |b| >= ETHER + HEADER && b[ETHER..ETHER + HEADER] == OuterHeader(len, id, src, dst, sum)
    ensures b[14] == 0x45 && b[15] == 0 && Number(b[16], b[17]) == len && Number(b[19], b[18]) == id
    ensures b[20..22] == [0, 0x40] && b[22] == 64 && b[23] == 4 && b[26..30] == src && b[30..34] == dst
  {
    var h := OuterHeader(len, id, src, dst, sum);
    HeaderFields(len, id, src, dst, sum);
    hide OuterHeader, Number;
    assert forall k :: 0 <= k < HEADER ==> b[ETHER + k] == h[k];
    assert b[20..22] == h[6..8] && b[26..30] == h[12..16] && b[30..34] == h[16..];
  }

  /** Puts the packet in the frame behind a new header of its own; the header checks. */
  method Repack(buffer: array<Byte>, frameLen: nat, dstMac: Mac, srcMac: Mac, srcIp: Ip, dstIp: Ip, pid: nat)
    returns (newLen: nat)
    requires ETHER <= frameLen <= ETHER + TEMP && frameLen + HEADER <= buffer.Length && pid < WORD
    modifies buffer
    ensures newLen == frameLen + HEADER
    ensures buffer[..6] == dstMac && buffer[6..12] == srcMac && buffer[12..14] == [0x08, 0x00]
    ensures buffer[14] == 0x45 && buffer[15] == 0 && Number(buffer[16], buffer[17]) == HEADER + frameLen - ETHER
    ensures Number(buffer[19], buffer[18]) == pid && buffer[20..22] == [0, 0x40] && buffer[22] == 64 && buffer[23] == 4
    ensures buffer[26..30] == srcIp && buffer[30..34] == dstIp
    ensures var header := OuterHeader(HEADER + frameLen - ETHER, pid, srcIp, dstIp, 0);
      buffer[ETHER..ETHER + HEADER] == OuterHeader(HEADER + frameLen - ETHER, pid, srcIp, dstIp, WORD - 1 - OnesSum(header))
    ensures OnesSum(buffer[ETHER..ETHER + HEADER]) == WORD - 1
    ensures buffer[ETHER + HEADER..newLen] == old(buffer[ETHER..frameLen])
  {
    var temp := buffer[ETHER..frameLen];
    forall k | 0 <= k < frameLen { buffer[k] := 0; }
    Copy(buffer, 0, EtherHeader(dstMac, srcMac));
    var ipLen := HEADER + frameLen - ETHER;
    Copy(buffer, ETHER, OuterHeader(ipLen, pid, srcIp, dstIp, 0));
    assert buffer[..ETHER] == EtherHeader(dstMac, srcMac);
    var sum := Checksum(buffer, ETHER, HEADER);
    HeaderChecks(ipLen, pid, srcIp, dstIp, sum);
    Copy(buffer, ETHER, OuterHeader(ipLen, pid, srcIp, dstIp, sum));
    ghost var front := buffer[..ETHER + HEADER];
    Copy(buffer, ETHER + HEADER, temp);
    assert buffer[..ETHER + HEADER] == front;
    assert buffer[ETHER..ETHER + HEADER] == front[ETHER..];
    EtherFields(buffer[..], dstMac, srcMac);
    PlacedFields(buffer[..], ipLen, pid, srcIp, dstIp, sum);
    newLen := frameLen + HEADER;
  }

  /** Takes the outer header off again. */
  method Unpack(buffer: array<Byte>, frameLen: nat, dstMac: Mac, srcMac: Mac) returns (newLen: nat)
    requires ETHER + HEADER <= frameLen <= ETHER + HEADER + TEMP && frameLen <= buffer.Length
    modifies buffer
    ensures newLen == frameLen - HEADER
    ensures buffer[..6] == dstMac && buffer[6..12] == srcMac && buffer[12..14] == [0x08, 0x00]
    ensures buffer[ETHER..newLen] == old(buffer[ETHER + HEADER..frameLen])
  {
    var temp := buffer[ETHER + HEADER..frameLen];
    forall k | 0 <= k < frameLen { buffer[k] := 0; }
    Copy(buffer, 0, EtherHeader(dstMac, srcMac));
    ghost var front := buffer[..ETHER];
    Copy(buffer, ETHER, temp);
    assert buffer[..ETHER] == front;
    EtherFields(buffer[..], dstMac, srcMac);
    newLen := frameLen - HEADER;
  }

  /** Through the tunnel: the inner packet comes out byte for byte, in a frame as long as it was. */
  method ThroughTunnel(buffer: array<Byte>, frameLen: nat, macs: seq<Mac>, srcIp: Ip, dstIp: Ip, pid: nat)
    returns (newLen: nat)
    requires ETHER <= frameLen <= ETHER + TEMP && frameLen + HEADER <= buffer.Length && pid < WORD && |macs| == 4
    modifies buffer
    ensures newLen == frameLen && buffer[ETHER..newLen] == old(buffer[ETHER..frameLen])
  {
    newLen := Repack(buffer, frameLen, macs[0], macs[1], srcIp, dstIp, pid);
    newLen := Unpack(buffer, newLen, macs[2], macs[3]);
  }
}
