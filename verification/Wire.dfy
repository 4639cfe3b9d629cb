/**
 A TCP segment on its way through an Ethernet frame and back: the headers that
 kernel/net/tcp.c, ipv4.c and ethernet.c write, and what the same files make of
 them on the other side.
 */
module Wire {
  import opened Arith
  import opened Bytes
  import opened Options
  import opened Checksum
  import opened Tcp

  type Ip = s: seq<Byte> | |s| == 4 witness [0, 0, 0, 0]
  type Mac = s: seq<Byte> | |s| == 6 witness [0, 0, 0, 0, 0, 0]

  // Network byte order

  function Net32(x: nat): (s: seq<Byte>)
    ensures |s| == 4
  {
    [x / 0x100_0000 % 256, x / 0x1_0000 % 256, x / 256 % 256, x % 256]
  }

  function Read16(s: seq<Byte>, i: nat): nat
    requires i + 2 <= |s|
  {
    var hi: nat, lo: nat := s[i], s[i + 1];
    256 * hi + lo
  }

  function Read32(s: seq<Byte>, i: nat): nat
    requires i + 4 <= |s|
  {
    65536 * Read16(s, i) + Read16(s, i + 2)
  }

  lemma Net16Reads(x: nat)
    requires x < 65536
    ensures Read16(Net16(x), 0) == x
  {
  }

  lemma Net32Reads(x: nat)
    requires x < Tcp.U32
    ensures Read32(Net32(x), 0) == x
  {
    HighByte(x);
    LowBytes(x);
    Parts(x, 65536);
    Parts(x / 65536, 256);
    Parts(x % 65536, 256);
  }

  lemma HighByte(x: nat)
    ensures x / 0x100_0000 == x / 65536 / 256
  {
    var q, s, r := x / 65536 / 256, x / 65536 % 256, x % 65536;
    Parts(x, 65536);
    Parts(x / 65536, 256);
    DivModOf(q, 0x100_0000, 65536 * s + r);
  }

  lemma LowBytes(x: nat)
    ensures x / 256 % 256 == x % 65536 / 256 && x % 256 == x % 65536 % 256
  {
    var a, b := x / 65536, x % 65536;
    Parts(x, 65536);
    Parts(b, 256);
    DivModOf(256 * a + b / 256, 256, b % 256);
    DivModOf(a, 256, b / 256);
  }

  /** The flag bits of the header. */
  function FlagByte(f: Flags): Byte {
    (if f.fin then 1 else 0) + (if f.syn then 2 else 0) + (if f.rst then 4 else 0) + (if f.psh then 8 else 0) +
    (if f.ack then 16 else 0)
  }

  function FlagsOf(b: nat): Flags {
    Flags(b % 2 == 1, b / 2 % 2 == 1, b / 4 % 2 == 1, b / 8 % 2 == 1, b / 16 % 2 == 1)
  }

  lemma FlagsRead(f: Flags)
    ensures FlagsOf(FlagByte(f)) == f
  {
  }

  /** Each flag is one bit of the byte, whatever the other bits are. */
  lemma FlagBits(b: nat)
    ensures FlagsOf(b) == Flags(Bit(b, 0), Bit(b, 1), Bit(b, 2), Bit(b, 3), Bit(b, 4))
  {
    assert Bit(b, 1) == Bit(b / 2, 0) && Bit(b, 2) == Bit(b / 2, 1) && Bit(b / 2, 1) == Bit(b / 2 / 2, 0);
    assert Bit(b, 3) == Bit(b / 2, 2) && Bit(b / 2, 2) == Bit(b / 2 / 2, 1);
    assert Bit(b / 2 / 2, 1) == Bit(b / 2 / 2 / 2, 0);
    assert Bit(b, 4) == Bit(b / 2, 3) && Bit(b / 2, 3) == Bit(b / 2 / 2, 2);
    assert Bit(b / 2 / 2, 2) == Bit(b / 2 / 2 / 2, 1);
    assert Bit(b / 2 / 2 / 2, 1) == Bit(b / 2 / 2 / 2 / 2, 0);
    assert b / 2 / 2 == b / 4 && b / 2 / 2 / 2 == b / 8 && b / 2 / 2 / 2 / 2 == b / 16;
  }

  // Sending

  /** The header of `tcp_send_segment` with a zero checksum. */
  function TcpHeader(from: nat, to: nat, segment: Segment): (h: seq<Byte>)
    ensures |h| == 20 && h[16] == 0 && h[17] == 0
  {
    Net16(from) + Net16(to) + Net32(segment.seqNum) + Net32(segment.ackNum) + [0x50, FlagByte(segment.flags)] +
    Net16(segment.window) + [0, 0, 0, 0]
  }

  function TcpBytes(src: Ip, dst: Ip, from: nat, to: nat, segment: Segment): (r: seq<Byte>)
    requires |segment.payload| <= 2028
    ensures |r| == 20 + |segment.payload|
  {
    var bytes := TcpHeader(from, to, segment) + segment.payload;
    SegmentVerifies(src, dst, bytes);
    Store(bytes, 16, TcpSum(src, dst, bytes))
  }

  /** `ipv4_send` */
  function Ipv4Bytes(src: Ip, dst: Ip, id: nat, payload: seq<Byte>): (r: seq<Byte>)
    ensures |r| == 20 + |payload|
  {
    var h := Ipv4Header(|payload|, id, 6, src, dst);
    Store(h, 10, Sum(h)) + payload
  }

  /** `ethernet_send`: a short frame is filled up to 60 bytes. */
  function Frame(to: Mac, from: Mac, payload: seq<Byte>): seq<Byte> {
    to + from + [0x08, 0x00] + payload + Padding(14 + |payload|)
  }

  function Padding(n: nat): seq<Byte> { if n < 60 then seq(60 - n, _ => 0) else [] }

  // Receiving

  /** A segment as `tcp_receive` reads it. */
  datatype Parsed = Parsed(src: seq<Byte>, from: nat, to: nat, seqNum: nat, ackNum: nat, flags: Flags, data: seq<Byte>)

  /** The head of `tcp_receive`; the checksum is not looked at. */
  function ParseTcp(src: seq<Byte>, s: seq<Byte>): Option<Parsed> {
    if |s| < 20 then None
    else
      var len := s[12] / 16 * 4;
      if len < 20 || len > |s| then None
      else Some(Parsed(src, Read16(s, 0), Read16(s, 2), Read32(s, 4), Read32(s, 8), FlagsOf(s[13]), s[len..]))
  }

  /** `ipv4_receive`: what follows the header, as much as the frame holds. */
  function ParseIpv4(local: Ip, p: seq<Byte>): Option<Parsed> {
    if |p| < 20 || p[0] / 16 != 4 then None
    else
      var len := p[0] % 16 * 4;
      if len < 20 || len > |p| || Sum(p[..len]) != 0 then None
      else if p[16..20] != local && p[16..20] != [255, 255, 255, 255] then None
      else if p[9] == 6 then ParseTcp(p[12..16], p[len..]) else None
  }

  /** `ethernet_receive` */
  function ParseFrame(local: Ip, frame: seq<Byte>): Option<Parsed> {
    if |frame| < 14 || Read16(frame, 12) != 0x0800 then None else ParseIpv4(local, frame[14..])
  }

  // The way through

  /** The checksum goes into bytes 16 and 17 and changes nothing that is read. */
  lemma TcpFields(src: Ip, dst: Ip, from: nat, to: nat, segment: Segment, tail: seq<Byte>)
    requires |segment.payload| <= 2028 && from < 65536 && to < 65536
    requires segment.seqNum < Tcp.U32 && segment.ackNum < Tcp.U32
    ensures ParseTcp(src, TcpBytes(src, dst, from, to, segment) + tail) ==
            Some(Parsed(src, from, to, segment.seqNum, segment.ackNum, segment.flags, segment.payload + tail))
  {
    hide TcpSum, FlagByte, FlagsOf, Net16, Net32, Store;
    var h, bytes := TcpHeader(from, to, segment), TcpHeader(from, to, segment) + segment.payload;
    SegmentVerifies(src, dst, bytes);
    var s := TcpBytes(src, dst, from, to, segment) + tail;
    StoreKeeps(bytes, 16, TcpSum(src, dst, bytes));
    HeaderReads(from, to, segment);
    forall i | 0 <= i < 16 ensures s[i] == h[i] {}
    assert s[20..] == segment.payload + tail;
    FlagsRead(segment.flags);
    SameReads(s, h);
  }

  lemma StoreKeeps(s: seq<Byte>, i: nat, c: nat)
    requires i + 1 < |s| && c < 65536
    ensures forall j :: 0 <= j < |s| && j != i && j != i + 1 ==> Store(s, i, c)[j] == s[j]
  {
  }

  lemma SameReads(s: seq<Byte>, h: seq<Byte>)
    requires |s| >= 20 && |h| == 20 && forall i :: 0 <= i < 16 ==> s[i] == h[i]
    ensures Read16(s, 0) == Read16(h, 0) && Read16(s, 2) == Read16(h, 2)
    ensures Read32(s, 4) == Read32(h, 4) && Read32(s, 8) == Read32(h, 8)
  {
  }

  lemma HeaderReads(from: nat, to: nat, segment: Segment)
    requires from < 65536 && to < 65536 && segment.seqNum < Tcp.U32 && segment.ackNum < Tcp.U32
    ensures var h := TcpHeader(from, to, segment);
            && Read16(h, 0) == from && Read16(h, 2) == to && Read32(h, 4) == segment.seqNum
            && Read32(h, 8) == segment.ackNum && h[12] == 0x50 && h[13] == FlagByte(segment.flags)
  {
    hide Net32, FlagByte;
    Net16Reads(from);
    Net16Reads(to);
    Net32Reads(segment.seqNum);
    Net32Reads(segment.ackNum);
    var h := TcpHeader(from, to, segment);
    assert h[4..8] == Net32(segment.seqNum) && h[8..12] == Net32(segment.ackNum);
    ReadSlice(h, 4);
    ReadSlice(h, 8);
  }

  lemma ReadSlice(h: seq<Byte>, i: nat)
    requires i + 4 <= |h|
    ensures Read32(h, i) == Read32(h[i..i + 4], 0)
  {
  }

  /** The receiver gets past the header and finds addresses and protocol. */
  lemma Ipv4Fields(src: Ip, dst: Ip, id: nat, payload: seq<Byte>, tail: seq<Byte>)
    ensures ParseIpv4(dst, Ipv4Bytes(src, dst, id, payload) + tail) == ParseTcp(src, payload + tail)
  {
    hide ParseTcp, Sum, Net16, Store;
    var h := Ipv4Header(|payload|, id, 6, src, dst);
    var stored, p := Store(h, 10, Sum(h)), Ipv4Bytes(src, dst, id, payload) + tail;
    HeaderAccepted(|payload|, id, 6, src, dst);
    StoreKeeps(h, 10, Sum(h));
    Ipv4Layout(|payload|, id, 6, src, dst);
    assert p[..20] == stored && p[20..] == payload + tail;
    assert p[12..16] == stored[12..16] == h[12..16] == src;
    assert p[16..20] == stored[16..20] == h[16..20] == dst;
  }

  lemma Ipv4Layout(len: nat, id: nat, protocol: Byte, src: Ip, dst: Ip)
    ensures var h := Ipv4Header(len, id, protocol, src, dst);
            && h[0] == 0x45 && h[1] == 0 && h[8] == 64 && h[9] == protocol && h[12..16] == src && h[16..20] == dst
            && h[2..4] == Net16(20 + len) && h[4..6] == Net16(id) && h[6] == 0x40 && h[7] == 0
  {
  }

  lemma FrameFields(to: Mac, from: Mac, payload: seq<Byte>, local: Ip)
    ensures ParseFrame(local, Frame(to, from, payload)) == ParseIpv4(local, payload + Padding(14 + |payload|))
  {
    hide ParseIpv4;
    var frame := Frame(to, from, payload);
    assert frame[14..] == payload + Padding(14 + |payload|);
    assert frame[12] == 8 && frame[13] == 0;
  }

  /** The whole way: `tcp_receive` reads what `tcp_send_segment` put into the frame, and behind it the padding. */
  lemma FrameArrives(toMac: Mac, fromMac: Mac, src: Ip, dst: Ip, id: nat, from: nat, to: nat, segment: Segment)
    requires |segment.payload| <= 2028 && from < 65536 && to < 65536
    requires segment.seqNum < Tcp.U32 && segment.ackNum < Tcp.U32
    ensures var bytes := TcpBytes(src, dst, from, to, segment);
            && ParseFrame(dst, Frame(toMac, fromMac, Ipv4Bytes(src, dst, id, bytes))) ==
               Some(Parsed(src, from, to, segment.seqNum, segment.ackNum, segment.flags,
                           segment.payload + Padding(54 + |segment.payload|)))
            && TcpSum(src, dst, bytes) == 0
  {
    hide ParseTcp, ParseIpv4, TcpSum, Frame, ParseFrame, Padding, Ipv4Bytes;
    var bytes := TcpBytes(src, dst, from, to, segment);
    var packet, pad := Ipv4Bytes(src, dst, id, bytes), Padding(54 + |segment.payload|);
    FrameFields(toMac, fromMac, packet, dst);
    Ipv4Fields(src, dst, id, bytes, pad);
    TcpFields(src, dst, from, to, segment, pad);
    SegmentVerifies(src, dst, TcpHeader(from, to, segment) + segment.payload);
  }

  /** A frame on its way that had one byte of the IP header changed, other than its first, is not taken in. */
  lemma DamagedHeader(src: Ip, dst: Ip, local: Ip, id: nat, payload: seq<Byte>, i: nat, b: Byte)
    requires 0 < i < 20 && b != Ipv4Bytes(src, dst, id, payload)[i]
    ensures ParseIpv4(local, Ipv4Bytes(src, dst, id, payload)[i := b]) == None
  {
    hide Sum, Net16, Store, ParseTcp;
    var h := Ipv4Header(|payload|, id, 6, src, dst);
    var stored, p := Store(h, 10, Sum(h)), Ipv4Bytes(src, dst, id, payload);
    HeaderAccepted(|payload|, id, 6, src, dst);
    StoreKeeps(h, 10, Sum(h));
    Ipv4Layout(|payload|, id, 6, src, dst);
    assert p[..20] == stored && p[i := b][..20] == stored[i := b];
    OneByteDetected(stored, stored[i := b], i);
  }

  /** A packet for someone else is dropped, one for everybody is taken. */
  lemma Addressed(src: Ip, dst: Ip, local: Ip, id: nat, payload: seq<Byte>)
    ensures ParseIpv4(local, Ipv4Bytes(src, dst, id, payload)) ==
            if dst == local || dst == [255, 255, 255, 255] then ParseTcp(src, payload) else None
  {
    hide ParseTcp, Sum, Net16, Store;
    var h := Ipv4Header(|payload|, id, 6, src, dst);
    var stored, p := Store(h, 10, Sum(h)), Ipv4Bytes(src, dst, id, payload);
    HeaderAccepted(|payload|, id, 6, src, dst);
    StoreKeeps(h, 10, Sum(h));
    Ipv4Layout(|payload|, id, 6, src, dst);
    assert p[..20] == stored && p[20..] == payload;
    assert p[12..16] == stored[12..16] == h[12..16] == src;
    assert p[16..20] == stored[16..20] == h[16..20] == dst;
  }

  /** Nothing is read from what is too short for its headers or names a header length that cannot be. */
  lemma TooShort(local: Ip, src: Ip, s: seq<Byte>)
    ensures |s| < 34 ==> ParseFrame(local, s) == None
    ensures |s| < 20 || s[12] < 0x50 || s[12] / 16 * 4 > |s| ==> ParseTcp(src, s) == None
    ensures |s| >= 20 && (s[0] < 0x45 || s[0] >= 0x50 || s[0] % 16 * 4 > |s|) ==> ParseIpv4(local, s) == None
  {
  }

  /** The length is taken from the frame: exactly the payload is read if and only if that has six bytes or more. */
  lemma PayloadArrives(payload: seq<Byte>)
    ensures payload + Padding(54 + |payload|) == payload <==> |payload| >= 6
  {
    if |payload| < 6 { assert |payload + Padding(54 + |payload|)| == 6; }
  }

  /** An acknowledgement without data puts six zero bytes into the ring of a connected socket. */
  lemma EmptyAckIsData(s: Sock, p: Parsed, ok: bool)
    requires s.state.Established? && |s.ring| + 6 <= RX_BUF && p.flags == ACK && p.data == [] + Padding(54)
    ensures var t := Receive(s, Arrival(p.seqNum, p.flags, p.data, ok, ok));
            t.ring == s.ring + [0, 0, 0, 0, 0, 0] && t.ackNum == (p.seqNum + 6) % Tcp.U32
  {
    assert p.data == [0, 0, 0, 0, 0, 0];
  }

  /** What the other socket makes of a segment, through the frame. */
  function Carried(segment: Segment): Arrival {
    Arrival(segment.seqNum, segment.flags, segment.payload + Padding(54 + |segment.payload|), true, true)
  }

  lemma CarriedIs(toMac: Mac, fromMac: Mac, src: Ip, dst: Ip, id: nat, from: nat, to: nat, segment: Segment)
    requires |segment.payload| <= 2028 && from < 65536 && to < 65536
    requires segment.seqNum < Tcp.U32 && segment.ackNum < Tcp.U32
    ensures var packet := Ipv4Bytes(src, dst, id, TcpBytes(src, dst, from, to, segment));
            var p := ParseFrame(dst, Frame(toMac, fromMac, packet));
            p.Some? && Arrival(p.value.seqNum, p.value.flags, p.value.data, true, true) == Carried(segment)
  {
    hide ParseFrame, Frame, Ipv4Bytes, TcpSum, Padding;
    FrameArrives(toMac, fromMac, src, dst, id, from, to, segment);
  }

  function Last(s: Sock): Segment
    requires s.wire != []
  {
    s.wire[|s.wire| - 1]
  }

  /** `n` turns, in each of which the other side receives what was sent last. */
  function Exchange(a: Sock, b: Sock, n: nat): (Sock, Sock)
    requires |a.ring| <= RX_BUF && |b.ring| <= RX_BUF && a.wire != [] && b.wire != []
    decreases n
  {
    if n == 0 then (a, b) else Exchange(Receive(b, Carried(Last(a))), a, n - 1)
  }

  /** Two connected sockets acknowledge each other's empty acknowledgements for ever, also once the rings are full. */
  lemma {:induction false} AcksForEver(a: Sock, b: Sock, n: nat)
    requires |a.ring| <= RX_BUF && |b.ring| <= RX_BUF && a.wire != [] && b.wire != []
    requires a.state.Established? && b.state.Established? && Last(a).flags == ACK && Last(a).payload == []
    ensures var (x, y) := Exchange(a, b, n);
            && x.state.Established? && y.state.Established? && |x.wire| + |y.wire| == |a.wire| + |b.wire| + n
            && x.wire != [] && Last(x).flags == ACK && Last(x).payload == []
    decreases n
  {
    hide Receive, Carried;
    if n > 0 {
      AckAnswered(b, Last(a));
      AcksForEver(Receive(b, Carried(Last(a))), a, n - 1);
    }
  }

  lemma AckAnswered(s: Sock, segment: Segment)
    requires |s.ring| <= RX_BUF && s.state.Established? && segment.flags == ACK && segment.payload == []
    ensures var t := Receive(s, Carried(segment));
            && t.state.Established? && |t.wire| == |s.wire| + 1 && Last(t).flags == ACK && Last(t).payload == []
  {
    hide Receive;
    PayloadArrives([]);
    DataAnswered(s, Carried(segment));
  }

  /** A FIN without data is acknowledged five bytes too far. */
  lemma FinOverran(s: Sock, segment: Segment)
    requires s.state.Established? && |s.ring| <= RX_BUF && segment.payload == []
    requires segment.flags.fin && !segment.flags.rst
    ensures var t := Receive(s, Carried(segment));
            t.state.CloseWait? && t.ackNum == (segment.seqNum + 6) % Tcp.U32 != (segment.seqNum + 1) % Tcp.U32
  {
    PayloadArrives([]);
    SameMod(segment.seqNum, 6, 1);
  }

  /** The sum under which a segment goes out: addresses, protocol, length and every word of the segment. */
  lemma TcpSumIs(src: Ip, dst: Ip, segment: seq<Byte>)
    requires |segment| <= 2048
    ensures TcpSum(src, dst, segment) ==
            65535 - Canonical(Total(src, 2) + Total(dst, 2) + 256 * 6 + Total(Net16(|segment|), 1) +
                              Total(segment, (|segment| + 1) / 2))
    ensures forall long: seq<Byte> :: |long| > 2048 ==> TcpSum(src, dst, long) == 0
  {
    hide Canonical, Fold, Net16, WordSum, Total, PseudoHeader, Sum;
    var h := PseudoHeader(src, dst, |segment|);
    NoOverflow(h + segment);
    SumOfParts(h, segment);
    PseudoSum(src, dst, |segment|);
    WordSumIs(segment);
  }

  lemma PseudoSum(src: Ip, dst: Ip, len: nat)
    ensures WordSum(PseudoHeader(src, dst, len)) == Total(src, 2) + Total(dst, 2) + 256 * 6 + Total(Net16(len), 1)
  {
    hide Net16, WordSum, Total;
    SumOfParts(src + dst + [0, 6], Net16(len));
    SumOfParts(src + dst, [0, 6]);
    SumOfParts(src, dst);
    WordSumIs(src);
    WordSumIs(dst);
    WordSumIs(Net16(len));
    ProtocolWord();
  }

  lemma ProtocolWord()
    ensures WordSum([0, 6]) == 256 * 6
  {
    var s: seq<Byte> := [0, 6];
    WordSumIs(s);
    assert Total(s, 1) == Total(s, 0) + WordAt(s, 0);
  }

  lemma {:induction false} SumOfParts(a: seq<Byte>, b: seq<Byte>)
    requires |a| % 2 == 0
    ensures WordSum(a + b) == WordSum(a) + WordSum(b)
    decreases |b|
  {
    if b == [] {
      assert a + b == a;
    } else {
      var n := |b| - 1;
      assert (a + b)[..|a + b| - 1] == a + b[..n];
      SumOfParts(a, b[..n]);
      assert (|a| + n) % 2 == n % 2;
    }
  }
}
