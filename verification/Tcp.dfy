/**
 The data path of a TCP socket (kernel/net/tcp.c): the receive ring, the
 acknowledgement and sequence numbers, and the cutting of a send into segments.
 Whether a segment leaves the machine is decided by the network below: it is a
 parameter wherever one is sent.
 */
module Tcp {
  import opened Arith
  import opened Bytes
  import opened Options

  const U32: nat := 0x1_0000_0000
  const RX_BUF: nat := 16384
  const MSS: nat := 1460
  const HEADER: nat := 20
  const TX_BUF: nat := 2048

  datatype State =
    Closed | Listen | SynSent | SynReceived | Established | FinWait1 | FinWait2 | CloseWait | Closing | LastAck |
      TimeWait

  datatype Flags = Flags(fin: bool, syn: bool, rst: bool, psh: bool, ack: bool)

  const ACK: Flags := Flags(false, false, false, false, true)
  const ACK_PSH: Flags := Flags(false, false, false, true, true)

  /** A segment that left: its numbers, flags, advertised window and payload. */
  datatype Segment = Segment(seqNum: nat, ackNum: nat, flags: Flags, window: nat, payload: seq<Byte>)

  /** A socket: `ring` is what the receive ring holds, oldest byte first, and `wire` what was sent. */
  datatype Sock = Sock(state: State, seqNum: nat, ackNum: nat, ring: seq<Byte>, wire: seq<Segment>)

  /** `tcp_send_segment` */
  function Transmit(s: Sock, flags: Flags, payload: seq<Byte>, ok: bool): Sock
    requires |s.ring| <= RX_BUF
  {
    if HEADER + |payload| > TX_BUF || !ok then s
    else
      var step := (if flags.syn || flags.fin then 1 else 0) + |payload|;
      s.(wire := s.wire + [Segment(s.seqNum, s.ackNum, flags, RX_BUF - |s.ring|, payload)],
         seqNum := (s.seqNum + step) % U32)
  }

  // Receiving

  /** The part of the data that fits the ring. */
  function Fitting(ring: seq<Byte>, data: seq<Byte>): (r: seq<Byte>)
    requires |ring| <= RX_BUF
    ensures r <= data && |ring| + |r| <= RX_BUF && (r == data || |ring| + |r| == RX_BUF)
  {
    data[..if |data| < RX_BUF - |ring| then |data| else RX_BUF - |ring|]
  }

  /** An arriving segment for this socket, and whether the replies to it can be sent. */
  datatype Arrival = Arrival(seqNum: nat, flags: Flags, data: seq<Byte>, ok: bool, finOk: bool)

  /** Data in the established state: into the ring what fits, and an acknowledgement of all of it. */
  function TakeData(s: Sock, a: Arrival): (t: Sock)
    requires |s.ring| <= RX_BUF
    ensures |t.ring| <= RX_BUF && |t.wire| >= |s.wire|
  {
    if a.data == [] then s
    else Transmit(s.(ring := s.ring + Fitting(s.ring, a.data), ackNum := (a.seqNum + |a.data|) % U32), ACK, [], a.ok)
  }

  /** `tcp_receive` for a socket that was found. */
  function Receive(s: Sock, a: Arrival): (t: Sock)
    requires |s.ring| <= RX_BUF
    ensures |t.ring| <= RX_BUF && |t.wire| >= |s.wire|
  {
    if a.flags.rst then s.(state := Closed)
    else
      match s.state
      case SynSent =>
        if a.flags.syn && a.flags.ack
        then Transmit(s.(ackNum := (a.seqNum + 1) % U32, state := Established), ACK, [], a.ok) else s
      case Established =>
        var t := TakeData(s, a);
        if a.flags.fin
        then Transmit(t.(ackNum := (a.seqNum + if a.data == [] then 1 else |a.data|) % U32, state := CloseWait), ACK,
                      [], a.finOk)
        else t
      case FinWait1 =>
        if !a.flags.ack then s
        else if a.flags.fin
        then Transmit(s.(ackNum := (a.seqNum + 1) % U32, state := TimeWait), ACK, [], a.ok)
        else s.(state := FinWait2)
      case FinWait2 =>
        if a.flags.fin then Transmit(s.(ackNum := (a.seqNum + 1) % U32, state := TimeWait), ACK, [], a.ok) else s
      case LastAck => if a.flags.ack then s.(state := Closed) else s
      case _ => s
  }

  /** `tcp_recv` once the polling is over: up to `n` bytes from the front of the ring. */
  function Recv(s: Sock, n: nat): (r: (Sock, seq<Byte>))
    ensures r.1 + r.0.ring == s.ring && |r.1| == if n < |s.ring| then n else |s.ring|
  {
    var k := if n < |s.ring| then n else |s.ring|;
    (s.(ring := s.ring[k..]), s.ring[..k])
  }

  /** The segments that one poll of the network hands to the socket, in order. */
  function ReceiveAll(s: Sock, arrivals: seq<Arrival>): (t: Sock)
    requires |s.ring| <= RX_BUF
    ensures |t.ring| <= RX_BUF
  {
    if arrivals == [] then s
    else Receive(ReceiveAll(s, arrivals[..|arrivals| - 1]), arrivals[|arrivals| - 1])
  }

  // Sending

  function Chunk(rest: nat): nat { if rest > MSS then MSS else rest }

  /**
   The loop of `tcp_send` from byte `i` on: `link` tells which transmissions succeed, and
   `polls` what arrives when the network is polled after the segment that starts at a byte.
   */
  function SendFrom(s: Sock, data: seq<Byte>, i: nat, link: nat -> bool, polls: nat -> seq<Arrival>): (Sock, bool)
    requires |s.ring| <= RX_BUF && i <= |data|
    decreases |data| - i
  {
    if i == |data| then (s, true)
    else
      var n := Chunk(|data| - i);
      if !link(i) then (s, false)
      else SendFrom(ReceiveAll(Transmit(s, ACK_PSH, data[i..i + n], true), polls(i)), data, i + n, link, polls)
  }

  /** The payloads of a list of segments, end to end. */
  function Payloads(segments: seq<Segment>): seq<Byte> {
    if segments == [] then [] else Payloads(segments[..|segments| - 1]) + segments[|segments| - 1].payload
  }

  /**
   Each segment starts where the data before it ended, from `start` on, and data segments are neither empty nor
   too large.
   */
  predicate Consecutive(segments: seq<Segment>, start: nat) {
    segments == [] ||
    var n := |segments| - 1;
    && Consecutive(segments[..n], start) && |segments[n].payload| <= MSS
    && (segments[n].flags.psh <==> segments[n].payload != [])
    && segments[n].seqNum == (start + |Payloads(segments[..n])|) % U32
  }

  /** A send in progress: `sent` is what left so far, the first `i` bytes of the data and bare acknowledgements. */
  ghost predicate Sent(s: Sock, t: Sock, data: seq<Byte>, i: nat, sent: seq<Segment>) {
    && |t.ring| <= RX_BUF && t.wire == s.wire + sent && t.seqNum == (s.seqNum + i) % U32
    && i <= |data| && Payloads(sent) == data[..i] && Consecutive(sent, s.seqNum)
  }

  lemma SentMore(s: Sock, t: Sock, data: seq<Byte>, i: nat, sent: seq<Segment>, n: nat) returns (more: seq<Segment>)
    requires Sent(s, t, data, i, sent) && i + n <= |data| && 0 < n <= MSS && s.seqNum < U32
    ensures Sent(s, Transmit(t, ACK_PSH, data[i..i + n], true), data, i + n, more)
  {
    more := sent + [Segment(t.seqNum, t.ackNum, ACK_PSH, RX_BUF - |t.ring|, data[i..i + n])];
    assert more[..|sent|] == sent;
    assert data[..i] + data[i..i + n] == data[..i + n];
    assert s.wire + more == s.wire + sent + [more[|sent|]];
    NextSeq(s.seqNum, i, n);
  }

  lemma NextSeq(start: nat, i: nat, n: nat)
    ensures ((start + i) % U32 + n) % U32 == (start + (i + n)) % U32
  {
  }

  /** An acknowledgement that carries nothing fits between the segments of a send. */
  lemma SentReply(s: Sock, t: Sock, data: seq<Byte>, i: nat, sent: seq<Segment>, u: Sock, reply: bool)
    returns (more: seq<Segment>)
    requires Sent(s, t, data, i, sent) && s.seqNum < U32 && |u.ring| <= RX_BUF
    requires u.wire == t.wire && u.seqNum == t.seqNum
    ensures Sent(s, Transmit(u, ACK, [], reply), data, i, more)
  {
    more := sent;
    if reply {
      more := sent + [Segment(u.seqNum, u.ackNum, ACK, RX_BUF - |u.ring|, [])];
      assert more[..|sent|] == sent;
      assert s.wire + more == s.wire + sent + [more[|sent|]];
      NextSeq(s.seqNum, i, 0);
    }
  }

  /** So does whatever a socket answers to an arriving segment. */
  lemma SentReceive(s: Sock, t: Sock, data: seq<Byte>, i: nat, sent: seq<Segment>, a: Arrival)
    returns (more: seq<Segment>)
    requires Sent(s, t, data, i, sent) && s.seqNum < U32
    ensures Sent(s, Receive(t, a), data, i, more)
  {
    hide Sent;
    SentFacts(s, t, data, i, sent);
    more := SentReply(s, t, data, i, sent, t, false);
    if !a.flags.rst && t.state.Established? {
      var u := t.(ring := t.ring + Fitting(t.ring, a.data), ackNum := (a.seqNum + |a.data|) % U32);
      if a.data != [] { more := SentReply(s, t, data, i, sent, u, a.ok); }
      if a.flags.fin {
        var v := TakeData(t, a);
        more := SentReply(s, v, data, i, more, v.(ackNum := (a.seqNum + if a.data == [] then 1 else |a.data|) % U32,
                                                  state := CloseWait), a.finOk);
      }
    } else if !a.flags.rst && t.state.SynSent? && a.flags.syn && a.flags.ack {
      more := SentReply(s, t, data, i, sent, t.(ackNum := (a.seqNum + 1) % U32, state := Established), a.ok);
    } else if !a.flags.rst && a.flags.fin && (t.state.FinWait2? || (t.state.FinWait1? && a.flags.ack)) {
      more := SentReply(s, t, data, i, sent, t.(ackNum := (a.seqNum + 1) % U32, state := TimeWait), a.ok);
    } else {
      SentStays(s, t, data, i, sent, Receive(t, a));
      more := sent;
    }
  }

  lemma SentFacts(s: Sock, t: Sock, data: seq<Byte>, i: nat, sent: seq<Segment>)
    requires Sent(s, t, data, i, sent)
    ensures |t.ring| <= RX_BUF
  {
  }

  lemma SentStays(s: Sock, t: Sock, data: seq<Byte>, i: nat, sent: seq<Segment>, u: Sock)
    requires Sent(s, t, data, i, sent) && u.wire == t.wire && u.seqNum == t.seqNum && u.ring == t.ring
    ensures Sent(s, u, data, i, sent)
  {
  }

  lemma {:induction false} SentReceiveAll(s: Sock, t: Sock, data: seq<Byte>, i: nat, sent: seq<Segment>,
                                          arrivals: seq<Arrival>)
    returns (more: seq<Segment>)
    requires Sent(s, t, data, i, sent) && s.seqNum < U32 && |t.ring| <= RX_BUF
    ensures Sent(s, ReceiveAll(t, arrivals), data, i, more)
    decreases |arrivals|
  {
    hide Sent, Receive;
    more := sent;
    if arrivals != [] {
      var n := |arrivals| - 1;
      more := SentReceiveAll(s, t, data, i, sent, arrivals[..n]);
      more := SentReceive(s, ReceiveAll(t, arrivals[..n]), data, i, more, arrivals[n]);
    }
  }

  /**
   Whatever the link does and whatever arrives meanwhile, what leaves is a prefix of the data cut into
   consecutive segments.
   */
  lemma {:induction false} SendIsPrefix(s: Sock, t: Sock, data: seq<Byte>, i: nat, sent: seq<Segment>,
                                        link: nat -> bool, polls: nat -> seq<Arrival>)
    returns (m: nat, all: seq<Segment>)
    requires s.seqNum < U32 && i <= |data| && |t.ring| <= RX_BUF && Sent(s, t, data, i, sent)
    ensures var (u, ok) := SendFrom(t, data, i, link, polls); Sent(s, u, data, m, all) && (ok <==> m == |data|)
    ensures (forall j: nat :: link(j)) ==> m == |data|
    decreases |data| - i
  {
    hide Sent, Transmit, ReceiveAll;
    if i == |data| || !link(i) {
      m, all := i, sent;
    } else {
      var n := Chunk(|data| - i);
      var next := Transmit(t, ACK_PSH, data[i..i + n], true);
      var more := SentMore(s, t, data, i, sent, n);
      SentFacts(s, next, data, i + n, more);
      more := SentReceiveAll(s, next, data, i + n, more, polls(i));
      m, all := SendIsPrefix(s, ReceiveAll(next, polls(i)), data, i + n, more, link, polls);
    }
  }

  /** `tcp_send` */
  function Send(s: Sock, data: seq<Byte>, link: nat -> bool, polls: nat -> seq<Arrival>): (Sock, int)
    requires |s.ring| <= RX_BUF
  {
    if data == [] then (s, 0)
    else if !s.state.Established? && !s.state.CloseWait? then (s, -1)
    else
      var (t, ok) := SendFrom(s, data, 0, link, polls);
      (t, if ok then |data| else -1)
  }

  /**
   A send puts consecutive segments on the wire whose payloads are the data, or a prefix of it when the
   link fails, whatever arrives between them; the sequence number moves by exactly the bytes that left.
   */
  lemma SendSplits(s: Sock, data: seq<Byte>, link: nat -> bool, polls: nat -> seq<Arrival>)
    returns (m: nat, sent: seq<Segment>)
    requires |s.ring| <= RX_BUF && s.seqNum < U32
    ensures var (t, r) := Send(s, data, link, polls);
            && Sent(s, t, data, m, sent)
            && (data == [] ==> r == 0)
            && (data != [] && !s.state.Established? && !s.state.CloseWait? ==> r == -1 && m == 0 && t == s)
            && (data != [] && (s.state.Established? || s.state.CloseWait?) ==>
                  (r == if m == |data| then |data| else -1) && ((forall j: nat :: link(j)) ==> m == |data|))
  {
    m, sent := 0, [];
    assert s.wire + [] == s.wire && Sent(s, s, data, 0, []);
    if data != [] && (s.state.Established? || s.state.CloseWait?) {
      m, sent := SendIsPrefix(s, s, data, 0, [], link, polls);
    }
  }

  // Closing

  const FIN_ACK: Flags := Flags(true, false, false, false, true)

  /** `tcp_close` up to its wait: a FIN leaves an open connection, whichever side closes first. */
  function StartClose(s: Sock, ok: bool): Sock
    requires |s.ring| <= RX_BUF
  {
    if s.state.Established? then Transmit(s.(state := FinWait1), FIN_ACK, [], ok)
    else if s.state.CloseWait? then Transmit(s.(state := LastAck), FIN_ACK, [], ok)
    else s.(state := Closed)
  }

  /** A close without a connection sends nothing. */
  lemma CloseUnconnected(s: Sock, ok: bool)
    requires |s.ring| <= RX_BUF && !s.state.Established? && !s.state.CloseWait?
    ensures StartClose(s, ok).state.Closed? && StartClose(s, ok).wire == s.wire
  {
  }

  /** A segment leaves exactly when it fits the buffer and the network takes it. */
  lemma SegmentLeaves(s: Sock, flags: Flags, payload: seq<Byte>, ok: bool)
    requires |s.ring| <= RX_BUF
    ensures Transmit(s, flags, payload, ok) == s <==> !ok || |payload| > 2028
  {
    if ok && |payload| <= 2028 { assert |Transmit(s, flags, payload, ok).wire| == |s.wire| + 1; }
  }

  /** The last segment sent, as it arrives on the other side. */
  function Delivered(s: Sock): Arrival
    requires s.wire != []
  {
    var segment := s.wire[|s.wire| - 1];
    Arrival(segment.seqNum, segment.flags, segment.payload, true, true)
  }

  /** Both ends are connected and each expects the byte the other sends next. */
  predicate InStep(a: Sock, b: Sock) {
    && a.state.Established? && b.state.Established? && |a.ring| <= RX_BUF && |b.ring| <= RX_BUF
    && a.seqNum == b.ackNum < U32 && b.seqNum == a.ackNum < U32
  }

  /** One side closes and then the other: each passes through its states, and each acknowledges the other's FIN. */
  lemma CloseInTurn(a: Sock, b: Sock)
    requires InStep(a, b)
    ensures var a1 := StartClose(a, true);
            var b1 := Receive(b, Delivered(a1));
            var a2 := Receive(a1, Delivered(b1));
            var b2 := StartClose(b1, true);
            var a3 := Receive(a2, Delivered(b2));
            var b3 := Receive(b2, Delivered(a3));
            && a1.state.FinWait1? && b1.state.CloseWait? && a2.state.FinWait2? && b2.state.LastAck?
            && a3.state.TimeWait? && b3.state.Closed? && b1.ackNum == a1.seqNum && a3.ackNum == b2.seqNum
            && a1.seqNum == (a.seqNum + 1) % U32 && b2.seqNum == (b.seqNum + 1) % U32
            && a3.ring == a.ring && b3.ring == b.ring
  {
    hide InStep;
    InStepFacts(a, b);
  }

  lemma InStepFacts(a: Sock, b: Sock)
    requires InStep(a, b)
    ensures a.state.Established? && b.state.Established? && |a.ring| <= RX_BUF && |b.ring| <= RX_BUF
    ensures a.seqNum == b.ackNum < U32 && b.seqNum == a.ackNum < U32
  {
  }

  /** Both sides close at once: each takes the other's FIN for its answer. */
  lemma CloseAtOnce(a: Sock, b: Sock)
    requires InStep(a, b)
    ensures var a1, b1 := StartClose(a, true), StartClose(b, true);
            var a2, b2 := Receive(a1, Delivered(b1)), Receive(b1, Delivered(a1));
            a2.state.TimeWait? && b2.state.TimeWait? && a2.ackNum == b1.seqNum && b2.ackNum == a1.seqNum
  {
    InStepFacts(a, b);
  }

  /** A reset closes the socket in any state and changes nothing else. */
  lemma ResetCloses(s: Sock, a: Arrival)
    requires |s.ring| <= RX_BUF && a.flags.rst
    ensures Receive(s, a) == s.(state := Closed)
  {
  }

  /** What a socket does not wait for in its state leaves it as it is, but for a reset. */
  lemma Indifferent(s: Sock, a: Arrival)
    requires |s.ring| <= RX_BUF && !a.flags.rst
    requires || s.state.Closed? || s.state.Listen? || s.state.CloseWait? || s.state.TimeWait?
             || (s.state.Established? && a.data == [] && !a.flags.fin) || (s.state.SynSent? && !a.flags.syn)
             || ((s.state.SynSent? || s.state.FinWait1? || s.state.LastAck?) && !a.flags.ack)
             || (s.state.FinWait2? && !a.flags.fin)
    ensures Receive(s, a) == s
  {
  }

  // The byte stream

  /** Acknowledgement and stream agree exactly when the data fitted: what is dropped is acknowledged all the same. */
  lemma AckCoversAccepted(s: Sock, a: Arrival)
    requires |s.ring| <= RX_BUF && 0 < |a.data| < U32
    ensures TakeData(s, a).ackNum == (a.seqNum + |Fitting(s.ring, a.data)|) % U32 <==> |a.data| <= RX_BUF - |s.ring|
  {
    SameMod(a.seqNum, |a.data|, |Fitting(s.ring, a.data)|);
  }

  lemma SameMod(x: nat, y: nat, z: nat)
    requires y < U32 && z <= y
    ensures (x + y) % U32 == (x + z) % U32 <==> y == z
  {
  }

  /** Data is answered at once, by one segment with the new acknowledgement and window and nothing else. */
  lemma DataAnswered(s: Sock, a: Arrival)
    requires |s.ring| <= RX_BUF && s.state.Established? && a.data != [] && !a.flags.rst && !a.flags.fin && a.ok
    ensures var t := Receive(s, a);
            && t.state.Established? && t.seqNum == s.seqNum % U32 && |t.wire| == |s.wire| + 1 && s.wire <= t.wire
            && var reply := t.wire[|s.wire|];
               && reply.flags == ACK && reply.payload == [] && reply.seqNum == s.seqNum
               && reply.ackNum == (a.seqNum + |a.data|) % U32 && reply.window == RX_BUF - |t.ring|
  {
  }

  /** A FIN is acknowledged exactly when it carries no data. */
  lemma FinAcked(s: Sock, a: Arrival)
    requires |s.ring| <= RX_BUF && s.state.Established? && a.flags.fin && !a.flags.rst && |a.data| < U32 - 1
    ensures Receive(s, a).ackNum == (a.seqNum + |a.data| + 1) % U32 <==> a.data == []
  {
    SameMod(a.seqNum, |a.data| + 1, |a.data|);
  }

  /** What can happen to a socket: a segment arrives, the user reads, or a send gets to its next segment. */
  datatype Event = Arrive(a: Arrival) | Read(n: nat) | Push(payload: seq<Byte>, ok: bool)

  /** One read: how much the user asked for, how much the ring held, and what came back. */
  datatype Reading = Reading(asked: nat, held: nat, bytes: seq<Byte>)

  /** As much as was asked for, or all there was. */
  predicate Fair(r: Reading) {
    |r.bytes| <= r.asked && |r.bytes| <= r.held && (|r.bytes| == r.asked || |r.bytes| == r.held)
  }

  /** What the reads returned, end to end. */
  function BytesRead(readings: seq<Reading>): seq<Byte> {
    if readings == [] then [] else BytesRead(readings[..|readings| - 1]) + readings[|readings| - 1].bytes
  }

  lemma BytesReadMore(readings: seq<Reading>, r: Reading)
    ensures BytesRead(readings + [r]) == BytesRead(readings) + r.bytes
  {
    assert (readings + [r])[..|readings|] == readings;
  }

  /** A socket with the bytes it has taken in and the reads of its user. */
  datatype Log = Log(sock: Sock, accepted: seq<Byte>, readings: seq<Reading>)

  function Step(l: Log, e: Event): (r: Log)
    requires |l.sock.ring| <= RX_BUF
    ensures |r.sock.ring| <= RX_BUF
  {
    match e
    case Arrive(a) =>
      var taken := if l.sock.state.Established? && !a.flags.rst then Fitting(l.sock.ring, a.data) else [];
      l.(sock := Receive(l.sock, a), accepted := l.accepted + taken)
    case Read(n) =>
      var (s, bytes) := Recv(l.sock, n);
      l.(sock := s, readings := l.readings + [Reading(n, |l.sock.ring|, bytes)])
    case Push(payload, ok) => l.(sock := Transmit(l.sock, ACK_PSH, payload, ok))
  }

  /** A send changes nothing but the sequence number and the wire, and every segment carries the current numbers. */
  ghost predicate OnlySends(s: Sock, t: Sock)
    requires |s.ring| <= RX_BUF
  {
    && t == s.(wire := t.wire, seqNum := t.seqNum) && s.wire <= t.wire
    && forall k :: |s.wire| <= k < |t.wire| ==> t.wire[k].ackNum == s.ackNum && t.wire[k].window == RX_BUF - |s.ring|
  }

  lemma TransmitOnlySends(s: Sock, flags: Flags, payload: seq<Byte>, ok: bool)
    requires |s.ring| <= RX_BUF
    ensures OnlySends(s, Transmit(s, flags, payload, ok))
  {
  }

  function Run(l: Log, events: seq<Event>): (r: Log)
    requires |l.sock.ring| <= RX_BUF
    ensures |r.sock.ring| <= RX_BUF
  {
    if events == [] then l else Step(Run(l, events[..|events| - 1]), events[|events| - 1])
  }

  /**
   Whatever arrives and whenever the user reads: bytes read and bytes in the ring are the bytes taken in, in
   order, and each read returned what it asked for or all the ring held.
   */
  lemma {:induction false} StreamConserved(s: Sock, events: seq<Event>)
    requires s.ring == []
    ensures var l := Run(Log(s, [], []), events);
            && BytesRead(l.readings) + l.sock.ring == l.accepted && |l.sock.ring| <= RX_BUF
            && forall k :: 0 <= k < |l.readings| ==> Fair(l.readings[k])
  {
    if events != [] {
      var n := |events| - 1;
      StreamConserved(s, events[..n]);
      StepConserves(Run(Log(s, [], []), events[..n]), events[n]);
    }
  }

  lemma StepConserves(l: Log, e: Event)
    requires |l.sock.ring| <= RX_BUF && BytesRead(l.readings) + l.sock.ring == l.accepted
    requires forall k :: 0 <= k < |l.readings| ==> Fair(l.readings[k])
    ensures var r := Step(l, e);
            BytesRead(r.readings) + r.sock.ring == r.accepted &&
            forall k :: 0 <= k < |r.readings| ==> Fair(r.readings[k])
  {
    hide Receive, Recv, Transmit, BytesRead, Fair, Fitting;
    match e
    case Arrive(a) =>
      ReceiveRing(l.sock, a);
      Joined(BytesRead(l.readings), l.sock.ring, Fitting(l.sock.ring, a.data));
      assert l.accepted + [] == l.accepted;
    case Read(n) =>
      var (s, bytes) := Recv(l.sock, n);
      RecvFrame(l.sock, n);
      BytesReadMore(l.readings, Reading(n, |l.sock.ring|, bytes));
      Joined(BytesRead(l.readings), bytes, s.ring);
    case Push(payload, ok) => TransmitOnlySends(l.sock, ACK_PSH, payload, ok);
  }

  /** An arriving segment adds to the ring what fits, and only on a connection that is not reset by it. */
  lemma ReceiveRing(s: Sock, a: Arrival)
    requires |s.ring| <= RX_BUF
    ensures Receive(s, a).ring == s.ring + if s.state.Established? && !a.flags.rst then Fitting(s.ring, a.data) else []
  {
  }

  lemma {:induction false} RunConcat(l: Log, a: seq<Event>, b: seq<Event>)
    requires |l.sock.ring| <= RX_BUF
    ensures Run(l, a + b) == Run(Run(l, a), b)
    decreases |b|
  {
    if b == [] {
      assert a + b == a;
    } else {
      var n := |b| - 1;
      assert (a + b)[..|a + b| - 1] == a + b[..n];
      RunConcat(l, a, b[..n]);
    }
  }

  lemma RunOne(l: Log, e: Event)
    requires |l.sock.ring| <= RX_BUF
    ensures Run(l, [e]) == Step(l, e)
  {
    assert [e][..0] == [];
  }

  /** A poll is a run of arrivals. */
  lemma {:induction false} PollIsRun(l: Log, arrivals: seq<Arrival>) returns (events: seq<Event>)
    requires |l.sock.ring| <= RX_BUF
    ensures Run(l, events).sock == ReceiveAll(l.sock, arrivals) && forall e :: e in events ==> e.Arrive?
    decreases |arrivals|
  {
    events := [];
    if arrivals != [] {
      var n := |arrivals| - 1;
      var first := PollIsRun(l, arrivals[..n]);
      events := first + [Arrive(arrivals[n])];
      assert events[..|first|] == first;
    }
  }

  /** A whole send, with what arrives between its segments, is a run of single steps. */
  lemma {:induction false} SendIsRun(l: Log, data: seq<Byte>, i: nat, link: nat -> bool, polls: nat -> seq<Arrival>)
    returns (events: seq<Event>)
    requires |l.sock.ring| <= RX_BUF && i <= |data|
    ensures Run(l, events).sock == SendFrom(l.sock, data, i, link, polls).0
    ensures forall e :: e in events ==> e.Arrive? || e.Push?
    decreases |data| - i
  {
    hide Transmit, ReceiveAll;
    events := [];
    if i < |data| && link(i) {
      var n := Chunk(|data| - i);
      var push := [Push(data[i..i + n], true)];
      var pushed := Run(l, push);
      RunOne(l, push[0]);
      var poll := PollIsRun(pushed, polls(i));
      var rest := SendIsRun(Run(pushed, poll), data, i + n, link, polls);
      RunConcat(l, push, poll);
      RunConcat(l, push + poll, rest);
      events := push + poll + rest;
    }
  }

  // A peer that keeps to the window

  /**
   A connection with an in-order peer: the bytes that arrived, the bytes read, and for each segment
   sent the stream position its acknowledgement and window allow the peer to reach.
   */
  datatype Conn = Conn(sock: Sock, received: seq<Byte>, readings: seq<Reading>, offers: seq<nat>)

  datatype Turn = PeerSends(data: seq<Byte>, ok: bool) | UserReads(n: nat) | UserSends(payload: seq<Byte>, ok: bool)

  /** The position that the current acknowledgement and window stand for. */
  function Edge(received: seq<Byte>, ring: seq<Byte>): nat
    requires |ring| <= RX_BUF
  {
    |received| + (RX_BUF - |ring|)
  }

  function Offers(c: Conn, s: Sock, received: seq<Byte>): seq<nat>
    requires |s.ring| <= RX_BUF && |s.wire| >= |c.sock.wire|
  {
    c.offers + seq<nat>(|s.wire| - |c.sock.wire|, _ => Edge(received, s.ring))
  }

  /** The peer sends only what some window offered to it admits. */
  predicate MayTake(c: Conn, t: Turn) {
    t.PeerSends? ==> t.data != [] && exists k :: 0 <= k < |c.offers| && |c.received| + |t.data| <= c.offers[k]
  }

  function Take(c: Conn, start: nat, t: Turn): Conn
    requires |c.sock.ring| <= RX_BUF
  {
    match t
    case PeerSends(data, ok) =>
      var s := Receive(c.sock, Arrival((start + |c.received|) % U32, ACK, data, ok, ok));
      Conn(s, c.received + data, c.readings, Offers(c, s, c.received + data))
    case UserReads(n) =>
      var (s, bytes) := Recv(c.sock, n);
      c.(sock := s, readings := c.readings + [Reading(n, |c.sock.ring|, bytes)])
    case UserSends(payload, ok) =>
      var s := Transmit(c.sock, ACK_PSH, payload, ok);
      c.(sock := s, offers := Offers(c, s, c.received))
  }

  /** The offer number `k` is what the segment it belongs to says, modulo 2^32. */
  predicate OfferOnWire(c: Conn, start: nat, k: nat)
    requires k < |c.offers| <= |c.sock.wire|
  {
    var segment := c.sock.wire[|c.sock.wire| - |c.offers| + k];
    (segment.ackNum + segment.window) % U32 == (start + c.offers[k]) % U32
  }

  ghost predicate Good(c: Conn, start: nat) {
    && c.sock.state.Established? && |c.sock.ring| <= RX_BUF && BytesRead(c.readings) + c.sock.ring == c.received
    && c.sock.ackNum == (start + |c.received|) % U32 && |c.offers| <= |c.sock.wire|
    && (forall k: nat :: k < |c.offers| ==> c.offers[k] <= |BytesRead(c.readings)| + RX_BUF)
    && (forall k :: 0 <= k < |c.readings| ==> Fair(c.readings[k]))
    && (forall k: nat :: k < |c.offers| ==> OfferOnWire(c, start, k))
  }

  /** Offers grow with the wire, and new ones stand for the current acknowledgement and window. */
  lemma OffersFollow(c: Conn, start: nat, c': Conn)
    requires |c.offers| <= |c.sock.wire| && |c'.sock.ring| <= RX_BUF && c.sock.wire <= c'.sock.wire
    requires c'.offers == Offers(c, c'.sock, c'.received) && c'.sock.ackNum == (start + |c'.received|) % U32
    requires forall k: nat :: k < |c.offers| ==> OfferOnWire(c, start, k)
    requires forall k :: |c.sock.wire| <= k < |c'.sock.wire| ==>
                           c'.sock.wire[k].ackNum == c'.sock.ackNum && c'.sock.wire[k].window == RX_BUF - |c'.sock.ring|
    ensures |c'.offers| <= |c'.sock.wire| && forall k: nat :: k < |c'.offers| ==> OfferOnWire(c', start, k)
  {
    forall k: nat | k < |c'.offers| ensures OfferOnWire(c', start, k) {
      if k < |c.offers| {
        assert OfferOnWire(c, start, k);
      } else {
        NextSeq(start, |c'.received|, RX_BUF - |c'.sock.ring|);
      }
    }
  }

  lemma TurnKeepsGood(c: Conn, start: nat, t: Turn)
    requires Good(c, start) && MayTake(c, t)
    ensures Good(Take(c, start, t), start)
  {
    match t
    case PeerSends(data, ok) => PeerSendsGood(c, start, data, ok);
    case UserReads(n) => UserReadsGood(c, start, n);
    case UserSends(payload, ok) =>
      TransmitOnlySends(c.sock, ACK_PSH, payload, ok);
      OffersFollow(c, start, Take(c, start, t));
  }

  lemma PeerSendsGood(c: Conn, start: nat, data: seq<Byte>, ok: bool)
    requires Good(c, start) && MayTake(c, PeerSends(data, ok))
    ensures Good(Take(c, start, PeerSends(data, ok)), start)
  {
    hide BytesRead;
    assert |c.received| == |BytesRead(c.readings)| + |c.sock.ring|;
    assert Fitting(c.sock.ring, data) == data;
    var c' := Take(c, start, PeerSends(data, ok));
    NextSeq(start, |c.received|, |data|);
    assert c'.sock.ring == c.sock.ring + data && BytesRead(c.readings) + (c.sock.ring + data) == c.received + data;
    OffersFollow(c, start, c');
  }

  lemma UserReadsGood(c: Conn, start: nat, n: nat)
    requires Good(c, start)
    ensures Good(Take(c, start, UserReads(n)), start)
  {
    hide OfferOnWire, Recv, BytesRead;
    var (s, bytes) := Recv(c.sock, n);
    RecvFrame(c.sock, n);
    var c' := Take(c, start, UserReads(n));
    BytesReadMore(c.readings, Reading(n, |c.sock.ring|, bytes));
    Joined(BytesRead(c.readings), bytes, s.ring);
    forall k: nat | k < |c'.offers| ensures OfferOnWire(c', start, k) {
      assert OfferOnWire(c, start, k);
      OfferKept(c, c', start, k);
    }
  }

  lemma Joined(a: seq<Byte>, b: seq<Byte>, c: seq<Byte>)
    ensures (a + b) + c == a + (b + c) && |a + b| == |a| + |b|
  {
  }

  /** Reading changes nothing but the ring. */
  lemma RecvFrame(s: Sock, n: nat)
    ensures var (t, bytes) := Recv(s, n);
            && t == s.(ring := t.ring) && bytes + t.ring == s.ring && |t.ring| <= |s.ring|
            && Fair(Reading(n, |s.ring|, bytes))
  {
  }

  lemma OfferKept(c: Conn, c': Conn, start: nat, k: nat)
    requires k < |c.offers| <= |c.sock.wire| && c'.offers == c.offers && c'.sock.wire == c.sock.wire
    ensures OfferOnWire(c', start, k) <==> OfferOnWire(c, start, k)
  {
  }

  /** All runs of an in-order peer and a user. */
  function Converse(c: Conn, start: nat, turns: seq<Turn>): Option<Conn>
    decreases |turns|
  {
    if turns == [] then Some(c)
    else
      match Converse(c, start, turns[..|turns| - 1])
      case None => None
      case Some(d) =>
        var t := turns[|turns| - 1];
        if |d.sock.ring| <= RX_BUF && MayTake(d, t) then Some(Take(d, start, t)) else None
  }

  /**
   The connection right after the handshake: one segment sent, acknowledging `start`, with the whole ring on
   offer.
   */
  predicate Connected(c: Conn, start: nat) {
    && c.sock.state.Established? && c.sock.ring == [] && c.received == [] && c.readings == [] && c.offers == [RX_BUF]
    && c.sock.ackNum == start % U32 && c.sock.wire != []
    && c.sock.wire[|c.sock.wire| - 1].ackNum == start % U32 && c.sock.wire[|c.sock.wire| - 1].window == RX_BUF
  }

  /** The reply to the handshake leaves the connection in that state, one past the peer's first number. */
  lemma HandshakeConnects(s: Sock, a: Arrival)
    requires s.state.SynSent? && s.ring == [] && a.flags.syn && a.flags.ack && !a.flags.rst && a.ok
    ensures Connected(Conn(Receive(s, a), [], [], [RX_BUF]), a.seqNum + 1)
    ensures Receive(s, a).seqNum == s.seqNum % U32
  {
  }

  lemma FirstOffer(c: Conn, start: nat)
    requires Connected(c, start)
    ensures OfferOnWire(c, start, 0)
  {
    NextSeq(start, 0, RX_BUF);
  }

  /**
   A peer that sends in order, once, and within the windows offered loses nothing: what the user
   reads and the ring still holds is all it sent, and the acknowledgement counts all of it.
   */
  lemma {:induction false} NothingDropped(c: Conn, start: nat, turns: seq<Turn>)
    requires Connected(c, start) && Converse(c, start, turns).Some?
    ensures var d := Converse(c, start, turns).value;
            && Good(d, start) && BytesRead(d.readings) + d.sock.ring == d.received
            && (forall k :: 0 <= k < |d.readings| ==> Fair(d.readings[k]))
            && d.sock.ackNum == (start + |d.received|) % U32
    decreases |turns|
  {
    hide Take, MayTake, OfferOnWire;
    if turns == [] {
      FirstOffer(c, start);
    } else {
      var n := |turns| - 1;
      NothingDropped(c, start, turns[..n]);
      TurnKeepsGood(Converse(c, start, turns[..n]).value, start, turns[n]);
    }
  }

  // The socket in place

  /** What `len` bytes from `head` on hold, going round the end of the buffer. */
  function RingOf(buf: seq<Byte>, head: nat, len: nat): (r: seq<Byte>)
    requires |buf| == RX_BUF
    ensures |r| == len
  {
    seq<Byte>(len, i requires 0 <= i => buf[(head + i) % RX_BUF])
  }

  lemma RingPush(buf: seq<Byte>, head: nat, len: nat, b: Byte)
    requires |buf| == RX_BUF && len < RX_BUF
    ensures RingOf(buf[(head + len) % RX_BUF := b], head, len + 1) == RingOf(buf, head, len) + [b]
  {
    var r := RingOf(buf[(head + len) % RX_BUF := b], head, len + 1);
    forall k: nat | k < len ensures r[k] == RingOf(buf, head, len)[k] { SlotsDiffer(head, k, len, RX_BUF); }
  }

  lemma RingPop(buf: seq<Byte>, head: nat, len: nat)
    requires |buf| == RX_BUF && head < RX_BUF && len > 0
    ensures RingOf(buf, head, len) == [buf[head]] + RingOf(buf, (head + 1) % RX_BUF, len - 1)
  {
    forall k: nat | 0 < k < len ensures RingOf(buf, head, len)[k] == RingOf(buf, (head + 1) % RX_BUF, len - 1)[k - 1] {
      assert (head + k) % RX_BUF == ((head + 1) % RX_BUF + (k - 1)) % RX_BUF;
    }
  }

  lemma Regroup(a: seq<Byte>, b: Byte, c: seq<Byte>)
    ensures a + ([b] + c) == (a + [b]) + c
  {
  }

  lemma NextHead(head: nat, m: nat)
    requires m > 0
    ensures (head + m) % RX_BUF == ((head + 1) % RX_BUF + (m - 1)) % RX_BUF
  {
  }

  lemma FittingMore(ring: seq<Byte>, data: seq<Byte>, i: nat)
    requires |ring| <= RX_BUF && i < |data|
    ensures |ring + Fitting(ring, data[..i])| <= RX_BUF
    ensures ring + Fitting(ring, data[..i + 1]) ==
            if |ring + Fitting(ring, data[..i])| < RX_BUF then ring + Fitting(ring, data[..i]) + [data[i]]
            else ring + Fitting(ring, data[..i])
  {
  }

  class Socket {
    const rx: array<Byte>
    var head: nat
    var tail: nat
    var len: nat
    var state: State
    var seqNum: nat
    var ackNum: nat
    var wire: seq<Segment>

    ghost predicate Valid()
      reads this
    {
      rx.Length == RX_BUF && head < RX_BUF && len <= RX_BUF && tail == (head + len) % RX_BUF
    }

    ghost function View(): (s: Sock)
      requires Valid()
      reads this, rx
      ensures |s.ring| <= RX_BUF
    {
      Sock(state, seqNum, ackNum, RingOf(rx[..], head, len), wire)
    }

    constructor ()
      ensures Valid() && fresh(rx) && View() == Sock(Closed, 0, 0, [], [])
    {
      rx := new Byte[RX_BUF](_ => 0);
      head, tail, len := 0, 0, 0;
      state, seqNum, ackNum, wire := Closed, 0, 0, [];
    }

    /** `tcp_send_segment` */
    method SendSegment(flags: Flags, payload: seq<Byte>, ok: bool) returns (done: bool)
      requires Valid()
      modifies this
      ensures Valid() && View() == Transmit(old(View()), flags, payload, ok)
      ensures done == (ok && HEADER + |payload| <= TX_BUF)
    {
      if HEADER + |payload| > TX_BUF { return false; }
      if ok {
        wire := wire + [Segment(seqNum, ackNum, flags, RX_BUF - len, payload)];
        if flags.syn || flags.fin { seqNum := (seqNum + 1) % U32; }
        NextSeq(old(seqNum), if flags.syn || flags.fin then 1 else 0, |payload|);
        seqNum := (seqNum + |payload|) % U32;
      }
      return ok;
    }

    /** The loop of `tcp_receive` that fills the ring, byte by byte. */
    method StoreData(data: seq<Byte>)
      requires Valid()
      modifies this, rx
      ensures Valid()
      ensures View() == old(View()).(ring := old(View().ring) + Fitting(old(View().ring), data))
    {
      ghost var ring := View().ring;
      for i := 0 to |data|
        invariant Valid() && View() == old(View()).(ring := ring + Fitting(ring, data[..i]))
      {
        FittingMore(ring, data, i);
        if len < RX_BUF { Push(data[i]); }
      }
      assert data[..|data|] == data;
    }

    method Push(b: Byte)
      requires Valid() && len < RX_BUF
      modifies this, rx
      ensures Valid() && View() == old(View()).(ring := old(View().ring) + [b])
    {
      RingPush(rx[..], head, len, b);
      rx[tail] := b;
      tail := (tail + 1) % RX_BUF;
      len := len + 1;
    }

    /** `tcp_receive` */
    method ReceiveSegment(a: Arrival)
      requires Valid()
      modifies this, rx
      ensures Valid() && View() == Receive(old(View()), a)
    {
      if a.flags.rst {
        state := Closed;
        return;
      }
      match state
      case SynSent =>
        if a.flags.syn && a.flags.ack {
          ackNum := (a.seqNum + 1) % U32;
          state := Established;
          var _ := SendSegment(ACK, [], a.ok);
        }
      case Established => ReceiveData(a);
      case FinWait1 =>
        if a.flags.ack {
          if a.flags.fin {
            ackNum := (a.seqNum + 1) % U32;
            state := TimeWait;
            var _ := SendSegment(ACK, [], a.ok);
          } else {
            state := FinWait2;
          }
        }
      case FinWait2 =>
        if a.flags.fin {
          ackNum := (a.seqNum + 1) % U32;
          state := TimeWait;
          var _ := SendSegment(ACK, [], a.ok);
        }
      case LastAck => if a.flags.ack { state := Closed; }
      case _ =>
    }

    method ReceiveData(a: Arrival)
      requires Valid() && state.Established? && !a.flags.rst
      modifies this, rx
      ensures Valid() && View() == Receive(old(View()), a)
    {
      if |a.data| > 0 {
        StoreData(a.data);
        ackNum := (a.seqNum + |a.data|) % U32;
        var _ := SendSegment(ACK, [], a.ok);
      }
      if a.flags.fin {
        ackNum := (a.seqNum + if |a.data| > 0 then |a.data| else 1) % U32;
        state := CloseWait;
        var _ := SendSegment(ACK, [], a.finOk);
      }
    }

    /** `tcp_close` up to its wait. */
    method BeginClose(ok: bool)
      requires Valid()
      modifies this
      ensures Valid() && View() == StartClose(old(View()), ok)
    {
      if state.Established? {
        state := FinWait1;
        var _ := SendSegment(FIN_ACK, [], ok);
      } else if state.CloseWait? {
        state := LastAck;
        var _ := SendSegment(FIN_ACK, [], ok);
      } else {
        state := Closed;
      }
    }

    /** The copying part of `tcp_recv`. */
    method ReceiveBytes(n: nat) returns (out: seq<Byte>)
      requires Valid()
      modifies this
      ensures Valid() && (View(), out) == Recv(old(View()), n)
      ensures |out| == if n < |old(View().ring)| then n else |old(View().ring)|
    {
      hide RingOf;
      var count := if n < len then n else len;
      out := CopyOut(count);
      len := len - count;
    }

    /** The loop that moves the head: `count` bytes out, the rest where it was. */
    method CopyOut(count: nat) returns (out: seq<Byte>)
      requires Valid() && count <= len
      modifies this`head
      ensures head < RX_BUF && tail == (head + (len - count)) % RX_BUF && |out| == count
      ensures out + RingOf(rx[..], head, len - count) == RingOf(rx[..], old(head), len)
    {
      hide RingOf;
      out := [];
      while |out| < count
        invariant |out| <= count && head < RX_BUF && tail == (head + (len - |out|)) % RX_BUF
        invariant out + RingOf(rx[..], head, len - |out|) == RingOf(rx[..], old(head), len)
      {
        RingPop(rx[..], head, len - |out|);
        NextHead(head, len - |out|);
        Regroup(out, rx[head], RingOf(rx[..], (head + 1) % RX_BUF, len - |out| - 1));
        out := out + [rx[head]];
        head := (head + 1) % RX_BUF;
      }
    }

    /** `tcp_send`, with the polls of the network between segments. */
    method SendBytes(data: seq<Byte>, link: nat -> bool, polls: nat -> seq<Arrival>) returns (r: int)
      requires Valid()
      modifies this, rx
      ensures Valid() && (View(), r) == Send(old(View()), data, link, polls)
    {
      hide Transmit, ReceiveAll, RingOf;
      if |data| == 0 { return 0; }
      if !state.Established? && !state.CloseWait? { return -1; }
      var i := 0;
      while i < |data|
        invariant i <= |data| && Valid()
        invariant SendFrom(old(View()), data, 0, link, polls) == SendFrom(View(), data, i, link, polls)
      {
        var n := if |data| - i > MSS then MSS else |data| - i;
        ghost var before := View();
        var done := SendSegment(ACK_PSH, data[i..i + n], link(i));
        if !done {
          RefusedSend(before, data[i..i + n]);
          return -1;
        }
        PollArrivals(polls(i));
        i := i + n;
      }
      return |data|;
    }

    /** `net_poll`, as far as this socket is concerned. */
    method PollArrivals(arrivals: seq<Arrival>)
      requires Valid()
      modifies this, rx
      ensures Valid() && View() == ReceiveAll(old(View()), arrivals)
    {
      hide Receive, RingOf;
      for k := 0 to |arrivals|
        invariant Valid() && View() == ReceiveAll(old(View()), arrivals[..k])
      {
        ReceiveSegment(arrivals[k]);
        assert arrivals[..k + 1][..k] == arrivals[..k];
      }
      assert arrivals[..|arrivals|] == arrivals;
    }
  }

  lemma RefusedSend(s: Sock, payload: seq<Byte>)
    requires |s.ring| <= RX_BUF
    ensures Transmit(s, ACK_PSH, payload, false) == s
  {
  }
}
