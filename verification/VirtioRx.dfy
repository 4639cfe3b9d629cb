/**
 The receive queue of kernel/drivers/virtio_net.c: the driver polls the used
 ring and recycles buffers into the available ring while the device takes,
 fills and completes them. Every store and index update is a step of its own;
 the indices are 16 bits wide. The fields from `avail` on are the history that
 the properties speak about: no step decides anything by them.
 */
module VirtioRx {
  import opened Arith
  import opened Bytes
  import opened Options

  /** 16-bit indices. */
  const WRAP: nat := 65536

  /** sizeof(virtio_net_hdr_t), and a whole receive buffer: header and 1536 bytes, rounded up to a multiple of 16. */
  const HEADER: nat := 10
  const BUFFER: nat := 1552
  const RX_BUFFERS: nat := 16

  /** vring_used_elem */
  datatype Elem = Elem(id: nat, len: nat)

  /** A completed buffer: what the device wrote when it gave the buffer back. */
  datatype Packet = Packet(id: nat, len: nat, data: seq<Byte>)

  /** What one call of `virtio_net_poll_packet` with room for `max` bytes copied out. */
  datatype Delivery = Delivery(max: nat, bytes: seq<Byte>)

  /** Where the driver is in `virtio_net_poll_packet`, and the device in completing a buffer. */
  datatype Pc = Idle | NonEmpty | Got(id: nat, len: nat) | Copied(id: nat) | Advanced(id: nat) | Posted(id: nat)
  datatype DevPc = Waiting | Storing(id: nat, len: nat)

  datatype Rx = Rx(availRing: seq<nat>, availIdx: nat, usedRing: seq<Elem>, usedIdx: nat, bufs: seq<seq<Byte>>,
                   lastUsed: nat, pc: Pc, devIdx: nat, held: set<nat>, dev: DevPc,
                   avail: seq<nat>, taken: nat, unread: seq<Packet>, done: seq<Packet>, delivered: seq<Delivery>)
  {
    function Size(): nat { |availRing| }

    function Count(): nat { |bufs| }
  }

  datatype Event =
    | Check | ReadElem | Copy(max: nat) | Advance | Post | Publish
    | Take | Fill(id: nat, content: seq<Byte>) | StoreUsed(id: nat, len: nat) | PublishUsed

  function First<T>(s: seq<T>): seq<T> { if s == [] then [] else [s[0]] }

  function Rest<T>(s: seq<T>): seq<T> { if s == [] then [] else s[1..] }

  function Payload(data: seq<Byte>, len: nat, max: nat): seq<Byte> {
    var n := if len <= HEADER then 0 else if len - HEADER > max then max else len - HEADER;
    if HEADER + n <= |data| then data[HEADER..HEADER + n] else []
  }

  /** When a step can happen. The device completes only buffers it holds, and writes no more than fits. */
  predicate Allowed(s: Rx, e: Event) {
    match e
    case Check => s.pc.Idle? && s.lastUsed != s.usedIdx
    case ReadElem => s.pc.NonEmpty? && s.Size() > 0 && s.lastUsed % s.Size() < |s.usedRing|
    case Copy(max) => s.pc.Got? && s.pc.id < s.Count() && max > 0
    case Advance => s.pc.Copied?
    case Post => s.pc.Advanced? && s.Size() > 0
    case Publish => s.pc.Posted?
    case Take => s.devIdx != s.availIdx && s.Size() > 0
    case Fill(id, content) => id in s.held && id < s.Count() && |content| == BUFFER
    case StoreUsed(id, len) =>
      s.dev.Waiting? && id in s.held && len <= BUFFER && s.Size() > 0 && s.usedIdx % s.Size() < |s.usedRing|
    case PublishUsed => s.dev.Storing? && s.dev.id < s.Count()
  }

  function Apply(s: Rx, e: Event): Rx
    requires Allowed(s, e)
  {
    match e
    case Check => s.(pc := NonEmpty)
    case ReadElem =>
      var elem := s.usedRing[s.lastUsed % s.Size()];
      s.(pc := Got(elem.id, elem.len))
    case Copy(max) =>
      var bytes := Payload(s.bufs[s.pc.id], s.pc.len, max);
      s.(pc := Copied(s.pc.id), delivered := s.delivered + [Delivery(max, bytes)])
    case Advance =>
      s.(pc := Advanced(s.pc.id), lastUsed := (s.lastUsed + 1) % WRAP, done := s.done + First(s.unread),
         unread := Rest(s.unread))
    case Post => s.(pc := Posted(s.pc.id), availRing := s.availRing[s.availIdx % s.Size() := s.pc.id])
    case Publish => s.(pc := Idle, availIdx := (s.availIdx + 1) % WRAP, avail := s.avail + [s.pc.id])
    case Take =>
      var id := s.availRing[s.devIdx % s.Size()];
      s.(held := s.held + {id}, devIdx := (s.devIdx + 1) % WRAP, avail := Rest(s.avail), taken := s.taken + 1)
    case Fill(id, content) => s.(bufs := s.bufs[id := content])
    case StoreUsed(id, len) =>
      s.(dev := Storing(id, len), usedRing := s.usedRing[s.usedIdx % s.Size() := Elem(id, len)])
    case PublishUsed =>
      var id, len := s.dev.id, s.dev.len;
      s.(dev := Waiting, held := s.held - {id}, usedIdx := (s.usedIdx + 1) % WRAP,
         unread := s.unread + [Packet(id, len, s.bufs[id])])
  }

  // What every reachable state satisfies

  function Range(n: nat): seq<nat> { seq<nat>(n, i => i) }

  function Ids(packets: seq<Packet>): seq<nat> {
    if packets == [] then [] else Ids(packets[..|packets| - 1]) + [packets[|packets| - 1].id]
  }

  /** The buffer that is with the driver between the two index updates of a call. */
  function InHand(pc: Pc): seq<nat> { if pc.Advanced? || pc.Posted? then [pc.id] else [] }

  ghost function Everyone(avail: seq<nat>, held: set<nat>, unread: seq<Packet>, hand: seq<nat>): multiset<nat> {
    multiset(avail) + multiset(held) + multiset(Ids(unread)) + multiset(hand)
  }

  /** Every buffer is in exactly one place: available, held by the device, used and unread, or in the driver's hand. */
  ghost predicate Owned(s: Rx) {
    Everyone(s.avail, s.held, s.unread, InHand(s.pc)) == multiset(Range(s.Count()))
  }

  predicate Shaped(s: Rx) {
    && 0 < s.Size() == |s.usedRing| && WRAP % s.Size() == 0 && s.Count() <= s.Size() && s.Count() < WRAP
    && forall i :: 0 <= i < s.Count() ==> |s.bufs[i]| == BUFFER
  }

  predicate Indexed(s: Rx) {
    && s.devIdx == s.taken % WRAP && s.availIdx == (s.taken + |s.avail|) % WRAP
    && s.lastUsed == |s.done| % WRAP && s.usedIdx == (|s.done| + |s.unread|) % WRAP
  }

  /** The available ring holds the ids made available and not yet taken, in order. */
  predicate AvailSlots(s: Rx)
    requires s.Size() > 0
  {
    && (forall k :: 0 <= k < |s.avail| ==> s.availRing[(s.taken + k) % s.Size()] == s.avail[k])
    && (s.pc.Posted? ==> s.availRing[(s.taken + |s.avail|) % s.Size()] == s.pc.id)
  }

  /** The used ring holds the completions not yet read, in order, and their buffers are as the device left them. */
  predicate UsedSlots(s: Rx)
    requires s.Size() == |s.usedRing| > 0
  {
    && (forall k :: 0 <= k < |s.unread| ==>
                      s.usedRing[(|s.done| + k) % s.Size()] == Elem(s.unread[k].id, s.unread[k].len))
    && (s.dev.Storing? ==>
          s.usedRing[(|s.done| + |s.unread|) % s.Size()] == Elem(s.dev.id, s.dev.len) && s.dev.id in s.held)
  }

  predicate Buffered(s: Rx) {
    && (s.dev.Storing? ==> s.dev.len <= BUFFER)
    && forall k :: 0 <= k < |s.unread| ==> s.unread[k].id < s.Count() && s.bufs[s.unread[k].id] == s.unread[k].data &&
                                           |s.unread[k].data| == BUFFER && s.unread[k].len <= BUFFER
  }

  /** What the driver read is the head of the unread completions. */
  predicate Driven(s: Rx) {
    && (s.pc.NonEmpty? || s.pc.Got? || s.pc.Copied? ==> s.unread != [])
    && (s.pc.Got? ==> s.pc.id == s.unread[0].id && s.pc.len == s.unread[0].len)
    && (s.pc.Copied? ==> s.pc.id == s.unread[0].id)
  }

  /** The bytes behind the ten of the virtio header, as many as the device wrote and the caller has room for. */
  predicate IsDelivery(p: Packet, d: Delivery) {
    && |d.bytes| == (if p.len <= 10 then 0 else if p.len - 10 < d.max then p.len - 10 else d.max)
    && 10 + |d.bytes| <= |p.data|
    && forall k :: 0 <= k < |d.bytes| ==> d.bytes[k] == p.data[10 + k]
  }

  lemma PayloadIs(p: Packet, max: nat)
    requires |p.data| == BUFFER && p.len <= BUFFER
    ensures IsDelivery(p, Delivery(max, Payload(p.data, p.len, max)))
  {
  }

  /** Deliveries are the completions, in the order of the used ring, with the bytes the device wrote. */
  predicate InOrder(s: Rx) {
    && |s.delivered| == |s.done| + (if s.pc.Copied? then 1 else 0)
    && (forall k :: 0 <= k < |s.done| ==> IsDelivery(s.done[k], s.delivered[k]))
    && (s.pc.Copied? && s.unread != [] ==> IsDelivery(s.unread[0], s.delivered[|s.done|]))
  }

  ghost predicate Inv(s: Rx) {
    Shaped(s) && Owned(s) && Indexed(s) && AvailSlots(s) && UsedSlots(s) && Buffered(s) && Driven(s) && InOrder(s)
  }

  /** The queue as `virtio_net_init` arms it. */
  predicate Armed(s: Rx) {
    && Shaped(s) && s.Count() == (if s.Size() < RX_BUFFERS then s.Size() else RX_BUFFERS)
    && (forall i :: 0 <= i < s.Count() ==> s.availRing[i] == i)
    && s.availIdx == s.Count() && s.usedIdx == 0 && s.lastUsed == 0 && s.devIdx == 0
    && s.pc.Idle? && s.dev.Waiting? && s.held == {}
    && s.avail == Range(s.Count()) && s.taken == 0 && s.unread == [] && s.done == [] && s.delivered == []
  }

  lemma ArmedInv(s: Rx)
    requires Armed(s)
    ensures Inv(s)
  {
    assert Ids([]) == [] && InHand(s.pc) == [];
    forall k | 0 <= k < |s.avail| ensures s.availRing[(s.taken + k) % s.Size()] == s.avail[k] {
      SmallSlot(k, s.Size());
    }
    SmallSlot(s.Count(), WRAP);
  }

  lemma SmallSlot(k: nat, d: nat)
    requires k < d
    ensures k % d == k
  {
  }

  /** The four places hold as many buffers as there are, and none twice. */
  lemma Counted(s: Rx)
    requires Owned(s)
    ensures |s.avail| + |s.held| + |s.unread| + |InHand(s.pc)| == s.Count()
    ensures forall k :: 0 <= k < |s.avail| ==> s.avail[k] !in s.held
    ensures forall k :: 0 <= k < |s.unread| ==> s.unread[k].id !in s.held
    ensures forall k :: 0 <= k < |s.unread| ==> s.unread[k].id < s.Count()
    ensures forall id :: id in s.held ==> id < s.Count()
  {
    IdsLength(s.unread);
    RangeOnce(s.Count());
    var a, h, u, x := multiset(s.avail), multiset(s.held), multiset(Ids(s.unread)), multiset(InHand(s.pc));
    var all := a + h + u + x;
    assert |all| == |s.avail| + |s.held| + |s.unread| + |InHand(s.pc)|;
    forall k | 0 <= k < |s.avail| ensures s.avail[k] !in s.held { assert s.avail[k] in a && all[s.avail[k]] <= 1; }
    forall k | 0 <= k < |s.unread| ensures s.unread[k].id !in s.held && s.unread[k].id < s.Count() {
      assert s.unread[k].id == Ids(s.unread)[k] && Ids(s.unread)[k] in u && all[s.unread[k].id] <= 1;
    }
    forall id | id in s.held ensures id < s.Count() { assert id in h && id in all; }
  }

  lemma {:induction false} RangeOnce(n: nat)
    ensures forall id: nat :: multiset(Range(n))[id] == if id < n then 1 else 0
  {
    if n > 0 {
      RangeOnce(n - 1);
      assert Range(n) == Range(n - 1) + [n - 1];
    }
  }

  lemma {:induction false} IdsLength(packets: seq<Packet>)
    ensures |Ids(packets)| == |packets|
    ensures forall k :: 0 <= k < |packets| ==> Ids(packets)[k] == packets[k].id
  {
    if packets != [] { IdsLength(packets[..|packets| - 1]); }
  }

  // One step keeps it

  lemma {:induction false} IdsRest(packets: seq<Packet>)
    requires packets != []
    ensures multiset(Ids(packets)) == multiset{packets[0].id} + multiset(Ids(packets[1..]))
  {
    IdsLength(packets);
    IdsLength(packets[1..]);
    assert Ids(packets) == [packets[0].id] + Ids(packets[1..]);
  }

  lemma IdsMore(packets: seq<Packet>, p: Packet)
    ensures Ids(packets + [p]) == Ids(packets) + [p.id]
  {
    assert (packets + [p])[..|packets|] == packets;
  }

  /** The slot an index names is that of the unbounded count. */
  lemma Slots(s: Rx)
    requires Shaped(s) && Indexed(s)
    ensures s.devIdx % s.Size() == s.taken % s.Size() && s.availIdx % s.Size() == (s.taken + |s.avail|) % s.Size()
    ensures s.lastUsed % s.Size() == |s.done| % s.Size() && s.usedIdx % s.Size() == (|s.done| + |s.unread|) % s.Size()
  {
    CutKeepsSlot(s.taken, WRAP, s.Size());
    CutKeepsSlot(s.taken + |s.avail|, WRAP, s.Size());
    CutKeepsSlot(|s.done|, WRAP, s.Size());
    CutKeepsSlot(|s.done| + |s.unread|, WRAP, s.Size());
  }

  /** Equal 16-bit indices mean an empty ring, however often they wrapped. */
  lemma NonEmptyRings(s: Rx)
    requires Shaped(s) && Indexed(s) && Owned(s)
    ensures s.lastUsed != s.usedIdx <==> s.unread != []
    ensures s.devIdx != s.availIdx <==> s.avail != []
  {
    Counted(s);
    if s.unread != [] { SlotsDiffer(|s.done|, 0, |s.unread|, WRAP); }
    if s.avail != [] { SlotsDiffer(s.taken, 0, |s.avail|, WRAP); }
  }

  lemma NextIndex(n: nat)
    ensures (n % WRAP + 1) % WRAP == (n + 1) % WRAP
  {
  }

  lemma StepShaped(s: Rx, e: Event)
    requires Shaped(s) && Allowed(s, e)
    ensures Shaped(Apply(s, e)) && Apply(s, e).Size() == s.Size() && Apply(s, e).Count() == s.Count()
  {
  }

  lemma StepIndexed(s: Rx, e: Event)
    requires Indexed(s) && Allowed(s, e)
    requires e.Take? ==> s.avail != []
    requires e.Advance? ==> s.unread != []
    ensures Indexed(Apply(s, e))
  {
    hide Allowed, Payload;
    match e
    case Take => NextIndex(s.taken);
    case Publish => NextIndex(s.taken + |s.avail|);
    case Advance => NextIndex(|s.done|);
    case PublishUsed => NextIndex(|s.done| + |s.unread|);
    case _ =>
  }

  lemma HandOver(avail: seq<nat>, held: set<nat>, unread: seq<Packet>, id: nat)
    ensures Everyone(avail + [id], held, unread, []) == Everyone(avail, held, unread, [id])
  {
  }

  lemma TakeOver(avail: seq<nat>, held: set<nat>, unread: seq<Packet>, hand: seq<nat>)
    requires avail != [] && avail[0] !in held
    ensures Everyone(avail[1..], held + {avail[0]}, unread, hand) == Everyone(avail, held, unread, hand)
  {
    assert avail == [avail[0]] + avail[1..];
  }

  lemma GiveBack(avail: seq<nat>, held: set<nat>, unread: seq<Packet>, hand: seq<nat>, p: Packet)
    requires p.id in held
    ensures Everyone(avail, held - {p.id}, unread + [p], hand) == Everyone(avail, held, unread, hand)
  {
    IdsMore(unread, p);
    assert held == (held - {p.id}) + {p.id};
  }

  lemma PickUp(avail: seq<nat>, held: set<nat>, unread: seq<Packet>)
    requires unread != []
    ensures Everyone(avail, held, unread[1..], [unread[0].id]) == Everyone(avail, held, unread, [])
  {
    IdsRest(unread);
  }

  lemma StepOwned(s: Rx, e: Event)
    requires Owned(s) && Allowed(s, e) && Driven(s)
    requires e.Take? ==> s.avail != [] && s.availRing[s.devIdx % s.Size()] == s.avail[0]
    requires e.PublishUsed? ==> s.dev.id in s.held
    ensures Owned(Apply(s, e))
  {
    hide Ids, Range, Everyone;
    Counted(s);
    match e
    case Advance => PickUp(s.avail, s.held, s.unread);
    case Take => TakeOver(s.avail, s.held, s.unread, InHand(s.pc));
    case PublishUsed => GiveBack(s.avail, s.held, s.unread, InHand(s.pc),
                                 Packet(s.dev.id, s.dev.len, s.bufs[s.dev.id]));
    case Publish => HandOver(s.avail, s.held, s.unread, s.pc.id);
    case _ =>
  }

  lemma StepAvailSlots(s: Rx, e: Event)
    requires Shaped(s) && Indexed(s) && AvailSlots(s) && Allowed(s, e)
    requires |s.avail| + |InHand(s.pc)| <= s.Size() && (e.Take? ==> s.avail != [])
    ensures AvailSlots(Apply(s, e))
  {
    Slots(s);
    var t := Apply(s, e);
    match e
    case Post =>
      forall k | 0 <= k < |s.avail| ensures t.availRing[(s.taken + k) % s.Size()] == s.avail[k] {
        SlotsDiffer(s.taken, k, |s.avail|, s.Size());
      }
    case Take =>
      forall k | 0 <= k < |t.avail| ensures t.availRing[(t.taken + k) % s.Size()] == t.avail[k] {
        assert t.taken + k == s.taken + (k + 1) && t.avail[k] == s.avail[k + 1];
      }
      assert t.taken + |t.avail| == s.taken + |s.avail|;
    case _ =>
  }

  lemma StepUsedSlots(s: Rx, e: Event)
    requires Shaped(s) && Indexed(s) && UsedSlots(s) && Allowed(s, e)
    requires |s.unread| + |s.held| <= s.Size() && (e.Advance? ==> s.unread != [])
    ensures UsedSlots(Apply(s, e))
  {
    Slots(s);
    var t := Apply(s, e);
    match e
    case StoreUsed(id, len) =>
      assert |s.held| > 0 by { assert id in s.held; }
      forall k | 0 <= k < |s.unread|
        ensures t.usedRing[(|s.done| + k) % s.Size()] == Elem(s.unread[k].id, s.unread[k].len)
      {
        SlotsDiffer(|s.done|, k, |s.unread|, s.Size());
      }
    case Advance =>
      forall k | 0 <= k < |t.unread|
        ensures t.usedRing[(|t.done| + k) % s.Size()] == Elem(t.unread[k].id, t.unread[k].len)
      {
        assert |t.done| + k == |s.done| + (k + 1) && t.unread[k] == s.unread[k + 1];
      }
      assert |t.done| + |t.unread| == |s.done| + |s.unread|;
    case _ =>
  }

  lemma StepBuffered(s: Rx, e: Event)
    requires Shaped(s) && Owned(s) && Buffered(s) && Allowed(s, e) && (e.PublishUsed? ==> s.dev.id in s.held)
    ensures Buffered(Apply(s, e))
  {
    Counted(s);
  }

  lemma StepDriven(s: Rx, e: Event)
    requires Shaped(s) && Indexed(s) && UsedSlots(s) && Driven(s) && Allowed(s, e) && (e.Check? ==> s.unread != [])
    ensures Driven(Apply(s, e))
  {
    Slots(s);
    if e.ReadElem? { assert s.usedRing[(|s.done| + 0) % s.Size()] == Elem(s.unread[0].id, s.unread[0].len); }
  }

  lemma StepInOrder(s: Rx, e: Event)
    requires Buffered(s) && Driven(s) && InOrder(s) && Allowed(s, e)
    ensures InOrder(Apply(s, e))
  {
    hide IsDelivery, Payload;
    if e.Copy? { PayloadIs(s.unread[0], e.max); }
  }

  lemma StepKeepsInv(s: Rx, e: Event)
    requires Inv(s) && Allowed(s, e)
    ensures Inv(Apply(s, e)) && Apply(s, e).Count() == s.Count()
  {
    hide Shaped, Owned, Indexed, AvailSlots, UsedSlots, Buffered, Driven, InOrder, Apply, Allowed;
    StepFacts(s, e);
    StepShaped(s, e);
    StepOwned(s, e);
    StepIndexed(s, e);
    StepAvailSlots(s, e);
    StepUsedSlots(s, e);
    StepBuffered(s, e);
    StepDriven(s, e);
    StepInOrder(s, e);
  }

  /** What the indices tell the two sides is true of the queues. */
  lemma StepFacts(s: Rx, e: Event)
    requires Inv(s) && Allowed(s, e)
    ensures |s.avail| + |InHand(s.pc)| <= s.Size() && |s.unread| + |s.held| <= s.Size()
    ensures e.Take? ==> s.avail != [] && s.availRing[s.devIdx % s.Size()] == s.avail[0]
    ensures (e.Check? || e.Advance?) ==> s.unread != []
    ensures e.PublishUsed? ==> s.dev.id in s.held
  {
    hide Owned, Buffered, InOrder;
    Counted(s);
    NonEmptyRings(s);
    Slots(s);
    if e.Take? { assert s.availRing[(s.taken + 0) % s.Size()] == s.avail[0]; }
  }

  // Every run

  function Run(s: Rx, events: seq<Event>): Option<Rx>
    decreases |events|
  {
    if events == [] then Some(s)
    else
      match Run(s, events[..|events| - 1])
      case None => None
      case Some(t) =>
        var e := events[|events| - 1];
        if Allowed(t, e) then Some(Apply(t, e)) else None
  }

  /** The invariant holds in every state that the driver and the device can reach together. */
  lemma {:induction false} AlwaysInv(s: Rx, events: seq<Event>)
    requires Armed(s) && Run(s, events).Some?
    ensures Inv(Run(s, events).value) && Run(s, events).value.Count() == s.Count()
    decreases |events|
  {
    hide Inv, Armed, Allowed, Apply;
    if events == [] {
      ArmedInv(s);
    } else {
      var n := |events| - 1;
      AlwaysInv(s, events[..n]);
      StepKeepsInv(Run(s, events[..n]).value, events[n]);
    }
  }

  /** How many of the four places a buffer is in. */
  function Places(s: Rx, id: nat): nat {
    (if id in s.avail then 1 else 0) + (if id in s.held then 1 else 0) +
    (if exists k :: 0 <= k < |s.unread| && s.unread[k].id == id then 1 else 0) + (if id in InHand(s.pc) then 1 else 0)
  }

  /** In every reachable state each buffer is in exactly one place, and in that place once. */
  lemma OnePlace(s: Rx, events: seq<Event>, id: nat)
    requires Armed(s) && Run(s, events).Some? && id < s.Count()
    ensures var t := Run(s, events).value;
            && Places(t, id) == 1
            && (forall j, k :: 0 <= j < k < |t.avail| ==> t.avail[j] != t.avail[k])
            && (forall j, k :: 0 <= j < k < |t.unread| ==> t.unread[j].id != t.unread[k].id)
  {
    hide Armed, Run, Shaped, Indexed, AvailSlots, UsedSlots, Buffered, Driven, InOrder, Places, Owned;
    AlwaysInv(s, events);
    OwnedOnce(Run(s, events).value, id);
  }

  lemma OwnedOnce(t: Rx, id: nat)
    requires Owned(t) && id < t.Count()
    ensures Places(t, id) == 1
    ensures forall j, k :: 0 <= j < k < |t.avail| ==> t.avail[j] != t.avail[k]
    ensures forall j, k :: 0 <= j < k < |t.unread| ==> t.unread[j].id != t.unread[k].id
  {
    hide Ids, Range;
    RangeOnce(t.Count());
    UnreadHas(t.unread, id);
    var all := Everyone(t.avail, t.held, t.unread, InHand(t.pc));
    assert all[id] == 1;
    OnceApart(t.avail, all);
    OnceApart(Ids(t.unread), all);
    IdsLength(t.unread);
    forall j, k | 0 <= j < k < |t.unread| ensures t.unread[j].id != t.unread[k].id {
      assert Ids(t.unread)[j] != Ids(t.unread)[k];
    }
  }

  lemma {:induction false} UnreadHas(unread: seq<Packet>, id: nat)
    ensures id in multiset(Ids(unread)) <==> exists k :: 0 <= k < |unread| && unread[k].id == id
  {
    IdsLength(unread);
    if k :| 0 <= k < |unread| && unread[k].id == id { assert Ids(unread)[k] == id; }
    if id in Ids(unread) {
      var k :| 0 <= k < |Ids(unread)| && Ids(unread)[k] == id;
      assert unread[k].id == id;
    }
  }

  lemma OnceApart(ids: seq<nat>, all: multiset<nat>)
    requires multiset(ids) <= all && forall id: nat :: all[id] <= 1
    ensures forall j, k :: 0 <= j < k < |ids| ==> ids[j] != ids[k]
  {
    forall j, k | 0 <= j < k < |ids| ensures ids[j] != ids[k] { Twice(ids, j, k); }
  }

  lemma Twice(ids: seq<nat>, j: nat, k: nat)
    requires j < k < |ids|
    ensures ids[j] == ids[k] ==> multiset(ids)[ids[j]] >= 2
  {
    assert ids == ids[..j] + [ids[j]] + ids[j + 1..k] + [ids[k]] + ids[k + 1..];
  }

  /** No step overwrites a live slot: what is available or unread before it can be read in place after it. */
  lemma LiveSlotsIntact(s: Rx, events: seq<Event>, e: Event)
    requires Armed(s) && Run(s, events).Some? && Allowed(Run(s, events).value, e)
    ensures Intact(Run(s, events).value, Apply(Run(s, events).value, e))
  {
    hide Armed, Run, Shaped, Indexed, AvailSlots, UsedSlots, Buffered, Driven, InOrder, Owned, Intact, Allowed, Apply;
    AlwaysInv(s, events);
    var t := Run(s, events).value;
    StepFacts(t, e);
    StepIntact(t, e);
  }

  ghost predicate Intact(s: Rx, t: Rx) {
    && 0 < t.Size() == s.Size() == |t.usedRing| && t.Count() == s.Count()
    && (forall k :: 0 <= k < |s.avail| ==> t.availRing[(s.taken + k) % s.Size()] == s.avail[k])
    && (forall k :: 0 <= k < |s.unread| ==>
                      t.usedRing[(|s.done| + k) % s.Size()] == Elem(s.unread[k].id, s.unread[k].len))
    && (forall k :: 0 <= k < |s.unread| ==>
                      s.unread[k].id < t.Count() && t.bufs[s.unread[k].id] == s.unread[k].data)
  }

  lemma StepIntact(s: Rx, e: Event)
    requires Inv(s) && Allowed(s, e) && |s.avail| + |InHand(s.pc)| <= s.Size() && |s.unread| + |s.held| <= s.Size()
    ensures Intact(s, Apply(s, e))
  {
    hide Owned, Driven, InOrder, Indexed, AvailSlots, UsedSlots;
    Counted(s);
    Slots(s);
    AvailIntact(s, e);
    UsedIntact(s, e);
  }

  lemma AvailIntact(s: Rx, e: Event)
    requires s.Size() > 0 && AvailSlots(s) && Allowed(s, e) && |s.avail| + |InHand(s.pc)| <= s.Size()
    requires s.availIdx % s.Size() == (s.taken + |s.avail|) % s.Size()
    ensures forall k :: 0 <= k < |s.avail| ==> Apply(s, e).availRing[(s.taken + k) % s.Size()] == s.avail[k]
  {
    hide Allowed;
    if e.Post? {
      PostPc(s);
      forall k | 0 <= k < |s.avail| ensures Apply(s, e).availRing[(s.taken + k) % s.Size()] == s.avail[k] {
        SlotsDiffer(s.taken, k, |s.avail|, s.Size());
      }
    } else {
      RingKept(s, e);
    }
  }

  lemma PostPc(s: Rx)
    requires s.Size() > 0 && Allowed(s, Post)
    ensures |InHand(s.pc)| == 1
  {
  }

  lemma RingKept(s: Rx, e: Event)
    requires Allowed(s, e) && !e.Post?
    ensures Apply(s, e).availRing == s.availRing
  {
  }

  lemma UsedIntact(s: Rx, e: Event)
    requires s.Size() == |s.usedRing| > 0 && UsedSlots(s) && Allowed(s, e) && |s.unread| + |s.held| <= s.Size()
    requires s.usedIdx % s.Size() == (|s.done| + |s.unread|) % s.Size()
    ensures forall k :: 0 <= k < |s.unread| ==>
                          Apply(s, e).usedRing[(|s.done| + k) % s.Size()] == Elem(s.unread[k].id, s.unread[k].len)
  {
    forall k | 0 <= k < |s.unread|
      ensures Apply(s, e).usedRing[(|s.done| + k) % s.Size()] == Elem(s.unread[k].id, s.unread[k].len)
    {
      if e.StoreUsed? {
        assert |s.held| > 0 by { assert e.id in s.held; }
        SlotsDiffer(|s.done|, k, |s.unread|, s.Size());
      }
    }
  }

  /** The packets handed to the caller are the completed ones, in order, byte for byte. */
  lemma DeliveredInOrder(s: Rx, events: seq<Event>)
    requires Armed(s) && Run(s, events).Some?
    ensures var t := Run(s, events).value;
            && |t.delivered| <= |t.done + t.unread|
            && forall k :: 0 <= k < |t.delivered| ==> IsDelivery((t.done + t.unread)[k], t.delivered[k])
  {
    hide Armed, Run, Shaped, Indexed, AvailSlots, UsedSlots, Buffered, Owned, IsDelivery;
    AlwaysInv(s, events);
  }

  /** The slot of a 16-bit index is that of the unbounded count exactly when the ring size divides 65536. */
  lemma SlotsFollowCounts(size: nat)
    requires size > 0
    ensures (forall n: nat :: Cut(n) % size == n % size) <==> WRAP % size == 0
  {
    if WRAP % size == 0 {
      forall n: nat ensures Cut(n) % size == n % size { CutKeepsSlot(n, WRAP, size); }
    } else {
      assert Cut(WRAP) % size == 0;
    }
  }

  function Cut(n: nat): nat { n % WRAP }

  // The driver in place

  function Do(s: Rx, e: Event): Rx { if Allowed(s, e) then Apply(s, e) else s }

  /** One call of `virtio_net_poll_packet` with no device step in between. */
  function PollSteps(s: Rx, max: nat): Rx {
    Do(Do(Do(Do(Do(Do(s, Check), ReadElem), Copy(max)), Advance), Post), Publish)
  }

  lemma DoKeepsInv(s: Rx, e: Event)
    requires Inv(s)
    ensures Inv(Do(s, e))
  {
    hide Inv, Allowed, Apply;
    if Allowed(s, e) { StepKeepsInv(s, e); }
  }

  lemma PollKeepsInv(s: Rx, max: nat)
    requires Inv(s)
    ensures Inv(PollSteps(s, max))
  {
    hide Inv, Do;
    DoKeepsInv(s, Check);
    DoKeepsInv(Do(s, Check), ReadElem);
    DoKeepsInv(Do(Do(s, Check), ReadElem), Copy(max));
    DoKeepsInv(Do(Do(Do(s, Check), ReadElem), Copy(max)), Advance);
    DoKeepsInv(Do(Do(Do(Do(s, Check), ReadElem), Copy(max)), Advance), Post);
    DoKeepsInv(Do(Do(Do(Do(Do(s, Check), ReadElem), Copy(max)), Advance), Post), Publish);
  }

  /** What the six steps of a call amount to. */
  lemma PollIs(s: Rx, max: nat)
    requires Inv(s) && s.pc.Idle? && s.unread != [] && max > 0
    ensures s.lastUsed % s.Size() < |s.usedRing| && s.usedRing[s.lastUsed % s.Size()].id < s.Count()
    ensures var elem := s.usedRing[s.lastUsed % s.Size()];
            PollSteps(s, max) ==
            s.(lastUsed := (s.lastUsed + 1) % WRAP, availRing := s.availRing[s.availIdx % s.Size() := elem.id],
               availIdx := (s.availIdx + 1) % WRAP, avail := s.avail + [elem.id], unread := s.unread[1..],
               done := s.done + [s.unread[0]],
               delivered := s.delivered + [Delivery(max, Payload(s.bufs[elem.id], elem.len, max))])
  {
    hide Payload, Owned, InOrder;
    NonEmptyRings(s);
    Slots(s);
    assert s.usedRing[(|s.done| + 0) % s.Size()] == Elem(s.unread[0].id, s.unread[0].len);
  }

  /** The call hands out the payload of the oldest completion. */
  lemma PollDelivers(s: Rx, max: nat)
    requires Inv(s) && s.unread != []
    ensures s.lastUsed % s.Size() < |s.usedRing| && s.usedRing[s.lastUsed % s.Size()].id < s.Count()
    ensures var elem := s.usedRing[s.lastUsed % s.Size()];
            IsDelivery(s.unread[0], Delivery(max, Payload(s.bufs[elem.id], elem.len, max)))
  {
    hide Owned, InOrder, IsDelivery, Payload;
    PayloadIs(s.unread[0], max);
    Slots(s);
    assert s.usedRing[(|s.done| + 0) % s.Size()] == Elem(s.unread[0].id, s.unread[0].len);
  }

  /** From the device to the caller: what it writes into a buffer and completes is what the next call hands out. */
  lemma DeviceToCaller(s: Rx, id: nat, content: seq<Byte>, len: nat, max: nat)
    requires Inv(s) && s.pc.Idle? && s.unread == [] && s.dev.Waiting? && max > 0
    requires id in s.held && id < s.Count() && |content| == BUFFER && len <= BUFFER
    ensures var t := Do(Do(Do(s, Fill(id, content)), StoreUsed(id, len)), PublishUsed);
            && |PollSteps(t, max).delivered| == |s.delivered| + 1
            && PollSteps(t, max).delivered[..|s.delivered|] == s.delivered
            && PollSteps(t, max).delivered[|s.delivered|].max == max
            && IsDelivery(Packet(id, len, content), PollSteps(t, max).delivered[|s.delivered|])
  {
    hide Owned, InOrder, IsDelivery, Payload, PollSteps;
    var a := Do(s, Fill(id, content));
    var b := Do(a, StoreUsed(id, len));
    var t := Do(b, PublishUsed);
    Completes(s, id, content, len);
    DoKeepsInv(s, Fill(id, content));
    DoKeepsInv(a, StoreUsed(id, len));
    DoKeepsInv(b, PublishUsed);
    PollIs(t, max);
    PollDelivers(t, max);
  }

  lemma Completes(s: Rx, id: nat, content: seq<Byte>, len: nat)
    requires Inv(s) && s.dev.Waiting? && id in s.held && id < s.Count() && |content| == BUFFER && len <= BUFFER
    ensures var t := Do(Do(Do(s, Fill(id, content)), StoreUsed(id, len)), PublishUsed);
            t.unread == s.unread + [Packet(id, len, content)] && t.delivered == s.delivered && t.pc == s.pc
  {
    hide Owned, InOrder, AvailSlots, UsedSlots;
    Slots(s);
  }

  class RxQueue {
    const availRing: array<nat>
    const usedRing: array<Elem>
    const bufs: array<seq<Byte>>
    var availIdx: nat
    var usedIdx: nat
    var lastUsed: nat

    /** The memory and the driver's index are those of `s`, between calls. */
    ghost predicate Shows(s: Rx)
      reads this, availRing, usedRing, bufs
    {
      && availRing[..] == s.availRing && usedRing[..] == s.usedRing && bufs[..] == s.bufs
      && availIdx == s.availIdx && usedIdx == s.usedIdx && lastUsed == s.lastUsed && s.pc.Idle?
    }

    constructor (s: Rx)
      requires s.pc.Idle?
      ensures Shows(s) && fresh(availRing) && fresh(usedRing) && fresh(bufs)
    {
      availRing := new nat[|s.availRing|](i requires 0 <= i < |s.availRing| => s.availRing[i]);
      usedRing := new Elem[|s.usedRing|](i requires 0 <= i < |s.usedRing| => s.usedRing[i]);
      bufs := new seq<Byte>[|s.bufs|](i requires 0 <= i < |s.bufs| => s.bufs[i]);
      availIdx, usedIdx, lastUsed := s.availIdx, s.usedIdx, s.lastUsed;
      new;
      assert availRing[..] == s.availRing && usedRing[..] == s.usedRing && bufs[..] == s.bufs;
    }

    /** `virtio_net_poll_packet`: the next completed packet, cut to the caller's room. */
    method Poll(max: nat, ghost s: Rx) returns (bytes: seq<Byte>)
      requires Shows(s) && Inv(s)
      modifies this, availRing
      ensures s.unread == [] || max == 0 ==> bytes == [] && Shows(s)
      ensures s.unread != [] && max > 0 ==> Shows(PollSteps(s, max)) && IsDelivery(s.unread[0], Delivery(max, bytes))
    {
      hide Owned, PollSteps, Payload, IsDelivery;
      NonEmptyRings(s);
      if max == 0 || lastUsed == usedIdx { return []; }
      PollIs(s, max);
      PollDelivers(s, max);
      PollKeepsInv(s, max);
      var elem := usedRing[lastUsed % availRing.Length];
      bytes := Payload(bufs[elem.id], elem.len, max);
      lastUsed := (lastUsed + 1) % WRAP;
      availRing[availIdx % availRing.Length] := elem.id;
      availIdx := (availIdx + 1) % WRAP;
      assert PollSteps(s, max).delivered[|s.delivered|] == Delivery(max, bytes);
    }
  }
}
