/** Message fragmentation of the IWP link layer (llarp/iwp/message_buffer.{hpp,cpp}):
    a link message of up to MAX_LINK_MSG_SIZE bytes travels as one XMIT, which carries the
    first fragment, followed by DATA packets of FRAGMENT_SIZE bytes; both ends keep a bitset
    of acknowledged fragments. */
module IwpMessages {
  import opened Common

  type Time = nat
  /** The keyed or unkeyed hash primitives are parameters of the model. */
  type Hasher = Bytes -> Bytes

  const FRAGMENT_SIZE: nat := 1024
  const MAX_LINK_MSG_SIZE: nat := 8192
  const MAX_FRAGMENTS: nat := 8
  /** Milliseconds. */
  const DELIVERY_TIMEOUT: Time := 500
  const RECEIVAL_TIMEOUT: Time := (DELIVERY_TIMEOUT * 8) / 5
  const REPLAY_WINDOW: Time := (RECEIVAL_TIMEOUT * 3) / 2
  const ACK_RESEND_INTERVAL: Time := DELIVERY_TIMEOUT / 2
  const TX_FLUSH_INTERVAL: Time := (DELIVERY_TIMEOUT / 5) * 4

  datatype Packet =
    | Xmit(size: nat, id: nat, digest: Bytes, data: Bytes)
    | Data(idx: nat, id: nat, data: Bytes)
    | Acks(id: nat, mask: set<nat>)
    | Nack(id: nat)
    | Mack(ids: seq<nat>)
    | Ping
    | Clos

  datatype OutboundMessage = OutboundMessage(
    data: Bytes, id: nat, acks: set<nat>, hasHandler: bool,
    lastFlush: Time, digest: Bytes, startedAt: Time)

  datatype InboundMessage = InboundMessage(
    data: Bytes, digest: Bytes, id: nat, lastAckSent: Time, lastActiveAt: Time, acks: set<nat>)

  function Min(a: nat, b: nat): nat { if a < b then a else b }

  // ----- fragments

  function FragmentCount(size: nat): nat
  {
    (size + FRAGMENT_SIZE - 1) / FRAGMENT_SIZE
  }

  /** The bytes of fragment f. */
  function Fragment(data: Bytes, f: nat): Bytes
    requires f < FragmentCount(|data|)
  {
    data[f * FRAGMENT_SIZE .. Min((f + 1) * FRAGMENT_SIZE, |data|)]
  }

  /** Every fragment of a message of this size is marked. */
  predicate AllMarked(acks: set<nat>, size: nat)
  {
    forall f: nat :: f < FragmentCount(size) ==> f in acks
  }

  /** Two buffers of one size that agree fragment by fragment are equal. */
  lemma FragmentsDetermineData(a: Bytes, b: Bytes)
    requires |a| == |b|
    requires forall f: nat :: f < FragmentCount(|a|) ==> Fragment(a, f) == Fragment(b, f)
    ensures a == b
  {
    forall i | 0 <= i < |a|
      ensures a[i] == b[i]
    {
      var f := i / FRAGMENT_SIZE;
      assert Fragment(a, f)[i - f * FRAGMENT_SIZE] == a[i];
      assert Fragment(b, f)[i - f * FRAGMENT_SIZE] == b[i];
    }
  }

  // ----- outbound messages

  function NewOutbound(h: Hasher, id: nat, data: Bytes, now: Time, hasHandler: bool): OutboundMessage
  {
    OutboundMessage(data, id, {0}, hasHandler, now, h(data), now)
  }

  function XmitPacket(m: OutboundMessage): Packet
  {
    Xmit(|m.data|, m.id, m.digest, m.data[..Min(|m.data|, FRAGMENT_SIZE)])
  }

  function DataPacket(m: OutboundMessage, f: nat): Packet
    requires f < FragmentCount(|m.data|)
  {
    Data(f * FRAGMENT_SIZE, m.id, Fragment(m.data, f))
  }

  /** The DATA packets that a flush sends: one for each fragment that is not acknowledged. */
  function UnackedPackets(m: OutboundMessage): set<Packet>
  {
    set f: nat | f < FragmentCount(|m.data|) && f !in m.acks :: DataPacket(m, f)
  }

  predicate ShouldFlush(m: OutboundMessage, now: Time)
  {
    now - m.lastFlush >= TX_FLUSH_INTERVAL
  }

  predicate TxTimedOut(m: OutboundMessage, now: Time)
  {
    now > m.startedAt && now - m.startedAt > DELIVERY_TIMEOUT
  }

  /** The loop of OutboundMessage::FlushUnAcked: packets leave in ascending fragment order. */
  method FlushUnAcked(m: OutboundMessage) returns (out: seq<Packet>)
    requires |m.data| <= MAX_LINK_MSG_SIZE
    ensures (set p | p in out) == UnackedPackets(m)
    ensures forall i :: 0 <= i < |out| ==> out[i].Data?
    ensures forall i, j :: 0 <= i < j < |out| ==> out[i].idx < out[j].idx
  {
    out := [];
    var idx := 0;
    ghost var f: nat := 0;
    while idx < |m.data|
      invariant idx == f * FRAGMENT_SIZE && f <= FragmentCount(|m.data|)
      invariant forall p :: p in out <==> exists g: nat :: g < f && g !in m.acks && p == DataPacket(m, g)
      invariant forall i :: 0 <= i < |out| ==> out[i].Data? && out[i].idx < idx
      invariant forall i, j :: 0 <= i < j < |out| ==> out[i].idx < out[j].idx
    {
      if idx / FRAGMENT_SIZE !in m.acks {
        var size := if idx + FRAGMENT_SIZE < |m.data| then FRAGMENT_SIZE else |m.data| - idx;
        var p := Data(idx, m.id, m.data[idx..idx + size]);
        assert p == DataPacket(m, f);
        out := out + [p];
      }
      idx := idx + FRAGMENT_SIZE;
      f := f + 1;
    }
    assert f == FragmentCount(|m.data|);
  }

  /** The bitset refuses the position after its last one: asking for it means that all before are set. */
  predicate TestThrows(acks: set<nat>, size: nat)
  {
    size > MAX_LINK_MSG_SIZE && forall f: nat :: f < MAX_FRAGMENTS ==> f in acks
  }

  /** The loop of OutboundMessage::IsTransmitted. */
  method IsTransmitted(m: OutboundMessage) returns (thrown: bool, all: bool)
    ensures thrown <==> TestThrows(m.acks, |m.data|)
    ensures !thrown ==> (all <==> AllMarked(m.acks, |m.data|))
  {
    thrown, all := AllBitsSet(m.acks, |m.data|);
  }

  /** The index loop shared by IsTransmitted and IsCompleted. */
  method AllBitsSet(acks: set<nat>, size: nat) returns (thrown: bool, all: bool)
    ensures thrown <==> TestThrows(acks, size)
    ensures !thrown ==> (all <==> AllMarked(acks, size))
  {
    var idx := 0;
    ghost var f: nat := 0;
    while idx < size
      invariant idx == f * FRAGMENT_SIZE && f <= FragmentCount(size) && f <= MAX_FRAGMENTS
      invariant forall g: nat :: g < f ==> g in acks
      decreases size - idx
    {
      if idx / FRAGMENT_SIZE >= MAX_FRAGMENTS { return true, false; }
      if idx / FRAGMENT_SIZE !in acks {
        assert f < FragmentCount(size);
        return false, false;
      }
      idx := idx + FRAGMENT_SIZE;
      f := f + 1;
    }
    return false, true;
  }

  // ----- inbound messages

  function NewInbound(id: nat, size: nat, digest: Bytes, now: Time): InboundMessage
  {
    InboundMessage(seq(size, i => 0), digest, id, 0, now, {})
  }

  function HandleData(m: InboundMessage, idx: nat, buf: Bytes, now: Time): InboundMessage
  {
    if idx + |buf| > |m.data| then m
    else m.(data := m.data[..idx] + buf + m.data[idx + |buf|..],
            acks := m.acks + {idx / FRAGMENT_SIZE},
            lastActiveAt := now)
  }

  /** Marking a fragment past the bitset throws, after the bytes were copied. */
  predicate SetThrows(m: InboundMessage, idx: nat, buf: Bytes)
  {
    idx + |buf| <= |m.data| && idx / FRAGMENT_SIZE >= MAX_FRAGMENTS
  }

  /** A DATA body for m that ends in an exception, in HandleData or in IsCompleted. */
  predicate DataThrows(m: InboundMessage, idx: nat, buf: Bytes, now: Time)
  {
    || SetThrows(m, idx, buf)
    || var m' := HandleData(m, idx, buf, now); TestThrows(m'.acks, |m'.data|)
  }

  /** The message as the exception leaves it. */
  function AfterThrow(m: InboundMessage, idx: nat, buf: Bytes, now: Time): InboundMessage
  {
    var m' := HandleData(m, idx, buf, now);
    if SetThrows(m, idx, buf) then m.(data := m'.data) else m'
  }

  predicate ShouldSendAcks(m: InboundMessage, now: Time)
  {
    now > m.lastAckSent + ACK_RESEND_INTERVAL
  }

  predicate RxTimedOut(m: InboundMessage, now: Time)
  {
    now > m.lastActiveAt && now - m.lastActiveAt > DELIVERY_TIMEOUT
  }

  predicate Verifies(h: Hasher, m: InboundMessage)
  {
    h(m.data) == m.digest
  }

  /** The loop of InboundMessage::IsCompleted. */
  method IsCompleted(m: InboundMessage) returns (thrown: bool, all: bool)
    ensures thrown <==> TestThrows(m.acks, |m.data|)
    ensures !thrown ==> (all <==> AllMarked(m.acks, |m.data|))
  {
    thrown, all := AllBitsSet(m.acks, |m.data|);
  }

  /** Each marked fragment of m holds the bytes that the sender has at that place. */
  ghost predicate HoldsPartOf(m: InboundMessage, data: Bytes)
  {
    && |m.data| == |data|
    && forall f: nat :: f in m.acks && f < FragmentCount(|data|) ==> Fragment(m.data, f) == Fragment(data, f)
  }

  /** Distinct fragments occupy disjoint byte ranges. */
  lemma FragmentsDisjoint(f: nat, g: nat)
    requires f != g
    ensures (f + 1) * FRAGMENT_SIZE <= g * FRAGMENT_SIZE || (g + 1) * FRAGMENT_SIZE <= f * FRAGMENT_SIZE
  {
  }

  /** A packet body made by the sender of data, at fragment f, keeps the relation. */
  lemma HandleDataHolds(m: InboundMessage, data: Bytes, f: nat, now: Time)
    requires HoldsPartOf(m, data)
    requires f < FragmentCount(|data|)
    ensures var m' := HandleData(m, f * FRAGMENT_SIZE, Fragment(data, f), now);
            HoldsPartOf(m', data) && m'.acks == m.acks + {f}
            && m'.digest == m.digest && m'.id == m.id
  {
    var buf, idx := Fragment(data, f), f * FRAGMENT_SIZE;
    var d' := m.data[..idx] + buf + m.data[idx + |buf|..];
    assert HandleData(m, idx, buf, now).data == d';
    assert idx / FRAGMENT_SIZE == f;
    assert Fragment(d', f) == buf;
    forall g: nat | g in m.acks && g < FragmentCount(|data|) && g != f
      ensures Fragment(d', g) == Fragment(data, g)
    {
      FragmentsDisjoint(f, g);
      assert Fragment(d', g) == Fragment(m.data, g);
    }
  }

  /** A message with every fragment marked is the sender's message, so its digest matches. */
  lemma CompletedIsMessage(h: Hasher, m: InboundMessage, data: Bytes)
    requires HoldsPartOf(m, data) && AllMarked(m.acks, |m.data|) && m.digest == h(data)
    ensures m.data == data && Verifies(h, m)
  {
    FragmentsDetermineData(m.data, data);
  }
}
