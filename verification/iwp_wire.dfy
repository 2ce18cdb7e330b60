/** The bytes of an IWP packet: the layouts that CreatePacket and its callers write and the
    packet handlers read (llarp/iwp/session.cpp, llarp/iwp/message_buffer.cpp), and the
    encryption around them. */
module IwpWire {
  import opened Common
  import opened IwpMessages
  import IwpSession

  const PROTO_VERSION: byte := 0
  const COMMAND_OVERHEAD: nat := 2
  const HMAC_SIZE: nat := 32
  const NONCE_SIZE: nat := 32
  const PACKET_OVERHEAD: nat := HMAC_SIZE + NONCE_SIZE
  const HASH_SIZE: nat := 32

  // ----- big-endian integers

  function PutBE(x: nat, n: nat): (s: Bytes)
    ensures |s| == n
  {
    if n == 0 then [] else PutBE(x / 256, n - 1) + [(x % 256) as byte]
  }

  function GetBE(s: Bytes): nat
  {
    if s == [] then 0 else 256 * GetBE(s[..|s| - 1]) + s[|s| - 1] as nat
  }

  lemma {:induction false} BERoundTrip(x: nat, n: nat)
    requires x < Pow256(n)
    ensures GetBE(PutBE(x, n)) == x
  {
    if n > 0 {
      BERoundTrip(x / 256, n - 1);
      assert PutBE(x, n)[..n - 1] == PutBE(x / 256, n - 1);
    }
  }

  // ----- acknowledgement bitsets

  function Pow2(n: nat): (r: nat)
    ensures r > 0
  {
    if n == 0 then 1 else 2 * Pow2(n - 1)
  }

  /** The number whose n binary digits are the marks of fragments i .. i + n - 1, lowest first. */
  function MaskBits(mask: set<nat>, i: nat, n: nat): (b: nat)
    ensures b < Pow2(n)
    decreases n
  {
    if n == 0 then 0 else (if i in mask then 1 else 0) + 2 * MaskBits(mask, i + 1, n - 1)
  }

  function BitsMask(b: nat, i: nat, n: nat): set<nat>
    decreases n
  {
    if n == 0 then {} else (if b % 2 == 1 then {i} else {}) + BitsMask(b / 2, i + 1, n - 1)
  }

  lemma {:induction false} BitsRoundTrip(mask: set<nat>, i: nat, n: nat)
    ensures BitsMask(MaskBits(mask, i, n), i, n) == set j | j in mask && i <= j < i + n
    decreases n
  {
    if n > 0 {
      BitsRoundTrip(mask, i + 1, n - 1);
      assert MaskBits(mask, i, n) / 2 == MaskBits(mask, i + 1, n - 1);
    }
  }

  lemma MaskFitsByte(mask: set<nat>)
    ensures MaskBits(mask, 0, MAX_FRAGMENTS) < 0x100
  {
    assert Pow2(8) == 2 * 2 * 2 * 2 * Pow2(4);
  }

  function MaskByte(mask: set<nat>): byte
  {
    MaskFitsByte(mask);
    MaskBits(mask, 0, MAX_FRAGMENTS) as byte
  }

  function ByteMask(b: byte): set<nat> { BitsMask(b as nat, 0, MAX_FRAGMENTS) }

  lemma MaskRoundTrip(mask: set<nat>)
    requires forall j :: j in mask ==> j < MAX_FRAGMENTS
    ensures ByteMask(MaskByte(mask)) == mask
  {
    hide BitsMask, MaskBits;
    BitsRoundTrip(mask, 0, MAX_FRAGMENTS);
  }

  // ----- packets

  function Command(p: Packet): byte
  {
    match p
    case Ping => 0
    case Xmit(_, _, _, _) => 1
    case Data(_, _, _) => 2
    case Acks(_, _) => 3
    case Nack(_) => 4
    case Mack(_) => 5
    case Clos => 0xff
  }

  function PutIds(ids: seq<nat>): (s: Bytes)
    ensures |s| == 8 * |ids|
  {
    if ids == [] then [] else PutBE(ids[0], 8) + PutIds(ids[1..])
  }

  /** What follows the two command bytes. */
  function Body(p: Packet): Bytes
    requires p.Mack? ==> |p.ids| < 256
  {
    match p
    case Xmit(size, id, digest, data) => PutBE(size, 2) + PutBE(id, 8) + digest + data
    case Data(idx, id, data) => PutBE(idx, 2) + PutBE(id, 8) + data
    case Acks(id, mask) => PutBE(id, 8) + [MaskByte(mask)]
    case Nack(id) => PutBE(id, 8)
    case Mack(ids) => [|ids| as byte] + PutIds(ids)
    case Ping => []
    case Clos => []
  }

  /** Values that fit their fields. */
  predicate Fits(p: Packet)
  {
    match p
    case Xmit(size, id, digest, data) => size < Pow256(2) && id < Pow256(8) && |digest| == HASH_SIZE
    case Data(idx, id, data) => idx < Pow256(2) && id < Pow256(8)
    case Acks(id, mask) => id < Pow256(8) && forall i :: i in mask ==> i < MAX_FRAGMENTS
    case Nack(id) => id < Pow256(8)
    case Mack(ids) => |ids| < 256 && forall i :: 0 <= i < |ids| ==> ids[i] < Pow256(8)
    case Ping => true
    case Clos => true
  }

  /** What the sender writes: the multi-acks are also limited in number. */
  predicate Encodable(p: Packet) { Fits(p) && (p.Mack? ==> |p.ids| <= IwpSession.MAX_ACKS_IN_MACK) }

  /** XMIT and DATA carry no padding; the others end in random bytes. */
  predicate PadAllowed(p: Packet, pad: Bytes)
  {
    p.Xmit? || p.Data? ==> pad == []
  }

  function Encode(p: Packet, pad: Bytes): Bytes
    requires p.Mack? ==> |p.ids| < 256
  {
    [PROTO_VERSION, Command(p)] + Body(p) + pad
  }

  function GetIds(s: Bytes, n: nat): seq<nat>
    requires |s| >= 8 * n
    decreases n
  {
    if n == 0 then [] else [GetBE(s[..8])] + GetIds(s[8..], n - 1)
  }

  /** The checks and offsets of the handlers; None where a packet is logged and ignored. */
  function Decode(s: Bytes): Option<Packet>
  {
    if |s| < COMMAND_OVERHEAD || s[0] != PROTO_VERSION then None
    else
      var b := s[COMMAND_OVERHEAD..];
      if s[1] == 0 then Some(Ping)
      else if s[1] == 1 then
        if |b| < 10 + HASH_SIZE then None
        else Some(Xmit(GetBE(b[..2]), GetBE(b[2..10]), b[10..10 + HASH_SIZE], b[10 + HASH_SIZE..]))
      else if s[1] == 2 then
        if |b| < 10 then None else Some(Data(GetBE(b[..2]), GetBE(b[2..10]), b[10..]))
      else if s[1] == 3 then
        if |b| < 9 then None else Some(Acks(GetBE(b[..8]), ByteMask(b[8])))
      else if s[1] == 4 then
        if |b| < 8 then None else Some(Nack(GetBE(b[..8])))
      else if s[1] == 5 then
        if |b| < 1 || |b| < 1 + 8 * b[0] as nat then None else Some(Mack(GetIds(b[1..], b[0] as nat)))
      else if s[1] == 0xff then Some(Clos)
      else None
  }

  lemma FirstField(field: Bytes, rest: Bytes, pad: Bytes)
    ensures var s := field + rest + pad;
            s[..|field|] == field && s[|field|..] == rest + pad
  {
  }

  lemma {:induction false} IdsRoundTrip(ids: seq<nat>, pad: Bytes)
    requires forall i :: 0 <= i < |ids| ==> ids[i] < Pow256(8)
    ensures GetIds(PutIds(ids) + pad, |ids|) == ids
  {
    hide PutBE, GetBE, Pow256;
    if ids != [] {
      BERoundTrip(ids[0], 8);
      IdsRoundTrip(ids[1..], pad);
      FirstField(PutBE(ids[0], 8), PutIds(ids[1..]), pad);
    }
  }

  lemma FragmentRoundTrip(p: Packet)
    requires Fits(p) && (p.Xmit? || p.Data?)
    ensures Decode(Encode(p, [])) == Some(p)
  {
    hide PutBE, GetBE, Pow256;
    var b := Encode(p, [])[COMMAND_OVERHEAD..];
    assert b == Body(p);
    BERoundTrip(p.id, 8);
    BERoundTrip(if p.Xmit? then p.size else p.idx, 2);
    assert b[..2] == PutBE(if p.Xmit? then p.size else p.idx, 2) && b[2..10] == PutBE(p.id, 8);
    if p.Xmit? {
      assert b[10..10 + HASH_SIZE] == p.digest && b[10 + HASH_SIZE..] == p.data;
    } else {
      assert b[10..] == p.data;
    }
  }

  lemma AckRoundTrip(p: Packet, pad: Bytes)
    requires Fits(p) && (p.Acks? || p.Nack?)
    ensures Decode(Encode(p, pad)) == Some(p)
  {
    hide PutBE, GetBE, Pow256, MaskByte, ByteMask;
    var b := Encode(p, pad)[COMMAND_OVERHEAD..];
    assert b == Body(p) + pad;
    BERoundTrip(p.id, 8);
    assert b[..8] == PutBE(p.id, 8);
    if p.Acks? { MaskRoundTrip(p.mask); }
  }

  lemma MackRoundTrip(p: Packet, pad: Bytes)
    requires Fits(p) && p.Mack?
    ensures Decode(Encode(p, pad)) == Some(p)
  {
    hide PutIds, GetIds, Pow256;
    var b := Encode(p, pad)[COMMAND_OVERHEAD..];
    assert b[1..] == PutIds(p.ids) + pad;
    IdsRoundTrip(p.ids, pad);
  }

  /** Every handler reads back what was written, whatever the padding. */
  lemma DecodeEncode(p: Packet, pad: Bytes)
    requires Fits(p) && PadAllowed(p, pad)
    ensures Decode(Encode(p, pad)) == Some(p)
  {
    if p.Xmit? || p.Data? { FragmentRoundTrip(p); }
    else if p.Acks? || p.Nack? { AckRoundTrip(p, pad); }
    else if p.Mack? { MackRoundTrip(p, pad); }
  }

  // ----- what is read was written

  lemma {:induction false} BEInverse(s: Bytes)
    ensures GetBE(s) < Pow256(|s|) && PutBE(GetBE(s), |s|) == s
    decreases |s|
  {
    if s != [] {
      var n := |s| - 1;
      BEInverse(s[..n]);
      assert s == s[..n] + [s[n]];
    }
  }

  lemma {:induction false} MaskBitsAgree(m1: set<nat>, m2: set<nat>, i: nat, n: nat)
    requires forall j :: i <= j ==> (j in m1 <==> j in m2)
    ensures MaskBits(m1, i, n) == MaskBits(m2, i, n)
    decreases n
  {
    if n > 0 { MaskBitsAgree(m1, m2, i + 1, n - 1); }
  }

  lemma {:induction false} BitsInverse(b: nat, i: nat, n: nat)
    requires b < Pow2(n)
    ensures MaskBits(BitsMask(b, i, n), i, n) == b
    ensures forall j :: j in BitsMask(b, i, n) ==> i <= j < i + n
    decreases n
  {
    if n > 0 {
      BitsInverse(b / 2, i + 1, n - 1);
      MaskBitsAgree(BitsMask(b, i, n), BitsMask(b / 2, i + 1, n - 1), i + 1, n - 1);
    }
  }

  lemma MaskInverse(b: byte)
    ensures MaskByte(ByteMask(b)) == b && forall j :: j in ByteMask(b) ==> j < MAX_FRAGMENTS
  {
    hide BitsMask, MaskBits;
    assert Pow2(8) == 2 * 2 * 2 * 2 * Pow2(4);
    BitsInverse(b as nat, 0, MAX_FRAGMENTS);
  }

  lemma {:induction false} IdsInverse(s: Bytes, n: nat)
    requires |s| >= 8 * n
    ensures |GetIds(s, n)| == n && PutIds(GetIds(s, n)) == s[..8 * n]
    ensures forall i :: 0 <= i < n ==> GetIds(s, n)[i] < Pow256(8)
    decreases n
  {
    hide PutBE, GetBE, Pow256;
    if n > 0 {
      BEInverse(s[..8]);
      IdsInverse(s[8..], n - 1);
      var ids := GetIds(s, n);
      assert ids[0] == GetBE(s[..8]) && ids[1..] == GetIds(s[8..], n - 1);
      assert s[..8 * n] == s[..8] + s[8..][..8 * (n - 1)];
    }
  }

  /** The bytes after the padding-free part of a decoded packet. */
  function PadOf(s: Bytes, p: Packet): Bytes
    requires Fits(p)
  {
    if |s| < 2 + |Body(p)| then [] else s[2 + |Body(p)|..]
  }

  lemma FragmentInverse(s: Bytes)
    requires Decode(s).Some? && (Decode(s).value.Xmit? || Decode(s).value.Data?)
    ensures Fits(Decode(s).value) && s == Encode(Decode(s).value, [])
  {
    hide PutBE, GetBE, Pow256;
    var p, b := Decode(s).value, s[COMMAND_OVERHEAD..];
    BEInverse(b[..2]);
    BEInverse(b[2..10]);
    if p.Xmit? {
      assert b == b[..2] + b[2..10] + b[10..10 + HASH_SIZE] + b[10 + HASH_SIZE..];
    } else {
      assert b == b[..2] + b[2..10] + b[10..];
    }
    assert s == [s[0], s[1]] + b + [];
  }

  lemma AckInverse(s: Bytes)
    requires Decode(s).Some? && (Decode(s).value.Acks? || Decode(s).value.Nack?)
    ensures Fits(Decode(s).value) && s == Encode(Decode(s).value, PadOf(s, Decode(s).value))
  {
    hide PutBE, GetBE, Pow256, MaskByte, ByteMask;
    var p, b := Decode(s).value, s[COMMAND_OVERHEAD..];
    BEInverse(b[..8]);
    if p.Acks? { MaskInverse(b[8]); }
    var n := if p.Acks? then 9 else 8;
    assert Body(p) == b[..n];
    assert s == [s[0], s[1]] + b[..n] + s[2 + n..];
  }

  lemma MackInverse(s: Bytes)
    requires Decode(s).Some? && Decode(s).value.Mack?
    ensures Fits(Decode(s).value) && s == Encode(Decode(s).value, PadOf(s, Decode(s).value))
  {
    hide PutIds, GetIds, Pow256;
    var p, b := Decode(s).value, s[COMMAND_OVERHEAD..];
    var n := b[0] as nat;
    IdsInverse(b[1..], n);
    assert Body(p) == [b[0]] + b[1..][..8 * n] == b[..1 + 8 * n];
    assert s == [s[0], s[1]] + b[..1 + 8 * n] + s[2 + (1 + 8 * n)..];
  }

  /** Bytes are read as a packet exactly if they are what is written for it, with some padding where
      padding is allowed: nothing else is accepted, and nothing is read differently. */
  lemma DecodeIff(s: Bytes, p: Packet)
    ensures Decode(s) == Some(p) <==> Fits(p) && exists pad :: PadAllowed(p, pad) && s == Encode(p, pad)
  {
    hide Encode, Decode;
    if Decode(s) == Some(p) {
      var pad := DecodedPad(s, p);
    }
    if Fits(p) {
      forall pad | PadAllowed(p, pad) && s == Encode(p, pad)
        ensures Decode(s) == Some(p)
      {
        DecodeEncode(p, pad);
      }
    }
  }

  lemma DecodedPad(s: Bytes, p: Packet) returns (pad: Bytes)
    requires Decode(s) == Some(p)
    ensures Fits(p) && PadAllowed(p, pad) && s == Encode(p, pad)
  {
    if p.Xmit? || p.Data? {
      FragmentInverse(s);
      pad := [];
    } else {
      if p.Acks? || p.Nack? { AckInverse(s); }
      else if p.Mack? { MackInverse(s); }
      else { assert s == [s[0], s[1]] + [] + s[2..]; }
      pad := PadOf(s, p);
    }
  }

  // ----- encryption

  datatype Crypto = Crypto(stream: (Bytes, Bytes, Bytes) -> Bytes, mac: (Bytes, Bytes) -> Bytes)

  ghost predicate Lawful(c: Crypto) { LawfulStream(c.stream) && LawfulMac(c.mac, HMAC_SIZE) }

  function Seal(c: Crypto, key: Bytes, nonce: Bytes, plain: Bytes): Bytes
  {
    var text := nonce + c.stream(key, nonce, plain);
    c.mac(key, text) + text
  }

  /** DecryptMessageInPlace. */
  function Open(c: Crypto, key: Bytes, packet: Bytes): Option<Bytes>
  {
    if |packet| <= PACKET_OVERHEAD then None
    else
      var text := packet[HMAC_SIZE..];
      if c.mac(key, text) != packet[..HMAC_SIZE] then None
      else Some(c.stream(key, text[..NONCE_SIZE], text[NONCE_SIZE..]))
  }

  /** A packet opens to a text exactly if it is that text, not empty, sealed under the key and the nonce in
      the packet. */
  lemma OpenIff(c: Crypto, key: Bytes, packet: Bytes, plain: Bytes)
    requires Lawful(c)
    ensures Open(c, key, packet) == Some(plain)
       <==> |packet| > 64 && plain != [] && packet == Seal(c, key, packet[32..64], plain)
  {
    if |packet| > 64 {
      var nonce, text := packet[32..64], packet[32..];
      assert text[..32] == nonce && text == nonce + text[32..] && packet == packet[..32] + text;
      if packet == Seal(c, key, nonce, plain) {
        var sealed := nonce + c.stream(key, nonce, plain);
        assert packet == c.mac(key, sealed) + sealed;
        assert packet[..32] == c.mac(key, sealed) && packet[32..] == sealed;
        assert text[32..] == c.stream(key, nonce, plain);
      }
    }
  }

  /** Of the packets that differ only in the tag, one opens under a key. */
  lemma WrongTagRefused(c: Crypto, key: Bytes, packet: Bytes, tag: Bytes)
    requires Open(c, key, packet).Some? && |tag| == 32 && tag != packet[..32]
    ensures Open(c, key, tag + packet[32..]).None?
  {
    var other := tag + packet[32..];
    assert other[32..] == packet[32..] && other[..32] == tag;
  }

  /** A packet sealed under the session key reaches the peer's handler unchanged. */
  lemma WireRoundTrip(c: Crypto, key: Bytes, nonce: Bytes, p: Packet, pad: Bytes)
    requires Lawful(c) && |nonce| == NONCE_SIZE
    requires Encodable(p) && PadAllowed(p, pad)
    ensures var got := Open(c, key, Seal(c, key, nonce, Encode(p, pad)));
            got.Some? && Decode(got.value) == Some(p)
  {
    var plain := Encode(p, pad);
    var text := nonce + c.stream(key, nonce, plain);
    var packet := Seal(c, key, nonce, plain);
    assert packet[HMAC_SIZE..] == text && packet[..HMAC_SIZE] == c.mac(key, text);
    assert text[..NONCE_SIZE] == nonce && text[NONCE_SIZE..] == c.stream(key, nonce, plain);
    DecodeEncode(p, pad);
  }

  /** The crypto laws can be met: the identity stream with a constant tag. */
  lemma LawfulCryptoExists()
    ensures exists c :: Lawful(c)
  {
    var c := Crypto((k: Bytes, n: Bytes, t: Bytes) => t, (k: Bytes, t: Bytes) => seq(HMAC_SIZE, i => 0 as byte));
    assert Lawful(c);
  }

  // ----- multi-acks, end to end

  /** The ids that HandleMACK finds in a series of multi-ack packets. */
  function ReadMacks(packets: seq<Bytes>): seq<nat>
  {
    if packets == [] then []
    else (match Decode(packets[0]) case Some(Mack(ids)) => ids case _ => []) + ReadMacks(packets[1..])
  }

  ghost predicate Encodes(packets: seq<Bytes>, chunks: seq<seq<nat>>, pads: seq<Bytes>)
  {
    && |packets| == |chunks| == |pads|
    && (forall i :: 0 <= i < |chunks| ==> |chunks[i]| < 256)
    && forall i :: 0 <= i < |chunks| ==> packets[i] == Encode(Mack(chunks[i]), pads[i])
  }

  lemma {:induction false} ReadBackChunks(packets: seq<Bytes>, chunks: seq<seq<nat>>, pads: seq<Bytes>)
    requires Encodes(packets, chunks, pads)
    requires forall c :: c in chunks ==> Encodable(Mack(c))
    ensures ReadMacks(packets) == IwpSession.Flatten(chunks)
    decreases |chunks|
  {
    if chunks != [] {
      assert chunks[0] in chunks;
      DecodeEncode(Mack(chunks[0]), pads[0]);
      ReadBackChunks(packets[1..], chunks[1..], pads[1..]);
    }
  }

  /** What SendMACK emits for a heap of ids, read with HandleMACK's layout, is the heap's ids,
      all of them, in ascending order across packets. */
  lemma MacksReadBack(macks: multiset<nat>, packets: seq<Bytes>, pads: seq<Bytes>)
    requires forall id :: id in macks ==> id < Pow256(8)
    requires Encodes(packets, IwpSession.Chunks(IwpSession.Ascending(macks)), pads)
    ensures multiset(ReadMacks(packets)) == macks
    ensures IwpSession.IsAscending(ReadMacks(packets))
  {
    hide IwpSession.Ascending, IwpSession.Chunks, IwpSession.Flatten, ReadMacks, Pow256;
    var ids := IwpSession.Ascending(macks);
    IwpSession.ChunksFlatten(ids);
    IwpSession.AscendingIsAscending(macks);
    ChunksEncodable(ids, macks);
    ReadBackChunks(packets, IwpSession.Chunks(ids), pads);
  }

  lemma ChunksEncodable(ids: seq<nat>, macks: multiset<nat>)
    requires multiset(ids) == macks
    requires forall id :: id in macks ==> id < Pow256(8)
    ensures forall c :: c in IwpSession.Chunks(ids) ==> Encodable(Mack(c))
  {
    hide Pow256;
    IwpSession.ChunksFlatten(ids);
    hide IwpSession.Chunks;
    forall c, i | c in IwpSession.Chunks(ids) && 0 <= i < |c|
      ensures c[i] < Pow256(8)
    {
      assert c[i] in ids;
      assert c[i] in multiset(ids);
    }
  }
}
