/** Building an onion path (llarp/crypto/encrypted_frame.cpp, llarp/messages/relay_commit.cpp,
    llarp/path/pathbuilder.cpp): a commit message carries 8 frames; each relay opens the first,
    shifts the others up and puts junk at the end. The primitives are parameters. */
module OnionPath {
  import opened Common

  const HASH_SIZE: nat := 32
  const NONCE_SIZE: nat := 32
  const PUBKEY_SIZE: nat := 32
  const OVERHEAD: nat := PUBKEY_SIZE + NONCE_SIZE + HASH_SIZE
  const MAX_LEN: nat := 8

  // ----- primitives

  /** smul is scalar multiplication (it can fail), kdf the hash of client key, server key and shared
      point, derive the hash keyed with the result. */
  datatype Crypto = Crypto(
    toPublic: Bytes -> Bytes,
    smul: (Bytes, Bytes) -> Option<Bytes>,
    kdf: (Bytes, Bytes, Bytes) -> Bytes,
    derive: (Bytes, Bytes) -> Bytes,
    stream: (Bytes, Bytes, Bytes) -> Bytes,
    mac: (Bytes, Bytes) -> Bytes)

  ghost predicate Lawful(c: Crypto)
  {
    && (forall a, b :: c.smul(a, c.toPublic(b)) == c.smul(b, c.toPublic(a)))
    && (forall a :: |c.toPublic(a)| == PUBKEY_SIZE)
    && LawfulStream(c.stream) && LawfulMac(c.mac, HASH_SIZE)
  }

  /** The laws can be met. */
  lemma LawfulCryptoExists()
    ensures exists c :: Lawful(c)
  {
    var c := Crypto((a: Bytes) => seq(PUBKEY_SIZE, i => 0 as byte), (a: Bytes, p: Bytes) => Some([]),
                    (x: Bytes, y: Bytes, z: Bytes) => [], (n: Bytes, k: Bytes) => [],
                    (k: Bytes, n: Bytes, t: Bytes) => t, (k: Bytes, t: Bytes) => seq(HASH_SIZE, i => 0 as byte));
    assert Lawful(c);
  }

  function DhClient(c: Crypto, serverPk: Bytes, clientSk: Bytes, nonce: Bytes): Option<Bytes>
  {
    match c.smul(clientSk, serverPk)
    case None => None
    case Some(point) => Some(c.derive(nonce, c.kdf(c.toPublic(clientSk), serverPk, point)))
  }

  function DhServer(c: Crypto, clientPk: Bytes, serverSk: Bytes, nonce: Bytes): Option<Bytes>
  {
    match c.smul(serverSk, clientPk)
    case None => None
    case Some(point) => Some(c.derive(nonce, c.kdf(clientPk, c.toPublic(serverSk), point)))
  }

  /** Both ends derive the same secret. */
  lemma DhAgrees(c: Crypto, clientSk: Bytes, serverSk: Bytes, nonce: Bytes)
    requires Lawful(c)
    ensures DhClient(c, c.toPublic(serverSk), clientSk, nonce) == DhServer(c, c.toPublic(clientSk), serverSk, nonce)
  {
    assert c.smul(clientSk, c.toPublic(serverSk)) == c.smul(serverSk, c.toPublic(clientSk));
  }

  // ----- frames: hash, nonce, public key, body

  function Hash(frame: Bytes): Bytes requires |frame| >= OVERHEAD { frame[..HASH_SIZE] }

  function Nonce(frame: Bytes): Bytes requires |frame| >= OVERHEAD { frame[HASH_SIZE..HASH_SIZE + NONCE_SIZE] }

  function PubKeyOf(frame: Bytes): Bytes requires |frame| >= OVERHEAD { frame[HASH_SIZE + NONCE_SIZE..OVERHEAD] }

  function Body(frame: Bytes): Bytes requires |frame| >= OVERHEAD { frame[OVERHEAD..] }

  /** EncryptInPlace with this random nonce; None when the key agreement fails. */
  function Encrypted(c: Crypto, frame: Bytes, ourSecret: Bytes, otherPubkey: Bytes, nonce: Bytes): Option<Bytes>
    requires |frame| >= OVERHEAD
  {
    match DhClient(c, otherPubkey, ourSecret, nonce)
    case None => None
    case Some(shared) =>
      var tail := nonce + c.toPublic(ourSecret) + c.stream(shared, nonce, Body(frame));
      Some(c.mac(shared, tail) + tail)
  }

  /** DecryptInPlace; None when the agreement or the authentication fails. */
  function Decrypted(c: Crypto, frame: Bytes, ourSecret: Bytes): Option<Bytes>
    requires |frame| >= OVERHEAD
  {
    match DhServer(c, PubKeyOf(frame), ourSecret, Nonce(frame))
    case None => None
    case Some(shared) =>
      if c.mac(shared, frame[HASH_SIZE..]) != Hash(frame) then None
      else Some(frame[..OVERHEAD] + c.stream(shared, Nonce(frame), Body(frame)))
  }

  lemma EncryptedLayout(c: Crypto, frame: Bytes, ourSecret: Bytes, otherPubkey: Bytes, nonce: Bytes)
    requires Lawful(c) && |frame| >= OVERHEAD && |nonce| == NONCE_SIZE
    requires Encrypted(c, frame, ourSecret, otherPubkey, nonce).Some?
    ensures var e := Encrypted(c, frame, ourSecret, otherPubkey, nonce).value;
            var shared := DhClient(c, otherPubkey, ourSecret, nonce).value;
            && |e| == |frame| && Nonce(e) == nonce && PubKeyOf(e) == c.toPublic(ourSecret)
            && Body(e) == c.stream(shared, nonce, Body(frame)) && Hash(e) == c.mac(shared, e[HASH_SIZE..])
  {
  }

  /** The addressee, and the body it was given, are recovered. */
  lemma DecryptUndoesEncrypt(c: Crypto, frame: Bytes, senderSk: Bytes, receiverSk: Bytes, nonce: Bytes)
    requires Lawful(c) && |frame| >= OVERHEAD && |nonce| == NONCE_SIZE
    requires Encrypted(c, frame, senderSk, c.toPublic(receiverSk), nonce).Some?
    ensures var e := Encrypted(c, frame, senderSk, c.toPublic(receiverSk), nonce).value;
            && |e| == |frame|
            && Decrypted(c, e, receiverSk).Some?
            && Body(Decrypted(c, e, receiverSk).value) == Body(frame)
  {
    EncryptedLayout(c, frame, senderSk, c.toPublic(receiverSk), nonce);
    DhAgrees(c, senderSk, receiverSk, nonce);
    var e := Encrypted(c, frame, senderSk, c.toPublic(receiverSk), nonce).value;
    var shared := DhClient(c, c.toPublic(receiverSk), senderSk, nonce).value;
    hide Encrypted, DhClient, DhServer;
    var d := Decrypted(c, e, receiverSk).value;
    assert Body(d) == c.stream(shared, nonce, Body(e));
  }

  /** The secret that the receiver and the sender of a frame agree on, if they can: both keys and the
      shared point are hashed, and the result under the nonce of the frame. */
  function FrameSecret(c: Crypto, frame: Bytes, receiverSk: Bytes): Option<Bytes>
    requires |frame| >= 96
  {
    match c.smul(receiverSk, frame[64..96])
    case None => None
    case Some(point) => Some(c.derive(frame[32..64], c.kdf(frame[64..96], c.toPublic(receiverSk), point)))
  }

  /** A frame is opened exactly if a secret is agreed and its first 32 bytes authenticate the rest under
      it. Nonce, key and tag stay, and the body is decrypted. */
  lemma OpensIff(c: Crypto, frame: Bytes, receiverSk: Bytes)
    requires Lawful(c) && |frame| >= OVERHEAD
    ensures var d, secret := Decrypted(c, frame, receiverSk), FrameSecret(c, frame, receiverSk);
            && (d.Some? <==> secret.Some? && c.mac(secret.value, frame[32..]) == frame[..32])
            && (d.Some? ==> d.value == frame[..96] + c.stream(secret.value, frame[32..64], frame[96..]))
  {
    assert Nonce(frame) == frame[32..64] && PubKeyOf(frame) == frame[64..96];
    assert Hash(frame) == frame[..32] && Body(frame) == frame[96..];
  }

  /** Of the frames that differ only in the tag, one opens. */
  lemma WrongTagRefused(c: Crypto, frame: Bytes, receiverSk: Bytes, tag: Bytes)
    requires Lawful(c) && |frame| >= OVERHEAD && Decrypted(c, frame, receiverSk).Some?
    requires |tag| == HASH_SIZE && tag != frame[..HASH_SIZE]
    ensures Decrypted(c, tag + frame[HASH_SIZE..], receiverSk).None?
  {
    var other := tag + frame[32..];
    assert other[32..] == frame[32..] && other[..32] == tag;
    assert other[32..64] == frame[32..64] && other[64..96] == frame[64..96];
    OpensIff(c, frame, receiverSk);
    OpensIff(c, other, receiverSk);
  }

  /** What opens was encrypted: a frame that the receiver opens is the frame that the owner of the key in
      it makes of the opened one. */
  lemma EncryptUndoesDecrypt(c: Crypto, frame: Bytes, senderSk: Bytes, receiverSk: Bytes)
    requires Lawful(c) && |frame| >= OVERHEAD && Decrypted(c, frame, receiverSk).Some?
    requires PubKeyOf(frame) == c.toPublic(senderSk)
    ensures var d := Decrypted(c, frame, receiverSk).value;
            && |d| == |frame|
            && Encrypted(c, d, senderSk, c.toPublic(receiverSk), Nonce(frame)) == Some(frame)
  {
    DhAgrees(c, senderSk, receiverSk, Nonce(frame));
    var d := Decrypted(c, frame, receiverSk).value;
    var shared := DhServer(c, PubKeyOf(frame), receiverSk, Nonce(frame)).value;
    hide DhClient, DhServer;
    assert Body(d) == c.stream(shared, Nonce(frame), Body(frame));
    assert frame[32..] == Nonce(frame) + PubKeyOf(frame) + Body(frame);
    assert frame == Hash(frame) + frame[32..];
  }

  /** The frame is rewritten in place; a failed agreement leaves the nonce and key behind. */
  method EncryptInPlace(c: Crypto, frame: array<byte>, ourSecret: Bytes, otherPubkey: Bytes, nonce: Bytes)
    returns (ok: bool)
    requires Lawful(c) && frame.Length >= OVERHEAD && |nonce| == NONCE_SIZE
    modifies frame
    ensures ok <==> Encrypted(c, old(frame[..]), ourSecret, otherPubkey, nonce).Some?
    ensures ok ==> frame[..] == Encrypted(c, old(frame[..]), ourSecret, otherPubkey, nonce).value
    ensures !ok ==> Body(frame[..]) == old(Body(frame[..]))
  {
    var pk := c.toPublic(ourSecret);
    Write(frame, HASH_SIZE + NONCE_SIZE, pk);
    ghost var f := frame[..];
    assert f[HASH_SIZE + NONCE_SIZE..] == pk + Body(old(frame[..]));
    Write(frame, HASH_SIZE, nonce);
    assert frame[..][HASH_SIZE + NONCE_SIZE..] == f[HASH_SIZE + NONCE_SIZE..];
    assert PubKeyOf(frame[..]) == frame[..][HASH_SIZE + NONCE_SIZE..][..PUBKEY_SIZE];
    assert Body(frame[..]) == frame[..][HASH_SIZE + NONCE_SIZE..][PUBKEY_SIZE..];
    assert Nonce(frame[..]) == nonce && PubKeyOf(frame[..]) == pk && Body(frame[..]) == Body(old(frame[..]));
    match DhClient(c, otherPubkey, ourSecret, nonce) {
      case None => return false;
      case Some(shared) =>
        DoEncrypt(c, frame, shared);
        return true;
    }
  }

  lemma TailOf(was: Bytes, body: Bytes)
    requires |was| >= OVERHEAD && |body| == |was| - OVERHEAD
    ensures (was[..OVERHEAD] + body + was[OVERHEAD + |body|..])[HASH_SIZE..] == Nonce(was) + PubKeyOf(was) + body
  {
  }

  /** Encrypts the body under the nonce in the frame, then authenticates what follows the hash. */
  method DoEncrypt(c: Crypto, frame: array<byte>, shared: Bytes)
    requires Lawful(c) && frame.Length >= OVERHEAD
    modifies frame
    ensures var was := old(frame[..]);
            var tail := Nonce(was) + PubKeyOf(was) + c.stream(shared, Nonce(was), Body(was));
            frame[..] == c.mac(shared, tail) + tail
  {
    ghost var was := frame[..];
    var nonce := frame[HASH_SIZE..HASH_SIZE + NONCE_SIZE];
    var body := c.stream(shared, nonce, frame[OVERHEAD..]);
    assert nonce == Nonce(was) && frame[OVERHEAD..] == Body(was);
    ghost var tail := Nonce(was) + PubKeyOf(was) + body;
    Write(frame, OVERHEAD, body);
    TailOf(was, body);
    assert frame[HASH_SIZE..] == frame[..][HASH_SIZE..] == tail;
    var tag := c.mac(shared, frame[HASH_SIZE..]);
    ghost var mid := frame[..];
    Write(frame, 0, tag);
    assert mid[HASH_SIZE..] == tail && mid[..0] == [];
  }

  /** Leaves the frame alone unless it authenticates. */
  method DecryptInPlace(c: Crypto, frame: array<byte>, ourSecret: Bytes) returns (ok: bool)
    requires Lawful(c) && frame.Length >= OVERHEAD
    modifies frame
    ensures ok <==> Decrypted(c, old(frame[..]), ourSecret).Some?
    ensures frame[..] == if ok then Decrypted(c, old(frame[..]), ourSecret).value else old(frame[..])
  {
    var nonce := frame[HASH_SIZE..HASH_SIZE + NONCE_SIZE];
    var otherPubkey := frame[HASH_SIZE + NONCE_SIZE..OVERHEAD];
    ghost var was := frame[..];
    assert nonce == Nonce(was) && otherPubkey == PubKeyOf(was);
    match DhServer(c, otherPubkey, ourSecret, nonce) {
      case None => return false;
      case Some(shared) =>
        assert frame[HASH_SIZE..] == was[HASH_SIZE..];
        if c.mac(shared, frame[HASH_SIZE..]) != frame[..HASH_SIZE] { return false; }
        assert frame[OVERHEAD..] == Body(was);
        var body := c.stream(shared, nonce, frame[OVERHEAD..]);
        Write(frame, OVERHEAD, body);
        assert frame[..] == was[..OVERHEAD] + body;
        return true;
    }
  }

  /** memcpy to an offset. */
  method Write(frame: array<byte>, at: nat, data: Bytes)
    requires at + |data| <= frame.Length
    modifies frame
    ensures frame[..] == old(frame[..])[..at] + data + old(frame[..])[at + |data|..]
  {
    forall i | 0 <= i < |data| {
      frame[at + i] := data[i];
    }
  }

  // ----- relays

  /** What a relay reads from its record. */
  datatype Record = Record(nextHop: Bytes, txid: Bytes, rxid: Bytes, commkey: Bytes, tunnelNonce: Bytes)

  predicate IsZero(id: Bytes) { forall i :: 0 <= i < |id| ==> id[i] == 0 }

  datatype Relay = Relay(id: Bytes, secret: Bytes)

  datatype Outcome =
    | Ignored
    | PathConfirmed(record: Record, pathKey: Bytes)
    | Forwarded(record: Record, pathKey: Bytes, upstream: Bytes, frames: seq<Bytes>)

  function Shifted(frames: seq<Bytes>, junk: Bytes): seq<Bytes>
    requires frames != []
  {
    frames[1..] + [junk]
  }

  /** HandleDecrypted for a hop that the relay is willing to carry; decode is the record's BDecode. */
  function Handle(c: Crypto, decode: Bytes -> Option<Record>, r: Relay, frames: seq<Bytes>, junk: Bytes): Outcome
    requires |frames| == MAX_LEN && |frames[0]| >= OVERHEAD
  {
    match Decrypted(c, frames[0], r.secret)
    case None => Ignored
    case Some(frame) =>
      match decode(Body(frame))
      case None => Ignored
      case Some(record) =>
        if IsZero(record.txid) || IsZero(record.rxid) then Ignored
        else
          match DhServer(c, record.commkey, r.secret, record.tunnelNonce)
          case None => Ignored
          case Some(pathKey) =>
            if record.nextHop == r.id then PathConfirmed(record, pathKey)
            else Forwarded(record, pathKey, record.nextHop, Shifted(frames, junk))
  }

  /** The first frame opens for this relay, and its body is a record. */
  ghost predicate HasRecord(c: Crypto, decode: Bytes -> Option<Record>, r: Relay, frame: Bytes, record: Record)
    requires |frame| >= OVERHEAD
  {
    && Decrypted(c, frame, r.secret).Some?
    && decode(Decrypted(c, frame, r.secret).value[96..]) == Some(record)
  }

  /** A relay takes part exactly if the first frame holds a record for it, with two path ids other than
      zero and a key to agree on. It then confirms the path exactly if the record names the relay itself,
      and otherwise passes on to the router that is named all frames but its own, and junk. */
  lemma TakesPartIff(c: Crypto, decode: Bytes -> Option<Record>, r: Relay, frames: seq<Bytes>, junk: Bytes,
                     record: Record, key: Bytes)
    requires |frames| == MAX_LEN && |frames[0]| >= OVERHEAD
    ensures var out := Handle(c, decode, r, frames, junk);
            var takes := && HasRecord(c, decode, r, frames[0], record)
                         && (exists i :: 0 <= i < |record.txid| && record.txid[i] != 0)
                         && (exists i :: 0 <= i < |record.rxid| && record.rxid[i] != 0)
                         && DhServer(c, record.commkey, r.secret, record.tunnelNonce) == Some(key);
            && (out == PathConfirmed(record, key) <==> takes && record.nextHop == r.id)
            && (takes && record.nextHop != r.id ==>
                  out.Forwarded? && out.upstream == record.nextHop && |out.frames| == 8 && out.frames[7] == junk
                  && forall i :: 0 <= i < 7 ==> out.frames[i] == frames[i + 1])
            && (out.Forwarded? && out.record == record && out.pathKey == key ==> takes && record.nextHop != r.id)
            && (takes ==> out.record == record && out.pathKey == key)
  {
  }

  /** Otherwise the message is ignored. */
  lemma IgnoredIff(c: Crypto, decode: Bytes -> Option<Record>, r: Relay, frames: seq<Bytes>, junk: Bytes)
    requires |frames| == MAX_LEN && |frames[0]| >= OVERHEAD
    ensures Handle(c, decode, r, frames, junk) == Ignored <==>
              !exists record ::
                && HasRecord(c, decode, r, frames[0], record)
                && !IsZero(record.txid) && !IsZero(record.rxid)
                && DhServer(c, record.commkey, r.secret, record.tunnelNonce).Some?
  {
    var plain := Decrypted(c, frames[0], r.secret);
    if plain.Some? && decode(plain.value[96..]).Some? {
      assert HasRecord(c, decode, r, frames[0], decode(plain.value[96..]).value);
    }
  }

  /** The frame shift, in place. */
  method ShiftFrames(frames: array<Bytes>, junk: Bytes)
    requires frames.Length == MAX_LEN
    modifies frames
    ensures frames[..] == Shifted(old(frames[..]), junk)
  {
    var i := 0;
    while i < MAX_LEN - 1
      invariant 0 <= i <= MAX_LEN - 1
      invariant forall j :: 0 <= j < i ==> frames[j] == old(frames[j + 1])
      invariant forall j :: i <= j < MAX_LEN ==> frames[j] == old(frames[j])
    {
      frames[i] := frames[i + 1];
      i := i + 1;
    }
    frames[MAX_LEN - 1] := junk;
  }

  // ----- a whole path

  /** One hop as the client builds it: the relay, the frame holding the encoded record, the
      ephemeral key and nonce of the frame, the path key pair and its nonce. */
  datatype Hop = Hop(relay: Relay, plain: Bytes, record: Record, frameKey: Bytes, nonce: Bytes, commSecret: Bytes)

  /** The key that the client derives for a hop. */
  function ClientPathKey(c: Crypto, hop: Hop): Option<Bytes>
  {
    DhClient(c, c.toPublic(hop.relay.secret), hop.commSecret, hop.record.tunnelNonce)
  }

  ghost predicate HopBuilt(c: Crypto, decode: Bytes -> Option<Record>, hop: Hop, next: Bytes, size: nat)
    requires size >= OVERHEAD
  {
    && |hop.plain| == size && |hop.nonce| == NONCE_SIZE
    && decode(Body(hop.plain)) == Some(hop.record)
    && hop.record.nextHop == next
    && !IsZero(hop.record.txid) && !IsZero(hop.record.rxid)
    && hop.record.commkey == c.toPublic(hop.commSecret)
    && ClientPathKey(c, hop).Some?
    && Encrypted(c, hop.plain, hop.frameKey, c.toPublic(hop.relay.secret), hop.nonce).Some?
  }

  /** Each record names the next hop, the last one itself; neighbours are different routers. */
  ghost predicate PathBuilt(c: Crypto, decode: Bytes -> Option<Record>, hops: seq<Hop>, size: nat)
    requires size >= OVERHEAD
  {
    && 0 < |hops| <= MAX_LEN
    && (forall k :: 0 <= k < |hops| - 1 ==> hops[k].relay.id != hops[k + 1].relay.id)
    && (forall k :: 0 <= k < |hops| ==>
          HopBuilt(c, decode, hops[k], if k + 1 < |hops| then hops[k + 1].relay.id else hops[k].relay.id, size))
  }

  /** The commit message: frame k is encrypted for hop k, the rest is random. */
  ghost predicate CommitFor(c: Crypto, frames: seq<Bytes>, hops: seq<Hop>, size: nat)
    requires size >= OVERHEAD
  {
    && |frames| == MAX_LEN && AllOfSize(frames, size)
    && |hops| <= MAX_LEN
    && forall k :: 0 <= k < |hops| ==>
         |hops[k].plain| == size &&
         Encrypted(c, hops[k].plain, hops[k].frameKey, c.toPublic(hops[k].relay.secret), hops[k].nonce)
             == Some(frames[k])
  }

  ghost predicate AllOfSize(frames: seq<Bytes>, size: nat)
  {
    forall i :: 0 <= i < |frames| ==> |frames[i]| == size
  }

  /** The message as the k-th relay receives it. */
  function Arriving(frames: seq<Bytes>, junk: seq<Bytes>, k: nat): (f: seq<Bytes>)
    requires |frames| == MAX_LEN && k <= |junk|
    ensures |f| == MAX_LEN
  {
    if k == 0 then frames else Shifted(Arriving(frames, junk, k - 1), junk[k - 1])
  }

  /** Shifting k times brings frame i + k to place i, and keeps the size of every frame. */
  lemma {:induction false} ArrivingFrames(frames: seq<Bytes>, junk: seq<Bytes>, k: nat, size: nat)
    requires |frames| == MAX_LEN && k <= |junk|
    requires AllOfSize(frames, size) && AllOfSize(junk, size)
    ensures AllOfSize(Arriving(frames, junk, k), size)
    ensures forall i :: 0 <= i && i + k < MAX_LEN ==> Arriving(frames, junk, k)[i] == frames[i + k]
  {
    if k > 0 {
      ArrivingFrames(frames, junk, k - 1, size);
      var before := Arriving(frames, junk, k - 1);
      assert forall i :: 0 <= i < MAX_LEN - 1 ==> Arriving(frames, junk, k)[i] == before[i + 1];
    }
  }

  /** For every path of up to 8 hops, the k-th relay recovers exactly record k and the path key that
      the client shares with it; it forwards 8 frames of the same size to hop k + 1, and the last
      relay confirms the path. */
  lemma EachHopGetsItsRecord(c: Crypto, decode: Bytes -> Option<Record>, hops: seq<Hop>, frames: seq<Bytes>,
                             junk: seq<Bytes>, k: nat, size: nat)
    requires Lawful(c) && size >= OVERHEAD && PathBuilt(c, decode, hops, size) && CommitFor(c, frames, hops, size)
    requires k < |hops| && |junk| == |hops| && AllOfSize(junk, size)
    ensures AllOfSize(Arriving(frames, junk, k), size) && AllOfSize(Arriving(frames, junk, k + 1), size)
    ensures ClientPathKey(c, hops[k]).Some?
    ensures Handle(c, decode, hops[k].relay, Arriving(frames, junk, k), junk[k])
         == if k == |hops| - 1 then PathConfirmed(hops[k].record, ClientPathKey(c, hops[k]).value)
            else Forwarded(hops[k].record, ClientPathKey(c, hops[k]).value, hops[k + 1].relay.id,
                           Arriving(frames, junk, k + 1))
  {
    ArrivingFrames(frames, junk, k, size);
    ArrivingFrames(frames, junk, k + 1, size);
    var hop := hops[k];
    OpensForHop(c, decode, hop, Arriving(frames, junk, k)[0], size,
                if k + 1 < |hops| then hops[k + 1].relay.id else hop.relay.id);
  }

  lemma OpensForHop(c: Crypto, decode: Bytes -> Option<Record>, hop: Hop, frame: Bytes, size: nat, next: Bytes)
    requires Lawful(c) && size >= OVERHEAD && HopBuilt(c, decode, hop, next, size)
    requires Encrypted(c, hop.plain, hop.frameKey, c.toPublic(hop.relay.secret), hop.nonce) == Some(frame)
    ensures |frame| == size
    ensures Decrypted(c, frame, hop.relay.secret).Some?
    ensures decode(Body(Decrypted(c, frame, hop.relay.secret).value)) == Some(hop.record)
    ensures DhServer(c, hop.record.commkey, hop.relay.secret, hop.record.tunnelNonce)
         == ClientPathKey(c, hop)
  {
    DecryptUndoesEncrypt(c, hop.plain, hop.frameKey, hop.relay.secret, hop.nonce);
    DhAgrees(c, hop.commSecret, hop.relay.secret, hop.record.tunnelNonce);
  }
}
