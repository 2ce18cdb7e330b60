/** The handshake of an inbound IWP session (llarp/iwp/session.cpp): introduction, session
    request, link introduction. Signatures, key agreement, packet encryption and the reassembly of
    a link introduction from session data are parameters. */
module IwpHandshake {
  import opened Common
  import IwpWire

  const PUBKEY_SIZE: nat := 32
  const TUNNEL_NONCE_SIZE: nat := 32
  const SIGNATURE_SIZE: nat := 64
  const INTRO_SIZE: nat := PUBKEY_SIZE + PUBKEY_SIZE + TUNNEL_NONCE_SIZE + SIGNATURE_SIZE
  const TOKEN_SIZE: nat := 24

  /** A link introduction message: the signed router contact, reduced to its public key. */
  datatype LinkIntro = LinkIntro(pubkey: Bytes, body: Bytes)

  /** open decrypts and authenticates a packet under a key; readLim finds the link introduction
      that the last of the opened packets completes, if any. */
  datatype Env = Env(
    open: (Bytes, Bytes) -> Option<Bytes>,
    verify: (Bytes, Bytes, Bytes) -> bool,
    dhServer: (Bytes, Bytes) -> Option<Bytes>,
    readLim: seq<Bytes> -> Option<LinkIntro>,
    verifyLim: LinkIntro -> bool)

  datatype Phase = Initial | Introduction | LinkIntroSent | Ready | Closed

  /** Which method GotLIM is bound to. */
  datatype LimHandler = GotInboundLIM | GotRenegLIM

  /** What the session sends during the handshake. */
  datatype Sent = IntroAck(token: Bytes) | OurLim | CloseNotice

  datatype State = State(
    phase: Phase,
    expectedIdent: Bytes,
    onionKey: Bytes,
    sessionKey: Bytes,
    token: Bytes,
    remoteIdent: Bytes,
    gotLim: LimHandler,
    decryptNext: seq<Bytes>,
    received: seq<Bytes>,
    sent: seq<Sent>,
    // the accepted messages of the handshake, for stating what was checked
    intro: Option<Bytes>, request: Option<Bytes>, lim: Option<LinkIntro>)

  function Fresh(token: Bytes, bootstrapKey: Bytes): State
  {
    State(Initial, [], [], bootstrapKey, token, [], GotInboundLIM, [], [], [], None, None, None)
  }

  function Rank(p: Phase): nat
  {
    match p
    case Initial => 0
    case Introduction => 1
    case LinkIntroSent => 2
    case Ready => 3
    case Closed => 4
  }

  // ----- transitions

  function Ident(intro: Bytes): Bytes requires |intro| >= INTRO_SIZE { intro[..PUBKEY_SIZE] }

  function OnionKey(intro: Bytes): Bytes requires |intro| >= INTRO_SIZE { intro[PUBKEY_SIZE..2 * PUBKEY_SIZE] }

  function Nonce(intro: Bytes): Bytes
    requires |intro| >= INTRO_SIZE
  {
    intro[2 * PUBKEY_SIZE..2 * PUBKEY_SIZE + TUNNEL_NONCE_SIZE]
  }

  function Signed(intro: Bytes): Bytes requires |intro| >= INTRO_SIZE { intro[..INTRO_SIZE - SIGNATURE_SIZE] }

  function Signature(intro: Bytes): Bytes
    requires |intro| >= INTRO_SIZE
  {
    intro[INTRO_SIZE - SIGNATURE_SIZE..INTRO_SIZE]
  }

  /** Ident and onion key are overwritten before the signature is checked. */
  function GotIntro(e: Env, s: State, intro: Bytes): State
  {
    if |intro| < INTRO_SIZE then s
    else
      var s1 := s.(expectedIdent := Ident(intro), onionKey := OnionKey(intro));
      if !e.verify(Ident(intro), Signed(intro), Signature(intro)) then s1
      else
        match e.dhServer(OnionKey(intro), Nonce(intro))
        case None => s1
        case Some(key) =>
          s1.(sessionKey := key, phase := Introduction, sent := s.sent + [IntroAck(s.token)], intro := Some(intro))
  }

  function CreateSessionRequest(e: Env, s: State, packet: Bytes): State
  {
    match e.open(s.sessionKey, packet)
    case None => s
    case Some(plain) =>
      if |plain| < |s.token| || plain[..|s.token|] != s.token then s
      else s.(phase := LinkIntroSent, sent := s.sent + [OurLim], request := Some(plain))
  }

  function RecvLL(e: Env, s: State, packet: Bytes): State
  {
    match s.phase
    case Initial =>
      (match e.open(s.sessionKey, packet)
       case None => s
       case Some(plain) => GotIntro(e, s, plain))
    case Introduction => CreateSessionRequest(e, s, packet)
    case _ => s.(decryptNext := s.decryptNext + [packet])
  }

  function Close(s: State): State
  {
    if s.phase == Closed then s else s.(phase := Closed, sent := s.sent + [CloseNotice])
  }

  /** duplicate: the link layer refuses a second session to this peer and closes this one. */
  function GotLim(e: Env, s: State, lim: LinkIntro, duplicate: bool): State
  {
    if !e.verifyLim(lim) then s
    else if s.gotLim == GotRenegLIM then s
    else if lim.pubkey != s.expectedIdent then s
    else
      var s1 := s.(phase := Ready, gotLim := GotRenegLIM, remoteIdent := lim.pubkey, lim := Some(lim));
      if duplicate then Close(s1) else s1
  }

  /** The worker opens the first queued packet and hands on what it completes. */
  function HandlePlaintext(e: Env, s: State, duplicate: bool): State
  {
    if s.decryptNext == [] then s
    else
      var s1 := s.(decryptNext := s.decryptNext[1..]);
      match e.open(s.sessionKey, s.decryptNext[0])
      case None => s1
      case Some(plain) =>
        var s2 := s1.(received := s.received + [plain]);
        match e.readLim(s2.received)
        case None => s2
        case Some(lim) => GotLim(e, s2, lim, duplicate)
  }

  datatype Action = Recv(packet: Bytes) | Plaintext(duplicate: bool) | CloseSession

  function Act(e: Env, s: State, a: Action): State
  {
    match a
    case Recv(packet) => RecvLL(e, s, packet)
    case Plaintext(duplicate) => HandlePlaintext(e, s, duplicate)
    case CloseSession => Close(s)
  }

  // ----- what a run has checked

  ghost predicate IntroChecked(e: Env, s: State)
  {
    && s.intro.Some? && |s.intro.value| >= INTRO_SIZE
    && s.expectedIdent == Ident(s.intro.value)
    && e.verify(s.expectedIdent, Signed(s.intro.value), Signature(s.intro.value))
    && e.dhServer(OnionKey(s.intro.value), Nonce(s.intro.value)) == Some(s.sessionKey)
  }

  ghost predicate TokenEchoed(s: State)
  {
    s.request.Some? && |s.request.value| >= |s.token| && s.request.value[..|s.token|] == s.token
  }

  ghost predicate LimChecked(e: Env, s: State)
  {
    s.lim.Some? && e.verifyLim(s.lim.value) && s.lim.value.pubkey == s.expectedIdent == s.remoteIdent
  }

  /** Reached Ready at some time. */
  ghost predicate Established(s: State) { s.gotLim == GotRenegLIM }

  /** Introduction, session request and link introduction were checked, all for one ident. */
  ghost predicate Authenticated(e: Env, s: State)
  {
    IntroChecked(e, s) && TokenEchoed(s) && LimChecked(e, s)
  }

  /** A close that comes before the session request was accepted. */
  predicate ClosesEarly(s: State, a: Action) { a.CloseSession? && (s.phase == Initial || s.phase == Introduction) }

  /** early: the session was closed that way. It then never accepts a session request. */
  ghost predicate Inv(e: Env, s: State, early: bool)
  {
    && (s.phase == Ready ==> Established(s))
    && (Established(s) ==> s.phase == Ready || s.phase == Closed)
    && (early ==> s.request == None && (s.phase == Closed || s.phase == Ready))
    && (!early ==>
         && (s.phase == Introduction ==> IntroChecked(e, s))
         && (s.phase == LinkIntroSent || s.phase == Closed ==> IntroChecked(e, s) && TokenEchoed(s))
         && (Established(s) ==> Authenticated(e, s)))
    && (s.phase == Initial || s.phase == Introduction ==> s.decryptNext == [] && s.request == None)
  }

  lemma ActKeepsInv(e: Env, s: State, a: Action, early: bool)
    requires Inv(e, s, early)
    ensures Inv(e, Act(e, s, a), early || ClosesEarly(s, a))
  {
  }

  ghost predicate IsRun(e: Env, run: seq<State>, acts: seq<Action>)
  {
    && |run| == |acts| + 1
    && (exists token, key :: run[0] == Fresh(token, key))
    && forall i :: 0 <= i < |acts| ==> run[i + 1] == Act(e, run[i], acts[i])
  }

  ghost predicate ClosedEarly(run: seq<State>, acts: seq<Action>, k: nat)
    requires |run| == |acts| + 1 && k < |run|
  {
    exists i :: 0 <= i < k && ClosesEarly(run[i], acts[i])
  }

  lemma {:induction false} RunKeepsInv(e: Env, run: seq<State>, acts: seq<Action>, k: nat)
    requires IsRun(e, run, acts) && k < |run|
    ensures Inv(e, run[k], ClosedEarly(run, acts, k))
    decreases k
  {
    hide Act, ClosesEarly;
    if k > 0 {
      RunKeepsInv(e, run, acts, k - 1);
      ActKeepsInv(e, run[k - 1], acts[k - 1], ClosedEarly(run, acts, k - 1));
      assert ClosedEarly(run, acts, k) <==> ClosedEarly(run, acts, k - 1) || ClosesEarly(run[k - 1], acts[k - 1]);
    }
  }

  /** In every run a session that is Ready has had its introduction signed by the expected ident,
      agreed the session key with it, seen its token echoed, and accepted a verified link
      introduction of that same ident, exactly if it was not closed before the session request. */
  lemma ReadyIsAuthenticatedIff(e: Env, run: seq<State>, acts: seq<Action>, k: nat)
    requires IsRun(e, run, acts) && k < |run|
    requires run[k].phase == Ready
    ensures Authenticated(e, run[k]) <==> !ClosedEarly(run, acts, k)
  {
    RunKeepsInv(e, run, acts, k);
  }

  // ----- what each step accepts

  /** An introduction of 160 bytes or more, signed by the ident in it, on which a key can be agreed. */
  ghost predicate GoodIntro(e: Env, intro: Bytes)
  {
    && |intro| >= 160
    && e.verify(intro[..32], intro[..96], intro[96..160])
    && e.dhServer(intro[32..64], intro[64..96]).Some?
  }

  /** A first packet is accepted exactly if it opens to a good introduction; then the key is the agreed
      one and the token is sent. A refused one changes at most the ident and the onion key. */
  lemma IntroAcceptedIff(e: Env, s: State, packet: Bytes)
    requires s.phase == Initial
    ensures var s', plain := Act(e, s, Recv(packet)), e.open(s.sessionKey, packet);
            && (s'.phase == Introduction <==> plain.Some? && GoodIntro(e, plain.value))
            && (s'.phase == Introduction ==>
                  && s'.expectedIdent == plain.value[..32] && s'.onionKey == plain.value[32..64]
                  && e.dhServer(plain.value[32..64], plain.value[64..96]) == Some(s'.sessionKey)
                  && s'.sent == s.sent + [IntroAck(s.token)] && s'.intro == plain)
            && (s'.phase != Introduction ==> s' == s.(expectedIdent := s'.expectedIdent, onionKey := s'.onionKey))
            && (plain.None? || |plain.value| < 160 ==> s' == s)
  {
    var plain := e.open(s.sessionKey, packet);
    if plain.Some? && |plain.value| >= 160 {
      assert Ident(plain.value) == plain.value[..32] && OnionKey(plain.value) == plain.value[32..64];
      assert Signed(plain.value) == plain.value[..96] && Signature(plain.value) == plain.value[96..160];
      assert Nonce(plain.value) == plain.value[64..96];
    }
  }

  /** A session request is accepted exactly if it opens and starts with the token; then our link
      introduction is sent. A refused one changes nothing. */
  lemma RequestAcceptedIff(e: Env, s: State, packet: Bytes)
    requires s.phase == Introduction
    ensures var s', plain := Act(e, s, Recv(packet)), e.open(s.sessionKey, packet);
            && (s'.phase == LinkIntroSent <==> plain.Some? && s.token <= plain.value)
            && (s'.phase == LinkIntroSent ==> s'.sent == s.sent + [OurLim] && s'.request == plain)
            && (s'.phase == LinkIntroSent ==> s' == s.(phase := s'.phase, sent := s'.sent, request := s'.request))
            && (s'.phase != LinkIntroSent ==> s' == s)
  {
    var plain := e.open(s.sessionKey, packet);
    if plain.Some? && |s.token| <= |plain.value| {
      assert s.token <= plain.value <==> plain.value[..|s.token|] == s.token;
    }
  }

  /** A session is established by its next queued packet exactly if that completes a verified link
      introduction of the expected ident. It is then Ready, or closed if it is a second one. Nothing
      else the worker does changes the phase, the peer or what is sent. */
  lemma LimAcceptedIff(e: Env, s: State, duplicate: bool)
    ensures var s' := Act(e, s, Plaintext(duplicate));
            && (Established(s') <==> Established(s) || LimPending(e, s))
            && (!Established(s) && LimPending(e, s) ==>
                  && s'.phase == (if duplicate then Closed else Ready) && s'.remoteIdent == s.expectedIdent
                  && s'.sent == s.sent + (if duplicate then [CloseNotice] else []))
            && (Established(s) || !LimPending(e, s) ==>
                  s'.phase == s.phase && s'.remoteIdent == s.remoteIdent && s'.sent == s.sent && s'.lim == s.lim)
            && s'.sessionKey == s.sessionKey && s'.expectedIdent == s.expectedIdent
            && s'.token == s.token && s'.request == s.request && s'.intro == s.intro
  {
  }

  /** A session is closed from every phase, with one notice however often it is closed. */
  lemma ClosedOnce(e: Env, s: State)
    ensures var s' := Act(e, s, CloseSession);
            && s'.phase == Closed && Act(e, s', CloseSession) == s'
            && (s.phase != Closed ==> s'.sent == s.sent + [CloseNotice])
            && (s.phase == Closed ==> s'.sent == s.sent)
            && s' == s.(phase := s'.phase, sent := s'.sent)
  {
    var s' := Act(e, s, CloseSession);
    assert s' == s.(phase := s'.phase, sent := s'.sent);
  }

  /** The peer does its part: a good introduction, a session request that echoes the token, and a
      packet that completes its verified link introduction. The session then goes through every phase
      to Ready, sends its token and its link introduction and nothing else, and holds the agreed key
      and the ident of the peer. */
  lemma HonestHandshakeCompletes(e: Env, token: Bytes, bootstrapKey: Bytes, p1: Bytes, p2: Bytes, p3: Bytes,
                                 intro: Bytes, key: Bytes, request: Bytes, plain: Bytes, lim: LinkIntro)
    requires e.open(bootstrapKey, p1) == Some(intro) && GoodIntro(e, intro)
    requires e.dhServer(intro[32..64], intro[64..96]) == Some(key)
    requires e.open(key, p2) == Some(request) && token <= request
    requires e.open(key, p3) == Some(plain) && e.readLim([plain]) == Some(lim)
    requires e.verifyLim(lim) && lim.pubkey == intro[..32]
    ensures var s1 := Act(e, Fresh(token, bootstrapKey), Recv(p1));
            var s2 := Act(e, s1, Recv(p2));
            var s3 := Act(e, s2, Recv(p3));
            var s4 := Act(e, s3, Plaintext(false));
            && s1.phase == Introduction && s2.phase == LinkIntroSent && s3.phase == LinkIntroSent && s4.phase == Ready
            && s4.sent == [IntroAck(token), OurLim] && s4.remoteIdent == intro[..32] && s4.sessionKey == key
            && s4.received == [plain] && s4.decryptNext == [] && Authenticated(e, s4)
  {
    var s0 := Fresh(token, bootstrapKey);
    var s1 := Act(e, s0, Recv(p1));
    IntroAcceptedIff(e, s0, p1);
    RequestAcceptedIff(e, s1, p2);
    var s3 := Act(e, Act(e, s1, Recv(p2)), Recv(p3));
    assert s3.decryptNext == [p3] && s3.received + [plain] == [plain];
    assert LimPending(e, s3);
    LimAcceptedIff(e, s3, false);
    assert Signed(intro) == intro[..96] && Signature(intro) == intro[96..160] && Nonce(intro) == intro[64..96];
    assert request[..|token|] == token;
  }

  // ----- packets of an open session are opened in the order in which they came

  function RecvAll(e: Env, s: State, packets: seq<Bytes>): State
    decreases |packets|
  {
    if packets == [] then s else RecvAll(e, Act(e, s, Recv(packets[0])), packets[1..])
  }

  function Drain(e: Env, s: State, n: nat): State
    decreases n
  {
    if n == 0 then s else Drain(e, Act(e, s, Plaintext(false)), n - 1)
  }

  /** What the packets open to under the key, without those that do not open. */
  function Opened(e: Env, key: Bytes, packets: seq<Bytes>): seq<Bytes>
  {
    if packets == [] then []
    else
      var plain := e.open(key, packets[0]);
      (if plain.Some? then [plain.value] else []) + Opened(e, key, packets[1..])
  }

  lemma {:induction false} RecvQueues(e: Env, s: State, packets: seq<Bytes>)
    requires s.phase != Initial && s.phase != Introduction
    ensures RecvAll(e, s, packets) == s.(decryptNext := s.decryptNext + packets)
    decreases |packets|
  {
    if packets != [] {
      RecvQueues(e, Act(e, s, Recv(packets[0])), packets[1..]);
      assert s.decryptNext + [packets[0]] + packets[1..] == s.decryptNext + packets;
    } else {
      assert s.decryptNext + packets == s.decryptNext;
    }
  }

  lemma OpensNext(e: Env, s: State)
    requires s.decryptNext != []
    ensures var s', plain := Act(e, s, Plaintext(false)), e.open(s.sessionKey, s.decryptNext[0]);
            && s'.decryptNext == s.decryptNext[1..] && s'.sessionKey == s.sessionKey
            && s'.received == s.received + (if plain.Some? then [plain.value] else [])
  {
  }

  lemma {:induction false} DrainOpens(e: Env, s: State)
    ensures var s' := Drain(e, s, |s.decryptNext|);
            && s'.decryptNext == []
            && s'.received == s.received + Opened(e, s.sessionKey, s.decryptNext)
    decreases |s.decryptNext|
  {
    hide Act;
    if s.decryptNext != [] {
      OpensNext(e, s);
      DrainOpens(e, Act(e, s, Plaintext(false)));
    }
  }

  /** Whatever the packets are, the worker opens each of them once and in the order of arrival. */
  lemma OpensInOrder(e: Env, s: State, packets: seq<Bytes>)
    requires s.phase != Initial && s.phase != Introduction && s.decryptNext == []
    ensures var s' := Drain(e, RecvAll(e, s, packets), |packets|);
            s'.decryptNext == [] && s'.received == s.received + Opened(e, s.sessionKey, packets)
  {
    RecvQueues(e, s, packets);
    assert s.decryptNext + packets == packets;
    DrainOpens(e, RecvAll(e, s, packets));
  }

  // ----- forward and back

  /** The next queued packet completes a verified link introduction of the expected ident. */
  ghost predicate LimPending(e: Env, s: State)
  {
    && s.decryptNext != []
    && var plain := e.open(s.sessionKey, s.decryptNext[0]);
       plain.Some? && var lim := e.readLim(s.received + [plain.value]);
       lim.Some? && e.verifyLim(lim.value) && lim.value.pubkey == s.expectedIdent
  }

  /** The step re-opens a session that was closed before it was established. */
  ghost predicate Reopens(e: Env, s: State, a: Action)
  {
    s.phase == Closed && !Established(s) && a == Plaintext(false) && LimPending(e, s)
  }

  /** From a state in which Ready means established, as in every run, a step goes back exactly when it
      re-opens a closed session. */
  lemma StepGoesBackIff(e: Env, s: State, a: Action)
    requires s.phase == Ready ==> Established(s)
    ensures Rank(Act(e, s, a).phase) < Rank(s.phase) <==> Reopens(e, s, a)
  {
  }

  ghost predicate NeverBack(run: seq<State>, k: nat)
    requires k < |run|
  {
    forall i, j :: 0 <= i <= j <= k ==> Rank(run[i].phase) <= Rank(run[j].phase)
  }

  /** In every run the phase has only moved forward exactly if no step re-opened the session. */
  lemma {:induction false} PhaseMovesForwardIff(e: Env, run: seq<State>, acts: seq<Action>, k: nat)
    requires IsRun(e, run, acts) && k < |run|
    ensures NeverBack(run, k) <==> forall i :: 0 <= i < k ==> !Reopens(e, run[i], acts[i])
    decreases k
  {
    hide Act, Reopens, Authenticated, IntroChecked, TokenEchoed, Rank;
    if k > 0 {
      PhaseMovesForwardIff(e, run, acts, k - 1);
      RunKeepsInv(e, run, acts, k - 1);
      StepGoesBackIff(e, run[k - 1], acts[k - 1]);
      if NeverBack(run, k) {
        assert NeverBack(run, k - 1);
        assert Rank(run[k - 1].phase) <= Rank(run[k].phase);
      } else if NeverBack(run, k - 1) {
        BackAtLast(run, k);
      }
    }
  }

  lemma BackAtLast(run: seq<State>, k: nat)
    requires 0 < k < |run| && NeverBack(run, k - 1) && !NeverBack(run, k)
    ensures Rank(run[k].phase) < Rank(run[k - 1].phase)
  {
    hide Rank;
    var i, j :| 0 <= i <= j <= k && Rank(run[i].phase) > Rank(run[j].phase);
    assert Rank(run[i].phase) <= Rank(run[k - 1].phase);
  }

  // ----- a session closed in the introduction phase

  function Fill(n: nat, b: byte): Bytes { seq(n, i => b) }

  /** Stand-ins with the sizes and the refusals of the real primitives: a packet is tagged with the
      key in its first 32 bytes, a signature repeats what is signed, the agreed key is the onion key. */
  function ToyEnv(): Env
  {
    Env((k: Bytes, p: Bytes) => if |p| <= IwpWire.PACKET_OVERHEAD || p[..32] != k then None
        else Some(p[IwpWire.PACKET_OVERHEAD..]),
        (i: Bytes, m: Bytes, z: Bytes) => |m| >= SIGNATURE_SIZE && z == m[..SIGNATURE_SIZE],
        (k: Bytes, n: Bytes) => Some(k),
        (ps: seq<Bytes>) =>
          if ps == [] || |ps[|ps| - 1]| < 64 then None
          else Some(LinkIntro(ps[|ps| - 1][..32], ps[|ps| - 1][32..64])),
        (l: LinkIntro) => |l.pubkey| == PUBKEY_SIZE && l.body == l.pubkey)
  }

  /** Ident of ones, onion key of twos, nonce of threes, and the signature. */
  function ToyIntro(): Bytes { Fill(32, 1) + Fill(32, 2) + Fill(32, 3) + (Fill(32, 1) + Fill(32, 2)) }

  /** The introduction under the bootstrap key of zeros, and a link introduction under the agreed key. */
  function IntroPacket(): Bytes { Fill(64, 0) + ToyIntro() }

  function LimPacket(): Bytes { Fill(64, 2) + Fill(64, 1) }

  lemma IntroAccepted()
    ensures |ToyIntro()| == INTRO_SIZE
    ensures ToyEnv().open(Fill(32, 0), IntroPacket()) == Some(ToyIntro())
    ensures Ident(ToyIntro()) == Fill(32, 1) && OnionKey(ToyIntro()) == Fill(32, 2)
    ensures ToyEnv().verify(Ident(ToyIntro()), Signed(ToyIntro()), Signature(ToyIntro()))
  {
    assert IntroPacket()[..32] == Fill(32, 0) && IntroPacket()[64..] == ToyIntro();
    assert Ident(ToyIntro()) == Fill(32, 1) && OnionKey(ToyIntro()) == Fill(32, 2);
    assert Signature(ToyIntro()) == Fill(32, 1) + Fill(32, 2) == Signed(ToyIntro())[..64];
  }

  lemma LimAccepted()
    ensures ToyEnv().open(Fill(32, 2), LimPacket()) == Some(Fill(64, 1))
    ensures ToyEnv().readLim([Fill(64, 1)]) == Some(LinkIntro(Fill(32, 1), Fill(32, 1)))
  {
    assert LimPacket()[..32] == Fill(32, 2) && LimPacket()[64..] == Fill(64, 1);
    assert Fill(64, 1)[..32] == Fill(32, 1) && Fill(64, 1)[32..64] == Fill(32, 1);
  }

  /** Closed after a genuine introduction and before any session request, the session still becomes
      Ready when a link introduction arrives; the token was never echoed. */
  lemma EarlyCloseReopens()
    ensures forall key, packet :: |packet| <= IwpWire.PACKET_OVERHEAD ==> ToyEnv().open(key, packet).None?
    ensures exists run: seq<State> ::
              var acts := [Recv(IntroPacket()), CloseSession, Recv(LimPacket()), Plaintext(false)];
              && IsRun(ToyEnv(), run, acts) && |run[0].token| == TOKEN_SIZE && |run[4].expectedIdent| == PUBKEY_SIZE
              && run[1].phase == Introduction && IntroChecked(ToyEnv(), run[1])
              && run[2].phase == Closed && run[4].phase == Ready && !TokenEchoed(run[4])
  {
    hide IntroPacket, LimPacket, ToyIntro, ToyEnv;
    var e := ToyEnv();
    IntroAccepted();
    LimAccepted();
    ToyRefusesShort();
    var s0 := Fresh(Fill(TOKEN_SIZE, 7), Fill(32, 0));
    var s1 := Act(e, s0, Recv(IntroPacket()));
    var s2 := Act(e, s1, CloseSession);
    var s3 := Act(e, s2, Recv(LimPacket()));
    var s4 := Act(e, s3, Plaintext(false));
    assert s1.phase == Introduction && s1.sessionKey == Fill(32, 2);
    assert s3.decryptNext == [LimPacket()] && s3.received == [];
    assert s3.received + [Fill(64, 1)] == [Fill(64, 1)];
    assert IsRun(e, [s0, s1, s2, s3, s4], [Recv(IntroPacket()), CloseSession, Recv(LimPacket()), Plaintext(false)]);
  }

  lemma ToyRefusesShort()
    ensures forall key, packet :: |packet| <= IwpWire.PACKET_OVERHEAD ==> ToyEnv().open(key, packet).None?
    ensures forall k, n :: ToyEnv().dhServer(k, n) == Some(k)
    ensures ToyEnv().verifyLim(LinkIntro(Fill(32, 1), Fill(32, 1)))
  {
  }

  // ----- the session object

  class InboundSession {
    const e: Env
    const token: Bytes
    var phase: Phase
    var expectedIdent: Bytes
    var onionKey: Bytes
    var sessionKey: Bytes
    var remoteIdent: Bytes
    var gotLim: LimHandler
    var decryptNext: seq<Bytes>
    /** Opened packets, and calls of EncryptAndSend and SendOurLIM. */
    var received: seq<Bytes>
    var sent: seq<Sent>
    ghost var intro: Option<Bytes>
    ghost var request: Option<Bytes>
    ghost var lim: Option<LinkIntro>

    ghost function View(): State
      reads this
    {
      State(phase, expectedIdent, onionKey, sessionKey, token, remoteIdent, gotLim, decryptNext, received, sent,
            intro, request, lim)
    }

    constructor (e: Env, token: Bytes, bootstrapKey: Bytes)
      ensures View() == Fresh(token, bootstrapKey) && this.e == e
    {
      this.e, this.token, sessionKey := e, token, bootstrapKey;
      phase, expectedIdent, onionKey, remoteIdent, gotLim := Initial, [], [], [], GotInboundLIM;
      decryptNext, received, sent := [], [], [];
      intro, request, lim := None, None, None;
    }

    method RecvPacket(packet: Bytes) returns (ok: bool)
      modifies this
      ensures View() == RecvLL(e, old(View()), packet)
      ensures !ok <==> old(phase) == Initial && e.open(old(sessionKey), packet).None?
    {
      ok := true;
      match phase {
        case Initial =>
          match e.open(sessionKey, packet) {
            case None => ok := false;
            case Some(plain) => HandleGotIntro(plain);
          }
        case Introduction => HandleCreateSessionRequest(packet);
        case _ => decryptNext := decryptNext + [packet];
      }
    }

    method HandleGotIntro(plain: Bytes)
      modifies this`expectedIdent, this`onionKey, this`sessionKey, this`phase, this`sent, this`intro
      ensures View() == GotIntro(e, old(View()), plain)
    {
      if |plain| < INTRO_SIZE { return; }
      expectedIdent, onionKey := Ident(plain), OnionKey(plain);
      if !e.verify(expectedIdent, Signed(plain), Signature(plain)) { return; }
      match e.dhServer(OnionKey(plain), Nonce(plain)) {
        case None => return;
        case Some(key) =>
          sessionKey := key;
          sent := sent + [IntroAck(token)];
          phase := Introduction;
          intro := Some(plain);
      }
    }

    method HandleCreateSessionRequest(packet: Bytes)
      modifies this`phase, this`sent, this`request
      ensures View() == CreateSessionRequest(e, old(View()), packet)
      ensures var plain := e.open(sessionKey, packet);
              phase == LinkIntroSent <==> old(phase) == LinkIntroSent || (plain.Some? && token <= plain.value)
    {
      match e.open(sessionKey, packet) {
        case None => return;
        case Some(plain) =>
          if |plain| < |token| { return; }
          if plain[..|token|] != token { return; }
          phase := LinkIntroSent;
          sent := sent + [OurLim];
          request := Some(plain);
      }
    }

    /** established and renegotiated are the answers of the link layer's handlers. */
    method ProcessPlaintext(duplicate: bool, established: bool, renegotiated: bool)
      modifies this
      ensures View() == HandlePlaintext(e, old(View()), duplicate)
    {
      if decryptNext == [] { return; }
      var packet := decryptNext[0];
      decryptNext := decryptNext[1..];
      match e.open(sessionKey, packet) {
        case None => return;
        case Some(plain) =>
          received := received + [plain];
          match e.readLim(received) {
            case None => return;
            case Some(msg) =>
              var _ := OnLinkIntro(msg, duplicate, established, renegotiated);
          }
      }
    }

    /** LinkIntroMessage::HandleMessage and the bound GotLIM. */
    method OnLinkIntro(msg: LinkIntro, duplicate: bool, established: bool, renegotiated: bool) returns (ok: bool)
      modifies this
      ensures View() == GotLim(e, old(View()), msg, duplicate)
      ensures ok <==> e.verifyLim(msg)
                      && (if old(gotLim) == GotRenegLIM then renegotiated
                          else msg.pubkey == old(expectedIdent) && established)
    {
      if !e.verifyLim(msg) { return false; }
      if gotLim == GotRenegLIM { return renegotiated; }
      if msg.pubkey != expectedIdent { return false; }
      phase := Ready;
      gotLim := GotRenegLIM;
      remoteIdent := msg.pubkey;
      lim := Some(msg);
      if duplicate { CloseNow(); }
      return established;
    }

    method CloseNow()
      modifies this`phase, this`sent
      ensures View() == Close(old(View()))
    {
      if phase == Closed { return; }
      phase := Closed;
      sent := sent + [CloseNotice];
    }
  }
}
