/** What every run of the phone's tunnel registry keeps, and what an honest handshake
    establishes. */
module TunnelSessionLaws {
  import opened Common
  import opened RemoteFrame
  import opened TunnelSession

  // ----------------------------------------------------------------------------- runs

  datatype Event =
    | Init(id: string, key: Bytes32, random: Bytes32)
    | Incoming(id: string, data: Wire)
    | Send(id: string, frame: Frame)
    | Close(id: string)

  /** The registry, the client randoms drawn so far, and every ciphertext handed out. */
  datatype World = World(sessions: Sessions, used: set<Bytes32>, log: seq<Wire>)

  function Logged(log: seq<Wire>, wire: Option<Wire>): seq<Wire> {
    match wire
    case None => log
    case Some(w) => log + [w]
  }

  function Step(w: World, e: Event): World {
    match e
    case Init(id, key, random) =>
      World(w.sessions[id := NewSession(key, random)], w.used + {random}, w.log + [HelloWire(key, random)])
    case Incoming(id, data) =>
      if id !in w.sessions then w
      else
        (match Processed(w.sessions[id], data)
         case None => w
         case Some((s, _)) => w.(sessions := w.sessions[id := s]))
    case Send(id, frame) =>
      if id !in w.sessions then w
      else
        var (wire, s) := Outgoing(w.sessions[id], frame);
        w.(sessions := w.sessions[id := s], log := Logged(w.log, wire))
    case Close(id) =>
      var (sessions, farewell) := Closed(w.sessions, id);
      w.(sessions := sessions, log := if farewell.Some? then Logged(w.log, farewell.value) else w.log)
  }

  function Run(w: World, es: seq<Event>): World
    decreases |es|
  {
    if |es| == 0 then w else Run(Step(w, es[0]), es[1..])
  }

  /** Each new tunnel draws a client random that was not drawn before. */
  ghost predicate FreshRandoms(w: World, es: seq<Event>)
    decreases |es|
  {
    |es| > 0 ==> (es[0].Init? ==> es[0].random !in w.used) && FreshRandoms(Step(w, es[0]), es[1..])
  }

  const START: World := World(map[], {}, [])

  // ------------------------------------------------------------------------ invariant

  /** Ready exactly with both ciphers; they share the session's own key and face
      opposite ways. */
  ghost predicate SessionOk(s: Session) {
    && (s.phase == Ready <==> s.sendCipher.Some? && s.recvCipher.Some?)
    && (s.phase == WaitingHello ==> s.sendCipher.None? && s.recvCipher.None?)
    && (s.phase == Ready ==>
          var send, recv := s.sendCipher.value, s.recvCipher.value;
          && send.key.SessionKey? && send.key.k == s.pairingKey && send.key.clientRandom == s.clientRandom
          && recv.key == send.key && send.direction == MobileToDesktop && recv.direction == DesktopToMobile
          && recv.counter == 0)
  }

  ghost predicate SessionsOk(sessions: Sessions) {
    forall id :: id in sessions ==> SessionOk(sessions[id])
  }

  /** Every session has a random of its own, among those drawn. */
  ghost predicate RandomsApart(sessions: Sessions, used: set<Bytes32>) {
    && (forall id :: id in sessions ==> sessions[id].clientRandom in used)
    && forall id, other :: id in sessions && other in sessions && sessions[id].clientRandom == sessions[other].clientRandom ==> id == other
  }

  predicate UnderSessionKey(wire: Wire) {
    wire.Sealed? && wire.key.SessionKey?
  }

  /** A session-key ciphertext that carries this session's random came from its own
      sending cipher, before its present counter. */
  ghost predicate Behind(wire: Wire, s: Session) {
    UnderSessionKey(wire) && wire.key.clientRandom == s.clientRandom ==>
      s.sendCipher.Some? && wire.key == s.sendCipher.value.key && wire.direction == MobileToDesktop
      && wire.counter < s.sendCipher.value.counter
  }

  ghost predicate LogBehind(log: seq<Wire>, sessions: Sessions) {
    forall id, k :: id in sessions && 0 <= k < |log| ==> Behind(log[k], sessions[id])
  }

  ghost predicate LogDrawn(log: seq<Wire>, used: set<Bytes32>) {
    forall k :: 0 <= k < |log| && UnderSessionKey(log[k]) ==> log[k].key.clientRandom in used
  }

  /** The key, direction and counter of a ciphertext: with them the nonce. */
  predicate SameNonce(a: Wire, b: Wire) {
    a.Sealed? && b.Sealed? && a.key == b.key && a.direction == b.direction && a.counter == b.counter
  }

  ghost predicate NoncesApart(log: seq<Wire>) {
    forall i, j :: 0 <= i < j < |log| && UnderSessionKey(log[i]) ==> !SameNonce(log[i], log[j])
  }

  /** Everything handed out is a ciphertext; under a pairing key it is the first of its cipher. */
  ghost predicate HellosAreFirst(log: seq<Wire>) {
    forall k :: 0 <= k < |log| ==>
      log[k].Sealed? && (log[k].key.PairingKey? ==> log[k].direction == MobileToDesktop && log[k].counter == 0)
  }

  ghost predicate Inv(w: World) {
    && HellosAreFirst(w.log)
    && SessionsOk(w.sessions) && RandomsApart(w.sessions, w.used)
    && LogBehind(w.log, w.sessions) && LogDrawn(w.log, w.used) && NoncesApart(w.log)
  }

  // ----------------------------------------------------------------------- one session

  lemma ProcessedIs(s: Session, data: Wire)
    requires SessionOk(s) && Processed(s, data).Some?
    ensures
      var r := Processed(s, data).value.0;
      && SessionOk(r) && r.pairingKey == s.pairingKey && r.clientRandom == s.clientRandom
      && (s.phase == Ready ==> r == s)
      && (s.phase == WaitingHello ==> r.phase == Ready && r.sendCipher.value.counter == 0)
  {
    hide Decrypt, Deserialize, ParseHello, HelloRandom, ReceivedFrame;
  }

  lemma OutgoingIs(s: Session, frame: Frame)
    requires SessionOk(s)
    ensures
      var (wire, r) := Outgoing(s, frame);
      && SessionOk(r) && r.clientRandom == s.clientRandom
      && (wire.None? ==> r == s)
      && (wire.Some? ==>
            && s.phase == Ready && s.sendCipher.value.counter < MAX_COUNTER
            && r == s.(sendCipher := Some(s.sendCipher.value.(counter := s.sendCipher.value.counter + 1)))
            && wire == Some(Sealed(s.sendCipher.value.key, MobileToDesktop, s.sendCipher.value.counter, Serialize(frame))))
  {
    hide Serialize;
  }

  // ------------------------------------------------------------------- steps keep Inv

  lemma InitKeepsInv(w: World, id: string, key: Bytes32, random: Bytes32)
    requires Inv(w) && random !in w.used
    ensures Inv(Step(w, Init(id, key, random)))
  {
    hide Hello, Serialize;
  }

  /** Replacing a session by one with the same random, no further back. */
  lemma ReplaceKeepsInv(w: World, id: string, s: Session)
    requires Inv(w) && id in w.sessions && SessionOk(s) && s.clientRandom == w.sessions[id].clientRandom
    requires forall k :: 0 <= k < |w.log| ==> Behind(w.log[k], s)
    ensures Inv(w.(sessions := w.sessions[id := s]))
  {
    hide SessionOk, Behind;
  }

  lemma IncomingKeepsInv(w: World, id: string, data: Wire)
    requires Inv(w)
    ensures Inv(Step(w, Incoming(id, data)))
  {
    if id in w.sessions && Processed(w.sessions[id], data).Some? {
      var s := w.sessions[id];
      ProcessedIs(s, data);
      var r := Processed(s, data).value.0;
      hide Processed;
      forall k | 0 <= k < |w.log| ensures Behind(w.log[k], r) {
        assert Behind(w.log[k], s);
      }
      ReplaceKeepsInv(w, id, r);
    }
  }

  /** Logging a ciphertext of a session while its counter moves past it. */
  lemma LogKeepsInv(w: World, id: string, wire: Wire, s: Session)
    requires Inv(w) && id in w.sessions && SessionOk(w.sessions[id]) && SessionOk(s)
    requires w.sessions[id].phase == Ready && wire.Sealed? && wire.key == w.sessions[id].sendCipher.value.key
    requires wire.direction == MobileToDesktop && wire.counter == w.sessions[id].sendCipher.value.counter
    requires s == w.sessions[id].(sendCipher := Some(w.sessions[id].sendCipher.value.(counter := wire.counter + 1)))
    ensures Inv(World(w.sessions[id := s], w.used, w.log + [wire]))
  {
    forall k | 0 <= k < |w.log| ensures Behind(w.log[k], s) && !SameNonce(w.log[k], wire) {
      assert Behind(w.log[k], w.sessions[id]);
    }
    ReplaceKeepsInv(w, id, s);
    AppendKeepsInv(w.(sessions := w.sessions[id := s]), wire);
  }

  lemma AppendKeepsInv(w: World, wire: Wire)
    requires Inv(w) && UnderSessionKey(wire)
    requires wire.key.clientRandom in w.used
    requires forall id :: id in w.sessions ==> Behind(wire, w.sessions[id])
    requires forall k :: 0 <= k < |w.log| ==> !SameNonce(w.log[k], wire)
    ensures Inv(w.(log := w.log + [wire]))
  {
    hide SessionOk, Behind, SameNonce, RandomsApart;
  }

  lemma SendKeepsInv(w: World, id: string, frame: Frame)
    requires Inv(w)
    ensures Inv(Step(w, Send(id, frame)))
  {
    if id in w.sessions {
      var s := w.sessions[id];
      OutgoingIs(s, frame);
      var (wire, r) := Outgoing(s, frame);
      hide Outgoing;
      if wire.Some? {
        LogKeepsInv(w, id, wire.value, r);
      } else {
        assert w.sessions[id := s] == w.sessions;
      }
    }
  }

  lemma RemoveKeepsInv(w: World, id: string)
    requires Inv(w)
    ensures Inv(w.(sessions := w.sessions - {id}))
  {
    hide SessionOk, Behind, NoncesApart;
  }

  lemma CloseKeepsInv(w: World, id: string)
    requires Inv(w)
    ensures Inv(Step(w, Close(id)))
  {
    if id in w.sessions {
      var s := w.sessions[id];
      if s.phase != Ready {
        RemoveKeepsInv(w, id);
      } else {
        OutgoingIs(s, GOODBYE_FRAME);
        var (wire, r) := Outgoing(s, GOODBYE_FRAME);
        hide Outgoing;
        if wire.Some? {
          LogKeepsInv(w, id, wire.value, r);
          RemoveKeepsInv(World(w.sessions[id := r], w.used, w.log + [wire.value]), id);
          assert w.sessions[id := r] - {id} == w.sessions - {id};
        } else {
          assert w.sessions[id := s] == w.sessions;
        }
      }
    }
  }

  lemma StepKeepsInv(w: World, e: Event)
    requires Inv(w) && (e.Init? ==> e.random !in w.used)
    ensures Inv(Step(w, e))
  {
    hide Inv, Step;
    match e
    case Init(id, key, random) => InitKeepsInv(w, id, key, random);
    case Incoming(id, data) => IncomingKeepsInv(w, id, data);
    case Send(id, frame) => SendKeepsInv(w, id, frame);
    case Close(id) => CloseKeepsInv(w, id);
  }

  lemma {:induction false} RunKeepsInv(w: World, es: seq<Event>)
    requires Inv(w) && FreshRandoms(w, es)
    ensures Inv(Run(w, es))
    decreases |es|
  {
    hide Inv, Step;
    if |es| > 0 {
      StepKeepsInv(w, es[0]);
      RunKeepsInv(Step(w, es[0]), es[1..]);
    }
  }

  /** In every reachable registry a session is ready exactly when it has both ciphers. */
  lemma ReadyIffBothCiphers(es: seq<Event>, id: string)
    requires FreshRandoms(START, es) && id in Run(START, es).sessions
    ensures
      var s := Run(START, es).sessions[id];
      s.phase == Ready <==> s.sendCipher.Some? && s.recvCipher.Some?
  {
    RunKeepsInv(START, es);
    hide Run;
  }

  /** Over every run, across reconnects and all tunnels, two ciphertexts share key,
      direction and counter exactly when both are under the same pairing key: session
      keys never repeat a nonce, and every HELLO repeats the one before it. */
  lemma NonceRepeatsIff(es: seq<Event>, i: nat, j: nat)
    requires FreshRandoms(START, es) && i < j < |Run(START, es).log|
    ensures
      var a, b := Run(START, es).log[i], Run(START, es).log[j];
      a.Sealed? && b.Sealed? && (SameNonce(a, b) <==> a.key.PairingKey? && b.key == a.key)
  {
    RunKeepsInv(START, es);
    hide Run;
  }

  /** A reconnect with a new random: the second HELLO has the nonce of the first and
      another plaintext, although the nonces are meant to be unique. */
  lemma ReconnectRepeatsHelloNonce(id: string, key: Bytes32, r: Bytes32, s: Bytes32)
    requires r != s
    ensures
      var es := [Init(id, key, r), Init(id, key, s)];
      && FreshRandoms(START, es)
      && (var log := Run(START, es).log;
          |log| == 2 && SameNonce(log[0], log[1]) && log[0].plaintext != log[1].plaintext)
  {
    var es := [Init(id, key, r), Init(id, key, s)];
    var w := Step(START, es[0]);
    assert es[1..][1..] == [] && es[1..][0] == es[1];
    assert FreshRandoms(w, es[1..]);
    assert Run(w, es[1..]) == Step(w, es[1]);
    assert Run(START, es).log == [HelloWire(key, r), HelloWire(key, s)];
    HelloRoundTrip(CLIENT_CAPABILITIES, r);
    HelloRoundTrip(CLIENT_CAPABILITIES, s);
    hide Serialize, Deserialize, Hello, ParseHello;
  }

  // -------------------------------------------------------- established sessions last

  /** The same session but for the frames sent since. */
  ghost predicate SameButCounter(s: Session, r: Session) {
    && s.sendCipher.Some? && r.sendCipher.Some?
    && s.sendCipher.value.counter <= r.sendCipher.value.counter
    && r == s.(sendCipher := Some(s.sendCipher.value.(counter := r.sendCipher.value.counter)))
  }

  predicate Touches(e: Event, id: string) {
    (e.Init? || e.Close?) && e.id == id
  }

  lemma StepKeepsReady(w: World, e: Event, id: string)
    requires SessionsOk(w.sessions) && id in w.sessions && w.sessions[id].phase == Ready && !Touches(e, id)
    ensures
      var w' := Step(w, e);
      && id in w'.sessions && SameButCounter(w.sessions[id], w'.sessions[id])
      && (!e.Send? ==> w'.sessions[id] == w.sessions[id])
  {
    match e
    case Init(_, _, _) => hide Hello, Serialize;
    case Incoming(other, data) =>
      if other in w.sessions && Processed(w.sessions[other], data).Some? {
        ProcessedIs(w.sessions[other], data);
        hide Processed;
      }
    case Send(other, frame) =>
      if other in w.sessions {
        OutgoingIs(w.sessions[other], frame);
        hide Outgoing;
      }
    case Close(other) => hide Outgoing;
  }

  lemma StepKeepsSessionsOk(w: World, e: Event)
    requires SessionsOk(w.sessions)
    ensures SessionsOk(Step(w, e).sessions)
  {
    match e
    case Init(_, _, _) => hide Hello, Serialize;
    case Incoming(id, data) =>
      if id in w.sessions && Processed(w.sessions[id], data).Some? {
        ProcessedIs(w.sessions[id], data);
        hide Processed, SessionOk;
      }
    case Send(id, frame) =>
      if id in w.sessions {
        OutgoingIs(w.sessions[id], frame);
        hide Outgoing, SessionOk;
      }
    case Close(id) =>
      if id in w.sessions {
        OutgoingIs(w.sessions[id], GOODBYE_FRAME);
        hide Outgoing, SessionOk;
      }
  }

  /** Once a tunnel is ready, whatever bytes arrive and whatever happens to other
      tunnels, its phase, keys and receiving cipher stay, until it is initialised
      again or closed; without sends it does not change at all. */
  lemma {:induction false} ReadyLasts(w: World, es: seq<Event>, id: string)
    requires SessionsOk(w.sessions) && id in w.sessions && w.sessions[id].phase == Ready
    requires forall k :: 0 <= k < |es| ==> !Touches(es[k], id)
    ensures
      var w' := Run(w, es);
      && id in w'.sessions && SameButCounter(w.sessions[id], w'.sessions[id])
      && ((forall k :: 0 <= k < |es| ==> !es[k].Send?) ==> w'.sessions[id] == w.sessions[id])
    decreases |es|
  {
    hide Step, SessionsOk, Touches;
    if |es| == 0 {
      ReadyHasCipher(w, id);
    } else {
      StepKeepsReady(w, es[0], id);
      StepKeepsSessionsOk(w, es[0]);
      ReadyLasts(Step(w, es[0]), es[1..], id);
    }
  }

  lemma ReadyHasCipher(w: World, id: string)
    requires SessionsOk(w.sessions) && id in w.sessions && w.sessions[id].phase == Ready
    ensures SameButCounter(w.sessions[id], w.sessions[id])
  {
  }

  /** A send hands out a ciphertext exactly when its tunnel is ready and its counter can
      still advance; it is the frame, under that session's key. */
  lemma SendsIff(w: World, id: string, frame: Frame)
    requires SessionsOk(w.sessions)
    ensures
      var ready := id in w.sessions && w.sessions[id].phase == Ready;
      var able := ready && w.sessions[id].sendCipher.Some? && w.sessions[id].sendCipher.value.counter < MAX_COUNTER;
      var w' := Step(w, Send(id, frame));
      && (w'.log == w.log <==> !able)
      && (able ==> w'.log == w.log + [Sealed(w.sessions[id].sendCipher.value.key, MobileToDesktop,
                                             w.sessions[id].sendCipher.value.counter, Serialize(frame))])
      && (ready && !able ==> w.sessions[id].sendCipher.value.counter >= MAX_COUNTER)
  {
    if id in w.sessions {
      OutgoingIs(w.sessions[id], frame);
      hide Serialize;
    }
  }

  // ---------------------------------------------------------------- what is accepted

  /** The frame that a plaintext holds is a HELLO with room for a random. */
  predicate HoldsHello(plaintext: seq<Octet>) {
    Deserialize(plaintext).Some? && Deserialize(plaintext).value.frameType == HELLO
    && |Deserialize(plaintext).value.payload| >= 34
  }

  /** Exactly what a session accepts: while it waits, a HELLO under its pairing key; once
      ready, any frame under its receiving key. */
  lemma AcceptsIff(s: Session, data: Wire)
    requires SessionOk(s)
    ensures Processed(s, data).Some? <==>
            data.Sealed? && (if s.phase == WaitingHello
                             then data.key == PairingKey(s.pairingKey) && HoldsHello(data.plaintext)
                             else data.key == s.recvCipher.value.key && Deserialize(data.plaintext).Some?)
  {
    hide Deserialize, FromBe16;
  }

  /** Direction and counter of what arrives make no difference to a session. */
  lemma DirectionAndCounterAreIgnored(s: Session, data: Wire, direction: Direction, counter: nat)
    requires data.Sealed?
    ensures Processed(s, data) == Processed(s, data.(direction := direction, counter := counter))
  {
    hide Deserialize, ParseHello;
  }

  /** A ready session hands every frame on as it was sent: type, terminal and payload. */
  lemma ReadyHandsOn(s: Session, direction: Direction, counter: nat, frame: Frame)
    requires s.phase == Ready && s.recvCipher.Some? && |frame.payload| < 0x8000_0000
    ensures Processed(s, Sealed(s.recvCipher.value.key, direction, counter, Serialize(frame))) == Some((s, FrameReceived(frame)))
  {
    RoundTripIff(frame);
    hide Serialize, Deserialize;
  }

  /** What a ready session hands on is the frame read from the accepted plaintext. */
  lemma ReadyHandsOnWhatIsRead(s: Session, data: Wire)
    requires s.phase == Ready && Processed(s, data).Some?
    ensures data.Sealed? && Deserialize(data.plaintext).Some?
    ensures Processed(s, data) == Some((s, FrameReceived(Deserialize(data.plaintext).value)))
  {
    hide Deserialize;
  }

  /** The first HELLO of a waiting session makes it ready with a key of both randoms. */
  lemma WaitingBecomesReady(s: Session, direction: Direction, counter: nat, capabilities: U16, serverRandom: Bytes32)
    requires s.phase == WaitingHello
    ensures
      var key := SessionKey(s.pairingKey, s.clientRandom, serverRandom);
      Processed(s, Sealed(PairingKey(s.pairingKey), direction, counter, Serialize(Hello(capabilities, serverRandom)))) ==
      Some((Session(s.pairingKey, Ready, s.clientRandom, Some(FrameCipher(key, MobileToDesktop, 0)), Some(FrameCipher(key, DesktopToMobile, 0))),
            TunnelReady))
  {
    HelloRoundTrip(capabilities, serverRandom);
    assert Hello(capabilities, serverRandom).frameType == HELLO;
    hide Serialize, Deserialize, ParseHello, Hello;
  }

  // -------------------------------------------------------------------- whole steps

  /** A step concerns its own tunnel only. */
  lemma OtherTunnelsAreUntouched(w: World, e: Event, id: string)
    requires id != e.id
    ensures id in Step(w, e).sessions <==> id in w.sessions
    ensures id in w.sessions ==> Step(w, e).sessions[id] == w.sessions[id]
  {
    hide Processed, Outgoing, HelloWire;
  }

  /** What initialising and closing a tunnel do. The HELLO offers version 1, capability 1
      and the random; a ready tunnel says GOODBYE under its own key and is gone, unless
      its counter is exhausted. */
  lemma InitIs(w: World, id: string, key: Bytes32, random: Bytes32)
    ensures
      var w' := Step(w, Init(id, key, random));
      && w'.sessions == w.sessions[id := Session(key, WaitingHello, random, None, None)]
      && w'.log == w.log + [Sealed(PairingKey(key), MobileToDesktop, 0, Serialize(Hello(1, random)))]
  {
    hide Serialize, Hello;
  }

  lemma CloseIs(w: World, id: string)
    requires SessionsOk(w.sessions) && id in w.sessions
    ensures
      var s := w.sessions[id];
      var w' := Step(w, Close(id));
      && (s.phase == WaitingHello ==> w'.sessions == w.sessions - {id} && w'.log == w.log)
      && (s.phase == Ready && s.sendCipher.value.counter < MAX_COUNTER ==>
            && w'.sessions == w.sessions - {id}
            && w'.log == w.log + [Sealed(s.sendCipher.value.key, MobileToDesktop, s.sendCipher.value.counter,
                                         Serialize(Frame(1, 0x08, 0, [], false)))])
      && (s.phase == Ready && s.sendCipher.value.counter >= MAX_COUNTER ==> w' == w)
  {
    assert GOODBYE_FRAME == Frame(1, 0x08, 0, [], false);
    OutgoingIs(w.sessions[id], GOODBYE_FRAME);
    hide Serialize;
    assert w.sessions[id := w.sessions[id]] == w.sessions;
  }

  // ---------------------------------------------------------------- honest handshake

  lemma HelloIsUnderstood(key: Bytes32, clientRandom: Bytes32, serverRandom: Bytes32)
    ensures
      var answer := AnswerHello(key, HelloWire(key, clientRandom), serverRandom);
      var session := SessionKey(key, clientRandom, serverRandom);
      && answer.ciphers == Some(DesktopCiphers(NewCipher(session, DesktopToMobile), NewCipher(session, MobileToDesktop)))
      && answer.reply == Some(Sealed(PairingKey(key), DesktopToMobile, 0,
                                     Serialize(Hello(Negotiated(CLIENT_CAPABILITIES), serverRandom))))
  {
    HelloRoundTrip(CLIENT_CAPABILITIES, clientRandom);
    assert Hello(CLIENT_CAPABILITIES, clientRandom).frameType == HELLO;
    assert Hello(CLIENT_CAPABILITIES, clientRandom).version == PROTOCOL_VERSION;
    hide Serialize, Deserialize, ParseHello, Hello;
  }

  /** Any HELLO under the pairing key is answered with the capability both sides share, and
      both ciphers are derived from the two randoms. */
  lemma HelloIsAnswered(key: Bytes32, direction: Direction, counter: nat, capabilities: U16, clientRandom: Bytes32, serverRandom: Bytes32)
    ensures
      var answer := AnswerHello(key, Sealed(PairingKey(key), direction, counter, Serialize(Hello(capabilities, clientRandom))), serverRandom);
      var session := SessionKey(key, clientRandom, serverRandom);
      && answer.ciphers == Some(DesktopCiphers(FrameCipher(session, DesktopToMobile, 0), FrameCipher(session, MobileToDesktop, 0)))
      && answer.reply == Some(Sealed(PairingKey(key), DesktopToMobile, 0,
                                     Serialize(Hello(if capabilities / 2 % 2 == 1 then 2 else 0, serverRandom))))
  {
    HelloRoundTrip(capabilities, clientRandom);
    HelloIs(capabilities, clientRandom);
    hide Serialize, Deserialize, ParseHello, Hello;
  }

  /** The phone's HELLO, answered by the desktop that holds the same pairing key, makes
      the tunnel ready, and both sides hold the same key in each direction. */
  lemma HonestHandshake(key: Bytes32, clientRandom: Bytes32, serverRandom: Bytes32)
    ensures
      var answer := AnswerHello(key, HelloWire(key, clientRandom), serverRandom);
      && answer.reply.Some? && answer.ciphers.Some?
      && (var processed := Processed(NewSession(key, clientRandom), answer.reply.value);
          && processed.Some? && processed.value.1 == TunnelReady
          && (var phone := processed.value.0;
              && phone.phase == Ready
              && phone.sendCipher == Some(answer.ciphers.value.recv)
              && phone.recvCipher == Some(answer.ciphers.value.send)))
  {
    HelloIsUnderstood(key, clientRandom, serverRandom);
    HelloRoundTrip(Negotiated(CLIENT_CAPABILITIES), serverRandom);
    assert Hello(Negotiated(CLIENT_CAPABILITIES), serverRandom).frameType == HELLO;
    hide Serialize, Deserialize, ParseHello, Hello, AnswerHello, Negotiated;
  }

  /** The ciphertexts of a list of frames sent one after the other. */
  function SealAll(c: FrameCipher, frames: seq<Frame>): Option<seq<Wire>>
    decreases |frames|
  {
    if |frames| == 0 then Some([])
    else
      var (wire, c') := Encrypt(c, Serialize(frames[0]));
      var rest := SealAll(c', frames[1..]);
      if wire.Some? && rest.Some? then Some([wire.value] + rest.value) else None
  }

  /** The events of a session that receives data one after the other; `None` once
      something is not accepted. */
  function EventsOf(s: Session, wires: seq<Wire>): Option<seq<TunnelEvent>>
    decreases |wires|
  {
    if |wires| == 0 then Some([])
    else
      match Processed(s, wires[0])
      case None => None
      case Some((next, event)) =>
        match EventsOf(next, wires[1..])
        case None => None
        case Some(events) => Some([event] + events)
  }

  function Receipts(frames: seq<Frame>): seq<TunnelEvent> {
    seq(|frames|, k requires 0 <= k < |frames| => FrameReceived(frames[k]))
  }

  /** Whatever the desktop seals under the session's key reaches the app, frame by frame
      and unchanged, as long as the counter lasts and every payload fits its length field. */
  lemma {:induction false} FramesArrive(s: Session, send: FrameCipher, frames: seq<Frame>)
    requires s.phase == Ready && s.recvCipher.Some? && s.recvCipher.value.key == send.key
    requires send.counter + |frames| <= MAX_COUNTER
    requires forall k :: 0 <= k < |frames| ==> |frames[k].payload| < 0x8000_0000
    ensures SealAll(send, frames).Some?
    ensures EventsOf(s, SealAll(send, frames).value) == Some(Receipts(frames))
    decreases |frames|
  {
    if |frames| == 0 {
      assert Receipts(frames) == [];
      assert SealAll(send, frames) == Some([]);
    } else {
      ReadyHandsOn(s, send.direction, send.counter, frames[0]);
      hide Serialize, Deserialize, Processed;
      var (wire, next) := Encrypt(send, Serialize(frames[0]));
      FramesArrive(s, next, frames[1..]);
      var rest := SealAll(next, frames[1..]).value;
      assert SealAll(send, frames) == Some([wire.value] + rest);
      assert ([wire.value] + rest)[1..] == rest;
      assert Receipts(frames) == [FrameReceived(frames[0])] + Receipts(frames[1..]);
    }
  }

  /** And what the phone sends reaches the desktop: its cipher opens each ciphertext. */
  lemma SentIsOpened(s: Session, recv: FrameCipher, frame: Frame)
    requires s.phase == Ready && s.sendCipher.Some? && s.sendCipher.value.key == recv.key
    requires s.sendCipher.value.counter < MAX_COUNTER && |frame.payload| < 0x8000_0000
    ensures Outgoing(s, frame).0.Some?
    ensures Decrypt(recv, Outgoing(s, frame).0.value) == Some(Serialize(frame))
    ensures Deserialize(Serialize(frame)) == Some(frame)
  {
    RoundTripIff(frame);
    hide Serialize, Deserialize;
  }

  /** The desktop refuses anything but a HELLO of at least version 1, and says why. */
  lemma RefusedHellos(key: Bytes32, direction: Direction, counter: nat, frame: Frame, serverRandom: Bytes32)
    requires |frame.payload| < 0x8000_0000
    ensures
      var answer := AnswerHello(key, Sealed(PairingKey(key), direction, counter, Serialize(frame)), serverRandom);
      && (answer.ciphers.Some? <==> frame.frameType == 0x00 && |frame.payload| >= 34 && frame.version >= 1)
      && (frame.frameType != 0x00 ==>
            answer.reply == Some(Sealed(PairingKey(key), DesktopToMobile, 0, Serialize(Frame(1, 0x09, 0, Ascii("hello_required"), false)))))
      && (frame.frameType == 0x00 && |frame.payload| < 34 ==> answer.reply.None?)
      && (frame.frameType == 0x00 && |frame.payload| >= 34 && frame.version < 1 ==>
            answer.reply == Some(Sealed(PairingKey(key), DesktopToMobile, 0, Serialize(Frame(1, 0x09, 0, Ascii("unsupported_version"), false)))))
  {
    RoundTripIff(frame);
    hide Serialize, Deserialize, Ascii, FromBe16;
  }
}
