/** The phone's registry of tunnel sessions (crates/android-ffi/src/remote_terminal.rs)
    over symbolic ciphers (crates/daemon/src/frame_crypto.rs), and the desktop's answer
    to a HELLO (crates/daemon/src/remote_server.rs). */
module TunnelSession {
  import opened Common
  import opened RemoteFrame

  type Bytes32 = Random

  // ------------------------------------------------------------------------ ciphers

  /** Key derivation is a free constructor: different inputs give different keys. */
  datatype Key =
    | PairingKey(k: Bytes32)
    | SessionKey(k: Bytes32, clientRandom: Bytes32, serverRandom: Bytes32)

  datatype Direction = DesktopToMobile | MobileToDesktop

  /** A ciphertext with its nonce in front, or bytes that no key decrypts. */
  datatype Wire =
    | Sealed(key: Key, direction: Direction, counter: nat, plaintext: seq<Octet>)
    | Junk

  datatype FrameCipher = FrameCipher(key: Key, direction: Direction, counter: nat)

  const MAX_COUNTER: nat := 0xFFFF_FFFF_FFFF_FFFF

  function NewCipher(key: Key, direction: Direction): FrameCipher {
    FrameCipher(key, direction, 0)
  }

  /** Fails, without advancing, when the 64-bit counter cannot advance. */
  function Encrypt(c: FrameCipher, plaintext: seq<Octet>): (Option<Wire>, FrameCipher) {
    if c.counter >= MAX_COUNTER then (None, c)
    else (Some(Sealed(c.key, c.direction, c.counter, plaintext)), c.(counter := c.counter + 1))
  }

  /** The nonce comes with the data; only the key decides. */
  function Decrypt(c: FrameCipher, data: Wire): Option<seq<Octet>> {
    match data
    case Sealed(key, _, _, plaintext) => if key == c.key then Some(plaintext) else None
    case Junk => None
  }

  // ----------------------------------------------------------------------- sessions

  datatype Phase = WaitingHello | Ready

  datatype Session = Session(
    pairingKey: Bytes32,
    phase: Phase,
    clientRandom: Bytes32,
    sendCipher: Option<FrameCipher>,
    recvCipher: Option<FrameCipher>)

  datatype TunnelEvent = TunnelReady | FrameReceived(frame: Frame)

  const CLIENT_CAPABILITIES: U16 := 1

  function NewSession(pairingKey: Bytes32, clientRandom: Bytes32): Session {
    Session(pairingKey, WaitingHello, clientRandom, None, None)
  }

  function HelloWire(pairingKey: Bytes32, clientRandom: Bytes32): Wire {
    Sealed(PairingKey(pairingKey), MobileToDesktop, 0, Serialize(Hello(CLIENT_CAPABILITIES, clientRandom)))
  }

  /** The random of a HELLO that arrives under the pairing key. */
  function HelloRandom(pairingKey: Bytes32, data: Wire): Option<Bytes32> {
    match Decrypt(NewCipher(PairingKey(pairingKey), DesktopToMobile), data)
    case None => None
    case Some(plaintext) =>
      match Deserialize(plaintext)
      case None => None
      case Some(frame) =>
        if frame.frameType != HELLO then None
        else
          match ParseHello(frame)
          case None => None
          case Some((_, serverRandom)) => Some(serverRandom)
  }

  function Established(s: Session, serverRandom: Bytes32): Session {
    var key := SessionKey(s.pairingKey, s.clientRandom, serverRandom);
    s.(phase := Ready,
       sendCipher := Some(NewCipher(key, MobileToDesktop)),
       recvCipher := Some(NewCipher(key, DesktopToMobile)))
  }

  function ReceivedFrame(cipher: Option<FrameCipher>, data: Wire): Option<Frame> {
    match cipher
    case None => None
    case Some(c) =>
      match Decrypt(c, data)
      case None => None
      case Some(plaintext) => Deserialize(plaintext)
  }

  /** The session and the event after incoming data; `None` is an error. */
  function Processed(s: Session, data: Wire): Option<(Session, TunnelEvent)> {
    match s.phase
    case WaitingHello =>
      (match HelloRandom(s.pairingKey, data)
       case None => None
       case Some(serverRandom) => Some((Established(s, serverRandom), TunnelReady)))
    case Ready =>
      match ReceivedFrame(s.recvCipher, data)
      case None => None
      case Some(frame) => Some((s, FrameReceived(frame)))
  }

  /** What a session sends for a frame, and the session afterwards. */
  function Outgoing(s: Session, frame: Frame): (Option<Wire>, Session) {
    if s.phase != Ready || s.sendCipher.None? then (None, s)
    else
      var (wire, cipher) := Encrypt(s.sendCipher.value, Serialize(frame));
      (wire, s.(sendCipher := Some(cipher)))
  }

  const GOODBYE_FRAME: Frame := New(GOODBYE, 0, [])

  type Sessions = map<string, Session>

  /** The registry after a close, and the farewell: `Some(None)` is an empty one. */
  function Closed(sessions: Sessions, id: string): (Sessions, Option<Option<Wire>>) {
    if id !in sessions then (sessions, None)
    else if sessions[id].phase != Ready then (sessions - {id}, Some(None))
    else
      var (wire, s) := Outgoing(sessions[id], GOODBYE_FRAME);
      if wire.None? then (sessions[id := s], None) else (sessions - {id}, Some(wire))
  }

  class TunnelRegistry {
    var sessions: Sessions

    constructor ()
      ensures sessions == map[]
    {
      sessions := map[];
    }

    method InitTunnel(id: string, pairingKey: Bytes32, clientRandom: Bytes32) returns (hello: Option<Wire>)
      modifies this
      ensures hello == Some(HelloWire(pairingKey, clientRandom))
      ensures sessions == old(sessions)[id := NewSession(pairingKey, clientRandom)]
    {
      var cipher := NewCipher(PairingKey(pairingKey), MobileToDesktop);
      var (encrypted, _) := Encrypt(cipher, Serialize(Hello(CLIENT_CAPABILITIES, clientRandom)));
      if encrypted == None {
        return None;
      }
      var session := Session(pairingKey, WaitingHello, clientRandom, None, None);
      sessions := sessions[id := session];
      return encrypted;
    }

    method ProcessBinary(id: string, data: Wire) returns (event: Option<TunnelEvent>)
      modifies this
      ensures event.Some? <==> id in old(sessions) && Processed(old(sessions)[id], data).Some?
      ensures event.Some? ==>
                var (session, e) := Processed(old(sessions)[id], data).value;
                event == Some(e) && sessions == old(sessions)[id := session]
      ensures event.None? ==> sessions == old(sessions)
    {
      hide Decrypt, Deserialize, ParseHello, FromBe32, FromBe16;
      if id !in sessions {
        return None;
      }
      var session := sessions[id];
      if session.phase == WaitingHello {
        var helloCipher := NewCipher(PairingKey(session.pairingKey), DesktopToMobile);
        var plaintext := Decrypt(helloCipher, data);
        if plaintext == None {
          return None;
        }
        var frame := Deserialize(plaintext.value);
        if frame == None || frame.value.frameType != HELLO {
          return None;
        }
        var parsed := ParseHello(frame.value);
        if parsed == None {
          return None;
        }
        var key := SessionKey(session.pairingKey, session.clientRandom, parsed.value.1);
        session := session.(sendCipher := Some(NewCipher(key, MobileToDesktop)));
        session := session.(recvCipher := Some(NewCipher(key, DesktopToMobile)));
        session := session.(phase := Ready);
        sessions := sessions[id := session];
        return Some(TunnelReady);
      }
      if session.recvCipher == None {
        return None;
      }
      var plaintext := Decrypt(session.recvCipher.value, data);
      if plaintext == None {
        return None;
      }
      var frame := Deserialize(plaintext.value);
      if frame == None {
        return None;
      }
      return Some(FrameReceived(frame.value));
    }

    method EncryptOutgoing(id: string, frame: Frame) returns (wire: Option<Wire>)
      modifies this
      ensures id !in old(sessions) ==> wire == None && sessions == old(sessions)
      ensures id in old(sessions) ==>
                var (w, s) := Outgoing(old(sessions)[id], frame);
                wire == w && sessions == old(sessions)[id := s]
    {
      if id !in sessions {
        return None;
      }
      var session := sessions[id];
      if session.phase != Ready || session.sendCipher == None {
        assert sessions == sessions[id := session];
        return None;
      }
      var (encrypted, cipher) := Encrypt(session.sendCipher.value, Serialize(frame));
      session := session.(sendCipher := Some(cipher));
      sessions := sessions[id := session];
      return encrypted;
    }

    method CloseTunnel(id: string) returns (farewell: Option<Option<Wire>>)
      modifies this
      ensures (sessions, farewell) == Closed(old(sessions), id)
    {
      if id !in sessions {
        return None;
      }
      var ciphertext: Option<Wire> := None;
      if sessions[id].phase == Ready {
        ciphertext := EncryptOutgoing(id, GOODBYE_FRAME);
        if ciphertext == None {
          return None;
        }
      }
      sessions := sessions - {id};
      assert sessions == old(sessions) - {id};
      return Some(ciphertext);
    }

    method IsReady(id: string) returns (ready: bool)
      ensures ready <==> id in sessions && sessions[id].phase == Ready
    {
      if id !in sessions {
        return false;
      }
      return sessions[id].phase == Ready;
    }
  }

  // -------------------------------------------------------------- the desktop's side

  datatype DesktopCiphers = DesktopCiphers(send: FrameCipher, recv: FrameCipher)

  datatype HelloAnswer = HelloAnswer(reply: Option<Wire>, ciphers: Option<DesktopCiphers>)

  function Ascii(s: string): seq<Octet> {
    seq(|s|, i requires 0 <= i < |s| => if s[i] as int < 0x80 then s[i] as int else 0)
  }

  function DesktopSeals(pairingKey: Bytes32, frame: Frame): Option<Wire> {
    Encrypt(NewCipher(PairingKey(pairingKey), DesktopToMobile), Serialize(frame)).0
  }

  /** The capabilities both sides have: only bit 1 is offered. */
  function Negotiated(capabilities: U16): U16 {
    capabilities / 2 % 2 * 2
  }

  /** Reads the phone's HELLO, answers it, and derives the session ciphers. */
  function AnswerHello(pairingKey: Bytes32, data: Wire, serverRandom: Bytes32): HelloAnswer {
    match Decrypt(NewCipher(PairingKey(pairingKey), MobileToDesktop), data)
    case None => HelloAnswer(None, None)
    case Some(plaintext) =>
      match Deserialize(plaintext)
      case None => HelloAnswer(None, None)
      case Some(frame) =>
        if frame.frameType != HELLO then
          HelloAnswer(DesktopSeals(pairingKey, New(ERROR, 0, Ascii("hello_required"))), None)
        else
          match ParseHello(frame)
          case None => HelloAnswer(None, None)
          case Some((capabilities, clientRandom)) =>
            if frame.version < 1 then
              HelloAnswer(DesktopSeals(pairingKey, New(ERROR, 0, Ascii("unsupported_version"))), None)
            else
              var key := SessionKey(pairingKey, clientRandom, serverRandom);
              HelloAnswer(DesktopSeals(pairingKey, Hello(Negotiated(capabilities), serverRandom)),
                          Some(DesktopCiphers(NewCipher(key, DesktopToMobile), NewCipher(key, MobileToDesktop))))
  }
}
