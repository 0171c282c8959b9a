/** The binary frames of the remote-terminal protocol (crates/daemon/src/remote_frame.rs). */
module RemoteFrame {
  import opened Common

  type U16 = n: int | 0 <= n < 0x1_0000
  type U32 = n: int | 0 <= n < 0x1_0000_0000

  const COMPRESSED: int := 0x8000_0000
  const PROTOCOL_VERSION: Octet := 1
  const HELLO: Octet := 0x00
  const ERROR: Octet := 0x09
  const GOODBYE: Octet := 0x08

  datatype Frame = Frame(version: Octet, frameType: Octet, terminalId: U32, payload: seq<Octet>, compressed: bool)

  function New(frameType: Octet, terminalId: U32, payload: seq<Octet>): Frame {
    Frame(PROTOCOL_VERSION, frameType, terminalId, payload, false)
  }

  function Be16(n: U16): (r: seq<Octet>)
    ensures |r| == 2
  {
    [n / 0x100, n % 0x100]
  }

  function Be32(n: U32): (r: seq<Octet>)
    ensures |r| == 4
  {
    [n / 0x100_0000, n / 0x1_0000 % 0x100, n / 0x100 % 0x100, n % 0x100]
  }

  function FromBe16(s: seq<Octet>): U16
    requires |s| >= 2
  {
    s[0] as int * 0x100 + s[1]
  }

  function FromBe32(s: seq<Octet>): U32
    requires |s| >= 4
  {
    s[0] as int * 0x100_0000 + s[1] as int * 0x1_0000 + s[2] as int * 0x100 + s[3]
  }

  /** The length cast to 32 bits, with the top bit set for a compressed payload. */
  function LengthField(f: Frame): U32 {
    var n := |f.payload| % 0x1_0000_0000;
    if f.compressed && n < COMPRESSED then n + COMPRESSED else n
  }

  function Serialize(f: Frame): seq<Octet> {
    [f.version, f.frameType] + Be32(f.terminalId) + Be32(LengthField(f)) + f.payload
  }

  function Deserialize(data: seq<Octet>): Option<Frame> {
    if |data| < 10 then None
    else
      var raw := FromBe32(data[6..]);
      var length := raw % COMPRESSED;
      if |data| < 10 + length then None
      else Some(Frame(data[0], data[1], FromBe32(data[2..]), data[10..10 + length], raw >= COMPRESSED))
  }

  lemma Be32RoundTrip(n: U32, rest: seq<Octet>)
    ensures FromBe32(Be32(n) + rest) == n
  {
    var a := n / 0x100;
    var b := a / 0x100;
    assert n / 0x1_0000 == b;
    assert n / 0x100_0000 == b / 0x100;
  }

  lemma FromBe32Exact(s: seq<Octet>)
    requires |s| >= 4
    ensures Be32(FromBe32(s)) == s[..4]
  {
    var n := FromBe32(s);
    var high := s[0] as int * 0x100 + s[1];
    DivideByteOff(high * 0x100 + s[2], s[3]);
    DivideByteOff(high, s[2]);
    DivideByteOff(s[0], s[1]);
    assert n / 0x1_0000 == n / 0x100 / 0x100;
    assert n / 0x100_0000 == n / 0x100 / 0x100 / 0x100;
  }

  lemma DivideByteOff(high: nat, low: Octet)
    ensures (high * 0x100 + low) / 0x100 == high && (high * 0x100 + low) % 0x100 == low
  {
  }

  lemma HeaderParts(f: Frame)
    ensures
      var s := Serialize(f);
      && |s| == 10 + |f.payload| && s[0] == f.version && s[1] == f.frameType && s[10..] == f.payload
      && FromBe32(s[2..]) == f.terminalId && FromBe32(s[6..]) == LengthField(f)
  {
    hide Be32, FromBe32, LengthField;
    var s := Serialize(f);
    assert s[2..] == Be32(f.terminalId) + (Be32(LengthField(f)) + f.payload);
    assert s[6..] == Be32(LengthField(f)) + f.payload;
    Be32RoundTrip(f.terminalId, Be32(LengthField(f)) + f.payload);
    Be32RoundTrip(LengthField(f), f.payload);
  }

  /** A frame survives the wire exactly when its payload is shorter than 2^31 bytes:
      a longer one runs into the bit of the compressed flag. */
  lemma RoundTripIff(f: Frame)
    ensures Deserialize(Serialize(f)) == Some(f) <==> |f.payload| < COMPRESSED
  {
    HeaderParts(f);
    hide Serialize, FromBe32;
    var length := LengthField(f) % COMPRESSED;
    assert length == |f.payload| % COMPRESSED by {
      LengthWithoutFlag(f);
    }
    if |f.payload| < COMPRESSED {
      assert Serialize(f)[10..10 + length] == f.payload;
    }
  }

  lemma LengthWithoutFlag(f: Frame)
    ensures LengthField(f) % COMPRESSED == |f.payload| % COMPRESSED
    ensures |f.payload| < COMPRESSED ==> (LengthField(f) >= COMPRESSED <==> f.compressed)
  {
  }

  /** What is read from the wire is a frame's bytes, possibly with more behind them. */
  lemma ReadsAPrefix(data: seq<Octet>)
    requires Deserialize(data).Some?
    ensures Serialize(Deserialize(data).value) <= data
    ensures |Deserialize(data).value.payload| < COMPRESSED
  {
    var f := Deserialize(data).value;
    FromBe32Exact(data[2..]);
    FromBe32Exact(data[6..]);
    FieldIsRaw(data);
    hide Be32, FromBe32, LengthField;
    assert data[2..][..4] == data[2..6] && data[6..][..4] == data[6..10];
    assert data[..10 + |f.payload|] == data[..2] + data[2..6] + data[6..10] + data[10..10 + |f.payload|];
  }

  lemma FieldIsRaw(data: seq<Octet>)
    requires Deserialize(data).Some?
    ensures LengthField(Deserialize(data).value) == FromBe32(data[6..])
  {
    hide FromBe32;
  }

  /** The layout on the wire: version, type, and big-endian terminal and length, the top
      bit of which marks compression, before the payload. */
  lemma LayoutIs(f: Frame)
    requires |f.payload| < 0x8000_0000
    ensures
      var s := Serialize(f);
      && |s| == 10 + |f.payload| && s[0] == f.version && s[1] == f.frameType && s[10..] == f.payload
      && f.terminalId == ((s[2] as int * 0x100 + s[3]) * 0x100 + s[4]) * 0x100 + s[5]
      && |f.payload| + (if f.compressed then 0x8000_0000 else 0) == ((s[6] as int * 0x100 + s[7]) * 0x100 + s[8]) * 0x100 + s[9]
  {
    HeaderParts(f);
    var s := Serialize(f);
    assert s[2..][0] == s[2] && s[2..][1] == s[3] && s[2..][2] == s[4] && s[2..][3] == s[5];
    assert s[6..][0] == s[6] && s[6..][1] == s[7] && s[6..][2] == s[8] && s[6..][3] == s[9];
    hide Serialize, Be32;
  }

  // -------------------------------------------------------------------------- HELLO

  type Random = r: seq<Octet> | |r| == 32 witness seq(32, i => 0)

  function Hello(capabilities: U16, random: Random): Frame {
    New(HELLO, 0, Be16(capabilities) + random)
  }

  function ParseHello(f: Frame): Option<(U16, Random)> {
    if |f.payload| < 34 then None else Some((FromBe16(f.payload), f.payload[2..34]))
  }

  lemma Be16RoundTrip(n: U16, rest: seq<Octet>)
    ensures FromBe16(Be16(n) + rest) == n
  {
  }

  /** A HELLO gives back its capabilities and its random after the wire. */
  lemma HelloRoundTrip(capabilities: U16, random: Random)
    ensures Deserialize(Serialize(Hello(capabilities, random))) == Some(Hello(capabilities, random))
    ensures ParseHello(Hello(capabilities, random)) == Some((capabilities, random))
  {
    RoundTripIff(Hello(capabilities, random));
    Be16RoundTrip(capabilities, random);
    hide Be16, FromBe16;
    assert (Be16(capabilities) + random)[2..34] == random;
  }

  /** A HELLO is a frame of version 1 and type 0 for terminal 0: two bytes of
      capabilities, high byte first, and the 32 bytes of the random. */
  lemma HelloIs(capabilities: U16, random: Random)
    ensures
      var f := Hello(capabilities, random);
      && f.version == 1 && f.frameType == 0 && f.terminalId == 0 && !f.compressed
      && |f.payload| == 34 && f.payload[0] as int * 0x100 + f.payload[1] == capabilities && f.payload[2..] == random
  {
    var f := Hello(capabilities, random);
    assert f.payload[2..] == random;
  }
}
