/** Which characters stand for which bits (section 4 of RFC 4648): the codec's texts and
    bytes, spelled out without its tables and words. */
module Base64Laws {
  import opened Common
  import opened Base64

  /** The character of a value below 64: letters, digits, plus and slash. */
  function Sign(v: bv8): char
    requires v < 64
  {
    var n := v as int;
    (if n < 26 then 65 + n else if n < 52 then 71 + n else if n < 62 then n - 4 else if n == 62 then 43 else 47) as char
  }

  lemma SmallValue(v: bv8)
    requires v < 64
    ensures (v as bv32) as int == v as int && v as int < 64
  {
    WidenKeepsValue(v);
  }

  lemma SymbolIsSign(v: bv8)
    requires v < 64
    ensures v as bv32 < 64 && Symbol(v as bv32) == Sign(v)
  {
    SmallValue(v);
    var i := v as int;
    TableCode(i);
    hide TableAt;
  }

  // ----------------------------------------------------------------------- encoding

  /** The sextets of three bytes, high bits first. */
  lemma SextetsAre(b0: Byte, b1: Byte, b2: Byte)
    ensures
      var n := Pack(b0, b1, b2);
      && Sextet(n, 0) == (b0 >> 2) as bv32 && Sextet(n, 1) == (((b0 & 3) << 4) | (b1 >> 4)) as bv32
      && Sextet(n, 2) == (((b1 & 15) << 2) | (b2 >> 6)) as bv32 && Sextet(n, 3) == (b2 & 63) as bv32
    ensures b0 >> 2 < 64 && ((b0 & 3) << 4) | (b1 >> 4) < 64 && ((b1 & 15) << 2) | (b2 >> 6) < 64 && b2 & 63 < 64
  {}

  lemma DigitsAre(b0: Byte, b1: Byte, b2: Byte)
    ensures b0 >> 2 < 64 && ((b0 & 3) << 4) | (b1 >> 4) < 64 && ((b1 & 15) << 2) | (b2 >> 6) < 64 && b2 & 63 < 64
    ensures
      var n := Pack(b0, b1, b2);
      && Digit(n, 0) == Sign(b0 >> 2) && Digit(n, 1) == Sign(((b0 & 3) << 4) | (b1 >> 4))
      && Digit(n, 2) == Sign(((b1 & 15) << 2) | (b2 >> 6)) && Digit(n, 3) == Sign(b2 & 63)
  {
    SextetsAre(b0, b1, b2);
    var s0, s1, s2, s3 := b0 >> 2, ((b0 & 3) << 4) | (b1 >> 4), ((b1 & 15) << 2) | (b2 >> 6), b2 & 63;
    SymbolIsSign(s0);
    SymbolIsSign(s1);
    SymbolIsSign(s2);
    SymbolIsSign(s3);
    hide Pack, Sextet, Symbol, Sign;
  }

  lemma LowBitsOnly(b0: Byte, b1: Byte)
    ensures (b0 & 3) << 4 < 64 && ((b0 & 3) << 4) | (0 >> 4) == (b0 & 3) << 4
    ensures (b1 & 15) << 2 < 64 && ((b1 & 15) << 2) | (0 >> 6) == (b1 & 15) << 2
  {}

  /** Three bytes are four characters of six bits, high bits first; two or one byte leave
      unused bits zero and are padded. */
  lemma EncodedGroupIs(b0: Byte, b1: Byte, b2: Byte)
    ensures b0 >> 2 < 64 && ((b0 & 3) << 4) | (b1 >> 4) < 64 && ((b1 & 15) << 2) | (b2 >> 6) < 64 && b2 & 63 < 64
    ensures (b0 & 3) << 4 < 64 && (b1 & 15) << 2 < 64
    ensures Encoded([b0, b1, b2]) ==
            [Sign(b0 >> 2), Sign(((b0 & 3) << 4) | (b1 >> 4)), Sign(((b1 & 15) << 2) | (b2 >> 6)), Sign(b2 & 63)]
    ensures Encoded([b0, b1]) == [Sign(b0 >> 2), Sign(((b0 & 3) << 4) | (b1 >> 4)), Sign((b1 & 15) << 2), '=']
    ensures Encoded([b0]) == [Sign(b0 >> 2), Sign((b0 & 3) << 4), '=', '=']
  {
    DigitsAre(b0, b1, b2);
    DigitsAre(b0, b1, 0);
    DigitsAre(b0, 0, 0);
    LowBitsOnly(b0, b1);
    hide Pack, Digit, Sign;
    assert [b0, b1, b2][..3] == [b0, b1, b2] && [b0, b1, b2][3..] == [];
  }

  /** Encoding goes group by group. */
  lemma {:induction false} EncodedConcat(a: seq<Byte>, b: seq<Byte>)
    requires |a| % 3 == 0
    ensures Encoded(a + b) == Encoded(a) + Encoded(b)
  {
    hide Group;
    if a == [] {
      assert a + b == b;
    } else {
      assert (a + b)[..3] == a[..3] && (a + b)[3..] == a[3..] + b;
      EncodedConcat(a[3..], b);
    }
  }

  // ----------------------------------------------------------------------- decoding

  /** A character of a text, `None` for padding. */
  function SignOrPad(v: Option<bv8>): char
    requires v.Some? ==> v.value < 64
  {
    if v.None? then '=' else Sign(v.value)
  }

  function Bits(v: Option<bv8>): bv8 {
    if v.None? then 0 else v.value
  }

  lemma SymbolValueIs(v: Option<bv8>)
    requires v.Some? ==> v.value < 64
    ensures SymbolValue(SignOrPad(v)) == Some(Bits(v) as bv32)
    ensures IsPad(SignOrPad(v)) == if v.None? then 1 else 0
  {
    if v.Some? {
      SymbolIsSign(v.value);
      ValueOfSymbol(v.value as bv32);
    }
    hide Symbol, Sign;
  }

  lemma BytesAre(v0: bv8, v1: bv8, v2: bv8, v3: bv8)
    requires v0 < 64 && v1 < 64 && v2 < 64 && v3 < 64
    ensures
      var n := Unpack(v0 as bv32, v1 as bv32, v2 as bv32, v3 as bv32);
      ByteAt(n, 0) == (v0 << 2) | (v1 >> 4) && ByteAt(n, 1) == (v1 << 4) | (v2 >> 2) && ByteAt(n, 2) == (v2 << 6) | v3
  {}

  function Pads(v0: Option<bv8>, v1: Option<bv8>, v2: Option<bv8>, v3: Option<bv8>): nat {
    (if v0.None? then 1 else 0) + (if v1.None? then 1 else 0) + (if v2.None? then 1 else 0) + (if v3.None? then 1 else 0)
  }

  function Kept(b0: Byte, b1: Byte, b2: Byte, pads: nat): seq<Byte> {
    if pads == 0 then [b0, b1, b2] else if pads == 1 then [b0, b1] else [b0]
  }

  lemma WordBytesAre(n: bv32, pads: nat)
    ensures WordBytes(n, pads) == Kept(ByteAt(n, 0), ByteAt(n, 1), ByteAt(n, 2), pads)
  {
    hide ByteAt;
  }

  lemma SingleGroup(group: string)
    requires |group| == 4
    ensures Decoded(group) == GroupBytes(group[0], group[1], group[2], group[3])
  {
    hide GroupBytes;
    DecodedStep(group, "");
    assert group + "" == group;
    assert Decoded("") == Some([]);
    if GroupBytes(group[0], group[1], group[2], group[3]).Some? {
      var bytes := GroupBytes(group[0], group[1], group[2], group[3]).value;
      assert bytes + [] == bytes;
    }
  }

  lemma GroupBytesAre(v0: Option<bv8>, v1: Option<bv8>, v2: Option<bv8>, v3: Option<bv8>)
    requires (v0.Some? ==> v0.value < 64) && (v1.Some? ==> v1.value < 64) && (v2.Some? ==> v2.value < 64) && (v3.Some? ==> v3.value < 64)
    ensures
      GroupBytes(SignOrPad(v0), SignOrPad(v1), SignOrPad(v2), SignOrPad(v3)) ==
      Some(WordBytes(Unpack(Bits(v0) as bv32, Bits(v1) as bv32, Bits(v2) as bv32, Bits(v3) as bv32), Pads(v0, v1, v2, v3)))
  {
    hide SymbolValue, IsPad, SignOrPad, Unpack, Bits, WordBytes;
    SymbolValueIs(v0);
    SymbolValueIs(v1);
    SymbolValueIs(v2);
    SymbolValueIs(v3);
  }

  /** Four characters of six bits are three bytes, high bits first, padding counting as
      zero; one padding character, wherever it stands, drops the last byte, more drop two. */
  lemma DecodedGroupIs(v0: Option<bv8>, v1: Option<bv8>, v2: Option<bv8>, v3: Option<bv8>)
    requires (v0.Some? ==> v0.value < 64) && (v1.Some? ==> v1.value < 64) && (v2.Some? ==> v2.value < 64) && (v3.Some? ==> v3.value < 64)
    ensures
      Decoded([SignOrPad(v0), SignOrPad(v1), SignOrPad(v2), SignOrPad(v3)]) ==
      Some(Kept((Bits(v0) << 2) | (Bits(v1) >> 4), (Bits(v1) << 4) | (Bits(v2) >> 2), (Bits(v2) << 6) | Bits(v3), Pads(v0, v1, v2, v3)))
  {
    GroupBytesAre(v0, v1, v2, v3);
    BytesAre(Bits(v0), Bits(v1), Bits(v2), Bits(v3));
    WordBytesAre(Unpack(Bits(v0) as bv32, Bits(v1) as bv32, Bits(v2) as bv32, Bits(v3) as bv32), Pads(v0, v1, v2, v3));
    SingleGroup([SignOrPad(v0), SignOrPad(v1), SignOrPad(v2), SignOrPad(v3)]);
    hide *;
  }

  /** Decoding goes group by group, and what does not fill a group is ignored. */
  lemma {:induction false} DecodedConcat(a: string, b: string)
    requires |a| % 4 == 0 && Decoded(a).Some?
    ensures Decoded(a + b) == if Decoded(b).None? then None else Some(Decoded(a).value + Decoded(b).value)
    ensures |b| < 4 ==> Decoded(b) == Some([])
  {
    hide GroupBytes;
    if a == [] {
      assert a + b == b;
      if Decoded(b).Some? {
        assert [] + Decoded(b).value == Decoded(b).value;
      }
    } else {
      assert a[..4] + (a[4..] + b) == a + b && a[..4] + a[4..] == a;
      DecodedStep(a[..4], a[4..] + b);
      DecodedStep(a[..4], a[4..]);
      DecodedConcat(a[4..], b);
      if Decoded(b).Some? {
        var first := GroupBytes(a[0], a[1], a[2], a[3]).value;
        assert first + (Decoded(a[4..]).value + Decoded(b).value) == (first + Decoded(a[4..]).value) + Decoded(b).value;
      }
    }
  }
}
