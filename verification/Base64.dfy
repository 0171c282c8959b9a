/** The hand-written base64 codec that stores the derived key in the keychain
    (section 4 of RFC 4648).  Both directions are index loops over machine words;
    each is proved against a recursive specification, and the laws of the codec
    are lemmas about the specifications. */
module Base64 {
  import opened Common

  // Bytes are bit-vectors here: the codec shifts and masks them.
  type Byte = bv8

  // One character stands for one byte of the text.
  const UPPER_CASE: string := "ABCDEFGHIJKLMNOPQRSTUVWXYZ"
  const LOWER_CASE: string := "abcdefghijklmnopqrstuvwxyz"
  const DIGITS: string := "0123456789"
  const TABLE: string := UPPER_CASE + LOWER_CASE + DIGITS + "+/"

  const PAD: char := '='

  function TableAt(k: nat): char
    requires k < 64
  {
    TABLE[k]
  }

  ghost predicate InTable(c: char) {
    exists k: nat :: k < 64 && TableAt(k) == c
  }

  function Symbol(v: bv32): char
    requires v < 64
  {
    TableAt(v as int)
  }

  /** First position of `c` in the table, at or after `k`. */
  function Position(c: char, k: nat := 0): (r: Option<nat>)
    requires k <= 64
    ensures r.Some? ==> k <= r.value < 64 && TableAt(r.value) == c
    ensures r.None? ==> forall j: nat :: k <= j < 64 ==> TableAt(j) != c
    decreases 64 - k
  {
    if k == 64 then None
    else if TableAt(k) == c then Some(k)
    else Position(c, k + 1)
  }

  // ---------------------------------------------------------------- encoding

  function Pack(b0: Byte, b1: Byte, b2: Byte): bv32 {
    ((b0 as bv32) << 16) | ((b1 as bv32) << 8) | (b2 as bv32)
  }

  /** Sextet `k` of a 24-bit word, counted from the top. */
  function Sextet(n: bv32, k: nat): (v: bv32)
    requires k < 4
    ensures v < 64
  {
    if k == 0 then (n >> 18) & 63 else if k == 1 then (n >> 12) & 63 else if k == 2 then (n >> 6) & 63 else n & 63
  }

  function Digit(n: bv32, k: nat): char
    requires k < 4
  {
    Symbol(Sextet(n, k))
  }

  /** The four characters written for the next one, two or three bytes. */
  function Group(bytes: seq<Byte>): (s: string)
    requires 1 <= |bytes| <= 3
    ensures |s| == 4
  {
    if |bytes| == 3 then
      var n := Pack(bytes[0], bytes[1], bytes[2]);
      [Digit(n, 0), Digit(n, 1), Digit(n, 2), Digit(n, 3)]
    else if |bytes| == 2 then
      var n := Pack(bytes[0], bytes[1], 0);
      [Digit(n, 0), Digit(n, 1), Digit(n, 2), PAD]
    else
      var n := Pack(bytes[0], 0, 0);
      [Digit(n, 0), Digit(n, 1), PAD, PAD]
  }

  function Encoded(bytes: seq<Byte>): string {
    if bytes == [] then ""
    else if |bytes| < 3 then Group(bytes)
    else Group(bytes[..3]) + Encoded(bytes[3..])
  }

  method Encode(bytes: seq<Byte>) returns (s: string)
    ensures s == Encoded(bytes)
  {
    hide Pack, Digit;
    s := "";
    var i := 0;
    assert bytes[0..] == bytes;
    while i + 3 <= |bytes|
      invariant 0 <= i <= |bytes|
      invariant s + Encoded(bytes[i..]) == Encoded(bytes)
    {
      var n := Pack(bytes[i], bytes[i + 1], bytes[i + 2]);
      assert bytes[i..][3..] == bytes[i + 3..];
      assert bytes[i..][..3] == [bytes[i], bytes[i + 1], bytes[i + 2]];
      assert Encoded(bytes[i..]) == Group(bytes[i..][..3]) + Encoded(bytes[i + 3..]);
      s := s + [Digit(n, 0), Digit(n, 1), Digit(n, 2), Digit(n, 3)];
      i := i + 3;
    }
    var rem := |bytes| - i;
    if rem == 1 {
      var n := Pack(bytes[i], 0, 0);
      s := s + [Digit(n, 0), Digit(n, 1), PAD, PAD];
    } else if rem == 2 {
      var n := Pack(bytes[i], bytes[i + 1], 0);
      s := s + [Digit(n, 0), Digit(n, 1), Digit(n, 2), PAD];
    }
  }

  // ---------------------------------------------------------------- decoding

  /** Value of one character of a group; padding counts as zero. */
  function SymbolValue(c: char): (r: Option<bv32>)
    ensures r.Some? ==> r.value < 64
  {
    if c == PAD then Some(0)
    else match Position(c) case None => None case Some(p) => Some((p as bv8) as bv32)
  }

  function Unpack(v0: bv32, v1: bv32, v2: bv32, v3: bv32): bv32 {
    (v0 << 18) | (v1 << 12) | (v2 << 6) | v3
  }

  /** The truncating cast to one byte. */
  function Low8(n: bv32): Byte {
    (n & 0xff) as bv8
  }

  function IsPad(c: char): nat {
    if c == PAD then 1 else 0
  }

  /** Byte `k` of a 24-bit word, counted from the top. */
  function ByteAt(n: bv32, k: nat): Byte {
    if k == 0 then Low8(n >> 16) else if k == 1 then Low8(n >> 8) else Low8(n)
  }

  function WordBytes(n: bv32, pad: nat): seq<Byte> {
    [ByteAt(n, 0)] + (if pad < 2 then [ByteAt(n, 1)] else []) + (if pad < 1 then [ByteAt(n, 2)] else [])
  }

  /** The bytes of one group of four characters, or `None` on a foreign character. */
  function GroupBytes(c0: char, c1: char, c2: char, c3: char): Option<seq<Byte>> {
    var v0, v1, v2, v3 := SymbolValue(c0), SymbolValue(c1), SymbolValue(c2), SymbolValue(c3);
    if v0.None? || v1.None? || v2.None? || v3.None? then None
    else Some(WordBytes(Unpack(v0.value, v1.value, v2.value, v3.value), IsPad(c0) + IsPad(c1) + IsPad(c2) + IsPad(c3)))
  }

  /** Trailing characters that do not fill a group are ignored. */
  function Decoded(text: string): Option<seq<Byte>> {
    if |text| < 4 then Some([])
    else match GroupBytes(text[0], text[1], text[2], text[3])
      case None => None
      case Some(bytes) =>
        match Decoded(text[4..])
        case None => None
        case Some(rest) => Some(bytes + rest)
  }

  /** The inner loop: the values and the padding of the four characters from `i` on,
      and the bytes they make. */
  method DecodeGroup(text: string, i: nat) returns (bytes: Option<seq<Byte>>)
    requires i + 4 <= |text|
    ensures bytes == GroupBytes(text[i], text[i + 1], text[i + 2], text[i + 3])
  {
    hide SymbolValue, Unpack, ByteAt;
    var vals := new bv32[4](_ => 0);
    var pad := 0;
    for j := 0 to 4
      invariant forall k :: 0 <= k < j ==> SymbolValue(text[i + k]) == Some(vals[k])
      invariant pad == (if 0 < j then IsPad(text[i]) else 0) + (if 1 < j then IsPad(text[i + 1]) else 0)
                     + (if 2 < j then IsPad(text[i + 2]) else 0) + (if 3 < j then IsPad(text[i + 3]) else 0)
    {
      var b := text[i + j];
      var v := SymbolValue(b);
      if v.None? {
        return None;
      }
      if b == PAD {
        pad := pad + 1;
      }
      vals[j] := v.value;
    }
    var n := Unpack(vals[0], vals[1], vals[2], vals[3]);
    assert SymbolValue(text[i + 0]) == Some(vals[0]) && SymbolValue(text[i + 1]) == Some(vals[1]);
    assert SymbolValue(text[i + 2]) == Some(vals[2]) && SymbolValue(text[i + 3]) == Some(vals[3]);
    var buf := [ByteAt(n, 0)];
    if pad < 2 {
      buf := buf + [ByteAt(n, 1)];
    }
    if pad < 1 {
      buf := buf + [ByteAt(n, 2)];
    }
    assert buf == WordBytes(n, pad);
    bytes := Some(buf);
  }

  method Decode(text: string) returns (r: Option<seq<Byte>>)
    ensures r == Decoded(text)
  {
    hide GroupBytes;
    var buf: seq<Byte> := [];
    var i := 0;
    assert text[0..] == text;
    assert Decoded(text).Some? ==> buf + Decoded(text).value == Decoded(text).value;
    while i + 4 <= |text|
      invariant 0 <= i <= |text|
      invariant Decoded(text[i..]).None? ==> Decoded(text).None?
      invariant Decoded(text[i..]).Some? ==> Decoded(text) == Some(buf + Decoded(text[i..]).value)
    {
      assert text[i..][4..] == text[i + 4..];
      ghost var before, rest := buf, Decoded(text[i + 4..]);
      var bytes := DecodeGroup(text, i);
      if bytes.None? {
        return None;
      }
      buf := buf + bytes.value;
      assert rest.Some? ==> before + (bytes.value + rest.value) == buf + rest.value;
      i := i + 4;
    }
    assert Decoded(text[i..]) == Some([]);
    assert buf + [] == buf;
    r := Some(buf);
  }

  // -------------------------------------------------------------------- laws

  lemma TableCode(i: nat)
    requires i < 64
    ensures TableAt(i) as int == if i < 26 then 65 + i else if i < 52 then 71 + i else if i < 62 then i - 4 else if i == 62 then 43 else 47
  {}

  lemma TableIsInjective(i: nat, j: nat)
    requires i < 64 && j < 64 && TableAt(i) == TableAt(j)
    ensures i == j && TableAt(i) != PAD
  {
    TableCode(i);
    TableCode(j);
    hide TableAt;
  }

  lemma ValueOfSymbol(v: bv32)
    requires v < 64
    ensures InTable(Symbol(v)) && Symbol(v) != PAD && SymbolValue(Symbol(v)) == Some(v)
  {
    hide TableAt;
    var i: nat := v as int;
    assert TableAt(i) == Symbol(v);
    TableIsInjective(i, Position(Symbol(v)).value);
    CastThroughByte(v);
    TableIsInjective(i, i);
  }

  lemma CastThroughByte(v: bv32)
    requires v < 64
    ensures ((v as int) as bv8) as bv32 == v
  {
    var w := v as bv8;
    assert w as bv32 == v;
    WidenKeepsValue(w);
    assert (w as int) as bv8 == w;
  }

  lemma SmallCastRoundTrip(o: int)
    requires 0 <= o < 64
    ensures (o as bv8) as int == o
  {}

  lemma WidenKeepsValue(w: bv8)
    ensures (w as bv32) as int == w as int
  {}

  lemma SymbolOfValue(c: char)
    requires InTable(c)
    ensures c != PAD && SymbolValue(c).Some? && Symbol(SymbolValue(c).value) == c
  {
    hide TableAt;
    var i: nat :| i < 64 && TableAt(i) == c;
    TableIsInjective(i, Position(c).value);
    var p := Position(c).value;
    SmallCastRoundTrip(p);
    WidenKeepsValue(p as bv8);
  }

  lemma PadValue()
    ensures SymbolValue(PAD) == Some(0)
  {}

  lemma ForeignSymbol(c: char)
    ensures SymbolValue(c).Some? <==> InTable(c) || c == PAD
  {
    hide TableAt;
  }

  /** The lowest `bits` bits (two or four) are zero. */
  predicate ClearLow(v: bv32, bits: nat) {
    if bits == 2 then v & 3 == 0 else v & 15 == 0
  }

  function WordOf(bytes: seq<Byte>): bv32
    requires 1 <= |bytes| <= 3
  {
    Pack(bytes[0], if |bytes| > 1 then bytes[1] else 0, if |bytes| > 2 then bytes[2] else 0)
  }

  lemma PackThenUnpack(b0: Byte, b1: Byte, b2: Byte)
    ensures var n := Pack(b0, b1, b2);
            && Unpack(Sextet(n, 0), Sextet(n, 1), Sextet(n, 2), Sextet(n, 3)) == n
            && Low8(n >> 16) == b0 && Low8(n >> 8) == b1 && Low8(n) == b2
  {}

  lemma ShortPacks(b0: Byte, b1: Byte)
    ensures ClearLow(Sextet(Pack(b0, 0, 0), 1), 4) && Sextet(Pack(b0, 0, 0), 2) == 0 && Sextet(Pack(b0, 0, 0), 3) == 0
    ensures ClearLow(Sextet(Pack(b0, b1, 0), 2), 2) && Sextet(Pack(b0, b1, 0), 3) == 0
  {}

  lemma UnpackThenPack(v0: bv32, v1: bv32, v2: bv32, v3: bv32)
    requires v0 < 64 && v1 < 64 && v2 < 64 && v3 < 64
    ensures var n := Unpack(v0, v1, v2, v3);
            && Pack(Low8(n >> 16), Low8(n >> 8), Low8(n)) == n
            && Sextet(n, 0) == v0 && Sextet(n, 1) == v1 && Sextet(n, 2) == v2 && Sextet(n, 3) == v3
            && (v3 == 0 && ClearLow(v2, 2) ==> Low8(n) == 0)
            && (v3 == 0 && v2 == 0 && ClearLow(v1, 4) ==> Low8(n >> 8) == 0 && Low8(n) == 0)
  {}

  /** The values of the four characters of a group are the sextets of its word. */
  lemma GroupValues(bytes: seq<Byte>)
    requires 1 <= |bytes| <= 3
    ensures var n, g := WordOf(bytes), Group(bytes);
            && SymbolValue(g[0]) == Some(Sextet(n, 0)) && SymbolValue(g[1]) == Some(Sextet(n, 1))
            && SymbolValue(g[2]) == Some(Sextet(n, 2)) && SymbolValue(g[3]) == Some(Sextet(n, 3))
            && InTable(g[0]) && g[0] != PAD
            && InTable(g[1]) && g[1] != PAD
            && (if |bytes| > 1 then InTable(g[2]) && g[2] != PAD else g[2] == PAD)
            && (if |bytes| > 2 then InTable(g[3]) && g[3] != PAD else g[3] == PAD)
  {
    hide Pack, Sextet, Symbol, SymbolValue, InTable;
    var n := WordOf(bytes);
    ShortWord(bytes);
    ValueOfSymbol(Sextet(n, 0));
    ValueOfSymbol(Sextet(n, 1));
    ValueOfSymbol(Sextet(n, 2));
    ValueOfSymbol(Sextet(n, 3));
    PadValue();
  }

  lemma ShortWord(bytes: seq<Byte>)
    requires 1 <= |bytes| <= 3
    ensures |bytes| < 3 ==> Sextet(WordOf(bytes), 3) == 0
    ensures |bytes| == 1 ==> Sextet(WordOf(bytes), 2) == 0 && ClearLow(Sextet(WordOf(bytes), 1), 4)
    ensures |bytes| == 2 ==> ClearLow(Sextet(WordOf(bytes), 2), 2)
  {
    ShortPacks(bytes[0], if |bytes| > 1 then bytes[1] else 0);
    hide Pack, Sextet;
  }

  lemma PackedBytes(b0: Byte, b1: Byte, b2: Byte)
    ensures var n := Pack(b0, b1, b2); ByteAt(n, 0) == b0 && ByteAt(n, 1) == b1 && ByteAt(n, 2) == b2
  {}

  lemma ByteOfWord(bytes: seq<Byte>, k: nat)
    requires k < |bytes| <= 3
    ensures ByteAt(WordOf(bytes), k) == bytes[k]
  {
    hide Pack, ByteAt;
    PackedBytes(bytes[0], if |bytes| > 1 then bytes[1] else 0, if |bytes| > 2 then bytes[2] else 0);
  }

  /** The bytes that a word of `k` packed bytes yields are those bytes. */
  lemma BytesOfWord(bytes: seq<Byte>)
    requires 1 <= |bytes| <= 3
    ensures WordBytes(WordOf(bytes), 3 - |bytes|) == bytes
  {
    hide WordOf, ByteAt;
    ByteOfWord(bytes, 0);
    if |bytes| > 1 {
      ByteOfWord(bytes, 1);
    }
    if |bytes| > 2 {
      ByteOfWord(bytes, 2);
    }
  }

  lemma WordFromSextets(bytes: seq<Byte>)
    requires 1 <= |bytes| <= 3
    ensures var n := WordOf(bytes); Unpack(Sextet(n, 0), Sextet(n, 1), Sextet(n, 2), Sextet(n, 3)) == n
  {
    PackThenUnpack(bytes[0], if |bytes| > 1 then bytes[1] else 0, if |bytes| > 2 then bytes[2] else 0);
    hide Pack, Low8, Unpack, Sextet;
  }

  /** A full or a padded group decodes to the one, two or three bytes it was made from. */
  lemma GroupRoundTrip(bytes: seq<Byte>)
    requires 1 <= |bytes| <= 3
    ensures var g := Group(bytes); GroupBytes(g[0], g[1], g[2], g[3]) == Some(bytes)
  {
    hide WordOf, Unpack, Sextet, SymbolValue, Group, WordBytes, InTable;
    GroupValues(bytes);
    BytesOfWord(bytes);
    WordFromSextets(bytes);
  }

  /** Decoding takes one group off the front. */
  lemma DecodedStep(group: string, rest: string)
    requires |group| == 4
    ensures Decoded(group + rest) ==
            match GroupBytes(group[0], group[1], group[2], group[3])
            case None => None
            case Some(bytes) =>
              match Decoded(rest)
              case None => None
              case Some(more) => Some(bytes + more)
  {
    hide GroupBytes;
    assert (group + rest)[4..] == rest;
  }

  /** Decoding undoes encoding, and the length is that of section 4 of RFC 4648. */
  lemma {:induction false} RoundTrip(bytes: seq<Byte>)
    ensures Decoded(Encoded(bytes)) == Some(bytes)
    ensures |Encoded(bytes)| == 4 * ((|bytes| + 2) / 3)
  {
    hide Group, GroupBytes;
    if 0 < |bytes| < 3 {
      GroupRoundTrip(bytes);
      DecodedStep(Group(bytes), "");
      assert Group(bytes) + "" == Group(bytes);
      assert bytes + [] == bytes;
    } else if bytes != [] {
      GroupRoundTrip(bytes[..3]);
      RoundTrip(bytes[3..]);
      DecodedStep(Group(bytes[..3]), Encoded(bytes[3..]));
      assert bytes == bytes[..3] + bytes[3..];
    }
  }

  /** Exactly the texts whose complete groups hold only table characters and `=` are accepted. */
  lemma {:induction false} AcceptedIff(text: string)
    ensures Decoded(text).Some? <==>
            forall k :: 0 <= k < |text| / 4 * 4 ==> InTable(text[k]) || text[k] == PAD
  {
    hide SymbolValue, InTable, WordBytes, Unpack;
    if |text| >= 4 {
      AcceptedIff(text[4..]);
      ForeignSymbol(text[0]);
      ForeignSymbol(text[1]);
      ForeignSymbol(text[2]);
      ForeignSymbol(text[3]);
      assert forall k :: 4 <= k < |text| / 4 * 4 ==> text[k] == text[4..][k - 4];
      assert forall k :: 0 <= k < |text[4..]| / 4 * 4 ==> text[4..][k] == text[k + 4];
    }
  }

  /** Padding only at the end, and the bits it leaves unused are zero. */
  ghost predicate Canonical(text: string) {
    var n := |text|;
    && n % 4 == 0
    && (forall k :: 0 <= k < n ==> InTable(text[k]) || (text[k] == PAD && n - 2 <= k))
    && (n > 0 && text[n - 2] == PAD ==> text[n - 1] == PAD && SymbolValue(text[n - 3]).Some? && ClearLow(SymbolValue(text[n - 3]).value, 4))
    && (n > 0 && text[n - 2] != PAD && text[n - 1] == PAD ==> SymbolValue(text[n - 2]).Some? && ClearLow(SymbolValue(text[n - 2]).value, 2))
  }

  /** A word whose unused bits are zero is the word of the bytes it yields. */
  lemma WordOfBytes(v0: bv32, v1: bv32, v2: bv32, v3: bv32, pad: nat)
    requires v0 < 64 && v1 < 64 && v2 < 64 && v3 < 64 && pad < 3
    requires pad > 0 ==> v3 == 0 && ClearLow(v2, 2)
    requires pad > 1 ==> v2 == 0 && ClearLow(v1, 4)
    ensures var n := Unpack(v0, v1, v2, v3);
            var bytes := WordBytes(n, pad);
            && |bytes| == 3 - pad && WordOf(bytes) == n
            && Sextet(n, 0) == v0 && Sextet(n, 1) == v1 && Sextet(n, 2) == v2 && Sextet(n, 3) == v3
  {
    UnpackThenPack(v0, v1, v2, v3);
    hide Pack, Low8, Unpack, Sextet, ClearLow;
  }

  /** A canonical group of four is restored, and only the last one may be short. */
  lemma CanonicalGroup(group: string)
    requires |group| == 4 && Canonical(group)
    ensures var r := GroupBytes(group[0], group[1], group[2], group[3]);
            r.Some? && 1 <= |r.value| <= 3 && (group[3] != PAD ==> |r.value| == 3) && Group(r.value) == group
  {
    hide WordBytes, Pack, Unpack, Sextet, SymbolValue, InTable, Symbol, ClearLow;
    assert InTable(group[0]) && InTable(group[1]);
    SymbolOfValue(group[0]);
    SymbolOfValue(group[1]);
    PadValue();
    assert ClearLow(0, 2) by { ZeroIsClear(); }
    if group[2] != PAD { SymbolOfValue(group[2]); }
    if group[3] != PAD { SymbolOfValue(group[3]); }
    WordOfBytes(SymbolValue(group[0]).value, SymbolValue(group[1]).value, SymbolValue(group[2]).value,
                SymbolValue(group[3]).value, IsPad(group[2]) + IsPad(group[3]));
  }

  lemma ZeroIsClear()
    ensures ClearLow(0, 2)
  {}

  lemma {:induction false} CanonicalIsRestored(text: string)
    requires Canonical(text)
    ensures Decoded(text).Some? && Encoded(Decoded(text).value) == text
  {
    hide SymbolValue, InTable, Group, GroupBytes;
    if |text| > 0 {
      var head, rest := text[..4], text[4..];
      assert forall k :: 0 <= k < |rest| ==> rest[k] == text[k + 4];
      if |text| > 4 {
        assert InTable(head[2]) && InTable(head[3]);
        SymbolOfValue(head[2]);
        SymbolOfValue(head[3]);
      }
      CanonicalGroup(head);
      CanonicalIsRestored(rest);
      var bytes, more := GroupBytes(head[0], head[1], head[2], head[3]).value, Decoded(rest).value;
      assert text == head + rest;
      if |text| == 4 {
        assert bytes + more == bytes && |bytes[..]| == |bytes|;
        assert |bytes| == 3 ==> bytes[..3] == bytes && bytes[3..] == [];
      } else {
        assert (bytes + more)[..3] == bytes && (bytes + more)[3..] == more;
      }
    }
  }

  lemma {:induction false} EncodedIsCanonical(bytes: seq<Byte>)
    ensures Canonical(Encoded(bytes))
  {
    hide SymbolValue, InTable, Group;
    if bytes != [] {
      var first := if |bytes| < 3 then bytes else bytes[..3];
      GroupValues(first);
      ShortWord(first);
      if |bytes| >= 3 {
        EncodedIsCanonical(bytes[3..]);
        var text, rest := Encoded(bytes), Encoded(bytes[3..]);
        assert forall k :: 4 <= k < |text| ==> text[k] == rest[k - 4];
      }
    }
  }

  /** Encoding restores an accepted text exactly when the text is canonical. */
  lemma EncodingRestoresIff(text: string)
    ensures (Decoded(text).Some? && Encoded(Decoded(text).value) == text) <==> Canonical(text)
  {
    if Canonical(text) {
      CanonicalIsRestored(text);
    }
    if Decoded(text).Some? && Encoded(Decoded(text).value) == text {
      EncodedIsCanonical(Decoded(text).value);
    }
  }
}
