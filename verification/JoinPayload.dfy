/** The signed join approval: canonical JSON, then UTF-8, then base64. */
module JoinPayload {
  import opened Common
  import opened Utf16
  import opened CanonicalJson
  import CanonicalJsonLaws
  import Base64

  // ------------------------------------------------------------------- UTF-8

  // What TextEncoder writes for a lone surrogate (U+FFFD).
  const REPLACEMENT: seq<Octet> := [0xEF, 0xBF, 0xBD]

  function PairBytes(lead: CodeUnit, trail: CodeUnit): seq<Octet>
    requires IsLead(lead) && IsTrail(trail)
  {
    var c := 0x1_0000 + (lead - 0xD800) * 0x400 + (trail - 0xDC00);
    [0xF0 + c / 0x4_0000, 0x80 + c / 0x1000 % 0x40, 0x80 + c / 0x40 % 0x40, 0x80 + c % 0x40]
  }

  function UnitBytes(u: CodeUnit): seq<Octet> {
    if u < 0x80 then [u]
    else if u < 0x800 then [0xC0 + u / 0x40, 0x80 + u % 0x40]
    else if IsSurrogate(u) then REPLACEMENT
    else [0xE0 + u / 0x1000, 0x80 + u / 0x40 % 0x40, 0x80 + u % 0x40]
  }

  function Utf8(t: Text): seq<Octet> {
    if t == [] then []
    else if StartsWithPair(t) then PairBytes(t[0], t[1]) + Utf8(t[2..])
    else UnitBytes(t[0]) + Utf8(t[1..])
  }

  predicate IsContinuation(o: Octet) {
    0x80 <= o < 0xC0
  }

  /** The payload bits of a byte whose marker is `base`. */
  function Bits(o: Octet, base: int): int {
    o - base
  }

  function CodePoint(b0: Octet, b1: Octet, b2: Octet, b3: Octet): int {
    Bits(b0, 0xF0) * 0x4_0000 + Bits(b1, 0x80) * 0x1000 + Bits(b2, 0x80) * 0x40 + Bits(b3, 0x80)
  }

  /** The text of a byte sequence, where the lead byte of each character tells its length. */
  function FromUtf8(bytes: seq<Octet>): Option<Text> {
    if bytes == [] then Some([])
    else
      var b := bytes[0];
      if b < 0x80 then Prefixed([b], FromUtf8(bytes[1..]))
      else if 0xC0 <= b < 0xE0 && |bytes| >= 2 && IsContinuation(bytes[1]) then
        Prefixed([Bits(b, 0xC0) * 0x40 + Bits(bytes[1], 0x80)], FromUtf8(bytes[2..]))
      else if 0xE0 <= b < 0xF0 && |bytes| >= 3 && IsContinuation(bytes[1]) && IsContinuation(bytes[2]) then
        Prefixed([Bits(b, 0xE0) * 0x1000 + Bits(bytes[1], 0x80) * 0x40 + Bits(bytes[2], 0x80)], FromUtf8(bytes[3..]))
      else if 0xF0 <= b && |bytes| >= 4 && IsContinuation(bytes[1]) && IsContinuation(bytes[2]) && IsContinuation(bytes[3]) then
        var c := CodePoint(b, bytes[1], bytes[2], bytes[3]) - 0x1_0000;
        if 0 <= c < 0x10_0000 then Prefixed([0xD800 + c / 0x400, 0xDC00 + c % 0x400], FromUtf8(bytes[4..])) else None
      else None
  }

  function Prefixed(head: Text, tail: Option<Text>): Option<Text> {
    match tail case None => None case Some(t) => Some(head + t)
  }

  lemma PairRoundTrip(lead: CodeUnit, trail: CodeUnit, rest: seq<Octet>)
    requires IsLead(lead) && IsTrail(trail)
    ensures FromUtf8(PairBytes(lead, trail) + rest) == Prefixed([lead, trail], FromUtf8(rest))
  {
    var bytes := PairBytes(lead, trail) + rest;
    var a, b := lead - 0xD800, trail - 0xDC00;
    var c := 0x1_0000 + a * 0x400 + b;
    SplitCodePoint(c);
    assert bytes[4..] == rest;
    assert CodePoint(bytes[0], bytes[1], bytes[2], bytes[3]) == c;
    assert (a * 0x400 + b) / 0x400 == a && (a * 0x400 + b) % 0x400 == b;
    assert [0xD800 + a, 0xDC00 + b] == [lead, trail];
  }

  lemma SplitCodePoint(c: int)
    requires 0x1_0000 <= c < 0x11_0000
    ensures c / 0x4_0000 * 0x4_0000 + c / 0x1000 % 0x40 * 0x1000 + c / 0x40 % 0x40 * 0x40 + c % 0x40 == c
  {
    var x := c / 0x40;
    var y := c / 0x1000;
    assert y == x / 0x40 && c / 0x4_0000 == y / 0x40;
  }

  lemma UnitRoundTrip(u: CodeUnit, rest: seq<Octet>)
    requires !IsSurrogate(u)
    ensures FromUtf8(UnitBytes(u) + rest) == Prefixed([u], FromUtf8(rest))
  {
    var bytes := UnitBytes(u) + rest;
    assert bytes[|UnitBytes(u)|..] == rest;
    if u >= 0x800 {
      var x := u / 0x40;
      assert u / 0x1000 == x / 0x40;
      assert x / 0x40 * 0x1000 + x % 0x40 * 0x40 + u % 0x40 == u;
    }
  }

  lemma {:induction false} Utf8RoundTrip(t: Text)
    requires WellFormed(t)
    ensures FromUtf8(Utf8(t)) == Some(t)
    decreases |t|
  {
    hide FromUtf8, PairBytes, UnitBytes;
    if t == [] {
      EmptyUtf8();
    } else if StartsWithPair(t) {
      Utf8RoundTrip(t[2..]);
      PairRoundTrip(t[0], t[1], Utf8(t[2..]));
      assert t == [t[0], t[1]] + t[2..];
    } else {
      Utf8RoundTrip(t[1..]);
      UnitRoundTrip(t[0], Utf8(t[1..]));
      assert t == [t[0]] + t[1..];
    }
  }

  lemma EmptyUtf8()
    ensures FromUtf8([]) == Some([])
  {}

  // ----------------------------------- canonical text has no lone surrogate

  lemma {:induction false} PlainUnits(t: Text)
    requires forall i :: 0 <= i < |t| ==> !IsSurrogate(t[i])
    ensures WellFormed(t)
  {
    if t != [] {
      PlainUnits(t[1..]);
    }
  }

  lemma {:induction false} DecimalIsDigits(n: nat)
    ensures forall i :: 0 <= i < |Decimal(n)| ==> IsDigit(Decimal(n)[i])
  {
    if n >= 10 { DecimalIsDigits(n / 10); }
  }

  lemma {:induction false} EscapeIsWellFormed(s: Text)
    ensures WellFormed(Escape(s))
    decreases |s|
  {
    if s == [] {
    } else if StartsWithPair(s) {
      EscapeIsWellFormed(s[2..]);
      assert s[..2][2..] == [];
      WellFormedConcat(s[..2], Escape(s[2..]));
    } else {
      EscapeIsWellFormed(s[1..]);
      PlainUnits(EscapeUnit(s[0]));
      WellFormedConcat(EscapeUnit(s[0]), Escape(s[1..]));
    }
  }

  lemma QuotedIsWellFormed(s: Text)
    ensures WellFormed(Quoted(s))
  {
    EscapeIsWellFormed(s);
    WellFormedConcat([QUOTE], Escape(s));
    WellFormedConcat([QUOTE] + Escape(s), [QUOTE]);
  }

  lemma {:induction false} JoinIsWellFormed(parts: seq<Text>)
    requires forall i :: 0 <= i < |parts| ==> WellFormed(parts[i])
    ensures WellFormed(Join(parts))
  {
    if |parts| > 1 {
      JoinIsWellFormed(parts[1..]);
      WellFormedConcat(parts[0], [COMMA]);
      WellFormedConcat(parts[0] + [COMMA], Join(parts[1..]));
    }
  }

  lemma {:induction false} MembersAreWellFormed(es: seq<Entry<Text>>)
    requires forall i :: 0 <= i < |es| ==> WellFormed(es[i].value)
    ensures forall i :: 0 <= i < |Members(es)| ==> WellFormed(Members(es)[i])
  {
    hide WellFormed, Quoted;
    if es != [] {
      MembersAreWellFormed(es[1..]);
      QuotedIsWellFormed(es[0].key);
      ColonIsWellFormed();
      WellFormedConcat(Quoted(es[0].key), [COLON]);
      WellFormedConcat(Quoted(es[0].key) + [COLON], es[0].value);
    }
  }

  lemma ColonIsWellFormed()
    ensures WellFormed([COLON])
  {}

  /** No canonical text holds a lone surrogate, whatever strings it was made from. */
  lemma {:induction false} CanonicalIsWellFormed(v: Json)
    ensures WellFormed(Canonical(v))
    decreases v, 0
  {
    match v
    case Num(n) =>
      DecimalIsDigits(if n < 0 then -n else n);
      PlainUnits(Canonical(v));
    case Str(s) => QuotedIsWellFormed(s);
    case Arr(items) =>
      ItemsAreWellFormed(items);
      Enclosed(OPEN_BRACKET, CanonicalItems(items), CLOSE_BRACKET);
    case Obj(fields) =>
      FieldsAreWellFormed(fields);
      var es := CanonicalFields(fields);
      CanonicalJsonLaws.SortKeepsElements(es);
      forall i | 0 <= i < |SortByKey(es)| ensures WellFormed(SortByKey(es)[i].value) {
        assert SortByKey(es)[i] in es;
      }
      MembersAreWellFormed(SortByKey(es));
      Enclosed(OPEN_BRACE, Members(SortByKey(es)), CLOSE_BRACE);
    case _ => PlainUnits(Canonical(v));
  }

  lemma Enclosed(open: CodeUnit, parts: seq<Text>, close: CodeUnit)
    requires !IsSurrogate(open) && !IsSurrogate(close) && forall i :: 0 <= i < |parts| ==> WellFormed(parts[i])
    ensures WellFormed([open] + Join(parts) + [close])
  {
    JoinIsWellFormed(parts);
    WellFormedConcat([open], Join(parts));
    WellFormedConcat([open] + Join(parts), [close]);
  }

  lemma {:induction false} ItemsAreWellFormed(items: seq<Json>)
    ensures forall i :: 0 <= i < |CanonicalItems(items)| ==> WellFormed(CanonicalItems(items)[i])
    decreases items, 0
  {
    if items != [] {
      CanonicalIsWellFormed(items[0]);
      ItemsAreWellFormed(items[1..]);
    }
  }

  lemma {:induction false} FieldsAreWellFormed(fields: seq<Entry<Json>>)
    ensures forall i :: 0 <= i < |CanonicalFields(fields)| ==> WellFormed(CanonicalFields(fields)[i].value)
    decreases fields, 0
  {
    if fields != [] {
      CanonicalIsWellFormed(fields[0].value);
      FieldsAreWellFormed(fields[1..]);
    }
  }

  // ------------------------------------------------------------------ base64

  /** The byte with value `o`, from its two hexadecimal digits. */
  function ToByte(o: Octet): Base64.Byte {
    (((o / 16) as bv8) << 4) | ((o % 16) as bv8)
  }

  function FromByte(b: Base64.Byte): Octet {
    ((b >> 4) as int) * 16 + ((b & 15) as int)
  }

  function Bytes(octets: seq<Octet>): (r: seq<Base64.Byte>)
    ensures |r| == |octets| && forall i :: 0 <= i < |octets| ==> r[i] == ToByte(octets[i])
  {
    if octets == [] then [] else [ToByte(octets[0])] + Bytes(octets[1..])
  }

  function Octets(bytes: seq<Base64.Byte>): (r: seq<Octet>)
    ensures |r| == |bytes| && forall i :: 0 <= i < |bytes| ==> r[i] == FromByte(bytes[i])
  {
    if bytes == [] then [] else [FromByte(bytes[0])] + Octets(bytes[1..])
  }

  lemma NibbleRoundTrip(d: int)
    requires 0 <= d < 16
    ensures (d as bv8) as int == d && (d as bv8) < 16
  {}

  lemma SplitByte(h: bv8, l: bv8)
    requires h < 16 && l < 16
    ensures ((h << 4) | l) >> 4 == h && ((h << 4) | l) & 15 == l
  {}

  lemma FromToByte(o: Octet)
    ensures FromByte(ToByte(o)) == o
  {
    NibbleRoundTrip(o / 16);
    NibbleRoundTrip(o % 16);
    SplitByte((o / 16) as bv8, (o % 16) as bv8);
  }

  lemma OctetsOfBytes(octets: seq<Octet>)
    ensures Octets(Bytes(octets)) == octets
  {
    hide ToByte, FromByte;
    forall i | 0 <= i < |octets| ensures Octets(Bytes(octets))[i] == octets[i] {
      FromToByte(octets[i]);
    }
  }

  /** `btoa` of the string whose code units are the UTF-8 bytes. */
  method Base64EncodeUtf8(str: Text) returns (r: string)
    ensures r == Base64.Encoded(Bytes(Utf8(str)))
  {
    hide Bytes, ToByte;
    var bytes := Utf8(str);
    var binary: seq<Base64.Byte> := [];
    var i := 0;
    while i < |bytes|
      invariant 0 <= i <= |bytes|
      invariant binary == Bytes(bytes)[..i]
    {
      assert Bytes(bytes)[..i + 1] == Bytes(bytes)[..i] + [Bytes(bytes)[i]];
      binary := binary + [ToByte(bytes[i])];
      i := i + 1;
    }
    assert binary == Bytes(bytes);
    r := Base64.Encode(binary);
  }

  datatype Params = Params(
    joinBatchId: Text,
    approverUserId: SafeInteger,
    approverDeviceId: Text,
    serverNonce: Text,
    batchContentHash: Text)

  // The field names, as code units.
  const JOIN_BATCH_ID: Text := [0x6A, 0x6F, 0x69, 0x6E, 0x5F, 0x62, 0x61, 0x74, 0x63, 0x68, 0x5F, 0x69, 0x64]
  const APPROVER_USER_ID: Text := [0x61, 0x70, 0x70, 0x72, 0x6F, 0x76, 0x65, 0x72, 0x5F, 0x75, 0x73, 0x65, 0x72, 0x5F, 0x69, 0x64]
  const APPROVER_DEVICE_ID: Text := [0x61, 0x70, 0x70, 0x72, 0x6F, 0x76, 0x65, 0x72, 0x5F, 0x64, 0x65, 0x76, 0x69, 0x63, 0x65, 0x5F, 0x69, 0x64]
  const SERVER_NONCE: Text := [0x73, 0x65, 0x72, 0x76, 0x65, 0x72, 0x5F, 0x6E, 0x6F, 0x6E, 0x63, 0x65]
  const BATCH_CONTENT_HASH: Text := [0x62, 0x61, 0x74, 0x63, 0x68, 0x5F, 0x63, 0x6F, 0x6E, 0x74, 0x65, 0x6E, 0x74, 0x5F, 0x68, 0x61, 0x73, 0x68]

  function PayloadObject(p: Params): Json {
    Obj([
      Entry(JOIN_BATCH_ID, Str(p.joinBatchId)),
      Entry(APPROVER_USER_ID, Num(p.approverUserId)),
      Entry(APPROVER_DEVICE_ID, Str(p.approverDeviceId)),
      Entry(SERVER_NONCE, Str(p.serverNonce)),
      Entry(BATCH_CONTENT_HASH, Str(p.batchContentHash))])
  }

  function Payload(p: Params): string {
    Base64.Encoded(Bytes(Utf8(Canonical(PayloadObject(p)))))
  }

  method BuildApproveJoinPayload(p: Params) returns (payload: string)
    ensures payload == Payload(p)
  {
    var json := Canonical(PayloadObject(p));
    payload := Base64EncodeUtf8(json);
  }

  /** Decoding base64, then UTF-8, then JSON gives back the payload object. */
  lemma PayloadIsReadable(p: Params)
    ensures var bytes := Base64.Decoded(Payload(p));
            && bytes.Some?
            && FromUtf8(Octets(bytes.value)) == Some(Canonical(PayloadObject(p)))
            && ParseValue(FromUtf8(Octets(bytes.value)).value) == Ok(Normal(PayloadObject(p)), [])
  {
    hide *;
    var v := PayloadObject(p);
    var octets := Utf8(Canonical(v));
    assert Payload(p) == Base64.Encoded(Bytes(octets)) by { PayloadSteps(p); }
    Base64.RoundTrip(Bytes(octets));
    OctetsOfBytes(octets);
    CanonicalIsWellFormed(v);
    Utf8RoundTrip(Canonical(v));
    CanonicalJsonLaws.ParseUndoesCanonical(v);
  }

  lemma PayloadSteps(p: Params)
    ensures Payload(p) == Base64.Encoded(Bytes(Utf8(Canonical(PayloadObject(p)))))
  {}

  lemma PayloadKeys(p: Params)
    ensures IsValue(PayloadObject(p))
  {
    var keys := [JOIN_BATCH_ID, APPROVER_USER_ID, APPROVER_DEVICE_ID, SERVER_NONCE, BATCH_CONTENT_HASH];
    assert JOIN_BATCH_ID[0] == 0x6A && SERVER_NONCE[0] == 0x73 && BATCH_CONTENT_HASH[0] == 0x62;
    assert |APPROVER_USER_ID| == 16 && |APPROVER_DEVICE_ID| == 18;
    assert APPROVER_USER_ID[0] == 0x61 && APPROVER_DEVICE_ID[0] == 0x61;
  }

  /** The signed text binds all five parameters: equal payloads come from equal approvals. */
  lemma PayloadBindsIff(p: Params, q: Params)
    ensures Payload(p) == Payload(q) <==> p == q
  {
    if Payload(p) == Payload(q) {
      PayloadIsReadable(p);
      PayloadIsReadable(q);
      PayloadKeys(p);
      PayloadKeys(q);
      SameObjectSameParams(p, q);
    }
  }

  lemma SameObjectSameParams(p: Params, q: Params)
    requires IsValue(PayloadObject(p)) && IsValue(PayloadObject(q))
    requires Normal(PayloadObject(p)) == Normal(PayloadObject(q))
    ensures p == q
  {
    hide Normal, SortByKey;
    var v, w := PayloadObject(p), PayloadObject(q);
    CanonicalJsonLaws.NormalEqualIsSame(v, w);
    SameFieldValues(v.fields, w.fields);
    hide Same;
    assert v.fields[0].value == Str(p.joinBatchId) && w.fields[0].value == Str(q.joinBatchId);
    assert v.fields[1].value == Num(p.approverUserId) && w.fields[1].value == Num(q.approverUserId);
    assert v.fields[2].value == Str(p.approverDeviceId) && w.fields[2].value == Str(q.approverDeviceId);
    assert v.fields[3].value == Str(p.serverNonce) && w.fields[3].value == Str(q.serverNonce);
    assert v.fields[4].value == Str(p.batchContentHash) && w.fields[4].value == Str(q.batchContentHash);
  }

  /** Fields with scalar values and the same keys in the same places are equal. */
  lemma SameFieldValues(fs: seq<Entry<Json>>, gs: seq<Entry<Json>>)
    requires Same(Obj(fs), Obj(gs)) && |fs| == |gs|
    requires forall i :: 0 <= i < |fs| ==> fs[i].key == gs[i].key && (fs[i].value.Str? || fs[i].value.Num?)
    ensures fs == gs
  {
    forall i | 0 <= i < |fs| ensures fs[i] == gs[i] {
      assert Same(fs[i].value, gs[i].value);
    }
  }
}
