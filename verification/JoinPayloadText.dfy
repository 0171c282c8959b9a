/** The text that an approval signs: which parameter stands under which name. */
module JoinPayloadText {
  import opened Common
  import opened Utf16
  import opened CanonicalJson
  import opened CanonicalJsonText
  import opened JoinPayload
  import CanonicalJsonLaws

  /** The code units of an ASCII text. */
  function Units(s: string): Text {
    seq(|s|, i requires 0 <= i < |s| => if s[i] as int < 0x80 then s[i] as int else 0)
  }

  lemma NamesAre()
    ensures JOIN_BATCH_ID == Units("join_batch_id")
    ensures SERVER_NONCE == Units("server_nonce")
  {}

  lemma LongNamesAre()
    ensures APPROVER_USER_ID == Units("approver_user_id")
    ensures APPROVER_DEVICE_ID == Units("approver_device_id")
  {}

  lemma HashNameIs()
    ensures BATCH_CONTENT_HASH == Units("batch_content_hash")
  {}

  lemma ApproverOrder()
    ensures Less(APPROVER_DEVICE_ID, APPROVER_USER_ID)
  {
    assert APPROVER_DEVICE_ID[..9] == APPROVER_USER_ID[..9];
    assert FirstDifference(APPROVER_DEVICE_ID, APPROVER_USER_ID, 9);
    LessIff(APPROVER_DEVICE_ID, APPROVER_USER_ID);
  }

  lemma FirstUnitDecides(a: Text, b: Text)
    requires a != [] && b != [] && a[0] < b[0]
    ensures Less(a, b)
  {}

  lemma NamesAreOrdered()
    ensures Less(APPROVER_DEVICE_ID, APPROVER_USER_ID) && Less(APPROVER_DEVICE_ID, BATCH_CONTENT_HASH)
    ensures Less(APPROVER_DEVICE_ID, JOIN_BATCH_ID) && Less(APPROVER_DEVICE_ID, SERVER_NONCE)
    ensures Less(APPROVER_USER_ID, BATCH_CONTENT_HASH) && Less(APPROVER_USER_ID, JOIN_BATCH_ID)
    ensures Less(APPROVER_USER_ID, SERVER_NONCE) && Less(BATCH_CONTENT_HASH, JOIN_BATCH_ID)
    ensures Less(BATCH_CONTENT_HASH, SERVER_NONCE) && Less(JOIN_BATCH_ID, SERVER_NONCE)
  {
    hide Less;
    ApproverOrder();
    FirstUnitDecides(APPROVER_DEVICE_ID, BATCH_CONTENT_HASH);
    FirstUnitDecides(APPROVER_DEVICE_ID, JOIN_BATCH_ID);
    FirstUnitDecides(APPROVER_DEVICE_ID, SERVER_NONCE);
    FirstUnitDecides(APPROVER_USER_ID, BATCH_CONTENT_HASH);
    FirstUnitDecides(APPROVER_USER_ID, JOIN_BATCH_ID);
    FirstUnitDecides(APPROVER_USER_ID, SERVER_NONCE);
    FirstUnitDecides(BATCH_CONTENT_HASH, JOIN_BATCH_ID);
    FirstUnitDecides(BATCH_CONTENT_HASH, SERVER_NONCE);
    FirstUnitDecides(JOIN_BATCH_ID, SERVER_NONCE);
  }

  /** The fields in the order of their names. */
  function InOrder(p: Params): seq<Entry<Json>> {
    [Entry(APPROVER_DEVICE_ID, Str(p.approverDeviceId)), Entry(APPROVER_USER_ID, Num(p.approverUserId)),
     Entry(BATCH_CONTENT_HASH, Str(p.batchContentHash)), Entry(JOIN_BATCH_ID, Str(p.joinBatchId)),
     Entry(SERVER_NONCE, Str(p.serverNonce))]
  }

  lemma {:induction false} SameElementsSame(fs: seq<Entry<Json>>, gs: seq<Entry<Json>>)
    requires DistinctKeys(fs) && DistinctKeys(gs) && forall e :: e in fs <==> e in gs
    requires forall i :: 0 <= i < |fs| ==> fs[i].value.Str? || fs[i].value.Num?
    ensures Same(Obj(fs), Obj(gs))
  {
    forall i, j | 0 <= i < |fs| && 0 <= j < |gs| && fs[i].key == gs[j].key ensures Same(fs[i].value, gs[j].value) {
      assert fs[i] in gs;
      var k :| 0 <= k < |gs| && gs[k] == fs[i];
      assert k == j;
    }
    forall key ensures key in Keys(fs) <==> key in Keys(gs) {
      if key in Keys(fs) {
        var i :| 0 <= i < |fs| && fs[i].key == key;
        assert fs[i] in gs;
      }
      if key in Keys(gs) {
        var i :| 0 <= i < |gs| && gs[i].key == key;
        assert gs[i] in fs;
      }
    }
  }

  lemma DistinctOrdered(p: Params)
    ensures DistinctKeys(InOrder(p)) && IsValue(Obj(InOrder(p)))
  {
    NamesAreOrdered();
    CanonicalJsonLaws.LessIsTotal(APPROVER_DEVICE_ID, APPROVER_USER_ID);
    CanonicalJsonLaws.LessIsTotal(APPROVER_DEVICE_ID, BATCH_CONTENT_HASH);
    CanonicalJsonLaws.LessIsTotal(APPROVER_USER_ID, BATCH_CONTENT_HASH);
    CanonicalJsonLaws.LessIsTotal(BATCH_CONTENT_HASH, JOIN_BATCH_ID);
    CanonicalJsonLaws.LessIsTotal(APPROVER_DEVICE_ID, JOIN_BATCH_ID);
    CanonicalJsonLaws.LessIsTotal(APPROVER_USER_ID, JOIN_BATCH_ID);
    CanonicalJsonLaws.LessIsTotal(APPROVER_DEVICE_ID, SERVER_NONCE);
    CanonicalJsonLaws.LessIsTotal(APPROVER_USER_ID, SERVER_NONCE);
    CanonicalJsonLaws.LessIsTotal(BATCH_CONTENT_HASH, SERVER_NONCE);
    CanonicalJsonLaws.LessIsTotal(JOIN_BATCH_ID, SERVER_NONCE);
    hide Less;
  }

  lemma OrderedPrintsSame(p: Params)
    ensures Canonical(PayloadObject(p)) == Canonical(Obj(InOrder(p)))
  {
    var fs, gs := PayloadObject(p).fields, InOrder(p);
    PayloadKeys(p);
    DistinctOrdered(p);
    assert fs[0] == gs[3] && fs[1] == gs[1] && fs[2] == gs[0] && fs[3] == gs[4] && fs[4] == gs[2];
    SameElementsSame(fs, gs);
    hide Canonical, Same;
    CanonicalJsonLaws.SameTextIff(PayloadObject(p), Obj(gs));
  }

  /** A member after a comma or before the closing brace. */
  function Then(name: Text, v: Json, rest: Text): Text {
    [0x2C] + (Member(name, v) + rest)
  }

  lemma OrderedTextIs(p: Params)
    ensures Canonical(Obj(InOrder(p))) ==
            [0x7B] + (Member(APPROVER_DEVICE_ID, Str(p.approverDeviceId)) +
              Then(APPROVER_USER_ID, Num(p.approverUserId),
                Then(BATCH_CONTENT_HASH, Str(p.batchContentHash),
                  Then(JOIN_BATCH_ID, Str(p.joinBatchId),
                    Then(SERVER_NONCE, Str(p.serverNonce), [0x7D])))))
  {
    NamesAreOrdered();
    EmptyAre();
    hide Canonical, Less, Member;
    var fields := InOrder(p);
    assert fields[4..] == [Entry(SERVER_NONCE, Str(p.serverNonce))] + [];
    ObjectIs(SERVER_NONCE, Str(p.serverNonce), []);
    assert fields[3..] == [Entry(JOIN_BATCH_ID, Str(p.joinBatchId))] + fields[4..];
    ObjectIs(JOIN_BATCH_ID, Str(p.joinBatchId), fields[4..]);
    assert fields[2..] == [Entry(BATCH_CONTENT_HASH, Str(p.batchContentHash))] + fields[3..];
    ObjectIs(BATCH_CONTENT_HASH, Str(p.batchContentHash), fields[3..]);
    assert fields[1..] == [Entry(APPROVER_USER_ID, Num(p.approverUserId))] + fields[2..];
    ObjectIs(APPROVER_USER_ID, Num(p.approverUserId), fields[2..]);
    assert fields == [Entry(APPROVER_DEVICE_ID, Str(p.approverDeviceId))] + fields[1..];
    ObjectIs(APPROVER_DEVICE_ID, Str(p.approverDeviceId), fields[1..]);
  }

  /** The signed text, member by member: five names in order, each with its parameter. */
  lemma PayloadTextIs(p: Params)
    ensures Canonical(PayloadObject(p)) ==
            [0x7B] + (Member(Units("approver_device_id"), Str(p.approverDeviceId)) +
              Then(Units("approver_user_id"), Num(p.approverUserId),
                Then(Units("batch_content_hash"), Str(p.batchContentHash),
                  Then(Units("join_batch_id"), Str(p.joinBatchId),
                    Then(Units("server_nonce"), Str(p.serverNonce), [0x7D])))))
  {
    hide *;
    OrderedPrintsSame(p);
    OrderedTextIs(p);
    NamesAre();
    LongNamesAre();
    HashNameIs();
  }

  // --------------------------------------------------------------------------- UTF-8

  /** The bytes of a unit: one, two or three; a lone surrogate is replaced. */
  lemma UnitBytesAre(u: CodeUnit)
    ensures u < 0x80 ==> Utf8([u]) == [u]
    ensures 0x80 <= u < 0x800 ==> Utf8([u]) == [0xC0 + u / 0x40, 0x80 + u % 0x40]
    ensures 0x800 <= u && !(0xD800 <= u < 0xE000) ==>
              Utf8([u]) == [0xE0 + u / 0x1000, 0x80 + u / 0x40 % 0x40, 0x80 + u % 0x40]
    ensures 0xD800 <= u < 0xE000 ==> Utf8([u]) == [0xEF, 0xBF, 0xBD]
  {
    assert [u][1..] == [] && Utf8([]) == [];
    assert UnitBytes(u) + [] == UnitBytes(u);
  }

  /** A surrogate pair is one character beyond U+FFFF, in four bytes. */
  lemma PairBytesAre(lead: CodeUnit, trail: CodeUnit)
    requires IsLead(lead) && IsTrail(trail)
    ensures
      var c := 0x1_0000 + (lead - 0xD800) * 0x400 + (trail - 0xDC00);
      Utf8([lead, trail]) == [0xF0 + c / 0x4_0000, 0x80 + c / 0x1000 % 0x40, 0x80 + c / 0x40 % 0x40, 0x80 + c % 0x40]
  {
    assert [lead, trail][2..] == [] && Utf8([]) == [];
    assert PairBytes(lead, trail) + [] == PairBytes(lead, trail);
  }

  lemma Utf8Step(a: Text, b: Text)
    requires a != [] && CutsNoPair(a, b)
    ensures
      var k := FirstPiece(a);
      var bytes := if k == 2 then PairBytes(a[0], a[1]) else UnitBytes(a[0]);
      Utf8(a) == bytes + Utf8(a[k..]) && Utf8(a + b) == bytes + Utf8(a[k..] + b)
  {
    hide PairBytes, UnitBytes;
    var k := FirstPiece(a);
    assert (a + b)[k..] == a[k..] + b && (a + b)[..k] == a[..k];
    assert StartsWithPair(a + b) == StartsWithPair(a);
  }

  /** Texts are encoded piece by piece, wherever no surrogate pair is cut in two. */
  lemma {:induction false} Utf8Concat(a: Text, b: Text)
    requires CutsNoPair(a, b)
    ensures Utf8(a + b) == Utf8(a) + Utf8(b)
    decreases |a|
  {
    if a == [] {
      assert a + b == b && Utf8([]) == [];
    } else {
      Utf8Step(a, b);
      CutLater(a, b, FirstPiece(a));
      hide Utf8, PairBytes, UnitBytes, CutsNoPair;
      Utf8Concat(a[FirstPiece(a)..], b);
    }
  }
}
