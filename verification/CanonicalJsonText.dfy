/** Which text `canonicalJSON` prints, character by character (RFC 8259). */
module CanonicalJsonText {
  import opened Utf16
  import opened CanonicalJson
  import opened CanonicalJsonLaws

  // ----------------------------------------------------------- constants and numbers

  /** null, true and false; undefined and functions print as null. */
  lemma ConstantsAre()
    ensures Canonical(Null) == Canonical(Undefined) == Canonical(Callable) == [0x6E, 0x75, 0x6C, 0x6C]
    ensures Canonical(Bool(true)) == [0x74, 0x72, 0x75, 0x65]
    ensures Canonical(Bool(false)) == [0x66, 0x61, 0x6C, 0x73, 0x65]
  {}

  predicate AllDigits(t: Text) {
    forall i :: 0 <= i < |t| ==> 0x30 <= t[i] <= 0x39
  }

  /** The number that decimal digits denote. */
  function DigitsValue(t: Text): int {
    if |t| == 0 then 0 else DigitsValue(t[..|t| - 1]) * 10 + (t[|t| - 1] as int - 0x30)
  }

  lemma {:induction false} DecimalIs(n: nat)
    ensures |Decimal(n)| > 0 && AllDigits(Decimal(n)) && DigitsValue(Decimal(n)) == n
    ensures Decimal(n)[0] == 0x30 ==> n == 0 && |Decimal(n)| == 1
  {
    if n < 10 {
      assert [ZERO + n][..0] == [];
    } else {
      DecimalIs(n / 10);
      assert (Decimal(n / 10) + [ZERO + n % 10])[..|Decimal(n)| - 1] == Decimal(n / 10);
    }
  }

  /** A number is a minus sign if negative and decimal digits without a leading zero. */
  lemma NumberIs(n: SafeInteger)
    ensures n < 0 ==> Canonical(Num(n)) == [0x2D] + Canonical(Num(-n))
    ensures n >= 0 ==>
              var t := Canonical(Num(n));
              |t| > 0 && AllDigits(t) && DigitsValue(t) == n && (t[0] == 0x30 ==> n == 0 && |t| == 1)
  {
    if n >= 0 {
      DecimalIs(n);
    }
  }

  // ------------------------------------------------------------------------- strings

  /** What stands between the quotes of a printed string. */
  function Between(s: Text): (r: Text)
    ensures Canonical(Str(s)) == [0x22] + r + [0x22]
  {
    Escape(s)
  }

  predicate IsVerbatim(u: CodeUnit) {
    u >= 0x20 && u != 0x22 && u != 0x5C && !IsSurrogate(u)
  }

  /** A string without controls, quotes, backslashes and surrogates is printed as it is. */
  lemma {:induction false} VerbatimIsKept(s: Text)
    requires forall i :: 0 <= i < |s| ==> IsVerbatim(s[i])
    ensures Canonical(Str(s)) == [0x22] + s + [0x22]
    ensures Between(s) == s
  {
    if s != [] {
      VerbatimIsKept(s[1..]);
      assert s == [s[0]] + s[1..];
    }
  }

  predicate IsHex(u: CodeUnit) {
    0x30 <= u <= 0x39 || 0x61 <= u <= 0x66
  }

  function HexDigitValue(u: CodeUnit): int {
    u as int - (if u <= 0x39 then 0x30 else 0x57)
  }

  /** The letter after the backslash of a two-character escape: b, t, n, f, r, and quote
      and backslash themselves. */
  predicate IsShort(u: CodeUnit, letter: CodeUnit) {
    || (u == 0x08 && letter == 0x62) || (u == 0x09 && letter == 0x74) || (u == 0x0A && letter == 0x6E)
    || (u == 0x0C && letter == 0x66) || (u == 0x0D && letter == 0x72)
    || (u == 0x22 && letter == 0x22) || (u == 0x5C && letter == 0x5C)
  }

  /** A backslash, u, and the unit in four lower-case hexadecimal digits. */
  predicate IsLong(t: Text, u: CodeUnit) {
    && |t| == 6 && t[0] == 0x5C && t[1] == 0x75
    && IsHex(t[2]) && IsHex(t[3]) && IsHex(t[4]) && IsHex(t[5])
    && u == ((HexDigitValue(t[2]) * 16 + HexDigitValue(t[3])) * 16 + HexDigitValue(t[4])) * 16 + HexDigitValue(t[5])
  }

  /** How a single unit is printed: seven have a two-character escape, the other controls
      and lone surrogates the long one, and all others, the slash among them, none. */
  lemma UnitIs(u: CodeUnit)
    ensures forall letter: CodeUnit :: IsShort(u, letter) <==> Between([u]) == [0x5C, letter]
    ensures IsLong(Between([u]), u) <==>
            (u < 0x20 && u != 0x08 && u != 0x09 && u != 0x0A && u != 0x0C && u != 0x0D) || IsSurrogate(u)
    ensures Between([u]) == [u] <==> IsVerbatim(u)
  {
    assert Escape([u]) == EscapeUnit(u) by {
      assert [u][1..] == [];
      assert EscapeUnit(u) + [] == EscapeUnit(u);
    }
    LongIs(u);
    hide UnicodeEscape;
  }

  lemma LongIs(u: CodeUnit)
    ensures IsLong(UnicodeEscape(u), u)
  {
    HexDigits(u);
    assert u == ((u / 0x1000 * 16 + u / 0x100 % 16) * 16 + u / 16 % 16) * 16 + u % 16;
    HexIs(u / 0x1000);
    HexIs(u / 0x100 % 16);
    HexIs(u / 16 % 16);
    HexIs(u % 16);
    hide HexDigit;
  }

  lemma HexIs(d: nat)
    requires d < 16
    ensures IsHex(HexDigit(d)) && HexDigitValue(HexDigit(d)) == d
  {}

  /** A surrogate pair is printed as it is. */
  lemma PairIsKept(lead: CodeUnit, trail: CodeUnit)
    requires IsLead(lead) && IsTrail(trail)
    ensures Between([lead, trail]) == [lead, trail]
  {
    assert [lead, trail][2..] == [] && [lead, trail][..2] == [lead, trail];
    assert Escape([]) == [] && [lead, trail] + [] == [lead, trail];
  }

  function FirstPiece(a: Text): (k: nat)
    requires a != []
    ensures 0 < k <= |a|
  {
    if StartsWithPair(a) then 2 else 1
  }

  function Piece(a: Text): Text
    requires a != []
  {
    if StartsWithPair(a) then a[..2] else EscapeUnit(a[0])
  }

  ghost predicate CutsNoPair(a: Text, b: Text) {
    a != [] && b != [] && IsLead(a[|a| - 1]) ==> !IsTrail(b[0])
  }

  lemma EscapeStep(a: Text, b: Text)
    requires a != [] && CutsNoPair(a, b)
    ensures Escape(a) == Piece(a) + Escape(a[FirstPiece(a)..])
    ensures Escape(a + b) == Piece(a) + Escape(a[FirstPiece(a)..] + b)
  {
    hide EscapeUnit;
    var k := FirstPiece(a);
    assert (a + b)[k..] == a[k..] + b && (a + b)[..k] == a[..k];
    assert StartsWithPair(a + b) == StartsWithPair(a);
  }

  lemma EscapeEmpty(b: Text)
    ensures Escape([] + b) == Escape([]) + Escape(b)
  {
    assert [] + b == b;
    assert Escape([]) == [];
    hide Escape;
    assert [] + Escape(b) == Escape(b);
  }

  lemma Associate(a: Text, b: Text, c: Text)
    ensures a + (b + c) == (a + b) + c
  {}

  lemma {:induction false} EscapeConcat(a: Text, b: Text)
    requires CutsNoPair(a, b)
    ensures Escape(a + b) == Escape(a) + Escape(b)
    decreases |a|
  {
    hide *;
    if |a| == 0 {
      EscapeEmpty(b);
      assert a == [];
    } else {
      var rest := a[FirstPiece(a)..];
      EscapeStep(a, b);
      CutLater(a, b, FirstPiece(a));
      EscapeConcat(rest, b);
      Associate(Piece(a), Escape(rest), Escape(b));
    }
  }

  lemma CutLater(a: Text, b: Text, k: nat)
    requires CutsNoPair(a, b) && k <= |a|
    ensures CutsNoPair(a[k..], b)
  {}

  /** Strings are printed piece by piece, wherever no surrogate pair is cut in two. */
  lemma PiecesArePrinted(a: Text, b: Text)
    requires CutsNoPair(a, b)
    ensures Between(a + b) == Between(a) + Between(b)
  {
    EscapeConcat(a, b);
    hide Escape, Canonical;
  }

  // -------------------------------------------------------------- arrays and objects

  /** Brackets, commas and no white space. */
  lemma ArrayIs(v: Json, rest: seq<Json>)
    ensures |Canonical(Arr(rest))| > 0
    ensures Canonical(Arr([v] + rest)) ==
            [0x5B] + (Canonical(v) + ((if rest == [] then [] else [0x2C]) + Canonical(Arr(rest))[1..]))
  {
    ItemsStep(v, rest);
    JoinStep(Canonical(v), CanonicalItems(rest));
    ArrayText(rest);
    ArrayText([v] + rest);
    EmptyJoin();
    hide *;
    AssembledIs(0x5B, Canonical(v), Join(CanonicalItems(rest)), 0x5D, rest == []);
  }

  lemma EmptyAre()
    ensures Canonical(Arr([])) == [0x5B, 0x5D]
    ensures Canonical(Obj([])) == [0x7B, 0x7D]
  {}

  lemma ItemsStep(v: Json, rest: seq<Json>)
    ensures CanonicalItems([v] + rest) == [Canonical(v)] + CanonicalItems(rest)
    ensures CanonicalItems([]) == []
    ensures rest == [] <==> CanonicalItems(rest) == []
  {
    assert ([v] + rest)[1..] == rest;
  }

  lemma ArrayText(items: seq<Json>)
    ensures Canonical(Arr(items)) == [0x5B] + (Join(CanonicalItems(items)) + [0x5D])
  {
    var inner := Join(CanonicalItems(items));
    assert [0x5B] + inner + [0x5D] == [0x5B] + (inner + [0x5D]);
  }

  /** The texts agree before `k`, and there the first ends or has the smaller unit. */
  ghost predicate FirstDifference(a: Text, b: Text, k: nat) {
    k <= |a| && k < |b| && a[..k] == b[..k] && (k == |a| || a[k] < b[k])
  }

  /** Keys are ordered by their code units. */
  lemma {:induction false} LessIff(a: Text, b: Text)
    ensures Less(a, b) <==> exists k :: FirstDifference(a, b, k)
  {
    if b != [] && (a == [] || a[0] < b[0]) {
      assert FirstDifference(a, b, 0);
    }
    if a != [] && b != [] && a[0] == b[0] {
      LessIff(a[1..], b[1..]);
      if k: nat :| FirstDifference(a[1..], b[1..], k) {
        assert a[..k + 1] == [a[0]] + a[1..][..k] && b[..k + 1] == [b[0]] + b[1..][..k];
        assert FirstDifference(a, b, k + 1);
      }
      if k: nat :| FirstDifference(a, b, k) {
        assert a[1..][..k - 1] == a[..k][1..] && b[1..][..k - 1] == b[..k][1..];
        assert FirstDifference(a[1..], b[1..], k - 1);
      }
    }
    if k: nat :| FirstDifference(a, b, k) && k > 0 {
      assert a[0] == a[..k][0] && b[0] == b[..k][0];
    }
  }

  /** One member: the key as a string, a colon, the value. */
  function Member(key: Text, v: Json): Text {
    Canonical(Str(key)) + ([0x3A] + Canonical(v))
  }

  lemma {:induction false} FieldsKeepKeys(fields: seq<Entry<Json>>)
    ensures |CanonicalFields(fields)| == |fields|
    ensures forall i :: 0 <= i < |fields| ==> CanonicalFields(fields)[i].key == fields[i].key
  {
    hide Canonical;
    if fields != [] {
      FieldsKeepKeys(fields[1..]);
    }
  }

  lemma SortedHeadStays(e: Entry<Text>, es: seq<Entry<Text>>)
    requires forall i :: 0 <= i < |es| ==> Less(e.key, es[i].key)
    ensures SortByKey([e] + es) == [e] + SortByKey(es)
  {
    assert ([e] + es)[1..] == es;
    if SortByKey(es) != [] {
      SortKeepsElements(es);
      var first := SortByKey(es)[0];
      assert first in es;
      LessIsTotal(e.key, first.key);
    }
  }

  lemma JoinStep(part: Text, parts: seq<Text>)
    ensures Join([part] + parts) == if parts == [] then part else part + [0x2C] + Join(parts)
  {
    assert ([part] + parts)[1..] == parts;
  }

  lemma MembersStep(e: Entry<Text>, es: seq<Entry<Text>>)
    ensures Members([e] + es) == [Quoted(e.key) + [COLON] + e.value] + Members(es)
  {
    assert ([e] + es)[1..] == es;
  }

  lemma {:induction false} SameLengths(es: seq<Entry<Text>>)
    ensures |Members(es)| == |es|
  {
    if es != [] {
      SameLengths(es[1..]);
    }
  }

  lemma FieldsStep(key: Text, v: Json, rest: seq<Entry<Json>>)
    ensures CanonicalFields([Entry(key, v)] + rest) == [Entry(key, Canonical(v))] + CanonicalFields(rest)
  {
    assert ([Entry(key, v)] + rest)[1..] == rest;
  }

  lemma ObjectText(fields: seq<Entry<Json>>)
    ensures Canonical(Obj(fields)) == [0x7B] + (Join(Members(SortByKey(CanonicalFields(fields)))) + [0x7D])
  {
    var inner := Join(Members(SortByKey(CanonicalFields(fields))));
    assert [0x7B] + inner + [0x7D] == [0x7B] + (inner + [0x7D]);
  }

  /** Braces, commas and no white space; the member with the least key comes first. */
  lemma ObjectIs(key: Text, v: Json, rest: seq<Entry<Json>>)
    requires forall i :: 0 <= i < |rest| ==> Less(key, rest[i].key)
    ensures |Canonical(Obj(rest))| > 0
    ensures Canonical(Obj([Entry(key, v)] + rest)) ==
            [0x7B] + (Member(key, v) + ((if rest == [] then [] else [0x2C]) + Canonical(Obj(rest))[1..]))
  {
    var e, es := Entry(key, Canonical(v)), CanonicalFields(rest);
    FieldsKeepKeys(rest);
    ObjectText(rest);
    ObjectText([Entry(key, v)] + rest);
    FieldsStep(key, v, rest);
    SortedHeadStays(e, es);
    MembersStep(e, SortByKey(es));
    var part, parts := Quoted(key) + [COLON] + Canonical(v), Members(SortByKey(es));
    JoinStep(part, parts);
    SortKeepsElements(es);
    SameLengths(SortByKey(es));
    MemberIs(key, v);
    EmptyJoin();
    hide *;
    AssembledIs(0x7B, part, Join(parts), 0x7D, rest == []);
  }

  lemma AssembledIs(open: CodeUnit, part: Text, text: Text, close: CodeUnit, last: bool)
    ensures ([open] + (text + [close]))[1..] == text + [close]
    ensures last && text == [] ==> [open] + (part + [close]) == [open] + (part + ([] + (text + [close])))
    ensures !last ==> [open] + ((part + [0x2C] + text) + [close]) == [open] + (part + ([0x2C] + (text + [close])))
  {
    assert (part + [0x2C] + text) + [close] == part + ([0x2C] + (text + [close]));
  }

  lemma EmptyJoin()
    ensures Join([]) == []
  {}

  lemma MemberIs(key: Text, v: Json)
    ensures Quoted(key) + [COLON] + Canonical(v) == Member(key, v)
  {
    assert Canonical(Str(key)) == Quoted(key);
    hide Quoted, Canonical;
  }
}
