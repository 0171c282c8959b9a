/** The laws of `canonicalJSON`: a parser recovers the value, equal texts mean
    equal values, and the order of insertion does not show at any depth. */
module CanonicalJsonLaws {
  import opened Utf16
  import opened CanonicalJson

  // ------------------------------------------------------------- order of keys

  lemma {:induction false} LessIsTransitive(a: Text, b: Text, c: Text)
    requires Less(a, b) && Less(b, c)
    ensures Less(a, c)
  {
    if a != [] && a[0] == b[0] == c[0] {
      LessIsTransitive(a[1..], b[1..], c[1..]);
    }
  }

  lemma {:induction false} LessIsTotal(a: Text, b: Text)
    ensures Less(a, b) || Less(b, a) || a == b
    ensures !(Less(a, b) && Less(b, a)) && !Less(a, a)
  {
    if a != [] {
      if b != [] && a[0] == b[0] {
        LessIsTotal(a[1..], b[1..]);
      }
      LessIsTotal(a[1..], a[1..]);
      assert a == [a[0]] + a[1..];
      assert b != [] ==> b == [b[0]] + b[1..];
    }
  }

  ghost predicate Sorted<T(!new)>(es: seq<Entry<T>>) {
    forall i, j | 0 <= i < j < |es| :: Less(es[i].key, es[j].key)
  }

  lemma {:induction false} InsertKeepsElements<T(!new)>(e: Entry<T>, es: seq<Entry<T>>)
    ensures forall x :: x in Insert(e, es) <==> x == e || x in es
    ensures |Insert(e, es)| == |es| + 1
  {
    if es != [] && Less(es[0].key, e.key) {
      InsertKeepsElements(e, es[1..]);
      assert es == [es[0]] + es[1..];
    }
  }

  lemma {:induction false} InsertSorts<T(!new)>(e: Entry<T>, es: seq<Entry<T>>)
    requires Sorted(es) && forall i :: 0 <= i < |es| ==> es[i].key != e.key
    ensures Sorted(Insert(e, es))
  {
    if es == [] {
    } else if Less(es[0].key, e.key) {
      InsertSorts(e, es[1..]);
      InsertKeepsElements(e, es[1..]);
      var tail := Insert(e, es[1..]);
      forall j | 0 <= j < |tail| ensures Less(es[0].key, tail[j].key) {
        assert tail[j] in tail;
      }
    } else {
      LessIsTotal(es[0].key, e.key);
      forall j | 0 <= j < |es| ensures Less(e.key, es[j].key) {
        if j > 0 { LessIsTransitive(e.key, es[0].key, es[j].key); }
      }
    }
  }

  lemma {:induction false} SortKeepsElements<T(!new)>(es: seq<Entry<T>>)
    ensures forall x :: x in SortByKey(es) <==> x in es
    ensures |SortByKey(es)| == |es|
  {
    if es != [] {
      SortKeepsElements(es[1..]);
      InsertKeepsElements(es[0], SortByKey(es[1..]));
      assert es == [es[0]] + es[1..];
    }
  }

  lemma {:induction false} SortSorts<T(!new)>(es: seq<Entry<T>>)
    requires DistinctKeys(es)
    ensures Sorted(SortByKey(es))
  {
    if es != [] {
      SortSorts(es[1..]);
      SortKeepsElements(es[1..]);
      var tail := SortByKey(es[1..]);
      forall i | 0 <= i < |tail| ensures tail[i].key != es[0].key {
        assert tail[i] in es[1..];
      }
      InsertSorts(es[0], tail);
    }
  }

  lemma HeadIsElement<T(!new)>(es: seq<Entry<T>>)
    requires es != []
    ensures es[0] in es
  {}

  /** A sorted list is determined by its elements. */
  lemma {:induction false} SortedIsUnique<T(!new)>(a: seq<Entry<T>>, b: seq<Entry<T>>)
    requires Sorted(a) && Sorted(b) && forall x :: x in a <==> x in b
    ensures a == b
  {
    if a == [] {
      if b != [] {
        HeadIsElement(b);
        assert false;
      }
    } else {
      assert a[0] in b && b != [];
      assert b[0] in a;
      var i :| 0 <= i < |b| && b[i] == a[0];
      var j :| 0 <= j < |a| && a[j] == b[0];
      LessIsTotal(a[0].key, b[0].key);
      assert i == 0 && a[0] == b[0];
      LessIsTotal(a[0].key, a[0].key);
      forall x ensures x in a[1..] <==> x in b[1..] {
        if x in a[1..] {
          var k :| 1 <= k < |a| && a[k] == x;
          assert x in b && x != b[0];
        }
        if x in b[1..] {
          var k :| 1 <= k < |b| && b[k] == x;
          assert x in a && x != a[0];
        }
      }
      SortedIsUnique(a[1..], b[1..]);
      assert a == [a[0]] + a[1..] && b == [b[0]] + b[1..];
    }
  }

  // ------------------------------------------- canonical = plain print of normal

  /** Prints a normal value in the order of its fields. */
  function Plain(v: Json): Text
    decreases v
  {
    match v
    case Bool(b) => if b then TRUE_TEXT else FALSE_TEXT
    case Num(n) => PrintNumber(n)
    case Str(s) => Quoted(s)
    case Arr(items) => [OPEN_BRACKET] + PlainItems(items) + [CLOSE_BRACKET]
    case Obj(fields) => [OPEN_BRACE] + PlainMembers(fields) + [CLOSE_BRACE]
    case _ => NULL_TEXT
  }

  function PlainItems(items: seq<Json>): Text
    decreases items
  {
    if items == [] then []
    else if |items| == 1 then Plain(items[0])
    else Plain(items[0]) + [COMMA] + PlainItems(items[1..])
  }

  function PlainMember(e: Entry<Json>): Text
    decreases e, 0
  {
    Quoted(e.key) + [COLON] + Plain(e.value)
  }

  function PlainMembers(fields: seq<Entry<Json>>): Text
    decreases fields
  {
    if fields == [] then []
    else if |fields| == 1 then PlainMember(fields[0])
    else PlainMember(fields[0]) + [COMMA] + PlainMembers(fields[1..])
  }

  function PlainEntries(es: seq<Entry<Json>>): seq<Entry<Text>> {
    if es == [] then [] else [Entry(es[0].key, Plain(es[0].value))] + PlainEntries(es[1..])
  }

  lemma {:induction false} InsertCommutes(e: Entry<Json>, es: seq<Entry<Json>>)
    ensures PlainEntries(Insert(e, es)) == Insert(Entry(e.key, Plain(e.value)), PlainEntries(es))
  {
    if es != [] && Less(es[0].key, e.key) {
      InsertCommutes(e, es[1..]);
      assert ([es[0]] + Insert(e, es[1..]))[1..] == Insert(e, es[1..]);
      assert PlainEntries(es)[1..] == PlainEntries(es[1..]);
    } else {
      assert ([e] + es)[1..] == es;
    }
  }

  lemma {:induction false} SortCommutes(es: seq<Entry<Json>>)
    ensures PlainEntries(SortByKey(es)) == SortByKey(PlainEntries(es))
  {
    if es != [] {
      SortCommutes(es[1..]);
      InsertCommutes(es[0], SortByKey(es[1..]));
      assert PlainEntries(es)[1..] == PlainEntries(es[1..]);
    }
  }

  lemma {:induction false} JoinMembers(es: seq<Entry<Json>>)
    ensures Join(Members(PlainEntries(es))) == PlainMembers(es)
  {
    if es != [] {
      JoinMembers(es[1..]);
      var ps := PlainEntries(es);
      assert ps[1..] == PlainEntries(es[1..]);
      assert Members(ps)[0] == PlainMember(es[0]) && Members(ps)[1..] == Members(ps[1..]);
      assert |es| > 1 ==> |Members(ps[1..])| > 0;
    }
  }

  lemma {:induction false} CanonicalIsPlain(v: Json)
    ensures Canonical(v) == Plain(Normal(v))
    decreases v
  {
    match v
    case Arr(items) => CanonicalItemsArePlain(items);
    case Obj(fields) =>
      CanonicalFieldsArePlain(fields);
      SortCommutes(NormalFields(fields));
      JoinMembers(SortByKey(NormalFields(fields)));
    case _ =>
  }

  lemma {:induction false} CanonicalItemsArePlain(items: seq<Json>)
    ensures Join(CanonicalItems(items)) == PlainItems(NormalItems(items)) && |CanonicalItems(items)| == |items|
    decreases items
  {
    if items != [] {
      CanonicalIsPlain(items[0]);
      CanonicalItemsArePlain(items[1..]);
      assert CanonicalItems(items)[1..] == CanonicalItems(items[1..]);
      assert NormalItems(items)[1..] == NormalItems(items[1..]);
    }
  }

  lemma {:induction false} CanonicalFieldsArePlain(fields: seq<Entry<Json>>)
    ensures CanonicalFields(fields) == PlainEntries(NormalFields(fields))
    decreases fields
  {
    if fields != [] {
      CanonicalIsPlain(fields[0].value);
      CanonicalFieldsArePlain(fields[1..]);
      assert NormalFields(fields)[1..] == NormalFields(fields[1..]);
    }
  }

  // -------------------------------------------------------- parsing undoes Plain

  lemma {:induction false} ParseDecimal(n: nat, rest: Text)
    ensures Decimal(n) != [] && IsDigit(Decimal(n)[0])
    ensures ParseDigits(Decimal(n) + rest, 0) == ParseDigits(rest, n)
  {
    if n < 10 {
      assert (Decimal(n) + rest)[1..] == rest;
    } else {
      ParseDecimal(n / 10, [ZERO + n % 10] + rest);
      assert Decimal(n) + rest == Decimal(n / 10) + ([ZERO + n % 10] + rest);
      assert ([ZERO + n % 10] + rest)[1..] == rest;
    }
  }

  /** What may follow a value: not a digit. */
  predicate Delimited(rest: Text) {
    rest == [] || !IsDigit(rest[0])
  }

  lemma DispatchNumber(t: Text)
    requires t != [] && (IsDigit(t[0]) || t[0] == MINUS)
    ensures ParseValue(t) == ParseNumber(t)
  {
    hide ParseNumber, ParseItems, ParseMembers, ParseString;
  }

  lemma ParseNumberText(n: SafeInteger, rest: Text)
    requires Delimited(rest)
    ensures ParseValue(PrintNumber(n) + rest) == Ok(Num(n), rest)
  {
    hide ParseValue, Decimal;
    var m: nat := if n < 0 then -n else n;
    ParseDecimal(m, rest);
    var digits, t := Decimal(m) + rest, PrintNumber(n) + rest;
    DispatchNumber(t);
    assert ParseDigits(digits, 0) == ParseDigits(digits[1..], digits[0] - ZERO);
    assert ParseDigits(rest, m) == (m, rest);
    if n < 0 {
      assert t == [MINUS] + digits;
      assert t[2..] == digits[1..];
    }
  }

  lemma HexRoundTrip(d: nat)
    requires d < 16
    ensures HexValue(HexDigit(d)) == d
  {}

  lemma ParseEscapedUnit(u: CodeUnit, rest: Text)
    ensures ParseChar(EscapeUnit(u) + rest) == Ok(u, rest)
    ensures EscapeUnit(u) != [] && EscapeUnit(u)[0] != QUOTE
  {
    var t := EscapeUnit(u) + rest;
    if ShortEscape(u) != 0 {
      assert t[2..] == rest;
    } else if u < 0x20 || IsSurrogate(u) {
      HexRoundTrip(u / 0x1000);
      HexRoundTrip(u / 0x100 % 16);
      HexRoundTrip(u / 16 % 16);
      HexRoundTrip(u % 16);
      assert t[6..] == rest;
      HexDigits(u);
    } else {
      assert t[1..] == rest;
    }
  }

  lemma HexDigits(u: CodeUnit)
    ensures u / 0x1000 * 0x1000 + u / 0x100 % 16 * 0x100 + u / 16 % 16 * 16 + u % 16 == u
  {
    var a, b := u / 16, u / 0x100;
    DivideTwice(u, 16, 16);
    DivideTwice(u, 0x100, 16);
    assert a == a / 16 * 16 + a % 16 && b == b / 16 * 16 + b % 16;
  }

  lemma DivideTwice(n: nat, c: nat, d: nat)
    requires (c == 16 || c == 0x100) && d == 16
    ensures n / c / d == n / (c * d)
  {}

  lemma ParseVerbatim(u: CodeUnit, rest: Text)
    requires IsSurrogate(u)
    ensures ParseChar([u] + rest) == Ok(u, rest)
  {
    assert ([u] + rest)[1..] == rest;
  }

  lemma ParseStringStep(t: Text, u: CodeUnit, rest: Text, s: Text, after: Text)
    requires t != [] && t[0] != QUOTE && ParseChar(t) == Ok(u, rest) && ParseString(rest) == Ok(s, after)
    ensures ParseString(t) == Ok([u] + s, after)
  {
    hide ParseChar;
  }

  lemma {:induction false} ParseEscaped(s: Text, rest: Text)
    ensures ParseString(Escape(s) + ([QUOTE] + rest)) == Ok(s, rest)
    decreases |s|
  {
    hide ParseChar, ParseString, EscapeUnit;
    var close := [QUOTE] + rest;
    var t := Escape(s) + close;
    if s == [] {
      ParseClosingQuote(rest);
      assert t == close;
    } else if StartsWithPair(s) {
      var tail := Escape(s[2..]) + close;
      ParseEscaped(s[2..], rest);
      ParseVerbatim(s[1], tail);
      ParseVerbatim(s[0], [s[1]] + tail);
      assert t == [s[0]] + ([s[1]] + tail);
      ParseStringStep([s[1]] + tail, s[1], tail, s[2..], rest);
      ParseStringStep(t, s[0], [s[1]] + tail, [s[1]] + s[2..], rest);
      assert s == [s[0]] + ([s[1]] + s[2..]);
    } else {
      var tail := Escape(s[1..]) + close;
      ParseEscaped(s[1..], rest);
      ParseEscapedUnit(s[0], tail);
      assert t == EscapeUnit(s[0]) + tail;
      ParseStringStep(t, s[0], tail, s[1..], rest);
      assert s == [s[0]] + s[1..];
    }
  }

  lemma ParseClosingQuote(rest: Text)
    ensures ParseString([QUOTE] + rest) == Ok([], rest)
  {
    assert ([QUOTE] + rest)[1..] == rest;
  }

  lemma ParseQuoted(s: Text, rest: Text)
    ensures ParseString((Quoted(s) + rest)[1..]) == Ok(s, rest)
  {
    ParseEscaped(s, rest);
    hide ParseString, Escape;
    assert (Quoted(s) + rest)[1..] == Escape(s) + ([QUOTE] + rest);
  }

  /** Only values that a parser can return. */
  ghost predicate IsParsable(v: Json)
    decreases v
  {
    match v
    case Undefined => false
    case Callable => false
    case Arr(items) => forall i | 0 <= i < |items| :: IsParsable(items[i])
    case Obj(fields) => forall i | 0 <= i < |fields| :: IsParsable(fields[i].value)
    case _ => true
  }

  lemma ParseConstants(rest: Text)
    ensures ParseValue(NULL_TEXT + rest) == Ok(Null, rest)
    ensures ParseValue(TRUE_TEXT + rest) == Ok(Bool(true), rest)
    ensures ParseValue(FALSE_TEXT + rest) == Ok(Bool(false), rest)
  {
    hide ParseItems, ParseMembers, ParseString, ParseNumber;
    var n, t, f := NULL_TEXT + rest, TRUE_TEXT + rest, FALSE_TEXT + rest;
    assert NULL_TEXT <= n && n[4..] == rest;
    assert TRUE_TEXT <= t && t[0] == 0x74 && t[4..] == rest;
    assert FALSE_TEXT <= f && f[0] == 0x66 && f[5..] == rest;
    assert !(NULL_TEXT <= t) && !(NULL_TEXT <= f) && !(TRUE_TEXT <= f) by { assert NULL_TEXT[0] == 0x6E && TRUE_TEXT[0] == 0x74; }
  }

  lemma DispatchString(t: Text)
    requires t != [] && t[0] == QUOTE
    ensures ParseValue(t) == match ParseString(t[1..]) { case Fail => Fail case Ok(s, rest) => Ok(Str(s), rest) }
  {
    hide ParseItems, ParseMembers, ParseString, ParseNumber;
  }

  lemma DispatchArray(t: Text)
    requires t != [] && t[0] == OPEN_BRACKET
    ensures |t| > 1 && t[1] == CLOSE_BRACKET ==> ParseValue(t) == Ok(Arr([]), t[2..])
    ensures |t| > 1 && t[1] != CLOSE_BRACKET && ParseItems(t[1..]).Ok? ==>
              ParseValue(t) == Ok(Arr(ParseItems(t[1..]).value), ParseItems(t[1..]).rest)
  {
    hide ParseItems, ParseMembers, ParseString, ParseNumber;
  }

  lemma DispatchObject(t: Text)
    requires t != [] && t[0] == OPEN_BRACE
    ensures |t| > 1 && t[1] == CLOSE_BRACE ==> ParseValue(t) == Ok(Obj([]), t[2..])
    ensures |t| > 1 && t[1] != CLOSE_BRACE && ParseMembers(t[1..]).Ok? ==>
              ParseValue(t) == Ok(Obj(ParseMembers(t[1..]).value), ParseMembers(t[1..]).rest)
  {
    hide ParseItems, ParseMembers, ParseString, ParseNumber;
  }

  lemma {:induction false} ParsePlain(v: Json, rest: Text)
    requires IsParsable(v) && Delimited(rest)
    ensures ParseValue(Plain(v) + rest) == Ok(v, rest)
    decreases v, 0
  {
    hide ParseValue, ParseItems, ParseMembers, ParseString, Quoted, PlainItems, PlainMembers, PrintNumber;
    var t := Plain(v) + rest;
    match v
    case Null => ParseConstants(rest);
    case Bool(b) => ParseConstants(rest);
    case Num(n) => ParseNumberText(n, rest);
    case Str(s) =>
      QuotedStart(s);
      ParseQuoted(s, rest);
      DispatchString(t);
    case Arr(items) =>
      DispatchArray(t);
      if items == [] {
        NoItems();
        assert t[2..] == rest;
      } else {
        ParsePlainItems(items, rest);
        PlainItemsStart(items);
        assert t[1..] == PlainItems(items) + ([CLOSE_BRACKET] + rest);
      }
    case Obj(fields) =>
      DispatchObject(t);
      if fields == [] {
        NoItems();
        assert t[2..] == rest;
      } else {
        ParsePlainMembers(fields, rest);
        assert t[1..] == PlainMembers(fields) + ([CLOSE_BRACE] + rest);
      }
  }

  lemma QuotedStart(s: Text)
    ensures Quoted(s) != [] && Quoted(s)[0] == QUOTE
  {}

  lemma NoItems()
    ensures PlainItems([]) == [] && PlainMembers([]) == []
  {}

  /** No printed value begins with a closing bracket. */
  lemma PlainItemsStart(items: seq<Json>)
    requires items != []
    ensures PlainItems(items) != [] && PlainItems(items)[0] != CLOSE_BRACKET
  {
    hide Decimal, Escape, PlainMembers;
    var v := items[0];
    if v.Num? {
      ParseDecimal(if v.n < 0 then -v.n else v.n, []);
    }
    assert Plain(v) != [] && Plain(v)[0] != CLOSE_BRACKET;
  }

  lemma ParseItemsStep(t: Text, v: Json, rest: Text)
    requires ParseValue(t) == Ok(v, rest) && rest != []
    ensures rest[0] == CLOSE_BRACKET ==> ParseItems(t) == Ok([v], rest[1..])
    ensures rest[0] == COMMA && ParseItems(rest[1..]).Ok? ==>
              ParseItems(t) == Ok([v] + ParseItems(rest[1..]).value, ParseItems(rest[1..]).rest)
  {
    hide ParseValue;
  }

  lemma {:induction false} ParsePlainItems(items: seq<Json>, rest: Text)
    requires items != [] && forall i :: 0 <= i < |items| ==> IsParsable(items[i])
    ensures ParseItems(PlainItems(items) + ([CLOSE_BRACKET] + rest)) == Ok(items, rest)
    decreases items, 0
  {
    hide ParseValue, ParseItems, Plain, IsParsable;
    var close := [CLOSE_BRACKET] + rest;
    assert close[1..] == rest;
    var t := PlainItems(items) + close;
    if |items| == 1 {
      ParsePlain(items[0], close);
      ParseItemsStep(t, items[0], close);
      assert items == [items[0]];
    } else {
      var tail := PlainItems(items[1..]) + close;
      var more := [COMMA] + tail;
      ParsePlain(items[0], more);
      ParsePlainItems(items[1..], rest);
      assert t == Plain(items[0]) + more;
      assert more[1..] == tail;
      ParseItemsStep(t, items[0], more);
      assert items == [items[0]] + items[1..];
    }
  }

  lemma ParseMemberStep(t: Text, key: Text, rest: Text, v: Json, after: Text)
    requires t != [] && t[0] == QUOTE && ParseString(t[1..]) == Ok(key, rest)
    requires rest != [] && rest[0] == COLON && ParseValue(rest[1..]) == Ok(v, after)
    ensures ParseMember(t) == Ok(Entry(key, v), after)
  {
    hide ParseString, ParseValue;
  }

  lemma {:induction false} ParsePlainMember(e: Entry<Json>, rest: Text)
    requires IsParsable(e.value) && Delimited(rest)
    ensures ParseMember(PlainMember(e) + rest) == Ok(e, rest)
    decreases e, 0
  {
    hide ParseString, ParseValue, ParseMember, Quoted, Plain, IsParsable;
    var after := [COLON] + (Plain(e.value) + rest);
    var t := PlainMember(e) + rest;
    assert t == Quoted(e.key) + after;
    QuotedStart(e.key);
    ParseQuoted(e.key, after);
    ParsePlain(e.value, rest);
    assert after[1..] == Plain(e.value) + rest;
    ParseMemberStep(t, e.key, after, e.value, rest);
  }

  lemma ParseMembersStep(t: Text, e: Entry<Json>, rest: Text)
    requires ParseMember(t) == Ok(e, rest) && rest != []
    ensures rest[0] == CLOSE_BRACE ==> ParseMembers(t) == Ok([e], rest[1..])
    ensures rest[0] == COMMA && ParseMembers(rest[1..]).Ok? ==>
              ParseMembers(t) == Ok([e] + ParseMembers(rest[1..]).value, ParseMembers(rest[1..]).rest)
  {
    hide ParseMember;
  }

  lemma {:induction false} ParsePlainMembers(fields: seq<Entry<Json>>, rest: Text)
    requires fields != [] && forall i :: 0 <= i < |fields| ==> IsParsable(fields[i].value)
    ensures ParseMembers(PlainMembers(fields) + ([CLOSE_BRACE] + rest)) == Ok(fields, rest)
    ensures PlainMembers(fields) != [] && PlainMembers(fields)[0] == QUOTE
    decreases fields, 0
  {
    var close := [CLOSE_BRACE] + rest;
    assert close[1..] == rest;
    var t := PlainMembers(fields) + close;
    PlainMemberStart(fields[0]);
    PlainMembersSplit(fields, close);
    hide ParseMember, ParseMembers, PlainMember, PlainMembers, IsParsable;
    if |fields| == 1 {
      ParsePlainMember(fields[0], close);
      ParseMembersStep(t, fields[0], close);
      assert fields == [fields[0]];
    } else {
      ParsePlainMember(fields[0], [COMMA] + (PlainMembers(fields[1..]) + close));
      ParsePlainMembers(fields[1..], rest);
      ParseMembersFrom(t, fields, PlainMembers(fields[1..]) + close, rest);
    }
  }

  lemma ParseMembersFrom(t: Text, fields: seq<Entry<Json>>, tail: Text, rest: Text)
    requires fields != []
    requires ParseMember(t) == Ok(fields[0], [COMMA] + tail)
    requires ParseMembers(tail) == Ok(fields[1..], rest)
    ensures ParseMembers(t) == Ok(fields, rest)
  {
    hide ParseMember, ParseMembers;
    var more := [COMMA] + tail;
    assert more[1..] == tail;
    ParseMembersStep(t, fields[0], more);
    assert fields == [fields[0]] + fields[1..];
  }

  lemma Regroup(a: Text, b: Text, c: Text, d: Text)
    ensures a + b + c + d == a + (b + (c + d))
  {}

  lemma PlainMembersSplit(fields: seq<Entry<Json>>, close: Text)
    requires fields != []
    ensures PlainMembers(fields) + close ==
            PlainMember(fields[0]) + if |fields| == 1 then close else [COMMA] + (PlainMembers(fields[1..]) + close)
    ensures PlainMember(fields[0]) != [] ==> PlainMembers(fields) != [] && PlainMembers(fields)[0] == PlainMember(fields[0])[0]
  {
    var unfolded := if |fields| == 1 then PlainMember(fields[0]) else PlainMember(fields[0]) + [COMMA] + PlainMembers(fields[1..]);
    assert PlainMembers(fields) == unfolded;
    hide *;
    if |fields| > 1 {
      Regroup(PlainMember(fields[0]), [COMMA], PlainMembers(fields[1..]), close);
    }
  }

  lemma PlainMemberStart(e: Entry<Json>)
    ensures PlainMember(e) != [] && PlainMember(e)[0] == QUOTE
  {
    hide Escape, Plain;
  }

  lemma {:induction false} NormalIsParsable(v: Json)
    ensures IsParsable(Normal(v))
    decreases v
  {
    match v
    case Arr(items) =>
      forall i | 0 <= i < |items| ensures IsParsable(NormalItems(items)[i]) {
        NormalIsParsable(items[i]);
      }
    case Obj(fields) =>
      var es := NormalFields(fields);
      SortKeepsElements(es);
      forall k | 0 <= k < |es| ensures IsParsable(SortByKey(es)[k].value) {
        assert SortByKey(es)[k] in es;
        var i :| 0 <= i < |es| && es[i] == SortByKey(es)[k];
        NormalIsParsable(fields[i].value);
      }
    case _ =>
  }

  // ------------------------------------------------------------------ main laws

  /** The parser recovers the normal value from the canonical text, for every value. */
  lemma ParseUndoesCanonical(v: Json)
    ensures ParseValue(Canonical(v)) == Ok(Normal(v), [])
  {
    CanonicalIsPlain(v);
    NormalIsParsable(v);
    ParsePlain(Normal(v), []);
    assert Plain(Normal(v)) + [] == Plain(Normal(v));
  }

  ghost predicate Included(a: seq<Entry<Json>>, b: seq<Entry<Json>>) {
    forall x | x in a :: x in b
  }

  /** Values that are the same up to field order have the same normal value. */
  lemma {:induction false} SameIsNormalEqual(v: Json, w: Json)
    requires IsValue(v) && IsValue(w) && Same(v, w)
    ensures Normal(v) == Normal(w)
    decreases v
  {
    match v
    case Arr(items) =>
      forall i | 0 <= i < |items| ensures NormalItems(items)[i] == NormalItems(w.items)[i] {
        SameIsNormalEqual(items[i], w.items[i]);
      }
    case Obj(fields) =>
      forall i, j | 0 <= i < |fields| && 0 <= j < |w.fields| && fields[i].key == w.fields[j].key
        ensures Normal(fields[i].value) == Normal(w.fields[j].value)
      {
        SameIsNormalEqual(fields[i].value, w.fields[j].value);
      }
      NormalFieldsOfSame(fields, w.fields);
      NormalFieldsOfSame(w.fields, fields);
      SortedFieldsAgree(NormalFields(fields), NormalFields(w.fields));
    case _ =>
  }

  lemma NormalFieldsOfSame(fs: seq<Entry<Json>>, gs: seq<Entry<Json>>)
    requires Keys(fs) == Keys(gs)
    requires forall i, j | 0 <= i < |fs| && 0 <= j < |gs| && fs[i].key == gs[j].key :: Normal(fs[i].value) == Normal(gs[j].value)
    ensures Included(NormalFields(fs), NormalFields(gs))
  {
    hide Normal;
    var a, b := NormalFields(fs), NormalFields(gs);
    forall x | x in a ensures x in b {
      var i :| 0 <= i < |a| && a[i] == x;
      assert fs[i].key in Keys(gs);
      var j :| 0 <= j < |gs| && gs[j].key == fs[i].key;
      assert b[j] == x;
    }
  }

  lemma SortedFieldsAgree(a: seq<Entry<Json>>, b: seq<Entry<Json>>)
    requires DistinctKeys(a) && DistinctKeys(b)
    requires Included(a, b) && Included(b, a)
    ensures SortByKey(a) == SortByKey(b)
  {
    hide SortByKey;
    SortSorts(a);
    SortSorts(b);
    SortKeepsElements(a);
    SortKeepsElements(b);
    SortedIsUnique(SortByKey(a), SortByKey(b));
  }

  /** Values with the same normal value are the same up to field order. */
  lemma {:induction false} NormalEqualIsSame(v: Json, w: Json)
    requires IsValue(v) && IsValue(w) && Normal(v) == Normal(w)
    ensures Same(v, w)
    decreases v
  {
    match v
    case Arr(items) =>
      forall i | 0 <= i < |items| ensures Same(items[i], w.items[i]) {
        assert NormalItems(items)[i] == NormalItems(w.items)[i];
        NormalEqualIsSame(items[i], w.items[i]);
      }
    case Obj(fields) =>
      hide SortByKey, Keys, Included, DistinctKeys, NormalFields;
      EqualSortsInclude(NormalFields(fields), NormalFields(w.fields));
      EqualSortsInclude(NormalFields(w.fields), NormalFields(fields));
      KeysAreIncluded(fields, w.fields);
      KeysAreIncluded(w.fields, fields);
      forall i, j | 0 <= i < |fields| && 0 <= j < |w.fields| && fields[i].key == w.fields[j].key
        ensures Same(fields[i].value, w.fields[j].value)
      {
        SameKeySameValue(fields, w.fields, i, j);
        NormalEqualIsSame(fields[i].value, w.fields[j].value);
      }
    case _ =>
  }

  lemma EqualSortsInclude(a: seq<Entry<Json>>, b: seq<Entry<Json>>)
    requires SortByKey(a) == SortByKey(b)
    ensures Included(a, b)
  {
    hide SortByKey;
    SortKeepsElements(a);
    SortKeepsElements(b);
  }

  lemma SameKeySameValue(fs: seq<Entry<Json>>, gs: seq<Entry<Json>>, i: int, j: int)
    requires DistinctKeys(gs) && Included(NormalFields(fs), NormalFields(gs))
    requires 0 <= i < |fs| && 0 <= j < |gs| && fs[i].key == gs[j].key
    ensures Normal(fs[i].value) == Normal(gs[j].value)
  {
    hide Normal, NormalFields, DistinctKeys;
    assert NormalFields(fs)[i] in NormalFields(fs);
    var k := Partner(fs, gs, i);
    KeysIdentify(gs, j, k);
  }

  lemma KeysIdentify(es: seq<Entry<Json>>, j: int, k: int)
    requires DistinctKeys(es) && 0 <= j < |es| && 0 <= k < |es| && es[j].key == es[k].key
    ensures j == k
  {}

  /** The position in `gs` of the field that has the key and the normal value of field `i`. */
  lemma Partner(fs: seq<Entry<Json>>, gs: seq<Entry<Json>>, i: int) returns (k: int)
    requires 0 <= i < |fs| && NormalFields(fs)[i] in NormalFields(gs)
    ensures 0 <= k < |gs| && gs[k].key == fs[i].key && Normal(gs[k].value) == Normal(fs[i].value)
  {
    hide Normal, NormalFields;
    k :| 0 <= k < |gs| && NormalFields(gs)[k] == NormalFields(fs)[i];
    assert Entry(gs[k].key, Normal(gs[k].value)) == Entry(fs[i].key, Normal(fs[i].value));
  }

  lemma KeysAreIncluded(fs: seq<Entry<Json>>, gs: seq<Entry<Json>>)
    requires Included(NormalFields(fs), NormalFields(gs))
    ensures Keys(fs) <= Keys(gs)
  {
    hide Normal, NormalFields;
    forall key | key in Keys(fs) ensures key in Keys(gs) {
      var i :| 0 <= i < |fs| && fs[i].key == key;
      assert NormalFields(fs)[i] in NormalFields(fs);
      var k := Partner(fs, gs, i);
    }
  }

  /** Two values print the same text exactly when they are the same up to the
      order of insertion, at every depth. */
  lemma SameTextIff(v: Json, w: Json)
    requires IsValue(v) && IsValue(w)
    ensures Canonical(v) == Canonical(w) <==> Same(v, w)
  {
    if Canonical(v) == Canonical(w) {
      ParseUndoesCanonical(v);
      ParseUndoesCanonical(w);
      NormalEqualIsSame(v, w);
    }
    if Same(v, w) {
      SameIsNormalEqual(v, w);
      CanonicalIsPlain(v);
      CanonicalIsPlain(w);
    }
  }

  lemma {:induction false} NormalIsIdempotent(v: Json)
    requires IsValue(v)
    ensures Normal(Normal(v)) == Normal(v)
    decreases v
  {
    match v
    case Arr(items) =>
      forall i | 0 <= i < |items| ensures Normal(NormalItems(items)[i]) == NormalItems(items)[i] {
        NormalIsIdempotent(items[i]);
      }
    case Obj(fields) =>
      var a := NormalFields(fields);
      SortKeepsElements(a);
      SortSorts(a);
      var s := SortByKey(a);
      forall k | 0 <= k < |s| ensures NormalFields(s)[k] == s[k] {
        assert s[k] in a;
        var i :| 0 <= i < |a| && a[i] == s[k];
        NormalIsIdempotent(fields[i].value);
      }
      assert NormalFields(s) == s;
      SortedIsDistinct(s);
      SortSorts(s);
      SortKeepsElements(s);
      SortedIsUnique(SortByKey(s), s);
    case _ =>
  }

  lemma SortedIsDistinct<T(!new)>(es: seq<Entry<T>>)
    requires Sorted(es)
    ensures DistinctKeys(es)
  {
    forall i, j | 0 <= i < j < |es| ensures es[i].key != es[j].key {
      LessIsTotal(es[i].key, es[j].key);
    }
  }

  lemma {:induction false} NormalIsValue(v: Json)
    requires IsValue(v)
    ensures IsValue(Normal(v))
    decreases v
  {
    match v
    case Arr(items) =>
      forall i | 0 <= i < |items| ensures IsValue(NormalItems(items)[i]) {
        NormalIsValue(items[i]);
      }
    case Obj(fields) =>
      var a := NormalFields(fields);
      SortKeepsElements(a);
      SortSorts(a);
      SortedIsDistinct(SortByKey(a));
      forall k | 0 <= k < |a| ensures IsValue(SortByKey(a)[k].value) {
        assert SortByKey(a)[k] in a;
        var i :| 0 <= i < |a| && a[i] == SortByKey(a)[k];
        NormalIsValue(fields[i].value);
      }
    case _ =>
  }

  /** What the parser recovers is the printed value, up to the order of fields. */
  lemma ParsedIsSame(v: Json)
    requires IsValue(v)
    ensures ParseValue(Canonical(v)).Ok? && Same(v, ParseValue(Canonical(v)).value)
  {
    ParseUndoesCanonical(v);
    NormalIsIdempotent(v);
    NormalIsValue(v);
    NormalEqualIsSame(v, Normal(v));
  }
}
