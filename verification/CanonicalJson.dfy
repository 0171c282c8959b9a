/** `canonicalJSON`: the text that a device signs when it approves a join.
    Objects are printed with sorted keys and no white space. */
module CanonicalJson {
  import opened Utf16

  datatype Entry<+T> = Entry(key: Text, value: T)

  // A number is an integer that a double holds exactly.
  const MAX_SAFE_INTEGER: int := 0x1F_FFFF_FFFF_FFFF

  type SafeInteger = n: int | -MAX_SAFE_INTEGER <= n <= MAX_SAFE_INTEGER

  /** A JavaScript value; `Obj` lists its own fields in insertion order,
      `Callable` stands for functions and symbols. */
  datatype Json =
    | Null
    | Undefined
    | Callable
    | Bool(b: bool)
    | Num(n: SafeInteger)
    | Str(s: Text)
    | Arr(items: seq<Json>)
    | Obj(fields: seq<Entry<Json>>)

  // Characters of the JSON grammar (RFC 8259, section 2).
  const QUOTE: CodeUnit := 0x22
  const COMMA: CodeUnit := 0x2C
  const MINUS: CodeUnit := 0x2D
  const ZERO: CodeUnit := 0x30
  const COLON: CodeUnit := 0x3A
  const OPEN_BRACKET: CodeUnit := 0x5B
  const BACKSLASH: CodeUnit := 0x5C
  const CLOSE_BRACKET: CodeUnit := 0x5D
  const OPEN_BRACE: CodeUnit := 0x7B
  const CLOSE_BRACE: CodeUnit := 0x7D
  const NULL_TEXT: Text := [0x6E, 0x75, 0x6C, 0x6C]
  const TRUE_TEXT: Text := [0x74, 0x72, 0x75, 0x65]
  const FALSE_TEXT: Text := [0x66, 0x61, 0x6C, 0x73, 0x65]

  // ----------------------------------------------------------------- scalars

  function Decimal(n: nat): Text {
    if n < 10 then [ZERO + n] else Decimal(n / 10) + [ZERO + n % 10]
  }

  function PrintNumber(n: int): Text {
    if n < 0 then [MINUS] + Decimal(-n) else Decimal(n)
  }

  /** Lower-case hexadecimal digit. */
  function HexDigit(d: nat): CodeUnit
    requires d < 16
  {
    if d < 10 then ZERO + d else 0x57 + d
  }

  function UnicodeEscape(u: CodeUnit): Text {
    [BACKSLASH, 0x75, HexDigit(u / 0x1000), HexDigit(u / 0x100 % 16), HexDigit(u / 16 % 16), HexDigit(u % 16)]
  }

  /** The letter of the two-character escape of `u`, if it has one. */
  function ShortEscape(u: CodeUnit): CodeUnit {
    if u == 0x08 then 0x62
    else if u == 0x09 then 0x74
    else if u == 0x0A then 0x6E
    else if u == 0x0C then 0x66
    else if u == 0x0D then 0x72
    else if u == QUOTE || u == BACKSLASH then u
    else 0
  }

  function EscapeUnit(u: CodeUnit): Text {
    if ShortEscape(u) != 0 then [BACKSLASH, ShortEscape(u)]
    else if u < 0x20 || IsSurrogate(u) then UnicodeEscape(u)
    else [u]
  }

  /** The well-formed `JSON.stringify` of a string, without its quotes:
      surrogate pairs are kept, lone surrogates are escaped. */
  function Escape(s: Text): Text {
    if s == [] then []
    else if StartsWithPair(s) then s[..2] + Escape(s[2..])
    else EscapeUnit(s[0]) + Escape(s[1..])
  }

  function Quoted(s: Text): Text {
    [QUOTE] + Escape(s) + [QUOTE]
  }

  // ------------------------------------------------------------ sorting keys

  /** The order of `Array.prototype.sort` on strings: by code units. */
  predicate Less(a: Text, b: Text) {
    b != [] && (a == [] || a[0] < b[0] || (a[0] == b[0] && Less(a[1..], b[1..])))
  }

  function Insert<T>(e: Entry<T>, es: seq<Entry<T>>): seq<Entry<T>> {
    if es == [] || !Less(es[0].key, e.key) then [e] + es
    else [es[0]] + Insert(e, es[1..])
  }

  function SortByKey<T>(es: seq<Entry<T>>): seq<Entry<T>> {
    if es == [] then [] else Insert(es[0], SortByKey(es[1..]))
  }

  // ---------------------------------------------------------------- printing

  /** Texts separated by commas. */
  function Join(parts: seq<Text>): Text {
    if parts == [] then []
    else if |parts| == 1 then parts[0]
    else parts[0] + [COMMA] + Join(parts[1..])
  }

  function Members(es: seq<Entry<Text>>): seq<Text> {
    if es == [] then [] else [Quoted(es[0].key) + [COLON] + es[0].value] + Members(es[1..])
  }

  function Canonical(v: Json): Text
    decreases v
  {
    match v
    case Null => NULL_TEXT
    case Undefined => NULL_TEXT
    case Bool(b) => if b then TRUE_TEXT else FALSE_TEXT
    case Num(n) => PrintNumber(n)
    case Str(s) => Quoted(s)
    case Arr(items) => [OPEN_BRACKET] + Join(CanonicalItems(items)) + [CLOSE_BRACKET]
    case Obj(fields) => [OPEN_BRACE] + Join(Members(SortByKey(CanonicalFields(fields)))) + [CLOSE_BRACE]
    case Callable => NULL_TEXT
  }

  function CanonicalItems(items: seq<Json>): seq<Text>
    decreases items
  {
    if items == [] then [] else [Canonical(items[0])] + CanonicalItems(items[1..])
  }

  function CanonicalFields(fields: seq<Entry<Json>>): seq<Entry<Text>>
    decreases fields
  {
    if fields == [] then [] else [Entry(fields[0].key, Canonical(fields[0].value))] + CanonicalFields(fields[1..])
  }

  // ---------------------------------------------------- equality of JS values

  /** The keys of every object, at every depth, are distinct. */
  ghost predicate IsValue(v: Json)
    decreases v
  {
    match v
    case Arr(items) => forall i | 0 <= i < |items| :: IsValue(items[i])
    case Obj(fields) => DistinctKeys(fields) && forall i | 0 <= i < |fields| :: IsValue(fields[i].value)
    case _ => true
  }

  ghost predicate DistinctKeys<T(!new)>(es: seq<Entry<T>>) {
    forall i, j | 0 <= i < j < |es| :: es[i].key != es[j].key
  }

  ghost function Keys<T(!new)>(es: seq<Entry<T>>): set<Text> {
    set i | 0 <= i < |es| :: es[i].key
  }

  predicate IsNullish(v: Json) {
    v.Null? || v.Undefined? || v.Callable?
  }

  /** Equality of values: objects have the same keys and the same value under
      each key, whatever their order, at every depth.  The values that JSON
      prints as null are not told apart. */
  ghost predicate Same(v: Json, w: Json)
    decreases v
  {
    match v
    case Null => IsNullish(w)
    case Undefined => IsNullish(w)
    case Callable => IsNullish(w)
    case Arr(items) => w.Arr? && |items| == |w.items| && forall i | 0 <= i < |items| :: Same(items[i], w.items[i])
    case Obj(fields) =>
      && w.Obj?
      && Keys(fields) == Keys(w.fields)
      && forall i, j | 0 <= i < |fields| && 0 <= j < |w.fields| && fields[i].key == w.fields[j].key ::
           Same(fields[i].value, w.fields[j].value)
    case _ => v == w
  }

  // ----------------------------------------------------------- normal values

  /** The value that a parser can recover: fields sorted, nullish values null. */
  function Normal(v: Json): Json
    decreases v
  {
    match v
    case Undefined => Null
    case Callable => Null
    case Arr(items) => Arr(NormalItems(items))
    case Obj(fields) => Obj(SortByKey(NormalFields(fields)))
    case _ => v
  }

  function NormalItems(items: seq<Json>): (r: seq<Json>)
    ensures |r| == |items| && forall i :: 0 <= i < |items| ==> r[i] == Normal(items[i])
    decreases items
  {
    if items == [] then [] else [Normal(items[0])] + NormalItems(items[1..])
  }

  function NormalFields(fields: seq<Entry<Json>>): (r: seq<Entry<Json>>)
    ensures |r| == |fields| && forall i :: 0 <= i < |fields| ==> r[i] == Entry(fields[i].key, Normal(fields[i].value))
    decreases fields
  {
    if fields == [] then [] else [Entry(fields[0].key, Normal(fields[0].value))] + NormalFields(fields[1..])
  }

  // ----------------------------------------------------------------- parsing

  datatype Parsed<+T> = Fail | Ok(value: T, rest: Text)

  function ParseDigits(t: Text, acc: nat): (r: (nat, Text))
    ensures |r.1| <= |t|
  {
    if t != [] && IsDigit(t[0]) then ParseDigits(t[1..], acc * 10 + (t[0] - ZERO)) else (acc, t)
  }

  function ParseNumber(t: Text): (r: Parsed<Json>)
    ensures r.Ok? ==> |r.rest| < |t|
  {
    if t != [] && IsDigit(t[0]) then
      var (n, rest) := ParseDigits(t[1..], t[0] - ZERO);
      if n <= MAX_SAFE_INTEGER then Ok(Num(n), rest) else Fail
    else if |t| > 1 && t[0] == MINUS && IsDigit(t[1]) then
      var (n, rest) := ParseDigits(t[2..], t[1] - ZERO);
      if n <= MAX_SAFE_INTEGER then Ok(Num(-(n as int)), rest) else Fail
    else Fail
  }

  function HexValue(u: CodeUnit): (d: int)
    ensures -1 <= d < 16
  {
    if IsDigit(u) then u - ZERO
    else if 0x61 <= u <= 0x66 then u - 0x57
    else if 0x41 <= u <= 0x46 then u - 0x37
    else -1
  }

  /** The unit that a two-character escape stands for, or -1. */
  function ShortUnescape(letter: CodeUnit): (u: int)
    ensures -1 <= u < 0x1_0000
  {
    if letter == 0x62 then 0x08
    else if letter == 0x74 then 0x09
    else if letter == 0x6E then 0x0A
    else if letter == 0x66 then 0x0C
    else if letter == 0x72 then 0x0D
    else if letter == QUOTE || letter == BACKSLASH || letter == 0x2F then letter
    else -1
  }

  /** One character of a string body (RFC 8259, section 7). */
  function ParseChar(t: Text): (r: Parsed<CodeUnit>)
    ensures r.Ok? ==> |r.rest| < |t|
  {
    if t == [] || t[0] == QUOTE || t[0] < 0x20 then Fail
    else if t[0] != BACKSLASH then Ok(t[0], t[1..])
    else if |t| < 2 then Fail
    else if t[1] != 0x75 then
      if ShortUnescape(t[1]) < 0 then Fail else Ok(ShortUnescape(t[1]), t[2..])
    else if |t| < 6 then Fail
    else
      var a, b, c, d := HexValue(t[2]), HexValue(t[3]), HexValue(t[4]), HexValue(t[5]);
      if a < 0 || b < 0 || c < 0 || d < 0 then Fail
      else Ok(a * 0x1000 + b * 0x100 + c * 16 + d, t[6..])
  }

  /** The rest of a string after its opening quote. */
  function ParseString(t: Text): (r: Parsed<Text>)
    ensures r.Ok? ==> |r.rest| < |t|
    decreases |t|
  {
    if t != [] && t[0] == QUOTE then Ok([], t[1..])
    else
      match ParseChar(t)
      case Fail => Fail
      case Ok(u, rest) =>
        match ParseString(rest)
        case Fail => Fail
        case Ok(s, after) => Ok([u] + s, after)
  }

  function ParseValue(t: Text): (r: Parsed<Json>)
    ensures r.Ok? ==> |r.rest| < |t|
    decreases |t|, 0
  {
    if NULL_TEXT <= t then Ok(Null, t[4..])
    else if TRUE_TEXT <= t then Ok(Bool(true), t[4..])
    else if FALSE_TEXT <= t then Ok(Bool(false), t[5..])
    else if t == [] then Fail
    else if t[0] == QUOTE then
      match ParseString(t[1..]) { case Fail => Fail case Ok(s, rest) => Ok(Str(s), rest) }
    else if t[0] == OPEN_BRACKET then
      if |t| > 1 && t[1] == CLOSE_BRACKET then Ok(Arr([]), t[2..])
      else match ParseItems(t[1..]) { case Fail => Fail case Ok(items, rest) => Ok(Arr(items), rest) }
    else if t[0] == OPEN_BRACE then
      if |t| > 1 && t[1] == CLOSE_BRACE then Ok(Obj([]), t[2..])
      else match ParseMembers(t[1..]) { case Fail => Fail case Ok(fields, rest) => Ok(Obj(fields), rest) }
    else ParseNumber(t)
  }

  /** One or more values up to the closing bracket. */
  function ParseItems(t: Text): (r: Parsed<seq<Json>>)
    ensures r.Ok? ==> |r.rest| < |t|
    decreases |t|, 1
  {
    match ParseValue(t)
    case Fail => Fail
    case Ok(v, rest) =>
      if rest == [] then Fail
      else if rest[0] == CLOSE_BRACKET then Ok([v], rest[1..])
      else if rest[0] != COMMA then Fail
      else match ParseItems(rest[1..]) { case Fail => Fail case Ok(vs, after) => Ok([v] + vs, after) }
  }

  function ParseMember(t: Text): (r: Parsed<Entry<Json>>)
    ensures r.Ok? ==> |r.rest| < |t|
    decreases |t|, 1
  {
    if t == [] || t[0] != QUOTE then Fail
    else
      match ParseString(t[1..])
      case Fail => Fail
      case Ok(key, rest) =>
        if rest == [] || rest[0] != COLON then Fail
        else match ParseValue(rest[1..]) { case Fail => Fail case Ok(v, after) => Ok(Entry(key, v), after) }
  }

  /** One or more members up to the closing brace. */
  function ParseMembers(t: Text): (r: Parsed<seq<Entry<Json>>>)
    ensures r.Ok? ==> |r.rest| < |t|
    decreases |t|, 2
  {
    match ParseMember(t)
    case Fail => Fail
    case Ok(e, rest) =>
      if rest == [] then Fail
      else if rest[0] == CLOSE_BRACE then Ok([e], rest[1..])
      else if rest[0] != COMMA then Fail
      else match ParseMembers(rest[1..]) { case Fail => Fail case Ok(es, after) => Ok([e] + es, after) }
  }
}
