/** Text as the JavaScript sources see it: a sequence of 16-bit code units. */
module Utf16 {
  type CodeUnit = u: int | 0 <= u < 0x1_0000

  type Text = seq<CodeUnit>

  /** The code of a decimal digit. */
  predicate IsDigit(u: int) {
    0x30 <= u <= 0x39
  }

  /** The code of a character that JavaScript's \s matches and its trim removes. */
  predicate IsSpace(u: int) {
    0x09 <= u <= 0x0D || u == 0x20 || u == 0xA0 || u == 0x1680 || 0x2000 <= u <= 0x200A
    || u == 0x2028 || u == 0x2029 || u == 0x202F || u == 0x205F || u == 0x3000 || u == 0xFEFF
  }

  /** Tab to carriage return, space, no-break spaces, the typographic spaces, the line and
      paragraph separators and the byte order mark: 25 characters. */
  lemma SpacesAre(u: int)
    ensures IsSpace(u) <==>
            u in {0x09, 0x0A, 0x0B, 0x0C, 0x0D, 0x20, 0xA0, 0x1680, 0x2000, 0x2001, 0x2002, 0x2003, 0x2004, 0x2005, 0x2006,
                  0x2007, 0x2008, 0x2009, 0x200A, 0x2028, 0x2029, 0x202F, 0x205F, 0x3000, 0xFEFF}
  {}

  predicate IsLead(u: CodeUnit) {
    0xD800 <= u < 0xDC00
  }

  predicate IsTrail(u: CodeUnit) {
    0xDC00 <= u < 0xE000
  }

  predicate IsSurrogate(u: CodeUnit) {
    0xD800 <= u < 0xE000
  }

  /** A lead and a trail surrogate stand first. */
  predicate StartsWithPair(t: Text) {
    |t| >= 2 && IsLead(t[0]) && IsTrail(t[1])
  }

  /** Every surrogate belongs to a pair. */
  predicate WellFormed(t: Text) {
    if t == [] then true
    else if StartsWithPair(t) then WellFormed(t[2..])
    else !IsSurrogate(t[0]) && WellFormed(t[1..])
  }

  lemma {:induction false} WellFormedConcat(a: Text, b: Text)
    requires WellFormed(a) && WellFormed(b)
    ensures WellFormed(a + b)
  {
    if a == [] {
      assert a + b == b;
    } else {
      var k := if StartsWithPair(a) then 2 else 1;
      WellFormedConcat(a[k..], b);
      assert (a + b)[k..] == a[k..] + b;
    }
  }
}
