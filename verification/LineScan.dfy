/** The few regular-expression pieces that the terminal scrapers share, as scanners
    over the characters of one line. The patterns name no character beyond U+FFFF, so
    it makes no difference to them that JavaScript sees such characters as two units. */
module LineScan {
  import opened Common
  import Utf16

  predicate IsSpace(c: char) {
    Utf16.IsSpace(c as int)
  }

  /** What a dot does not match. */
  predicate IsLineEnd(c: char) {
    c == '\n' || c == '\r' || c == '\U{2028}' || c == '\U{2029}'
  }

  predicate IsDigit(c: char) {
    Utf16.IsDigit(c as int)
  }

  predicate SpacesBefore(s: string, n: nat)
    requires n <= |s|
  {
    forall i :: 0 <= i < n ==> IsSpace(s[i])
  }

  predicate DigitsBefore(s: string, n: nat)
    requires n <= |s|
  {
    forall i :: 0 <= i < n ==> IsDigit(s[i])
  }

  /** The length of the longest run of spaces at the start. */
  function SpaceRun(s: string): (n: nat)
    ensures n <= |s| && SpacesBefore(s, n) && (n < |s| ==> !IsSpace(s[n]))
  {
    if |s| == 0 || !IsSpace(s[0]) then 0 else 1 + SpaceRun(s[1..])
  }

  function DigitRun(s: string): (n: nat)
    ensures n <= |s| && DigitsBefore(s, n) && (n < |s| ==> !IsDigit(s[n]))
  {
    if |s| == 0 || !IsDigit(s[0]) then 0 else 1 + DigitRun(s[1..])
  }

  /** The longest prefix without a line end: what a greedy .+ takes. */
  function DotRun(s: string): string {
    if |s| == 0 || IsLineEnd(s[0]) then "" else [s[0]] + DotRun(s[1..])
  }

  /** A run of spaces that ends in a non-space has one possible length. */
  lemma SpaceRunIs(s: string, n: nat)
    requires n <= |s| && SpacesBefore(s, n) && (n < |s| ==> !IsSpace(s[n]))
    ensures SpaceRun(s) == n
  {
    hide IsSpace;
  }

  lemma DigitRunIs(s: string, n: nat)
    requires n <= |s| && DigitsBefore(s, n) && (n < |s| ==> !IsDigit(s[n]))
    ensures DigitRun(s) == n
  {
    hide IsDigit;
  }

  /** The pattern \s+(.+) at the start of `s`, giving back at most `p` of its spaces:
      the captured text. */
  function GapThenText(s: string, p: nat): Option<string>
    requires p <= |s|
  {
    if p == 0 then None
    else if p < |s| && !IsLineEnd(s[p]) then Some(DotRun(s[p..]))
    else GapThenText(s, p - 1)
  }

  function SpacesThenText(s: string): Option<string> {
    GapThenText(s, SpaceRun(s))
  }

  lemma {:induction false} GapThenTextIff(s: string, p: nat)
    requires p <= |s|
    ensures GapThenText(s, p).Some? <==> exists q: nat :: 1 <= q <= p && q < |s| && !IsLineEnd(s[q])
  {
    if p > 0 {
      GapThenTextIff(s, p - 1);
    }
  }

  ghost predicate Splits(s: string, q: nat) {
    1 <= q < |s| && SpacesBefore(s, q) && !IsLineEnd(s[q])
  }

  /** The scanner succeeds exactly when the text splits as the pattern says. */
  lemma SpacesThenTextIff(s: string)
    ensures SpacesThenText(s).Some? <==> exists q: nat :: Splits(s, q)
  {
    hide IsSpace, IsLineEnd;
    var n := SpaceRun(s);
    GapThenTextIff(s, n);
    if q: nat :| Splits(s, q) {
      assert q <= n;
    }
    if q: nat :| 1 <= q <= n && q < |s| && !IsLineEnd(s[q]) {
      assert Splits(s, q);
    }
  }

  function TrimStart(s: string): string {
    s[SpaceRun(s)..]
  }

  function Trim(s: string): string {
    DropTrailing(TrimStart(s), IsSpace)
  }

  predicate StartsWith(s: string, prefix: string) {
    |prefix| <= |s| && s[..|prefix|] == prefix
  }

  function LowerAscii(c: char): char {
    if 'A' <= c <= 'Z' then c - 'A' + 'a' else c
  }

  /** Ignoring the case of ASCII letters; `prefix` is in lower case. */
  predicate StartsWithNoCase(s: string, prefix: string) {
    |prefix| <= |s| && forall i :: 0 <= i < |prefix| ==> LowerAscii(s[i]) == prefix[i]
  }

  /** The number a run of digits denotes. */
  function Value(digits: string): nat {
    if |digits| == 0 then 0
    else
      var c := digits[|digits| - 1];
      Value(digits[..|digits| - 1]) * 10 + (if IsDigit(c) then (c - '0') as int else 0)
  }
}
