/** When Devin's two scanners agree, and when a dialog counts as numbered. */
module DevinOptionsLaws {
  import opened Common
  import opened LineScan
  import opened DevinOptions

  // ------------------------------------------------------------- the consecutive test

  ghost predicate Ascending(s: seq<int>) {
    forall i, j :: 0 <= i < j < |s| ==> s[i] <= s[j]
  }

  lemma {:induction false} InsertSorts(n: int, s: seq<int>)
    requires Ascending(s)
    ensures Ascending(Insert(n, s))
    ensures multiset(Insert(n, s)) == multiset(s) + multiset{n}
  {
    if |s| > 0 {
      assert s == [s[0]] + s[1..];
      if n > s[0] {
        InsertSorts(n, s[1..]);
        AscendingCons(s[0], Insert(n, s[1..]), s[1..], n);
      }
    }
  }

  /** Putting a lower bound of the elements in front keeps the order. */
  lemma AscendingCons(low: int, s: seq<int>, rest: seq<int>, n: int)
    requires Ascending(s) && multiset(s) == multiset(rest) + multiset{n}
    requires low <= n && forall i :: 0 <= i < |rest| ==> low <= rest[i]
    ensures Ascending([low] + s)
  {
    forall i | 0 <= i < |s| ensures low <= s[i] {
      assert s[i] in multiset(s);
      assert s[i] in multiset(rest) || s[i] == n;
      if s[i] in multiset(rest) {
        assert s[i] in rest;
      }
    }
  }

  lemma {:induction false} SortSorts(s: seq<int>)
    ensures Ascending(Sort(s))
    ensures multiset(Sort(s)) == multiset(s)
  {
    if |s| > 0 {
      assert s == [s[0]] + s[1..];
      SortSorts(s[1..]);
      InsertSorts(s[0], Sort(s[1..]));
    }
  }

  /** Ascending sequences with the same elements are equal. */
  lemma {:induction false} AscendingIsUnique(a: seq<int>, b: seq<int>)
    requires Ascending(a) && Ascending(b) && multiset(a) == multiset(b)
    ensures a == b
    decreases |a|
  {
    SameLength(a, b);
    if |a| > 0 {
      SameFirst(a, b);
      TailOf(a);
      TailOf(b);
      AscendingIsUnique(a[1..], b[1..]);
      assert a == [a[0]] + a[1..] && b == [b[0]] + b[1..];
    }
  }

  lemma SameFirst(a: seq<int>, b: seq<int>)
    requires |a| > 0 && |b| > 0 && Ascending(a) && Ascending(b) && multiset(a) == multiset(b)
    ensures a[0] == b[0]
  {
    TailOf(a);
    TailOf(b);
    FirstIsLeast(a, b[0]);
    FirstIsLeast(b, a[0]);
  }

  lemma SameLength(a: seq<int>, b: seq<int>)
    requires multiset(a) == multiset(b)
    ensures |a| == |b|
  {
    assert |a| == |multiset(a)| == |multiset(b)| == |b|;
  }

  lemma TailOf(a: seq<int>)
    requires |a| > 0 && Ascending(a)
    ensures multiset(a[1..]) == multiset(a) - multiset{a[0]}
    ensures a[0] in multiset(a) && Ascending(a[1..])
  {
    assert a == [a[0]] + a[1..];
  }

  lemma FirstIsLeast(a: seq<int>, x: int)
    requires |a| > 0 && Ascending(a)
    ensures x in multiset(a) ==> a[0] <= x
  {
    if x in multiset(a) {
      assert x in a;
    }
  }

  /** 1, 2, .., n. */
  function Upto(n: nat): seq<int> {
    seq(n, i => i + 1)
  }

  lemma {:induction false} UptoHolds(n: nat, k: int)
    ensures multiset(Upto(n))[k] == if 1 <= k <= n then 1 else 0
  {
    if n > 0 {
      UptoHolds(n - 1, k);
      assert Upto(n) == Upto(n - 1) + [n];
    }
  }

  /** Only the positive numbers matter, and all of them do. */
  lemma {:induction false} PositiveKeeps(numbers: seq<int>, k: int)
    ensures multiset(Positive(numbers))[k] == if k > 0 then multiset(numbers)[k] else 0
  {
    if |numbers| > 0 {
      assert numbers == [numbers[0]] + numbers[1..];
      PositiveKeeps(numbers[1..], k);
    }
  }

  /** Each of 1 to n occurs once, and no other positive number. */
  ghost predicate NumbersUpto(numbers: seq<int>, n: nat) {
    forall k :: k > 0 ==> multiset(numbers)[k] == if k <= n then 1 else 0
  }

  /** A dialog counts as numbered exactly when, for some n of at least 1, the numbers 1
      to n occur once each on its lines and no other positive number does. */
  lemma ConsecutiveIff(numbers: seq<int>)
    ensures IsConsecutive(numbers) <==> exists n: nat :: n > 0 && NumbersUpto(numbers, n)
  {
    var positive := Positive(numbers);
    SortSorts(positive);
    SortedIsUptoIff(positive, Sort(positive));
    if IsConsecutive(numbers) {
      UptoIff(numbers, |positive|);
    }
    if n: nat :| n > 0 && NumbersUpto(numbers, n) {
      UptoIff(numbers, n);
      SameLength(positive, Upto(n));
    }
  }

  lemma UptoIff(numbers: seq<int>, n: nat)
    ensures NumbersUpto(numbers, n) <==> multiset(Positive(numbers)) == multiset(Upto(n))
  {
    hide Positive, Upto;
    forall k: int
      ensures multiset(Positive(numbers))[k] == if k > 0 then multiset(numbers)[k] else 0
      ensures multiset(Upto(n))[k] == if 1 <= k <= n then 1 else 0
    {
      PositiveKeeps(numbers, k);
      UptoHolds(n, k);
    }
  }

  lemma SortedIsUptoIff(positive: seq<int>, sorted: seq<int>)
    requires Ascending(sorted) && multiset(sorted) == multiset(positive)
    ensures (|sorted| > 0 && forall i :: 0 <= i < |sorted| ==> sorted[i] == i + 1) <==>
            |positive| > 0 && multiset(positive) == multiset(Upto(|positive|))
  {
    SameLength(sorted, positive);
    if |positive| > 0 {
      if multiset(positive) == multiset(Upto(|positive|)) {
        AscendingIsUnique(sorted, Upto(|positive|));
      } else {
        assert sorted != Upto(|positive|);
      }
    }
  }

  // ------------------------------------------------------------------- line patterns

  /** A numbered entry as the dialog draws it. */
  function Rendered(indent: string, marker: char, pad: string, digits: string, gap: string, text: string): string {
    indent + ([marker] + (pad + (digits + (gap + text))))
  }

  lemma SpaceRunOfSpaces(spaces: string, rest: string)
    requires SpacesBefore(spaces, |spaces|)
    requires |rest| > 0 ==> !IsSpace(rest[0])
    ensures SpaceRun(spaces + rest) == |spaces|
    ensures (spaces + rest)[|spaces|..] == rest
  {
    hide IsSpace;
    var s := spaces + rest;
    assert SpacesBefore(s, |spaces|);
    SpaceRunIs(s, |spaces|);
  }

  lemma DigitRunOfDigits(digits: string, rest: string)
    requires DigitsBefore(digits, |digits|)
    requires |rest| > 0 ==> !IsDigit(rest[0])
    ensures DigitRun(digits + rest) == |digits|
    ensures (digits + rest)[..|digits|] == digits && (digits + rest)[|digits|..] == rest
  {
    hide IsDigit;
    var s := digits + rest;
    assert DigitsBefore(s, |digits|);
    DigitRunIs(s, |digits|);
  }

  lemma Kinds(c: char)
    ensures IsSpace(c) ==> !IsDigit(c) && !IsMarker(c)
    ensures !IsSpace(c) ==> !IsLineEnd(c)
  {
  }

  lemma AfterMarkerOf(indent: string, marker: char, rest: string)
    requires SpacesBefore(indent, |indent|) && IsMarker(marker)
    ensures AfterMarker(indent + ([marker] + rest)) == Some(rest)
    ensures IsCursor(indent + ([marker] + rest)) <==> marker == CURSOR
  {
    Kinds(marker);
    hide IsSpace, IsMarker;
    SpaceRunOfSpaces(indent, [marker] + rest);
    var line := indent + ([marker] + rest);
    assert line[|indent|] == marker;
    assert line[|indent| + 1..] == rest;
  }

  lemma SpacesThenTextOf(gap: string, text: string)
    requires |gap| > 0 && SpacesBefore(gap, |gap|)
    requires |text| > 0 && !IsSpace(text[0])
    ensures SpacesThenText(gap + text) == Some(DotRun(text))
  {
    Kinds(text[0]);
    hide IsSpace, IsLineEnd, DotRun;
    SpaceRunOfSpaces(gap, text);
    assert (gap + text)[|gap|] == text[0];
  }

  /** Reading a drawn entry gives back its number and its text, whatever the spacing. */
  lemma RenderedIsRead(indent: string, marker: char, pad: string, digits: string, gap: string, text: string)
    requires SpacesBefore(indent, |indent|) && SpacesBefore(pad, |pad|) && SpacesBefore(gap, |gap|) && |gap| > 0
    requires IsMarker(marker) && |digits| > 0 && DigitsBefore(digits, |digits|)
    requires |text| > 0 && !IsSpace(text[0])
    ensures MatchOption(Rendered(indent, marker, pad, digits, gap, text)) == Some(Numbered(digits, DotRun(text)))
  {
    AfterMarkerOf(indent, marker, pad + (digits + (gap + text)));
    Kinds(digits[0]);
    Kinds(gap[0]);
    hide IsSpace, IsDigit, IsMarker, SpaceRun, DigitRun, DotRun, AfterMarker;
    SpaceRunOfSpaces(pad, digits + (gap + text));
    assert (digits + (gap + text))[0] == digits[0] && (gap + text)[0] == gap[0];
    DigitRunOfDigits(digits, gap + text);
    hide SpacesThenText;
    SpacesThenTextOf(gap, text);
  }

  lemma OtherIsUnnumbered(line: string)
    ensures MatchOther(line).Some? ==> MatchUnnumbered(line).Some?
  {
    hide IsMarker, IsLineEnd, DotRun;
    if MatchOther(line).Some? {
      var s := AfterMarker(line).value;
      var n := SpaceRun(s);
      assert s[n..][0] == s[n];
      Kinds(s[n]);
      TextAfterSpaces(s);
    }
  }

  /** A non-space after at least one space is text. */
  lemma TextAfterSpaces(s: string)
    requires 0 < SpaceRun(s) < |s|
    ensures SpacesThenText(s).Some?
  {
    Kinds(s[SpaceRun(s)]);
    hide IsSpace, IsLineEnd, DotRun;
  }

  /** The entry for one's own answer is read in any case and spacing. */
  lemma OtherIsRead(indent: string, marker: char, gap: string, other: string, space: string, own: string, rest: string)
    requires SpacesBefore(indent, |indent|) && SpacesBefore(gap, |gap|) && |gap| > 0 && SpacesBefore(space, |space|)
    requires IsMarker(marker)
    requires |other| == |OTHER| && StartsWithNoCase(other, OTHER)
    requires |own| == |TYPE_YOUR_OWN| && StartsWithNoCase(own, TYPE_YOUR_OWN)
    ensures MatchOther(indent + ([marker] + (gap + (other + (space + (own + rest)))))) == Some(other + (space + own))
  {
    AfterMarkerOf(indent, marker, gap + (other + (space + (own + rest))));
    NotSpaces(other[0], own[0]);
    var t := other + (space + (own + rest));
    SpaceRunOfSpaces(gap, t);
    hide IsSpace, IsMarker, AfterMarker, SpaceRun;
    TypeYourOwnOf(other, space, own, rest);
  }

  lemma TypeYourOwnOf(other: string, space: string, own: string, rest: string)
    requires SpacesBefore(space, |space|) && |own| == |TYPE_YOUR_OWN| && !IsSpace(own[0])
    requires |other| == |OTHER| && StartsWithNoCase(other, OTHER) && StartsWithNoCase(own, TYPE_YOUR_OWN)
    ensures
      var t := other + (space + (own + rest));
      && StartsWithNoCase(t, OTHER)
      && SpaceRun(t[5..]) == |space| && StartsWithNoCase(t[5 + |space|..], TYPE_YOUR_OWN)
      && t[..5 + |space| + 15] == other + (space + own)
  {
    hide IsSpace, SpaceRun, LowerAscii;
    var tail := own + rest;
    var t := other + (space + tail);
    SpaceRunOfSpaces(space, tail);
    assert t[5..] == space + tail;
    assert t[5 + |space|..] == tail;
    assert t[..5 + |space| + 15] == other + (space + own);
  }

  lemma NotSpaces(c: char, d: char)
    ensures LowerAscii(c) == OTHER[0] ==> !IsSpace(c)
    ensures LowerAscii(d) == TYPE_YOUR_OWN[0] ==> !IsSpace(d)
  {
  }

  // ------------------------------------------------------------------ extracted texts

  /** The four marks, and the cursor among them. */
  lemma MarksAre(c: char)
    ensures IsMarker(c) <==> c == '\U{276D}' || c == '\U{00B7}' || c == '\U{25A1}' || c == '\U{25A0}'
    ensures c == CURSOR <==> c == '\U{276D}'
  {}

  /** A text on one line without spaces at its ends. */
  predicate IsTidy(text: string) {
    |text| > 0 && !IsSpace(text[0]) && !IsSpace(text[|text| - 1]) && forall i :: 0 <= i < |text| ==> !IsLineEnd(text[i])
  }

  lemma {:induction false} DotRunIs(text: string)
    requires forall i :: 0 <= i < |text| ==> !IsLineEnd(text[i])
    ensures DotRun(text) == text
  {
    hide IsLineEnd;
    if |text| > 0 {
      DotRunIs(text[1..]);
      assert text == [text[0]] + text[1..];
    }
  }

  lemma TidyIsKept(text: string)
    requires IsTidy(text)
    ensures Trim(text) == text && DotRun(text) == text
  {
    DotRunIs(text);
    hide IsSpace, IsLineEnd, DotRun;
    assert SpaceRun(text) == 0;
    assert text[0..] == text;
    assert DropTrailing(text, IsSpace) == text;
  }

  /** A drawn numbered entry is extracted as its number, a full stop, a space and its text. */
  lemma NumberedOptionIs(indent: string, marker: char, pad: string, digits: string, gap: string, text: string)
    requires SpacesBefore(indent, |indent|) && SpacesBefore(pad, |pad|) && SpacesBefore(gap, |gap|) && |gap| > 0
    requires IsMarker(marker) && |digits| > 0 && DigitsBefore(digits, |digits|) && IsTidy(text)
    ensures OptionOf(Rendered(indent, marker, pad, digits, gap, text), NumberedPass) == Some(digits + ". " + text)
    ensures NumberOf(Rendered(indent, marker, pad, digits, gap, text)) == Some(Value(digits))
  {
    RenderedIsRead(indent, marker, pad, digits, gap, text);
    TidyIsKept(text);
    hide MatchOption, MatchOther, Rendered, Trim, IsTidy, Value;
  }

  /** A drawn entry without a number is extracted as its text by the second pass. */
  lemma UnnumberedOptionIs(indent: string, marker: char, gap: string, text: string)
    requires SpacesBefore(indent, |indent|) && SpacesBefore(gap, |gap|) && |gap| > 0 && IsMarker(marker) && IsTidy(text)
    requires MatchOther(indent + ([marker] + (gap + text))).None?
    ensures OptionOf(indent + ([marker] + (gap + text)), UnnumberedPass) == Some(text)
  {
    AfterMarkerOf(indent, marker, gap + text);
    SpacesThenTextOf(gap, text);
    TidyIsKept(text);
    hide AfterMarker, MatchOther, SpacesThenText, Trim, IsTidy;
  }

  // ----------------------------------------------------------------- dialog boundaries

  ghost predicate NoLineEndBefore(s: string, j: nat)
    requires j <= |s|
  {
    forall i :: 0 <= i < j ==> !IsLineEnd(s[i])
  }

  ghost predicate CancelFrom(s: string, j: nat) {
    j <= |s| && NoLineEndBefore(s, j) && CancelAt(s[j..])
  }

  /** The scanner finds "esc cancel" exactly when it stands somewhere on the line. */
  lemma {:induction false} CancelFollowsIff(s: string)
    ensures CancelFollows(s) <==> exists j :: CancelFrom(s, j)
  {
    hide CancelAt, IsLineEnd;
    assert s[0..] == s;
    if CancelAt(s) {
      assert CancelFrom(s, 0);
    }
    if |s| > 0 {
      CancelFollowsIff(s[1..]);
      if j: nat :| CancelFrom(s[1..], j) && !IsLineEnd(s[0]) {
        assert s[1..][j..] == s[j + 1..];
        assert CancelFrom(s, j + 1);
      }
      if j: nat :| CancelFrom(s, j) && j > 0 {
        assert s[1..][j - 1..] == s[j..];
        assert CancelFrom(s[1..], j - 1);
      }
    }
  }

  /** A line is a footer exactly when the footer's text begins somewhere on it. */
  lemma {:induction false} IsFooterIff(line: string)
    ensures IsFooter(line) <==> exists i: nat :: i <= |line| && FooterAt(line[i..])
  {
    hide FooterAt;
    assert line[0..] == line;
    if |line| > 0 {
      IsFooterIff(line[1..]);
      if i: nat :| i <= |line[1..]| && FooterAt(line[1..][i..]) {
        assert line[1..][i..] == line[i + 1..];
      }
      if i: nat :| i <= |line| && FooterAt(line[i..]) {
        assert i > 0 ==> line[1..][i - 1..] == line[i..];
        assert i > 0 ==> i - 1 <= |line[1..]|;
      }
    }
  }

  ghost predicate IsFirstFooter(lines: seq<string>, footer: int) {
    0 <= footer < |lines| && IsFooter(lines[footer]) && forall i :: 0 <= i < footer ==> !IsFooter(lines[i])
  }

  /** The separator nearest above the footer, at most five lines away, or none. */
  ghost predicate IsBottom(lines: seq<string>, footer: int, bottom: int)
    requires 0 <= footer < |lines|
  {
    && -1 <= bottom < footer && (bottom >= 0 ==> footer - 5 <= bottom && IsSeparator(lines[bottom]))
    && forall i :: 0 <= i < footer && footer - 5 <= i && bottom < i ==> !IsSeparator(lines[i])
  }

  /** The ruled line nearest above the bottom separator, or none. */
  ghost predicate IsTop(lines: seq<string>, bottom: int, top: int)
    requires -1 <= bottom < |lines|
  {
    && -1 <= top && (top >= 0 ==> top < bottom && HasRule(lines[top]))
    && forall i :: 0 <= i < bottom && top < i ==> !HasRule(lines[i])
  }

  lemma {:induction false} FirstFooterIs(lines: seq<string>)
    ensures
      var footer := FirstFooter(lines);
      if footer < 0 then forall i :: 0 <= i < |lines| ==> !IsFooter(lines[i]) else IsFirstFooter(lines, footer)
  {
    hide IsFooter;
    if |lines| > 0 {
      FirstFooterIs(lines[1..]);
      assert forall i :: 0 < i < |lines| ==> lines[i] == lines[1..][i - 1];
    }
  }

  lemma {:induction false} BottomIs(lines: seq<string>, i: int, lowest: int)
    requires i < |lines|
    ensures
      var bottom := BottomSeparator(lines, i, lowest);
      && (bottom >= 0 ==> lowest <= bottom && IsSeparator(lines[bottom]))
      && forall k :: 0 <= k <= i && lowest <= k && bottom < k ==> !IsSeparator(lines[k])
    decreases i + 1
  {
    hide IsSeparator;
    if i >= 0 && i >= lowest {
      BottomIs(lines, i - 1, lowest);
    }
  }

  lemma {:induction false} TopIs(lines: seq<string>, i: int)
    requires i < |lines|
    ensures
      var top := TabRow(lines, i);
      && (top >= 0 ==> HasRule(lines[top]))
      && forall k :: 0 <= k <= i && top < k ==> !HasRule(lines[k])
    decreases i + 1
  {
    hide HasRule;
    if i >= 0 {
      TopIs(lines, i - 1);
    }
  }

  ghost predicate IsBounded(lines: seq<string>, footer: int, bottom: int, top: int) {
    IsFirstFooter(lines, footer) && IsBottom(lines, footer, bottom) && IsTop(lines, bottom, top)
  }

  lemma BoundsAreFound(lines: seq<string>)
    requires FirstFooter(lines) >= 0
    ensures
      var footer := FirstFooter(lines);
      var bottom := BottomSeparator(lines, footer - 1, footer - 5);
      IsBounded(lines, footer, bottom, TabRow(lines, bottom - 1))
  {
    hide IsFooter, IsSeparator, HasRule, FirstFooter, BottomSeparator, TabRow;
    FirstFooterIs(lines);
    var footer := FirstFooter(lines);
    var bottom := BottomSeparator(lines, footer - 1, footer - 5);
    BottomIs(lines, footer - 1, footer - 5);
    TopIs(lines, bottom - 1);
  }

  /** The dialog is what stands between the ruled line and the separator above the
      first footer; without a footer there is none. */
  lemma DialogBoundaries(lines: seq<string>)
    ensures DialogLines(lines).None? <==> forall i :: 0 <= i < |lines| ==> !IsFooter(lines[i])
    ensures DialogLines(lines).Some? ==>
              exists footer, bottom, top ::
                IsBounded(lines, footer, bottom, top)
                && DialogLines(lines).value == lines[top + 1..if bottom >= 0 then bottom else footer]
  {
    hide IsFooter, IsBounded, FirstFooter, BottomSeparator, TabRow;
    FirstFooterIs(lines);
    if FirstFooter(lines) >= 0 {
      BoundsAreFound(lines);
      assert IsFooter(lines[FirstFooter(lines)]);
    }
  }

  // ------------------------------------------------------------------------ agreement

  /** A marked line that reads as numbered or as the entry for one's own answer. */
  predicate NumberedOrOther(line: string) {
    AfterMarker(line).Some? ==> MatchOption(line).Some? || MatchOther(line).Some?
  }

  /** A marked line whose marker is followed by a space. */
  predicate SpacedMarker(line: string) {
    AfterMarker(line).Some? ==> |AfterMarker(line).value| > 0 && IsSpace(AfterMarker(line).value[0])
  }

  /** What the dialog's author can check for the pass that is chosen. */
  predicate WellMarked(line: string, pass: Pass) {
    if pass == NumberedPass then NumberedOrOther(line) else SpacedMarker(line)
  }

  lemma WellMarkedIsListed(line: string, pass: Pass)
    requires WellMarked(line, pass) && IsCounted(line)
    ensures IsListed(line, pass)
  {
    if pass == NumberedPass {
      hide SpacesThenText, SpaceRun, DigitRun, Trim, StartsWithNoCase;
    } else if MatchOption(line).Some? {
      SpacedNumberIsText(line);
      hide MatchOption, MatchOther, MatchUnnumbered, Trim;
    } else {
      OtherIsUnnumbered(line);
      hide MatchOption, MatchOther, MatchUnnumbered, Trim;
    }
  }

  lemma SpacedNumberIsText(line: string)
    requires SpacedMarker(line) && MatchOption(line).Some?
    ensures MatchUnnumbered(line).Some?
  {
    hide IsMarker, SpacesThenText, IsDigit;
    var s := AfterMarker(line).value;
    assert SpaceRun(s) < |s|;
    assert SpaceRun(s) > 0;
    TextAfterSpaces(s);
  }

  /** How many lines of the dialog carry the number `n`. */
  function LinesNumbered(dialog: seq<string>, n: int): nat {
    if |dialog| == 0 then 0
    else LinesNumbered(dialog[..|dialog| - 1], n) + if NumberOf(dialog[|dialog| - 1]) == Some(n) then 1 else 0
  }

  lemma {:induction false} NumbersAreCounted(dialog: seq<string>, n: int)
    ensures multiset(NumbersOf(dialog))[n] == LinesNumbered(dialog, n)
  {
    hide NumberOf;
    if |dialog| > 0 {
      NumbersAreCounted(dialog[..|dialog| - 1], n);
    }
  }

  ghost predicate LinesUpto(dialog: seq<string>, n: nat) {
    forall k :: k > 0 ==> LinesNumbered(dialog, k) == if k <= n then 1 else 0
  }

  /** The numbered pass is chosen exactly when, for some n of at least 1, each of 1 to n
      numbers one line and no other positive number numbers any. */
  lemma NumberedPassIff(dialog: seq<string>)
    ensures PassOf(dialog) == NumberedPass <==> exists n: nat :: n > 0 && LinesUpto(dialog, n)
  {
    ConsecutiveIff(NumbersOf(dialog));
    hide IsConsecutive, NumbersOf;
    forall n: nat ensures NumbersUpto(NumbersOf(dialog), n) <==> LinesUpto(dialog, n) {
      forall k: int ensures multiset(NumbersOf(dialog))[k] == LinesNumbered(dialog, k) {
        NumbersAreCounted(dialog, k);
      }
    }
  }

  /** The listed lines are all lines the pass reads, in the order of the screen. */
  lemma {:induction false} ListedLinesAre(dialog: seq<string>, pass: Pass)
    ensures
      var listed := ListedLines(dialog, pass);
      && (forall i, j :: 0 <= i < j < |listed| ==> listed[i] < listed[j])
      && forall at: nat :: at in listed <==> at < |dialog| && OptionOf(dialog[at], pass).Some?
  {
    hide OptionOf;
    if |dialog| > 0 {
      var last := |dialog| - 1;
      ListedLinesAre(dialog[..last], pass);
      forall at: nat ensures at in ListedLines(dialog, pass) <==> at < |dialog| && OptionOf(dialog[at], pass).Some? {
        assert at < last ==> dialog[..last][at] == dialog[at];
      }
    }
  }

  /** The options are those of the listed lines; without any, or without a dialog, there
      is no list. */
  lemma ExtractedIs(lines: seq<string>)
    ensures
      match DialogLines(lines)
      case None => Extracted(lines).None?
      case Some(dialog) =>
        var listed := ListedLines(dialog, PassOf(dialog));
        && (Extracted(lines).None? <==> listed == [])
        && (listed != [] ==>
              && |Extracted(lines).value| == |listed|
              && forall k :: 0 <= k < |listed| ==> OptionOf(dialog[listed[k]], PassOf(dialog)) == Some(Extracted(lines).value[k]))
  {
    hide DialogLines, PassOf, ListedLines, OptionOf;
  }

  /** Whenever a cursor index is returned, the option list has that entry and it is the
      one read from the cursor's line exactly if every counted line down to the cursor
      is listed by the chosen pass. */
  lemma CursorPicksItsOptionIff(lines: seq<string>)
    requires CursorIndex(lines).Some?
    ensures DialogLines(lines).Some? && CursorLine(DialogLines(lines).value).Some?
    ensures
      var dialog := DialogLines(lines).value;
      var at := CursorLine(dialog).value;
      var pass := PassOf(dialog);
      var k := CursorIndex(lines).value;
      && (k < |ListedLines(dialog, pass)| && ListedLines(dialog, pass)[k] == at <==> CountedAreListed(dialog[..at + 1], pass))
      && (CountedAreListed(dialog[..at + 1], pass) ==>
            && Extracted(lines).Some? && k < |Extracted(lines).value|
            && OptionOf(dialog[at], pass) == Some(Extracted(lines).value[k]))
  {
    hide DialogLines, PassOf, ListedLines, CountedIn, CursorLine, OptionOf, CountedAreListed;
    var dialog := DialogLines(lines).value;
    AgreeIff(dialog, PassOf(dialog));
  }

  /** In particular they agree on every dialog that is marked as its mode expects. */
  lemma CursorPicksItsOption(lines: seq<string>)
    requires CursorIndex(lines).Some? && DialogLines(lines).Some?
    requires
      var dialog := DialogLines(lines).value;
      forall i :: 0 <= i < |dialog| ==> WellMarked(dialog[i], PassOf(dialog))
    ensures
      var dialog := DialogLines(lines).value;
      var at := CursorLine(dialog);
      && at.Some? && Extracted(lines).Some? && CursorIndex(lines).value < |Extracted(lines).value|
      && OptionOf(dialog[at.value], PassOf(dialog)) == Some(Extracted(lines).value[CursorIndex(lines).value])
  {
    CursorPicksItsOptionIff(lines);
    var dialog := DialogLines(lines).value;
    var at := CursorLine(dialog).value;
    var pass := PassOf(dialog);
    hide *;
    var shown := dialog[..at + 1];
    forall i | 0 <= i < |shown| && IsCounted(shown[i]) ensures IsListed(shown[i], pass) {
      assert shown[i] == dialog[i];
      WellMarkedIsListed(shown[i], pass);
    }
    AllListed(shown, pass);
  }

  lemma AllListed(dialog: seq<string>, pass: Pass)
    requires forall i :: 0 <= i < |dialog| && IsCounted(dialog[i]) ==> IsListed(dialog[i], pass)
    ensures CountedAreListed(dialog, pass)
  {
  }

  // ------------------------------------------------------------------ a disagreement

  /** A counted line that the numbered pass passes over, above a numbered cursor line:
      the cursor's index is 1 but there is only one option. */
  lemma PassedOverLineShiftsCursor(skipped: string, chosen: string)
    requires IsCounted(skipped) && !IsListed(skipped, NumberedPass) && !IsCursor(skipped)
    requires MatchOption(chosen).Some? && Value(MatchOption(chosen).value.digits) == 1 && IsCursor(chosen)
    ensures
      var dialog := [skipped, chosen];
      PassOf(dialog) == NumberedPass && CursorLine(dialog) == Some(1)
      && CountedIn(dialog[..1]) == 1 && |OptionsOf(dialog, NumberedPass)| == 1
  {
    hide MatchOption, MatchOther, MatchUnnumbered, Trim, Value, IsCursor;
    var dialog := [skipped, chosen];
    assert dialog[..1] == [skipped] && [skipped][..0] == [];
    TwoNumbers(skipped, chosen);
  }

  lemma TwoNumbers(skipped: string, chosen: string)
    requires !IsListed(skipped, NumberedPass)
    requires MatchOption(chosen).Some? && Value(MatchOption(chosen).value.digits) == 1
    ensures IsConsecutive(NumbersOf([skipped, chosen]))
    ensures ListedLines([skipped, chosen], NumberedPass) == [1]
  {
    hide MatchOption, MatchOther, MatchUnnumbered, Trim, Value;
    var dialog := [skipped, chosen];
    assert dialog[..1] == [skipped] && [skipped][..0] == [];
    assert NumbersOf([]) == [];
    assert NumbersOf([skipped]) == [];
    assert NumbersOf(dialog) == [1];
    assert [1][1..] == [];
    assert Positive([]) == [];
    assert Positive([1]) == [1];
    assert Sort([]) == [];
    assert Sort([1]) == [1];
    assert ListedLines([], NumberedPass) == [];
    assert ListedLines([skipped], NumberedPass) == [];
  }

  const SKIPPED: string := "\U{00B7} x"
  const CHOSEN: string := "\U{276D} 1 y"
  const FOOTER: string := "\U{2191}\U{2193} navigate esc cancel"

  lemma {:induction false} NoArrowNoFooter(line: string)
    requires forall i :: 0 <= i < |line| ==> line[i] != '\U{2191}'
    ensures !IsFooter(line)
  {
    hide CancelFollows, SpaceRun;
    if |line| > 0 {
      assert !StartsWith(line, "\U{2191}\U{2193}") by {
        assert |line| >= 2 ==> line[..2][0] == line[0];
      }
      NoArrowNoFooter(line[1..]);
    }
  }

  lemma TextIsNoSeparator(line: string)
    requires |line| > 0 && !IsSpace(line[0]) && line[0] != '\U{2500}' && line[0] != '\U{2501}'
    ensures !IsSeparator(line)
  {
    hide IsSpace;
    assert SpaceRun(line) == 0;
    assert line[0..] == line;
    var t := DropTrailing(line, IsSpace);
    assert |t| > 0 ==> t[0] == line[0];
  }

  /** A drawn footer, whatever stands between its two halves. */
  lemma FooterOf(gap: string, rest: string)
    requires |gap| > 0 && SpacesBefore(gap, |gap|) && CancelFollows(rest)
    ensures FooterAt("\U{2191}\U{2193}" + (gap + ("navigate" + rest)))
  {
    var text := "navigate" + rest;
    assert text[0] == 'n' && text[..8] == "navigate" && text[8..] == rest;
    SpaceRunOfSpaces(gap, text);
    hide IsSpace, SpaceRun, CancelFollows;
    var line := "\U{2191}\U{2193}" + (gap + text);
    assert line[..2] == "\U{2191}\U{2193}" && line[2..] == gap + text;
  }

  lemma FooterIsFooter()
    ensures IsFooter(FOOTER)
  {
    hide FooterAt, CancelFollows;
    CancelIsFound();
    FooterOf(" ", " esc cancel");
    assert FOOTER == "\U{2191}\U{2193}" + (" " + ("navigate" + " esc cancel"));
  }

  lemma CancelIsFound()
    ensures CancelFollows(" esc cancel")
  {
    var s := "esc" + (" " + "cancel");
    assert " esc cancel"[1..] == s;
    SpaceRunOfSpaces(" ", "cancel");
    assert s[3..] == " " + "cancel" && s[..3] == "esc";
    hide SpaceRun;
    assert CancelAt(s);
  }

  lemma TwoLineDialog(a: string, b: string, footer: string)
    requires !IsFooter(a) && !IsFooter(b) && IsFooter(footer) && !IsSeparator(a) && !IsSeparator(b)
    ensures DialogLines([a, b, footer]) == Some([a, b])
  {
    hide IsFooter, IsSeparator, HasRule;
    var lines := [a, b, footer];
    assert lines[1..] == [b, footer] && lines[1..][1..] == [footer];
    assert FirstFooter([footer]) == 0;
    assert FirstFooter(lines) == 2;
    assert BottomSeparator(lines, 0, -3) == -1;
    assert BottomSeparator(lines, 1, -3) == -1;
    assert lines[0..2] == [a, b];
  }

  lemma ExampleDialog()
    ensures DialogLines([SKIPPED, CHOSEN, FOOTER]) == Some([SKIPPED, CHOSEN])
  {
    hide IsFooter, IsSeparator, DialogLines;
    NoArrowNoFooter(SKIPPED);
    NoArrowNoFooter(CHOSEN);
    FooterIsFooter();
    TextIsNoSeparator(SKIPPED);
    TextIsNoSeparator(CHOSEN);
    TwoLineDialog(SKIPPED, CHOSEN, FOOTER);
  }

  /** Such screens exist: an unnumbered entry above a numbered one. The cursor's index is
      1, and the one option extracted has index 0. */
  lemma MixedDialogDisagrees()
    ensures
      var lines := [SKIPPED, CHOSEN, FOOTER];
      && CursorIndex(lines) == Some(1)
      && Extracted(lines).Some? && |Extracted(lines).value| == 1
  {
    SkippedExample();
    ChosenExample();
    ExampleDialog();
    hide DialogLines, PassOf, OptionsOf, CursorLine, CountedIn, IsCounted, IsListed, IsCursor, MatchOption;
    PassedOverLineShiftsCursor(SKIPPED, CHOSEN);
  }

  lemma ChosenExample()
    ensures
      var chosen := CHOSEN;
      && MatchOption(chosen).Some? && Value(MatchOption(chosen).value.digits) == 1 && IsCursor(chosen)
  {
    hide MatchOption, AfterMarker, IsCursor;
    var chosen := CHOSEN;
    RenderedIsRead("", CURSOR, " ", "1", " ", "y");
    assert chosen == Rendered("", CURSOR, " ", "1", " ", "y");
    AfterMarkerOf("", CURSOR, " 1 y");
    assert chosen == "" + ([CURSOR] + " 1 y");
    assert "1"[..0] == "";
  }

  lemma SkippedExample()
    ensures
      var skipped := SKIPPED;
      IsCounted(skipped) && !IsListed(skipped, NumberedPass) && !IsCursor(skipped)
  {
    hide IsCounted, IsListed, AfterMarker, IsCursor;
    var skipped := SKIPPED;
    AfterMarkerOf("", '\U{00B7}', " x");
    assert skipped == "" + (['\U{00B7}'] + " x");
    SpaceRunOfSpaces(" ", "x");
    assert " x" == " " + "x";
    PlainIsSkipped(skipped);
  }

  lemma PlainIsSkipped(line: string)
    requires AfterMarker(line) == Some(" x") && SpaceRun(" x") == 1
    ensures IsCounted(line) && !IsListed(line, NumberedPass)
  {
    hide AfterMarker, SpaceRun, Trim;
    assert " x"[1..] == "x";
    assert DigitRun("x") == 0;
    assert !StartsWithNoCase("x", OTHER);
    TextAfterSpaces(" x");
  }
}
