/** Devin's question dialog on the screen (src/hooks/agentPatterns.ts): two scanners
    read the same lines, one for the options and one for the cursor's index. */
module DevinOptions {
  import opened Common
  import opened LineScan

  // ------------------------------------------------------------------- line patterns

  const CURSOR: char := '\U{276D}'

  predicate IsMarker(c: char) {
    c == CURSOR || c == '\U{00B7}' || c == '\U{25A1}' || c == '\U{25A0}'
  }

  /** What follows the leading spaces and the marker, if there is one. */
  function AfterMarker(line: string): Option<string> {
    var n := SpaceRun(line);
    if n < |line| && IsMarker(line[n]) then Some(line[n + 1..]) else None
  }

  datatype Numbered = Numbered(digits: string, text: string)

  /** Marker, optional spaces, digits, spaces, text. */
  function MatchOption(line: string): Option<Numbered> {
    match AfterMarker(line)
    case None => None
    case Some(s) =>
      var t := TrimStart(s);
      var d := DigitRun(t);
      if d == 0 then None
      else
        match SpacesThenText(t[d..])
        case None => None
        case Some(text) => Some(Numbered(t[..d], text))
  }

  const OTHER: string := "other"
  const TYPE_YOUR_OWN: string := "(type your own)"

  /** Marker, spaces, and the entry for an answer of one's own. */
  function MatchOther(line: string): Option<string> {
    match AfterMarker(line)
    case None => None
    case Some(s) =>
      var n := SpaceRun(s);
      var t := s[n..];
      if n == 0 || !StartsWithNoCase(t, OTHER) then None
      else
        var gap := SpaceRun(t[5..]);
        if StartsWithNoCase(t[5 + gap..], TYPE_YOUR_OWN) then Some(t[..5 + gap + 15]) else None
  }

  /** Marker, spaces, text. */
  function MatchUnnumbered(line: string): Option<string> {
    match AfterMarker(line)
    case None => None
    case Some(s) => SpacesThenText(s)
  }

  predicate IsCursor(line: string) {
    var n := SpaceRun(line);
    n < |line| && line[n] == CURSOR
  }

  // --------------------------------------------------------------- dialog boundaries

  predicate CancelAt(s: string) {
    StartsWith(s, "esc") && SpaceRun(s[3..]) > 0 && StartsWith(TrimStart(s[3..]), "cancel")
  }

  predicate CancelFollows(s: string) {
    CancelAt(s) || (|s| > 0 && !IsLineEnd(s[0]) && CancelFollows(s[1..]))
  }

  predicate FooterAt(s: string) {
    && StartsWith(s, "\U{2191}\U{2193}") && SpaceRun(s[2..]) > 0
    && StartsWith(TrimStart(s[2..]), "navigate") && CancelFollows(TrimStart(s[2..])[8..])
  }

  /** The footer of a question dialog: arrows, "navigate", and later "esc cancel". */
  predicate IsFooter(line: string) {
    FooterAt(line) || (|line| > 0 && IsFooter(line[1..]))
  }

  /** A line of nothing but horizontal rules. */
  predicate IsSeparator(line: string) {
    var t := Trim(line);
    |t| > 0 && forall i :: 0 <= i < |t| ==> t[i] == '\U{2500}' || t[i] == '\U{2501}'
  }

  predicate HasRule(line: string) {
    exists i :: 0 < i < |line| && line[i - 1] == '\U{2500}' && line[i] == '\U{2500}'
  }

  /** The last separator among the five lines above the footer, or -1. */
  function BottomSeparator(lines: seq<string>, i: int, lowest: int): (r: int)
    requires i < |lines|
    ensures -1 <= r < |lines| && (r >= 0 ==> r <= i)
    decreases i + 1
  {
    if i < 0 || i < lowest then -1 else if IsSeparator(lines[i]) then i else BottomSeparator(lines, i - 1, lowest)
  }

  function TabRow(lines: seq<string>, i: int): (r: int)
    requires i < |lines|
    ensures -1 <= r < |lines| && (r >= 0 ==> r <= i)
    decreases i + 1
  {
    if i < 0 then -1 else if HasRule(lines[i]) then i else TabRow(lines, i - 1)
  }

  function FirstFooter(lines: seq<string>): (r: int)
    ensures -1 <= r < |lines|
  {
    if |lines| == 0 then -1
    else if IsFooter(lines[0]) then 0
    else
      var r := FirstFooter(lines[1..]);
      if r < 0 then -1 else r + 1
  }

  /** The lines between the tab row and the bottom separator (or the footer). */
  function DialogLines(lines: seq<string>): Option<seq<string>> {
    var footer := FirstFooter(lines);
    if footer < 0 then None
    else
      var bottom := BottomSeparator(lines, footer - 1, footer - 5);
      var top := TabRow(lines, bottom - 1);
      Some(lines[(if top >= 0 then top + 1 else 0)..(if bottom >= 0 then bottom else footer)])
  }

  // --------------------------------------------------------------- what is extracted

  /** Which of the two passes an option list comes from. */
  datatype Pass = NumberedPass | UnnumberedPass

  /** The option a pass reads from a line. */
  function OptionOf(line: string, pass: Pass): Option<string> {
    match pass
    case NumberedPass =>
      (match MatchOption(line)
       case Some(m) => Some(m.digits + ". " + Trim(m.text))
       case None =>
         match MatchOther(line)
         case Some(other) => Some(Trim(other))
         case None => None)
    case UnnumberedPass =>
      (match MatchOther(line)
       case Some(other) => Some(Trim(other))
       case None =>
         match MatchUnnumbered(line)
         case Some(text) => Some(Trim(text))
         case None => None)
  }

  /** The lines a pass reads options from, in order. */
  function ListedLines(dialog: seq<string>, pass: Pass): (r: seq<nat>)
    ensures forall k :: 0 <= k < |r| ==> r[k] < |dialog| && OptionOf(dialog[r[k]], pass).Some?
  {
    if |dialog| == 0 then []
    else
      var last := |dialog| - 1;
      var front := ListedLines(dialog[..last], pass);
      if OptionOf(dialog[last], pass).Some? then front + [last] else front
  }

  function OptionsOf(dialog: seq<string>, pass: Pass): (r: seq<string>)
    ensures |r| == |ListedLines(dialog, pass)|
  {
    var listed := ListedLines(dialog, pass);
    seq(|listed|, k requires 0 <= k < |listed| => OptionOf(dialog[listed[k]], pass).value)
  }

  /** The number a line contributes; the entry for one's own answer has none. */
  function NumberOf(line: string): Option<int> {
    match MatchOption(line)
    case Some(m) => Some(Value(m.digits) as int)
    case None => if MatchOther(line).Some? then Some(-1) else None
  }

  function NumbersOf(dialog: seq<string>): seq<int> {
    if |dialog| == 0 then []
    else
      var last := |dialog| - 1;
      var front := NumbersOf(dialog[..last]);
      match NumberOf(dialog[last])
      case Some(n) => front + [n]
      case None => front
  }

  function Positive(numbers: seq<int>): (r: seq<int>)
    ensures forall k :: 0 <= k < |r| ==> r[k] > 0
  {
    if |numbers| == 0 then []
    else if numbers[0] > 0 then [numbers[0]] + Positive(numbers[1..]) else Positive(numbers[1..])
  }

  function Insert(n: int, s: seq<int>): seq<int> {
    if |s| == 0 || n <= s[0] then [n] + s else [s[0]] + Insert(n, s[1..])
  }

  /** The library's ascending sort. */
  function Sort(s: seq<int>): seq<int> {
    if |s| == 0 then [] else Insert(s[0], Sort(s[1..]))
  }

  predicate IsConsecutive(numbers: seq<int>) {
    var sorted := Sort(Positive(numbers));
    |sorted| > 0 && forall i :: 0 <= i < |sorted| ==> sorted[i] == i + 1
  }

  function PassOf(dialog: seq<string>): Pass {
    if IsConsecutive(NumbersOf(dialog)) then NumberedPass else UnnumberedPass
  }

  /** The options of the question dialog; `None` hands over to the permission dialog. */
  function Extracted(lines: seq<string>): Option<seq<string>> {
    match DialogLines(lines)
    case None => None
    case Some(dialog) =>
      var options := OptionsOf(dialog, PassOf(dialog));
      if |options| > 0 then Some(options) else None
  }

  // -------------------------------------------------------------------- the scanners

  method ExtractOptions(lines: seq<string>) returns (result: Option<seq<string>>)
    ensures result == Extracted(lines)
  {
    var dialog := DialogLines(lines);
    if dialog == None {
      return None;
    }
    var numberedOptions, numberedIndices := CollectNumbered(dialog.value);
    NumbersNeedOptions(dialog.value);
    if |numberedOptions| > 0 {
      if IsConsecutive(numberedIndices) {
        return Some(numberedOptions);
      }
    }
    var options := CollectUnnumbered(dialog.value);
    if |options| > 0 {
      return Some(options);
    }
    return None;
  }

  /** The first pass. */
  method CollectNumbered(dialog: seq<string>) returns (options: seq<string>, numbers: seq<int>)
    ensures options == OptionsOf(dialog, NumberedPass)
    ensures numbers == NumbersOf(dialog)
  {
    hide OptionsOf, NumbersOf, MatchOption, MatchOther, Trim, Value;
    options, numbers := [], [];
    var i := 0;
    StartEmpty(dialog);
    while i < |dialog|
      invariant 0 <= i <= |dialog|
      invariant options == OptionsOf(dialog[..i], NumberedPass)
      invariant numbers == NumbersOf(dialog[..i])
    {
      var line := dialog[i];
      OptionsStep(dialog, i, NumberedPass);
      NumbersStep(dialog, i);
      var m := MatchOption(line);
      if m.Some? {
        options := options + [m.value.digits + ". " + Trim(m.value.text)];
        numbers := numbers + [Value(m.value.digits)];
      } else {
        var other := MatchOther(line);
        if other.Some? {
          options := options + [Trim(other.value)];
          numbers := numbers + [-1];
        }
      }
      i := i + 1;
    }
    assert dialog[..i] == dialog;
  }

  /** The second pass. */
  method CollectUnnumbered(dialog: seq<string>) returns (options: seq<string>)
    ensures options == OptionsOf(dialog, UnnumberedPass)
  {
    hide OptionsOf, NumbersOf, MatchUnnumbered, MatchOther, Trim;
    options := [];
    var i := 0;
    StartEmpty(dialog);
    while i < |dialog|
      invariant 0 <= i <= |dialog|
      invariant options == OptionsOf(dialog[..i], UnnumberedPass)
    {
      var line := dialog[i];
      OptionsStep(dialog, i, UnnumberedPass);
      var other := MatchOther(line);
      if other.Some? {
        options := options + [Trim(other.value)];
      } else {
        var m := MatchUnnumbered(line);
        if m.Some? {
          options := options + [Trim(m.value)];
        }
      }
      i := i + 1;
    }
    assert dialog[..i] == dialog;
  }

  lemma StartEmpty(dialog: seq<string>)
    ensures forall pass :: OptionsOf(dialog[..0], pass) == []
    ensures NumbersOf(dialog[..0]) == []
  {
  }

  lemma ListedStep(dialog: seq<string>, i: nat, pass: Pass)
    requires i < |dialog|
    ensures ListedLines(dialog[..i + 1], pass) ==
            ListedLines(dialog[..i], pass) + if OptionOf(dialog[i], pass).Some? then [i] else []
  {
    assert dialog[..i + 1][..i] == dialog[..i];
  }

  lemma OptionsStep(dialog: seq<string>, i: nat, pass: Pass)
    requires i < |dialog|
    ensures OptionsOf(dialog[..i + 1], pass) ==
            OptionsOf(dialog[..i], pass) + if OptionOf(dialog[i], pass).Some? then [OptionOf(dialog[i], pass).value] else []
  {
    hide OptionOf;
    ListedStep(dialog, i, pass);
  }

  lemma NumbersStep(dialog: seq<string>, i: nat)
    requires i < |dialog|
    ensures NumbersOf(dialog[..i + 1]) ==
            NumbersOf(dialog[..i]) + if NumberOf(dialog[i]).Some? then [NumberOf(dialog[i]).value] else []
  {
    hide NumberOf;
    assert dialog[..i + 1][..i] == dialog[..i];
  }

  lemma {:induction false} NumbersNeedOptions(dialog: seq<string>)
    ensures |NumbersOf(dialog)| == |OptionsOf(dialog, NumberedPass)|
  {
    if |dialog| > 0 {
      var last := |dialog| - 1;
      NumbersNeedOptions(dialog[..last]);
      NumbersStep(dialog, last);
      OptionsStep(dialog, last, NumberedPass);
      assert dialog[..last + 1] == dialog;
    }
  }

  /** A line the cursor scanner counts. */
  predicate IsCounted(line: string) {
    MatchOption(line).Some? || MatchOther(line).Some? || MatchUnnumbered(line).Some?
  }

  function CountedIn(dialog: seq<string>): nat {
    if |dialog| == 0 then 0
    else CountedIn(dialog[..|dialog| - 1]) + if IsCounted(dialog[|dialog| - 1]) then 1 else 0
  }

  /** The first counted line that carries the cursor, if any. */
  function CursorLine(dialog: seq<string>): (r: Option<nat>)
    ensures r.Some? ==> r.value < |dialog|
  {
    if |dialog| == 0 then None
    else
      var last := |dialog| - 1;
      var front := CursorLine(dialog[..last]);
      if front.Some? then front else if IsCounted(dialog[last]) && IsCursor(dialog[last]) then Some(last) else None
  }

  /** The cursor's index: the counted lines above its line. */
  function CursorIndex(lines: seq<string>): Option<nat> {
    match DialogLines(lines)
    case None => None
    case Some(dialog) =>
      match CursorLine(dialog)
      case None => None
      case Some(at) => Some(CountedIn(dialog[..at]))
  }

  lemma CursorStep(dialog: seq<string>, i: nat)
    requires i < |dialog|
    requires CursorLine(dialog[..i]) == None
    ensures CursorLine(dialog[..i + 1]) == if IsCounted(dialog[i]) && IsCursor(dialog[i]) then Some(i) else None
    ensures CountedIn(dialog[..i + 1]) == CountedIn(dialog[..i]) + if IsCounted(dialog[i]) then 1 else 0
  {
    hide IsCounted, IsCursor;
    assert dialog[..i + 1][..i] == dialog[..i];
  }

  /** A cursor found in a prefix is the cursor. */
  lemma {:induction false} CursorStays(dialog: seq<string>, i: nat)
    requires i <= |dialog| && CursorLine(dialog[..i]).Some?
    ensures CursorLine(dialog) == CursorLine(dialog[..i])
  {
    hide IsCounted, IsCursor;
    if i == |dialog| {
      assert dialog[..i] == dialog;
    } else {
      var last := |dialog| - 1;
      assert dialog[..last][..i] == dialog[..i];
      CursorStays(dialog[..last], i);
    }
  }

  method ExtractCursorIndex(lines: seq<string>) returns (result: Option<nat>)
    ensures result == CursorIndex(lines)
  {
    var found := DialogLines(lines);
    if found == None {
      return None;
    }
    hide CursorLine, CountedIn, IsCursor, DialogLines, MatchOption, MatchOther, MatchUnnumbered;
    var dialog := found.value;
    var optionIndex := 0;
    var i := 0;
    NothingCounted(dialog);
    while i < |dialog|
      invariant 0 <= i <= |dialog|
      invariant optionIndex == CountedIn(dialog[..i])
      invariant CursorLine(dialog[..i]) == None
    {
      var line := dialog[i];
      CursorStep(dialog, i);
      if MatchOption(line).Some? {
        if IsCursor(line) {
          CursorStays(dialog, i + 1);
          return Some(optionIndex);
        }
        optionIndex := optionIndex + 1;
      } else if MatchOther(line).Some? || MatchUnnumbered(line).Some? {
        if IsCursor(line) {
          CursorStays(dialog, i + 1);
          return Some(optionIndex);
        }
        optionIndex := optionIndex + 1;
      }
      i := i + 1;
    }
    assert dialog[..i] == dialog;
    return None;
  }

  lemma NothingCounted(dialog: seq<string>)
    ensures CountedIn(dialog[..0]) == 0 && CursorLine(dialog[..0]) == None
  {
  }

  // -------------------------------------------------------------------- agreement

  /** A line the given pass lists. */
  predicate IsListed(line: string, pass: Pass) {
    OptionOf(line, pass).Some?
  }

  ghost predicate CountedAreListed(dialog: seq<string>, pass: Pass) {
    forall i :: 0 <= i < |dialog| && IsCounted(dialog[i]) ==> IsListed(dialog[i], pass)
  }

  lemma CountedAreListedStep(dialog: seq<string>, pass: Pass)
    requires |dialog| > 0
    ensures
      var last := |dialog| - 1;
      CountedAreListed(dialog, pass) <==>
        CountedAreListed(dialog[..last], pass) && (IsCounted(dialog[last]) ==> IsListed(dialog[last], pass))
  {
    hide IsCounted, IsListed;
    var last := |dialog| - 1;
    assert forall i :: 0 <= i < last ==> dialog[..last][i] == dialog[i];
  }

  lemma CountsStep(dialog: seq<string>, pass: Pass)
    requires |dialog| > 0
    ensures
      var last := |dialog| - 1;
      && CountedIn(dialog) == CountedIn(dialog[..last]) + (if IsCounted(dialog[last]) then 1 else 0)
      && |ListedLines(dialog, pass)| ==
           |ListedLines(dialog[..last], pass)| + (if IsListed(dialog[last], pass) then 1 else 0)
  {
    ListedMeansCounted(dialog[|dialog| - 1], pass);
    hide IsCounted, OptionOf, IsListed;
  }

  lemma {:induction false} ListedAreCounted(dialog: seq<string>, pass: Pass)
    ensures |ListedLines(dialog, pass)| <= CountedIn(dialog)
    ensures |ListedLines(dialog, pass)| == CountedIn(dialog) <==> CountedAreListed(dialog, pass)
  {
    if |dialog| > 0 {
      var last := |dialog| - 1;
      ListedAreCounted(dialog[..last], pass);
      CountsStep(dialog, pass);
      CountedAreListedStep(dialog, pass);
      ListedMeansCounted(dialog[last], pass);
      hide *;
    }
  }

  lemma ListedMeansCounted(line: string, pass: Pass)
    ensures IsListed(line, pass) == OptionOf(line, pass).Some?
    ensures IsListed(line, pass) ==> IsCounted(line)
  {
    hide MatchOption, MatchOther, MatchUnnumbered, Trim;
  }

  /** Where a listed line stands among the listed ones. */
  lemma {:induction false} ListedPosition(dialog: seq<string>, at: nat, pass: Pass)
    requires at < |dialog|
    ensures
      var listed := ListedLines(dialog, pass);
      var before := |ListedLines(dialog[..at], pass)|;
      && before <= |listed|
      && (forall k :: 0 <= k < |listed| ==> (listed[k] == at <==> k == before && IsListed(dialog[at], pass)))
      && (IsListed(dialog[at], pass) ==> before < |listed|)
  {
    hide OptionOf;
    var last := |dialog| - 1;
    assert IsListed(dialog[last], pass) == OptionOf(dialog[last], pass).Some? by {
      ListedMeansCounted(dialog[last], pass);
    }
    if at == last {
      assert forall k :: 0 <= k < |ListedLines(dialog[..last], pass)| ==> ListedLines(dialog[..last], pass)[k] < last;
    } else {
      assert dialog[..last][..at] == dialog[..at];
      ListedPosition(dialog[..last], at, pass);
    }
  }

  /** The option at the cursor's index is the one of the cursor's line. */
  ghost predicate Agree(dialog: seq<string>, at: nat, pass: Pass)
    requires at < |dialog|
  {
    var k := CountedIn(dialog[..at]);
    k < |ListedLines(dialog, pass)| && ListedLines(dialog, pass)[k] == at
  }

  /** The two scanners agree exactly when every counted line up to the cursor's is
      listed by the pass that was chosen. */
  lemma AgreeIff(dialog: seq<string>, pass: Pass)
    requires CursorLine(dialog).Some?
    ensures
      var at := CursorLine(dialog).value;
      Agree(dialog, at, pass) <==> CountedAreListed(dialog[..at + 1], pass)
  {
    var at := CursorLine(dialog).value;
    CursorLineIsCounted(dialog);
    hide *;
    AgreeAtIff(dialog, at, pass);
  }

  lemma AgreeAtIff(dialog: seq<string>, at: nat, pass: Pass)
    requires at < |dialog| && IsCounted(dialog[at])
    ensures Agree(dialog, at, pass) <==> CountedAreListed(dialog[..at + 1], pass)
  {
    hide *;
    var upto := dialog[..at + 1];
    assert upto[..at] == dialog[..at];
    assert upto[at] == dialog[at];
    CountedAreListedStep(upto, pass);
    ListedAreCounted(dialog[..at], pass);
    ListedPosition(dialog, at, pass);
    AgreeMeans(dialog, at, pass);
  }

  lemma AgreeMeans(dialog: seq<string>, at: nat, pass: Pass)
    requires at < |dialog|
    ensures
      var k := CountedIn(dialog[..at]);
      Agree(dialog, at, pass) <==> k < |ListedLines(dialog, pass)| && ListedLines(dialog, pass)[k] == at
  {
  }

  lemma {:induction false} CursorLineIsCounted(dialog: seq<string>)
    requires CursorLine(dialog).Some?
    ensures
      var at := CursorLine(dialog).value;
      && at < |dialog| && IsCounted(dialog[at]) && IsCursor(dialog[at])
      && forall i :: 0 <= i < at ==> !(IsCounted(dialog[i]) && IsCursor(dialog[i]))
  {
    hide IsCounted, IsCursor;
    var last := |dialog| - 1;
    if CursorLine(dialog[..last]).Some? {
      CursorLineIsCounted(dialog[..last]);
    } else {
      NoCursorLine(dialog[..last]);
    }
  }

  lemma {:induction false} NoCursorLine(dialog: seq<string>)
    requires CursorLine(dialog).None?
    ensures forall i :: 0 <= i < |dialog| ==> !(IsCounted(dialog[i]) && IsCursor(dialog[i]))
  {
    hide IsCounted, IsCursor;
    if |dialog| > 0 {
      NoCursorLine(dialog[..|dialog| - 1]);
    }
  }
}
