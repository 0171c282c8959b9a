/** Reading text off terminal cells (src/hooks/screenScraper.ts): the text of a line,
    the map from text positions back to cells, the active tab, and the option the
    cursor is on. */
module ScreenMap {
  import opened Common
  import opened Utf16

  /** Width 0 marks the continuation of a wide character; empty text is a blank cell. */
  datatype Cell = Cell(width: nat, chars: Text)

  /** A buffer line; a cell may be missing. */
  type Line = seq<Option<Cell>>

  const SPACE: CodeUnit := 0x20

  predicate Kept(c: Option<Cell>) {
    c.Some? && c.value.width != 0
  }

  /** What a kept cell contributes. */
  function Units(c: Option<Cell>): (r: Text)
    requires Kept(c)
    ensures |r| > 0
  {
    if |c.value.chars| > 0 then c.value.chars else [SPACE]
  }

  function RawText(line: Line): Text {
    if |line| == 0 then []
    else
      var last := |line| - 1;
      RawText(line[..last]) + if Kept(line[last]) then Units(line[last]) else []
  }

  /** The text of a line without the blanks at its end. */
  function LineText(line: Line): Text {
    DropTrailing(RawText(line), IsSpace)
  }

  /** The cells that are kept, in order. */
  function CharToCell(line: Line): (r: seq<nat>)
    ensures forall k :: 0 <= k < |r| ==> r[k] < |line| && Kept(line[r[k]])
  {
    if |line| == 0 then []
    else
      var last := |line| - 1;
      CharToCell(line[..last]) + if Kept(line[last]) then [last] else []
  }

  function Copies(x: nat, n: nat): (r: seq<nat>)
    ensures |r| == n && forall k :: 0 <= k < n ==> r[k] == x
  {
    if n == 0 then [] else [x] + Copies(x, n - 1)
  }

  /** For each position of the text, the cell it was read from. */
  ghost function Origin(line: Line): (r: seq<nat>)
    ensures |r| == |RawText(line)|
    ensures forall k :: 0 <= k < |r| ==> r[k] < |line| && Kept(line[r[k]])
  {
    if |line| == 0 then []
    else
      var last := |line| - 1;
      Origin(line[..last]) + if Kept(line[last]) then Copies(last, |Units(line[last])|) else []
  }

  method ExtractLineText(line: Line) returns (text: Text)
    ensures text == LineText(line)
  {
    var raw := [];
    var x := 0;
    while x < |line|
      invariant 0 <= x <= |line|
      invariant raw == RawText(line[..x])
    {
      assert line[..x + 1][..x] == line[..x];
      if line[x].Some? {
        if line[x].value.width != 0 {
          if |line[x].value.chars| > 0 {
            raw := raw + line[x].value.chars;
          } else {
            raw := raw + [SPACE];
          }
        }
      }
      x := x + 1;
    }
    assert line[..x] == line;
    text := DropTrailing(raw, IsSpace);
  }

  method BuildCharToCell(line: Line) returns (charToCell: seq<nat>)
    ensures charToCell == CharToCell(line)
  {
    charToCell := [];
    var x := 0;
    while x < |line|
      invariant 0 <= x <= |line|
      invariant charToCell == CharToCell(line[..x])
    {
      assert line[..x + 1][..x] == line[..x];
      if line[x].Some? {
        if line[x].value.width != 0 {
          charToCell := charToCell + [x];
        }
      }
      x := x + 1;
    }
    assert line[..x] == line;
  }

  /** What each further cell adds: nothing if it is missing or continues a wide character,
      otherwise its text, or one space if it is blank. */
  lemma CellAdds(line: Line, cell: Option<Cell>)
    ensures
      var longer := line + [cell];
      if cell.None? || cell.value.width == 0
      then RawText(longer) == RawText(line) && CharToCell(longer) == CharToCell(line)
      else && RawText(longer) == RawText(line) + (if cell.value.chars == [] then [0x20] else cell.value.chars)
           && CharToCell(longer) == CharToCell(line) + [|line|]
  {
    assert (line + [cell])[..|line|] == line;
  }

  // ------------------------------------------------------------ positions and cells

  /** The map is strictly increasing and reaches every kept cell. */
  lemma {:induction false} CharToCellIncreases(line: Line)
    ensures
      var cells := CharToCell(line);
      && (forall i, j :: 0 <= i < j < |cells| ==> cells[i] < cells[j])
      && forall x: nat :: x < |line| && Kept(line[x]) ==> x in cells
  {
    if |line| > 0 {
      var last := |line| - 1;
      CharToCellIncreases(line[..last]);
      forall x: nat | x < |line| && Kept(line[x]) ensures x in CharToCell(line) {
        assert x < last ==> line[..last][x] == line[x];
      }
    }
  }

  /** The text position at which a cell's text begins. */
  function Begin(line: Line, x: nat): nat
    requires x <= |line|
  {
    |RawText(line[..x])|
  }

  /** Position k of the text lies in the units of the cell it originates from. */
  lemma {:induction false} OriginHolds(line: Line, k: nat)
    requires k < |RawText(line)|
    ensures
      var x := Origin(line)[k];
      && Begin(line, x) <= k < Begin(line, x) + |Units(line[x])|
      && RawText(line)[k] == Units(line[x])[k - Begin(line, x)]
  {
    var last := |line| - 1;
    assert forall x: nat :: x <= last ==> line[..last][..x] == line[..x];
    if k < |RawText(line[..last])| {
      OriginHolds(line[..last], k);
    }
  }

  /** Where a kept cell stands: in the map after the kept cells before it, and in the
      text from its beginning on. */
  lemma {:induction false} CellStands(line: Line, x: nat)
    requires x < |line| && Kept(line[x])
    ensures |CharToCell(line[..x])| < |CharToCell(line)| && CharToCell(line)[|CharToCell(line[..x])|] == x
    ensures Begin(line, x) + |Units(line[x])| <= |RawText(line)|
    ensures forall k :: Begin(line, x) <= k < Begin(line, x) + |Units(line[x])| ==> Origin(line)[k] == x
  {
    var last := |line| - 1;
    if x < last {
      assert line[..last][..x] == line[..x];
      CellStands(line[..last], x);
    }
  }

  ghost predicate SingleBefore(line: Line, x: nat)
    requires x <= |line|
  {
    forall y :: 0 <= y < x && Kept(line[y]) ==> |Units(line[y])| == 1
  }

  /** The map runs no faster than the text, and equally fast up to a cell exactly when
      the cells before it hold one unit each. */
  lemma {:induction false} MapRunsBehind(line: Line, x: nat)
    requires x <= |line|
    ensures |CharToCell(line[..x])| <= Begin(line, x)
    ensures |CharToCell(line[..x])| == Begin(line, x) <==> SingleBefore(line, x)
  {
    if x > 0 {
      assert line[..x][..x - 1] == line[..x - 1];
      MapRunsBehind(line, x - 1);
      hide CharToCell, RawText;
      MapStep(line, x);
    }
  }

  lemma MapStep(line: Line, x: nat)
    requires 0 < x <= |line|
    ensures |CharToCell(line[..x])| == |CharToCell(line[..x - 1])| + if Kept(line[x - 1]) then 1 else 0
    ensures Begin(line, x) == Begin(line, x - 1) + if Kept(line[x - 1]) then |Units(line[x - 1])| else 0
  {
    assert line[..x][..x - 1] == line[..x - 1];
  }

  /** The text never falls back. */
  lemma {:induction false} BeginIncreases(line: Line, y: nat, x: nat)
    requires y < x <= |line|
    ensures Begin(line, y) + (if Kept(line[y]) then |Units(line[y])| else 0) <= Begin(line, x)
    decreases x
  {
    hide Begin;
    MapStep(line, x);
    if y < x - 1 {
      BeginIncreases(line, y, x - 1);
    }
  }

  /** No kept cell that holds several units begins before position k. */
  ghost predicate SingleUnitsBefore(line: Line, k: nat) {
    forall x :: 0 <= x < |line| && Kept(line[x]) && |Units(line[x])| > 1 ==> k <= Begin(line, x)
  }

  /** Position k is mapped to the cell it was read from exactly when no cell that
      begins before k holds several units. */
  lemma MapsToOriginIff(line: Line, k: nat)
    requires k < |RawText(line)|
    ensures k < |CharToCell(line)| && CharToCell(line)[k] == Origin(line)[k] <==> SingleUnitsBefore(line, k)
  {
    var x := Origin(line)[k];
    OriginHolds(line, k);
    CellStands(line, x);
    MapRunsBehind(line, x);
    CharToCellIncreases(line);
    hide CharToCell, RawText, Origin, Begin;
    var c := |CharToCell(line[..x])|;
    if k < |CharToCell(line)| && CharToCell(line)[k] == x {
      assert k == c;
      SingleBeforeGives(line, x);
    }
    if SingleUnitsBefore(line, k) {
      SinglesUpTo(line, x, k);
    }
  }

  lemma SingleBeforeGives(line: Line, x: nat)
    requires x < |line| && SingleBefore(line, x)
    ensures SingleUnitsBefore(line, Begin(line, x))
  {
    hide Begin;
    forall y | 0 <= y < |line| && Kept(line[y]) && |Units(line[y])| > 1 ensures Begin(line, x) <= Begin(line, y) {
      if x < y {
        BeginIncreases(line, x, y);
      }
    }
  }

  lemma SinglesUpTo(line: Line, x: nat, k: nat)
    requires x < |line| && Kept(line[x]) && SingleUnitsBefore(line, k)
    requires Begin(line, x) <= k < Begin(line, x) + |Units(line[x])|
    ensures SingleBefore(line, x) && k == Begin(line, x)
  {
    hide Begin;
    forall y | 0 <= y < x && Kept(line[y]) ensures |Units(line[y])| == 1 {
      BeginIncreases(line, y, x);
    }
  }

  /** On a line whose kept cells hold at most one unit each, position k of the trimmed
      text is the unit of cell charToCell[k]. */
  lemma TrimmedTextMaps(line: Line, k: nat)
    requires forall x :: 0 <= x < |line| && Kept(line[x]) ==> |line[x].value.chars| <= 1
    requires k < |LineText(line)|
    ensures k < |CharToCell(line)|
    ensures [LineText(line)[k]] == Units(line[CharToCell(line)[k]])
  {
    MapsToOriginIff(line, k);
    OriginHolds(line, k);
    hide CharToCell, RawText, Origin, Begin;
    assert SingleUnitsBefore(line, k);
    assert |Units(line[Origin(line)[k]])| == 1;
  }

  // ------------------------------------------------------------------- the active tab

  predicate OccursAt(text: Text, tab: Text, p: nat) {
    p + |tab| <= |text| && text[p..p + |tab|] == tab
  }

  /** JavaScript's indexOf for a search text that is not empty. */
  function IndexOf(text: Text, tab: Text, from: nat): Option<nat>
    decreases |text| - from
  {
    if from + |tab| > |text| then None
    else if OccursAt(text, tab, from) then Some(from)
    else if from == |text| then None
    else IndexOf(text, tab, from + 1)
  }

  /** The cell at which a text position is looked up. */
  function LookupCell(charToCell: seq<nat>, p: nat): nat {
    if p < |charToCell| then charToCell[p] else p
  }

  /** The first label, searched from left to right, whose first cell is highlighted. */
  function ActiveTab(text: Text, labels: seq<Text>, charToCell: seq<nat>, bright: nat -> bool, searchStart: nat): Option<nat>
    decreases |labels|
  {
    if |labels| == 0 then None
    else
      match IndexOf(text, labels[0], searchStart)
      case None => Later(ActiveTab(text, labels[1..], charToCell, bright, searchStart + |labels[0]|))
      case Some(p) =>
        if bright(LookupCell(charToCell, p)) then Some(0)
        else Later(ActiveTab(text, labels[1..], charToCell, bright, p + |labels[0]|))
  }

  function Later(r: Option<nat>): Option<nat> {
    match r
    case None => None
    case Some(j) => Some(j + 1)
  }

  function Plus(r: Option<nat>, n: nat): Option<nat> {
    match r
    case None => None
    case Some(j) => Some(j + n)
  }

  method FindActiveTab(text: Text, labels: seq<Text>, charToCell: seq<nat>, bright: nat -> bool) returns (active: Option<nat>)
    ensures active == ActiveTab(text, labels, charToCell, bright, 0)
  {
    var searchStart: nat := 0;
    var j := 0;
    while j < |labels|
      invariant 0 <= j <= |labels|
      invariant ActiveTab(text, labels, charToCell, bright, 0)
                == Plus(ActiveTab(text, labels[j..], charToCell, bright, searchStart), j)
    {
      hide IndexOf, LookupCell;
      var found := IndexOf(text, labels[j], searchStart);
      assert labels[j..][1..] == labels[j + 1..];
      if found.Some? {
        if bright(LookupCell(charToCell, found.value)) {
          return Some(j);
        }
        searchStart := found.value + |labels[j]|;
      } else {
        searchStart := searchStart + |labels[j]|;
      }
      j := j + 1;
    }
    return None;
  }

  /** The labels stand in the text in order; what separates a label from the previous
      one (spaces, a border) never shows the label's first unit. */
  ghost predicate LaidOut(text: Text, labels: seq<Text>, places: seq<nat>, from: nat)
    decreases |labels|
  {
    && |labels| == |places|
    && (|labels| > 0 ==>
          && |labels[0]| > 0 && from <= places[0] && OccursAt(text, labels[0], places[0])
          && (forall i :: from <= i < places[0] ==> text[i] != labels[0][0])
          && LaidOut(text, labels[1..], places[1..], places[0] + |labels[0]|))
  }

  lemma {:induction false} IndexOfIsPlace(text: Text, tab: Text, from: nat, place: nat)
    requires |tab| > 0 && from <= place && OccursAt(text, tab, place)
    requires forall i :: from <= i < place ==> text[i] != tab[0]
    ensures IndexOf(text, tab, from) == Some(place)
    decreases place - from
  {
    if from < place {
      assert text[from..from + |tab|][0] == text[from];
      IndexOfIsPlace(text, tab, from + 1, place);
    }
  }

  /** The first place whose cell is highlighted. */
  function FirstBright(places: seq<nat>, charToCell: seq<nat>, bright: nat -> bool): Option<nat> {
    if |places| == 0 then None
    else if bright(LookupCell(charToCell, places[0])) then Some(0)
    else Later(FirstBright(places[1..], charToCell, bright))
  }

  /** On a row laid out in order the search visits every label at its own place. */
  lemma {:induction false} SearchVisitsPlaces(text: Text, labels: seq<Text>, places: seq<nat>, from: nat,
                                              charToCell: seq<nat>, bright: nat -> bool)
    requires LaidOut(text, labels, places, from)
    ensures ActiveTab(text, labels, charToCell, bright, from) == FirstBright(places, charToCell, bright)
    decreases |labels|
  {
    if |labels| > 0 {
      IndexOfIsPlace(text, labels[0], from, places[0]);
      hide IndexOf, LookupCell;
      SearchVisitsPlaces(text, labels[1..], places[1..], places[0] + |labels[0]|, charToCell, bright);
    }
  }

  lemma {:induction false} PlacesAreInText(text: Text, labels: seq<Text>, places: seq<nat>, from: nat, j: nat)
    requires LaidOut(text, labels, places, from) && j < |places|
    ensures places[j] < |text|
    decreases |labels|
  {
    if j > 0 {
      PlacesAreInText(text, labels[1..], places[1..], places[0] + |labels[0]|, j - 1);
    }
  }

  lemma {:induction false} FirstBrightIsFirst(line: Line, places: seq<nat>, bright: nat -> bool)
    requires forall j :: 0 <= j < |places| ==> places[j] < |RawText(line)| && SingleUnitsBefore(line, places[j])
    ensures
      var active := FirstBright(places, CharToCell(line), bright);
      && (active.Some? ==> active.value < |places| && bright(Origin(line)[places[active.value]]))
      && forall j :: 0 <= j < (if active.Some? then active.value else |places|) ==> !bright(Origin(line)[places[j]])
    decreases |places|
  {
    hide CharToCell, Origin, RawText, SingleUnitsBefore;
    if |places| > 0 {
      MapsToOriginIff(line, places[0]);
      FirstBrightIsFirst(line, places[1..], bright);
    }
  }

  /** On a row laid out in order, with no cell of several units before any label, the
      active tab is the first label whose first unit was read from a highlighted cell. */
  lemma ActiveTabIsFirstBright(line: Line, labels: seq<Text>, places: seq<nat>, bright: nat -> bool)
    requires LaidOut(LineText(line), labels, places, 0)
    requires forall j :: 0 <= j < |places| ==> SingleUnitsBefore(line, places[j])
    ensures forall j :: 0 <= j < |places| ==> places[j] < |RawText(line)|
    ensures
      var active := ActiveTab(LineText(line), labels, CharToCell(line), bright, 0);
      && (active.Some? ==> active.value < |places| && bright(Origin(line)[places[active.value]]))
      && forall j :: 0 <= j < (if active.Some? then active.value else |places|) ==> !bright(Origin(line)[places[j]])
  {
    var text := LineText(line);
    hide CharToCell, Origin, RawText, SingleUnitsBefore, LaidOut, ActiveTab, FirstBright;
    forall j | 0 <= j < |places| ensures places[j] < |RawText(line)| {
      PlacesAreInText(text, labels, places, 0, j);
    }
    SearchVisitsPlaces(text, labels, places, 0, CharToCell(line), bright);
    FirstBrightIsFirst(line, places, bright);
  }

  // -------------------------------------------------------- the option at the cursor

  const MAX_LINES: nat := 50

  predicate IsOptionMark(u: CodeUnit) {
    u == 0x25A1 || u == 0x25A0 || u == 0x276D || u == 0xB7
  }

  /** Optional spaces and then a mark. */
  predicate IsOptionText(text: Text) {
    |text| > 0 && (IsOptionMark(text[0]) || (IsSpace(text[0]) && IsOptionText(text[1..])))
  }

  ghost predicate MarkAfterSpaces(text: Text, k: nat) {
    && k < |text| && (text[k] == 0x25A1 || text[k] == 0x25A0 || text[k] == 0x276D || text[k] == 0xB7)
    && forall i :: 0 <= i < k ==> IsSpace(text[i])
  }

  lemma {:induction false} IsOptionTextIff(text: Text)
    ensures IsOptionText(text) <==> exists k :: MarkAfterSpaces(text, k)
  {
    hide IsSpace;
    if |text| > 0 {
      IsOptionTextIff(text[1..]);
      if IsOptionMark(text[0]) {
        assert MarkAfterSpaces(text, 0);
      }
      if k: nat :| MarkAfterSpaces(text[1..], k) && IsSpace(text[0]) {
        assert MarkAfterSpaces(text, k + 1);
      }
      if k: nat :| MarkAfterSpaces(text, k) && k > 0 {
        assert MarkAfterSpaces(text[1..], k - 1);
      }
    }
  }

  predicate IsOptionLine(line: Option<Line>) {
    line.Some? && IsOptionText(LineText(line.value))
  }

  /** The option lines among the buffer's lines from `lo` up to `hi`. */
  function CountOptions(buffer: seq<Option<Line>>, lo: nat, hi: nat): nat
    requires hi <= |buffer|
    decreases hi
  {
    if hi <= lo then 0 else CountOptions(buffer, lo, hi - 1) + if IsOptionLine(buffer[hi - 1]) then 1 else 0
  }

  function StartLine(height: nat): nat {
    if height > MAX_LINES then height - MAX_LINES else 0
  }

  ghost predicate IsOptionLineMap(m: map<nat, nat>, buffer: seq<Option<Line>>, start: nat, upto: nat)
    requires upto <= |buffer|
  {
    && (forall y :: y in m <==> start <= y < upto && IsOptionLine(buffer[y]))
    && forall y :: y in m ==> m[y] == CountOptions(buffer, start, y)
  }

  method CollectOptionLines(buffer: seq<Option<Line>>) returns (optionLineMap: map<nat, nat>)
    ensures IsOptionLineMap(optionLineMap, buffer, StartLine(|buffer|), |buffer|)
  {
    hide IsOptionText, LineText;
    var start := StartLine(|buffer|);
    optionLineMap := map[];
    var optionIdx := 0;
    var i := start;
    while i < |buffer|
      invariant start <= i <= |buffer|
      invariant optionIdx == CountOptions(buffer, start, i)
      invariant IsOptionLineMap(optionLineMap, buffer, start, i)
    {
      if buffer[i].Some? {
        var text := ExtractLineText(buffer[i].value);
        if IsOptionText(text) {
          optionLineMap := optionLineMap[i := optionIdx];
          optionIdx := optionIdx + 1;
        }
      }
      i := i + 1;
    }
  }

  /** The lines that count for a cursor at `cursorY`: down to its own. */
  function Through(height: nat, cursorY: nat): (r: nat)
    ensures r <= height
  {
    if cursorY < height then cursorY + 1 else height
  }

  lemma {:induction false} NoOptionsNoCount(buffer: seq<Option<Line>>, lo: nat, mid: nat, hi: nat)
    requires lo <= mid <= hi <= |buffer|
    requires forall y :: mid <= y < hi ==> !IsOptionLine(buffer[y])
    ensures CountOptions(buffer, lo, hi) == CountOptions(buffer, lo, mid)
    decreases hi
  {
    hide IsOptionLine;
    if mid < hi {
      NoOptionsNoCount(buffer, lo, mid, hi - 1);
    }
  }

  /** The option's index is the number of option lines from the start line through the
      cursor's, minus one; there is none if that number is 0. */
  method GetCursorOptionIndex(buffer: seq<Option<Line>>, cursorY: nat) returns (index: Option<nat>)
    ensures
      var start := if |buffer| > 50 then |buffer| - 50 else 0;
      var n := CountOptions(buffer, start, Through(|buffer|, cursorY));
      index == if n == 0 then None else Some(n - 1)
  {
    var optionLineMap := CollectOptionLines(buffer);
    hide IsOptionLine;
    var start := StartLine(|buffer|);
    ghost var through := Through(|buffer|, cursorY);
    if cursorY in optionLineMap {
      return Some(optionLineMap[cursorY]);
    }
    var y: int := cursorY;
    while y >= start
      invariant y <= cursorY
      invariant forall z :: y < z < through && start <= z ==> !IsOptionLine(buffer[z])
      decreases y - start
    {
      if y in optionLineMap {
        NoOptionsNoCount(buffer, start, y + 1, through);
        return Some(optionLineMap[y]);
      }
      y := y - 1;
    }
    if start < through {
      NoOptionsNoCount(buffer, start, start, through);
    }
    return None;
  }
}
