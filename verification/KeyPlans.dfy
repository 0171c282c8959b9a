/** The keystrokes that answer an agent's dialog (src/hooks/answerSubmitter.ts), the
    steps they are sent in (src/hooks/cliBehavior.ts), and a small terminal dialog
    that reads them. */
module KeyPlans {
  import opened Common

  // ----------------------------------------------------------- keys and a dialog

  datatype Key = Up | Down | Right | Left | Space | Enter | Tab | Escape | Letter(c: char)

  const ESC: char := '\U{1B}'

  function ArrowText(k: Key): string
    requires k.Up? || k.Down? || k.Right? || k.Left?
  {
    [ESC, '[', if k.Up? then 'A' else if k.Down? then 'B' else if k.Right? then 'C' else 'D']
  }

  function KeyOf(c: char): Key {
    if c == ' ' then Space else if c == '\r' then Enter else if c == '\t' then Tab
    else if c == ESC then Escape else Letter(c)
  }

  /** How a terminal program reads its input: ESC [ A..D is one arrow key. */
  function Presses(text: string): seq<Key> {
    if |text| == 0 then []
    else if |text| >= 3 && text[0] == ESC && text[1] == '[' && 'A' <= text[2] <= 'D' then
      var k := if text[2] == 'A' then Up else if text[2] == 'B' then Down else if text[2] == 'C' then Right else Left;
      [k] + Presses(text[3..])
    else [KeyOf(text[0])] + Presses(text[1..])
  }

  /** A list of options or a row of tabs: a position, the checked entries, and the
      positions at which Enter was pressed. */
  datatype Dialog = Dialog(size: nat, circular: bool, pos: nat, checked: set<nat>, chosen: seq<nat>, cancelled: bool)
  {
    predicate Valid() {
      pos < size && forall i :: i in checked ==> i < size
    }
  }

  function Forward(d: Dialog): nat
    requires d.Valid()
  {
    if d.pos + 1 < d.size then d.pos + 1 else if d.circular then 0 else d.pos
  }

  function Backward(d: Dialog): nat
    requires d.Valid()
  {
    if d.pos > 0 then d.pos - 1 else if d.circular then d.size - 1 else 0
  }

  function Toggle(s: set<nat>, i: nat): set<nat> {
    if i in s then s - {i} else s + {i}
  }

  /** One key. The letter l moves on in OpenCode's row of buttons; where Tab leads is
      not part of this dialog, and no law relies on it. */
  function Press(d: Dialog, k: Key): (r: Dialog)
    requires d.Valid()
    ensures r.Valid() && r.size == d.size && r.circular == d.circular
  {
    match k
    case Down | Right => d.(pos := Forward(d))
    case Up | Left => d.(pos := Backward(d))
    case Space => d.(checked := Toggle(d.checked, d.pos))
    case Enter => d.(chosen := d.chosen + [d.pos])
    case Escape => d.(cancelled := true)
    case Tab => d
    case Letter(c) => if c == 'l' then d.(pos := Forward(d)) else d
  }

  function Pressed(d: Dialog, ks: seq<Key>): (r: Dialog)
    requires d.Valid()
    ensures r.Valid() && r.size == d.size && r.circular == d.circular
    decreases |ks|
  {
    if |ks| == 0 then d else Pressed(Press(d, ks[0]), ks[1..])
  }

  /** JavaScript's String.repeat for a count that is not negative. */
  function Repeat(s: string, n: nat): string {
    if n == 0 then "" else s + Repeat(s, n - 1)
  }

  function Copies(k: Key, n: nat): (r: seq<Key>)
    ensures |r| == n
    ensures forall i :: 0 <= i < n ==> r[i] == k
  {
    if n == 0 then [] else [k] + Copies(k, n - 1)
  }

  lemma PressesOfArrow(k: Key, rest: string)
    requires k.Up? || k.Down? || k.Right? || k.Left?
    ensures Presses(ArrowText(k) + rest) == [k] + Presses(rest)
  {
    var text := ArrowText(k) + rest;
    assert text[3..] == rest;
  }

  lemma PressesOfChar(c: char, rest: string)
    requires c != ESC
    ensures Presses([c] + rest) == [KeyOf(c)] + Presses(rest)
  {
    assert ([c] + rest)[1..] == rest;
  }

  lemma {:induction false} PressesOfArrows(k: Key, n: nat, rest: string)
    requires k.Up? || k.Down? || k.Right? || k.Left?
    ensures Presses(Repeat(ArrowText(k), n) + rest) == Copies(k, n) + Presses(rest)
  {
    if n == 0 {
      assert Repeat(ArrowText(k), n) + rest == rest;
    } else {
      assert Repeat(ArrowText(k), n) + rest == ArrowText(k) + (Repeat(ArrowText(k), n - 1) + rest);
      PressesOfArrow(k, Repeat(ArrowText(k), n - 1) + rest);
      PressesOfArrows(k, n - 1, rest);
    }
  }

  lemma {:induction false} PressesOfLetters(c: char, n: nat, rest: string)
    requires c != ESC
    ensures Presses(Repeat([c], n) + rest) == Copies(KeyOf(c), n) + Presses(rest)
  {
    if n == 0 {
      assert Repeat([c], n) + rest == rest;
    } else {
      assert Repeat([c], n) + rest == [c] + (Repeat([c], n - 1) + rest);
      PressesOfChar(c, Repeat([c], n - 1) + rest);
      PressesOfLetters(c, n - 1, rest);
    }
  }

  lemma PressesOfSingle(c: char)
    ensures Presses([c]) == [KeyOf(c)]
  {
    assert [c][1..] == [];
  }

  lemma {:induction false} PressedConcat(d: Dialog, a: seq<Key>, b: seq<Key>)
    requires d.Valid()
    ensures Pressed(d, a + b) == Pressed(Pressed(d, a), b)
    decreases |a|
  {
    if |a| == 0 {
      assert a + b == b;
    } else {
      assert (a + b)[1..] == a[1..] + b;
      PressedConcat(Press(d, a[0]), a[1..], b);
    }
  }

  lemma PressedOne(d: Dialog, k: Key)
    requires d.Valid()
    ensures Pressed(d, [k]) == Press(d, k)
  {
  }

  // --------------------------------------------------- toggling in Devin's list

  function ToggleDevinOption(target: nat, cursorPos: nat): string {
    if target > cursorPos then Repeat(ArrowText(Down), target - cursorPos) + " "
    else if target < cursorPos then Repeat(ArrowText(Up), cursorPos - target) + " "
    else " "
  }

  /** The position that is `offset` places after `i` on a circle of `size`. */
  function Shift(i: nat, offset: nat, size: nat): (r: nat)
    requires i < size && offset < size
    ensures r < size
  {
    if i + offset < size then i + offset else i + offset - size
  }

  lemma {:induction false} DownMany(d: Dialog, from: nat, k: nat, offset: nat)
    requires d.Valid() && d.circular && from + k < d.size && offset < d.size
    requires d.pos == Shift(from, offset, d.size)
    ensures Pressed(d, Copies(Down, k)) == d.(pos := Shift(from + k, offset, d.size))
    decreases k
  {
    if k > 0 {
      assert Copies(Down, k)[1..] == Copies(Down, k - 1);
      DownMany(Press(d, Down), from + 1, k - 1, offset);
    }
  }

  lemma {:induction false} UpMany(d: Dialog, from: nat, k: nat, offset: nat)
    requires d.Valid() && d.circular && k <= from < d.size && offset < d.size
    requires d.pos == Shift(from, offset, d.size)
    ensures Pressed(d, Copies(Up, k)) == d.(pos := Shift(from - k, offset, d.size))
    decreases k
  {
    if k > 0 {
      assert Copies(Up, k)[1..] == Copies(Up, k - 1);
      UpMany(Press(d, Up), from - 1, k - 1, offset);
    }
  }

  function Typed(d: Dialog, text: string): (r: Dialog)
    requires d.Valid()
    ensures r.Valid() && r.size == d.size && r.circular == d.circular
  {
    Pressed(d, Presses(text))
  }

  /** One toggle flips one entry: the target, displaced by as much as the tracked
      cursor is off. */
  lemma ToggleLands(d: Dialog, target: nat, cursorPos: nat, offset: nat)
    requires d.Valid() && d.circular && target < d.size && cursorPos < d.size && offset < d.size
    requires d.pos == Shift(cursorPos, offset, d.size)
    ensures
      var landed := Shift(target, offset, d.size);
      Typed(d, ToggleDevinOption(target, cursorPos)) == d.(pos := landed, checked := Toggle(d.checked, landed))
  {
    PressesOfSingle(' ');
    if target > cursorPos {
      PressesOfArrows(Down, target - cursorPos, " ");
      PressedConcat(d, Copies(Down, target - cursorPos), [Space]);
      DownMany(d, cursorPos, target - cursorPos, offset);
      PressedOne(Pressed(d, Copies(Down, target - cursorPos)), Space);
    } else if target < cursorPos {
      PressesOfArrows(Up, cursorPos - target, " ");
      PressedConcat(d, Copies(Up, cursorPos - target), [Space]);
      UpMany(d, cursorPos, cursorPos - target, offset);
      PressedOne(Pressed(d, Copies(Up, cursorPos - target)), Space);
    } else {
      PressedOne(d, Space);
    }
  }

  /** The overlay's tracked cursor beside the dialog it drives. */
  datatype Session = Session(cursorPos: nat, dialog: Dialog)

  /** The toggle behaviour: send the keys, and track the target as the new cursor. */
  function Toggled(s: Session, target: nat): Session
    requires s.dialog.Valid()
  {
    Session(target, Typed(s.dialog, ToggleDevinOption(target, s.cursorPos)))
  }

  function ToggleRun(s: Session, targets: seq<nat>): (r: Session)
    requires s.dialog.Valid()
    ensures r.dialog.Valid() && r.dialog.size == s.dialog.size
    decreases |targets|
  {
    if |targets| == 0 then s else ToggleRun(Toggled(s, targets[0]), targets[1..])
  }

  /** Whether `i` occurs an odd number of times. */
  predicate OddlyOften(targets: seq<nat>, i: nat) {
    |targets| > 0 && (if targets[0] == i then !OddlyOften(targets[1..], i) else OddlyOften(targets[1..], i))
  }

  ghost predicate InRange(targets: seq<nat>, size: nat) {
    forall k :: 0 <= k < |targets| ==> targets[k] < size
  }

  /** Over any run of toggles the real cursor stays exactly as far from the tracked
      one as it was at the start, and an entry's mark has flipped exactly when the
      entry it is displaced from was toggled an odd number of times. */
  lemma {:induction false} ToggleRunLaw(s: Session, targets: seq<nat>, offset: nat)
    requires s.dialog.Valid() && s.dialog.circular && s.cursorPos < s.dialog.size && offset < s.dialog.size
    requires s.dialog.pos == Shift(s.cursorPos, offset, s.dialog.size)
    requires InRange(targets, s.dialog.size)
    ensures
      var r := ToggleRun(s, targets);
      && r.cursorPos < s.dialog.size
      && r.dialog.pos == Shift(r.cursorPos, offset, s.dialog.size)
      && r.cursorPos == (if |targets| == 0 then s.cursorPos else targets[|targets| - 1])
      && r.dialog.chosen == s.dialog.chosen
      && forall i: nat :: i < s.dialog.size ==>
           (Shift(i, offset, s.dialog.size) in r.dialog.checked <==>
             (Shift(i, offset, s.dialog.size) in s.dialog.checked) != OddlyOften(targets, i))
    decreases |targets|
  {
    if |targets| > 0 {
      ToggleLands(s.dialog, targets[0], s.cursorPos, offset);
      ToggleRunLaw(Toggled(s, targets[0]), targets[1..], offset);
    }
  }

  /** Started with the right cursor, the tracked cursor stays right, and the marks are
      the symmetric difference of what was marked and what was oddly often toggled. */
  lemma TrackedCursorStaysExact(s: Session, targets: seq<nat>)
    requires s.dialog.Valid() && s.dialog.circular && s.cursorPos == s.dialog.pos
    requires InRange(targets, s.dialog.size)
    ensures
      var r := ToggleRun(s, targets);
      var odd := set i: nat | i < s.dialog.size && OddlyOften(targets, i);
      && r.cursorPos == r.dialog.pos
      && r.dialog.checked == (s.dialog.checked - odd) + (odd - s.dialog.checked)
  {
    ToggleRunLaw(s, targets, 0);
    var r := ToggleRun(s, targets);
    forall i: nat | i < s.dialog.size
      ensures i in r.dialog.checked <==> (i in s.dialog.checked) != OddlyOften(targets, i)
    {
      assert Shift(i, 0, s.dialog.size) == i;
    }
  }

  /** A toggle flips its target exactly when the tracked cursor is the real one. */
  lemma ToggleHitsIff(s: Session, target: nat)
    requires s.dialog.Valid() && s.dialog.circular && s.cursorPos < s.dialog.size && target < s.dialog.size
    ensures Toggled(s, target).dialog.checked == Toggle(s.dialog.checked, target) <==> s.cursorPos == s.dialog.pos
  {
    var n, d := s.dialog.size, s.dialog;
    var offset := if d.pos >= s.cursorPos then d.pos - s.cursorPos else d.pos + n - s.cursorPos;
    ToggleLands(d, target, s.cursorPos, offset);
    var landed := Shift(target, offset, n);
    if landed != target {
      assert (target in Toggle(d.checked, landed)) == (target in d.checked);
      assert (target in Toggle(d.checked, target)) != (target in d.checked);
    }
  }

  // -------------------------------------------------------------- confirm plans

  datatype Plan = Keys(text: string) | RangeError

  /** JavaScript's %: the sign of the result follows the dividend. */
  function JsRemainder(x: int, n: nat): int
    requires n > 0
  {
    if x >= 0 then x % n else -((-x) % n)
  }

  function ArrowsNeeded(activeIndex: int, totalTabs: nat): int
    requires totalTabs > 0
  {
    var currentTab := if activeIndex >= 0 then activeIndex else 0;
    JsRemainder(totalTabs - 1 - currentTab + totalTabs, totalTabs)
  }

  /** String.repeat throws for a negative count. */
  function ArrowsThenEnter(arrows: int): Plan {
    if arrows < 0 then RangeError else Keys(Repeat(ArrowText(Right), arrows) + "\r")
  }

  function SubmitDevinConfirm(hasOptions: bool, activeIndex: int, totalTabs: int, isMultiSelect: bool, hasAnswers: bool): Plan {
    if !hasOptions then Keys("\r")
    else if totalTabs <= 0 then Keys("\r")
    else
      var arrows := ArrowsNeeded(activeIndex, totalTabs);
      if arrows == 0 && !isMultiSelect && !hasAnswers then Keys([ESC]) else ArrowsThenEnter(arrows)
  }

  function SubmitOpenCodeConfirm(hasOptions: bool, activeIndex: int, totalTabs: int): Plan {
    if !hasOptions then Keys("\r")
    else if totalTabs <= 0 then Keys("\t\r")
    else ArrowsThenEnter(ArrowsNeeded(activeIndex, totalTabs))
  }

  function SubmitClaudeCodeConfirm(hasOptions: bool, activeIndex: int, totalTabs: int): Plan {
    if !hasOptions then Keys("\r")
    else if totalTabs <= 0 then Keys("\r")
    else ArrowsThenEnter(ArrowsNeeded(activeIndex, totalTabs))
  }

  datatype ConfirmingCli = Devin(isMultiSelect: bool, hasAnswers: bool) | OpenCode | ClaudeCode

  function ConfirmPlan(cli: ConfirmingCli, hasOptions: bool, activeIndex: int, totalTabs: int): Plan {
    match cli
    case Devin(isMultiSelect, hasAnswers) => SubmitDevinConfirm(hasOptions, activeIndex, totalTabs, isMultiSelect, hasAnswers)
    case OpenCode => SubmitOpenCodeConfirm(hasOptions, activeIndex, totalTabs)
    case ClaudeCode => SubmitClaudeCodeConfirm(hasOptions, activeIndex, totalTabs)
  }

  lemma RemainderOnce(x: int, n: nat)
    requires 0 < n <= x < 2 * n
    ensures JsRemainder(x, n) == x - n
  {
    assert x / n == 1;
  }

  /** The tab the planner assumes: an unknown tab counts as the first. */
  function AssumedTab(activeIndex: int): nat {
    if activeIndex >= 0 then activeIndex else 0
  }

  /** The only plan that does not confirm: Devin on the last tab, nothing chosen. */
  predicate ChoosesEsc(cli: ConfirmingCli, activeIndex: int, totalTabs: nat) {
    cli.Devin? && !cli.isMultiSelect && !cli.hasAnswers && AssumedTab(activeIndex) == totalTabs - 1
  }

  /** From an assumed tab in range a plan is arrows to the last tab and one Enter, or
      a lone Esc. */
  lemma PlanIs(cli: ConfirmingCli, activeIndex: int, totalTabs: nat)
    requires AssumedTab(activeIndex) < totalTabs
    ensures
      var plan := ConfirmPlan(cli, true, activeIndex, totalTabs);
      && plan.Keys?
      && Presses(plan.text) ==
           if ChoosesEsc(cli, activeIndex, totalTabs) then [Escape]
           else Copies(Right, totalTabs - 1 - AssumedTab(activeIndex)) + [Enter]
  {
    RemainderOnce(totalTabs - 1 - AssumedTab(activeIndex) + totalTabs, totalTabs);
    PressesOfArrows(Right, totalTabs - 1 - AssumedTab(activeIndex), "\r");
    PressesOfSingle('\r');
    PressesOfSingle(ESC);
  }

  lemma {:induction false} RightMany(d: Dialog, k: nat)
    requires d.Valid() && k < d.size
    ensures Pressed(d, Copies(Right, k)) ==
            d.(pos := if d.pos + k < d.size then d.pos + k else if d.circular then d.pos + k - d.size else d.size - 1)
    decreases k
  {
    if k > 0 {
      assert Copies(Right, k)[1..] == Copies(Right, k - 1);
      RightMany(Press(d, Right), k - 1);
    }
  }

  /** A confirm plan that does not choose Esc presses Enter exactly once and last, on
      the last tab exactly when the tab was assumed rightly; in a row that does not
      wrap, also when the assumed tab was too far left. */
  lemma ConfirmLandsIff(cli: ConfirmingCli, activeIndex: int, row: Dialog)
    requires row.Valid() && AssumedTab(activeIndex) < row.size
    requires !ChoosesEsc(cli, activeIndex, row.size)
    ensures
      var plan := ConfirmPlan(cli, true, activeIndex, row.size);
      && plan.Keys?
      && (var after := Typed(row, plan.text);
          && after == row.(pos := after.pos, chosen := row.chosen + [after.pos])
          && (after.pos == row.size - 1 <==>
               if row.circular then row.pos == AssumedTab(activeIndex) else row.pos >= AssumedTab(activeIndex)))
  {
    PlanIs(cli, activeIndex, row.size);
    var k := row.size - 1 - AssumedTab(activeIndex);
    PressedConcat(row, Copies(Right, k), [Enter]);
    RightMany(row, k);
    PressedOne(Pressed(row, Copies(Right, k)), Enter);
  }

  /** From a known tab every confirm plan lands, and Devin's Esc changes nothing but
      cancel the dialog. */
  lemma ConfirmFromKnownTab(cli: ConfirmingCli, row: Dialog)
    requires row.Valid()
    ensures
      var plan := ConfirmPlan(cli, true, row.pos, row.size);
      && plan.Keys?
      && Typed(row, plan.text) ==
           if ChoosesEsc(cli, row.pos, row.size) then row.(cancelled := true)
           else row.(pos := row.size - 1, chosen := row.chosen + [row.size - 1])
  {
    PlanIs(cli, row.pos, row.size);
    if ChoosesEsc(cli, row.pos, row.size) {
      PressedOne(row, Escape);
    } else {
      ConfirmLandsIff(cli, row.pos, row);
    }
  }

  /** Without options, or without known tabs, a plan is one Enter where the dialog
      stands; OpenCode without known tabs sends Tab first. */
  lemma ConfirmWithoutArrows(cli: ConfirmingCli, hasOptions: bool, activeIndex: int, totalTabs: int, row: Dialog)
    requires row.Valid() && (hasOptions ==> totalTabs <= 0)
    ensures
      var plan := ConfirmPlan(cli, hasOptions, activeIndex, totalTabs);
      && plan.Keys?
      && (if hasOptions && cli.OpenCode? then Presses(plan.text) == [Tab, Enter]
          else Typed(row, plan.text) == row.(chosen := row.chosen + [row.pos]))
  {
    PressesOfSingle('\r');
    PressesOfChar('\t', "\r");
    assert "\t\r" == ['\t'] + "\r";
    PressedOne(row, Enter);
  }

  /** A plan fails only for a tab index so far out of range that the remainder turns
      negative. */
  lemma PlanFailsIff(cli: ConfirmingCli, hasOptions: bool, activeIndex: int, totalTabs: int)
    ensures ConfirmPlan(cli, hasOptions, activeIndex, totalTabs) == RangeError <==>
            hasOptions && 0 < totalTabs && 2 * totalTabs <= activeIndex && (activeIndex + 1) % totalTabs != 0
  {
    if hasOptions && 0 < totalTabs {
      var x := totalTabs - 1 - AssumedTab(activeIndex) + totalTabs;
      if x < 0 {
        ShiftedRemainder(activeIndex + 1, totalTabs);
      }
    }
  }

  lemma ShiftedRemainder(x: int, n: nat)
    requires 0 < n
    ensures (x - 2 * n) % n == x % n
  {
    RemainderOfSum(x - n, n);
    RemainderOfSum(x - 2 * n, n);
  }

  lemma RemainderOfSum(x: int, n: nat)
    requires 0 < n
    ensures (x + n) % n == x % n
  {
    RemainderIsUnique(x / n + 1, x % n, (x + n) / n, (x + n) % n, n);
  }

  lemma RemainderIsUnique(q: int, r: nat, q': int, r': nat, n: nat)
    requires r < n && r' < n && n * q + r == n * q' + r'
    ensures r == r'
  {
    var e := q - q';
    assert n * e == n * q - n * q';
    MultipleBelow(e, r' - r, n);
  }

  /** The only multiple of n strictly between -n and n is 0. */
  lemma MultipleBelow(e: int, m: int, n: nat)
    requires n * e == m && 0 < m + n && m < n
    ensures m == 0
  {
    if e >= 1 {
      ProductMonotone(n, 1, e);
    } else if e <= -1 {
      ProductMonotone(n, e, -1);
    }
  }

  lemma {:induction false} ProductMonotone(n: nat, a: int, b: int)
    requires a <= b
    ensures n * a <= n * b
  {
  }

  // ------------------------------------------------ buttons and Plan Mode options

  /** OpenCode's permission buttons: move on `index` times, then Enter. */
  function SubmitOpenCodePermission(index: nat): string {
    Repeat("l", index) + "\r"
  }

  /** Claude Code's Plan Mode options: Down `index` times, then Enter. */
  function SubmitPlanMode(index: nat): string {
    Repeat(ArrowText(Down), index) + "\r"
  }

  /** The loop that builds the same keys one arrow at a time. */
  method BuildPlanModeKeys(index: nat) returns (keys: string)
    ensures keys == SubmitPlanMode(index)
  {
    keys := "";
    var i := 0;
    while i < index
      invariant 0 <= i <= index
      invariant keys == Repeat(ArrowText(Down), i)
    {
      RepeatLast(ArrowText(Down), i);
      keys := keys + ArrowText(Down);
      i := i + 1;
    }
    keys := keys + "\r";
  }

  lemma {:induction false} RepeatLast(s: string, n: nat)
    ensures Repeat(s, n + 1) == Repeat(s, n) + s
  {
    if n > 0 {
      RepeatLast(s, n - 1);
      assert s + (Repeat(s, n - 1) + s) == (s + Repeat(s, n - 1)) + s;
    }
  }

  lemma {:induction false} ForwardMany(d: Dialog, key: Key, k: nat)
    requires d.Valid() && d.pos + k < d.size
    requires key == Down || key == Letter('l')
    ensures Pressed(d, Copies(key, k)) == d.(pos := d.pos + k)
    decreases k
  {
    if k > 0 {
      assert Copies(key, k)[1..] == Copies(key, k - 1);
      ForwardMany(Press(d, key), key, k - 1);
    }
  }

  /** From the default first entry, both plans choose exactly the entry at `index`. */
  lemma IndexedPlansChooseIndex(d: Dialog, index: nat)
    requires d.Valid() && d.pos == 0 && index < d.size
    ensures Typed(d, SubmitOpenCodePermission(index)) == d.(pos := index, chosen := d.chosen + [index])
    ensures Typed(d, SubmitPlanMode(index)) == d.(pos := index, chosen := d.chosen + [index])
  {
    PressesOfSingle('\r');
    PressesOfLetters('l', index, "\r");
    PressedConcat(d, Copies(Letter('l'), index), [Enter]);
    ForwardMany(d, Letter('l'), index);
    PressesOfArrows(Down, index, "\r");
    PressedConcat(d, Copies(Down, index), [Enter]);
    ForwardMany(d, Down, index);
    PressedOne(d.(pos := index), Enter);
  }

  // -------------------------------------------------------------- sending in steps

  /** Keys to send, and the wait before the next step; no wait is 0. */
  datatype Step = Step(data: string, delayAfter: nat)

  datatype Sent = Sent(data: string, at: nat)

  /** The wait a step asks for; a timer may fire late by any amount. */
  function Wait(step: Step, late: nat): nat {
    if step.delayAfter > 0 then step.delayAfter + late else 0
  }

  ghost predicate Delivers(steps: seq<Step>, late: nat -> nat, log: seq<Sent>) {
    && |log| == |steps|
    && (forall k :: 0 <= k < |log| ==> log[k].data == steps[k].data)
    && forall k :: 0 < k < |log| ==> log[k].at == log[k - 1].at + Wait(steps[k - 1], late(k - 1))
  }

  /** Sends every step in order; the clock moves only in the timers. */
  method ExecuteSteps(steps: seq<Step>, late: nat -> nat, start: nat) returns (log: seq<Sent>)
    ensures Delivers(steps, late, log)
    ensures |log| > 0 ==> log[0].at == start
  {
    log := [];
    var now := start;
    var i := 0;
    while i < |steps|
      invariant 0 <= i <= |steps|
      invariant Delivers(steps[..i], late, log)
      invariant i == 0 ==> now == start
      invariant i > 0 ==> log[0].at == start
      invariant 0 < i < |steps| ==> now == log[i - 1].at + Wait(steps[i - 1], late(i - 1))
    {
      var step := steps[i];
      log := log + [Sent(step.data, now)];
      i := i + 1;
      if step.delayAfter > 0 && i < |steps| {
        now := now + step.delayAfter + late(i - 1);
      }
    }
    assert steps[..i] == steps;
  }

  function Joined(steps: seq<Step>): string {
    if |steps| == 0 then "" else steps[0].data + Joined(steps[1..])
  }

  function Received(log: seq<Sent>): string {
    if |log| == 0 then "" else log[0].data + Received(log[1..])
  }

  /** Whatever the delays, the terminal receives the joined keys. */
  lemma {:induction false} ReceivedIsJoined(steps: seq<Step>, log: seq<Sent>)
    requires |log| == |steps| && forall k :: 0 <= k < |log| ==> log[k].data == steps[k].data
    ensures Received(log) == Joined(steps)
  {
    if |steps| > 0 {
      ReceivedIsJoined(steps[1..], log[1..]);
    }
  }

  lemma JoinedTwo(a: Step, b: Step)
    ensures Joined([a, b]) == a.data + b.data
  {
    assert [a, b][1..] == [b] && [b][1..] == [];
    assert Joined([b]) == b.data + "";
    assert b.data + "" == b.data;
  }

  /** A delay on the last step never delays anything. */
  lemma LastDelayIsIgnored(steps: seq<Step>, delay: nat, late: nat -> nat, log: seq<Sent>)
    requires |steps| > 0
    ensures
      var last := |steps| - 1;
      Delivers(steps, late, log) <==> Delivers(steps[last := steps[last].(delayAfter := delay)], late, log)
  {
  }

  // ----------------------------------------------------------------- split plans

  const TEXT_ANSWER_DELAY_MS: nat := 300
  const TEXT_ANSWER_SUBMIT_DELAY_MS: nat := 300

  /** JavaScript's lastIndexOf for one character. */
  function LastIndexOf(s: string, c: char): (r: int)
    ensures -1 <= r < |s|
  {
    if |s| == 0 then -1 else if s[|s| - 1] == c then |s| - 1 else LastIndexOf(s[..|s| - 1], c)
  }

  /** Claude Code's confirm behaviour: the arrows and the Enter go separately. */
  function ClaudeConfirmSteps(isMultiSelect: bool, hasOptions: bool, activeIndex: int, totalTabs: int): Option<seq<Step>> {
    if isMultiSelect then Some([Step("\t\r", 0)])
    else
      match SubmitClaudeCodeConfirm(hasOptions, activeIndex, totalTabs)
      case RangeError => None
      case Keys(ks) => Some(SplitAtEnter(ks))
  }

  function SplitAtEnter(ks: string): seq<Step> {
    var enterIdx := LastIndexOf(ks, '\r');
    if enterIdx > 0 then
      [Step(ks[..enterIdx], TEXT_ANSWER_DELAY_MS), Step(ks[enterIdx..], TEXT_ANSWER_SUBMIT_DELAY_MS)]
    else [Step(ks, 0)]
  }

  lemma ClaudePlanEndsInEnter(hasOptions: bool, activeIndex: int, totalTabs: int)
    requires SubmitClaudeCodeConfirm(hasOptions, activeIndex, totalTabs).Keys?
    ensures
      var ks := SubmitClaudeCodeConfirm(hasOptions, activeIndex, totalTabs).text;
      |ks| > 0 && ks[|ks| - 1] == '\r'
  {
    hide ArrowsNeeded, Repeat;
  }

  lemma SplitAtLastEnter(ks: string)
    requires |ks| > 0 && ks[|ks| - 1] == '\r'
    ensures SplitAtEnter(ks) ==
            if |ks| > 1 then [Step(ks[..|ks| - 1], TEXT_ANSWER_DELAY_MS), Step("\r", TEXT_ANSWER_SUBMIT_DELAY_MS)]
            else [Step(ks, 0)]
  {
    assert ks[|ks| - 1..] == "\r";
  }

  /** For any delays the split confirm delivers the keys of the plan, and an Enter that
      follows arrows arrives at least 300 ms after them. */
  lemma ClaudeConfirmIsSplit(hasOptions: bool, activeIndex: int, totalTabs: int, late: nat -> nat, log: seq<Sent>)
    requires
      var steps := ClaudeConfirmSteps(false, hasOptions, activeIndex, totalTabs);
      steps.Some? && Delivers(steps.value, late, log)
    ensures
      var plan := SubmitClaudeCodeConfirm(hasOptions, activeIndex, totalTabs);
      && plan.Keys? && Received(log) == plan.text
      && (|plan.text| > 1 ==>
            |log| == 2 && log[1].data == "\r" && log[1].at >= log[0].at + 300)
  {
    assert SubmitClaudeCodeConfirm(hasOptions, activeIndex, totalTabs).Keys?;
    ClaudePlanEndsInEnter(hasOptions, activeIndex, totalTabs);
    var ks := SubmitClaudeCodeConfirm(hasOptions, activeIndex, totalTabs).text;
    assert ClaudeConfirmSteps(false, hasOptions, activeIndex, totalTabs) == Some(SplitAtEnter(ks));
    hide SubmitClaudeCodeConfirm, ClaudeConfirmSteps, LastIndexOf;
    SplitAtLastEnter(ks);
    ReceivedIsJoined(SplitAtEnter(ks), log);
    if |ks| > 1 {
      JoinedTwo(SplitAtEnter(ks)[0], SplitAtEnter(ks)[1]);
    } else {
      assert Joined(SplitAtEnter(ks)) == ks + Joined([]);
    }
  }

  /** In multi-select mode the confirm is one write of Tab and Enter. */
  lemma ClaudeMultiSelectConfirm(hasOptions: bool, activeIndex: int, totalTabs: int, late: nat -> nat, log: seq<Sent>)
    requires
      var steps := ClaudeConfirmSteps(true, hasOptions, activeIndex, totalTabs);
      steps.Some? && Delivers(steps.value, late, log)
    ensures |log| == 1 && Presses(Received(log)) == [Tab, Enter]
  {
    PressesOfSingle('\r');
    PressesOfChar('\t', "\r");
    assert log[1..] == [];
    assert Received(log) == ['\t'] + "\r";
  }

  /** OpenCode's Reject button, sent in two steps. */
  function OpenCodeRejectSteps(index: nat): seq<Step> {
    [Step(Repeat("l", index), TEXT_ANSWER_DELAY_MS), Step("\r", 0)]
  }

  lemma RejectIsSplit(index: nat, late: nat -> nat, log: seq<Sent>)
    requires Delivers(OpenCodeRejectSteps(index), late, log)
    ensures Received(log) == SubmitOpenCodePermission(index)
    ensures log[1].at >= log[0].at + 300
  {
    var steps := OpenCodeRejectSteps(index);
    ReceivedIsJoined(steps, log);
    JoinedTwo(steps[0], steps[1]);
  }

  /** Changing tabs while Devin's text entry is open: leave it, change, come back. */
  function OtherEditingSteps(forward: bool): seq<Step> {
    [Step(ArrowText(Up), 300), Step(ArrowText(if forward then Right else Left), 300), Step(ArrowText(Down), 0)]
  }

  lemma OtherEditingIsSplit(forward: bool, late: nat -> nat, log: seq<Sent>)
    requires Delivers(OtherEditingSteps(forward), late, log)
    ensures Presses(Received(log)) == [Up, if forward then Right else Left, Down]
    ensures log[1].at >= log[0].at + 300 && log[2].at >= log[1].at + 300
  {
    var steps := OtherEditingSteps(forward);
    ReceivedIsJoined(steps, log);
    var side := if forward then Right else Left;
    assert steps[1..][1..] == [steps[2]] && steps[1..][1..][1..] == [];
    assert Joined(steps[1..][1..]) == ArrowText(Down) + "";
    PressesOfArrow(Up, Joined(steps[1..]));
    PressesOfArrow(side, Joined(steps[1..][1..]));
    PressesOfArrow(Down, "");
  }

  /** The plans whose only delay is on their last step. */
  datatype LateDelayPlan = PlanModeAnswer(index: nat) | ClaudeMultiSelect | DevinText(navigate: string, typed: string)

  function LateDelaySteps(plan: LateDelayPlan): seq<Step> {
    match plan
    case PlanModeAnswer(index) => [Step(Repeat(ArrowText(Down), index), 0), Step("\r", TEXT_ANSWER_DELAY_MS)]
    case ClaudeMultiSelect => [Step("\t", 0), Step("\r", TEXT_ANSWER_SUBMIT_DELAY_MS)]
    case DevinText(navigate, typed) => [Step(navigate, 0), Step(typed, TEXT_ANSWER_DELAY_MS)]
  }

  /** Both steps of such a plan always leave at the same moment, although the comments
      ask for a pause between them. */
  lemma LateDelayPlansHaveNoGap(plan: LateDelayPlan, late: nat -> nat, log: seq<Sent>)
    requires Delivers(LateDelaySteps(plan), late, log)
    ensures |log| == 2 && log[0].at == log[1].at
  {
    assert LateDelaySteps(plan)[0].delayAfter == 0;
    assert log[1].at == log[1 - 1].at + Wait(LateDelaySteps(plan)[1 - 1], late(1 - 1));
  }

  /** A pause lies between two consecutive steps exactly when the earlier one asks for it. */
  lemma GapIff(steps: seq<Step>, late: nat -> nat, log: seq<Sent>, k: nat)
    requires Delivers(steps, late, log) && 0 < k < |steps|
    ensures log[k].at > log[k - 1].at <==> steps[k - 1].delayAfter > 0
    ensures log[k].at >= log[k - 1].at + steps[k - 1].delayAfter
  {
    assert log[k].at == log[k - 1].at + Wait(steps[k - 1], late(k - 1));
  }
}
