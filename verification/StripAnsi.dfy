/** `stripAnsi`: six global replacements, each of which deletes one form of
    control sequence (section 5.4 of ECMA-48).  A later pass works on what the
    earlier ones left, so that deleted sequences bring other text together. */
module StripAnsi {
  import opened Utf16

  const ESC: CodeUnit := 0x1B
  const BEL: CodeUnit := 0x07

  datatype Pass = Sgr | Csi | Osc | Charset | Keypad | LoneEsc

  predicate IsLetter(u: CodeUnit) {
    0x41 <= u <= 0x5A || 0x61 <= u <= 0x7A
  }

  /** `[0-9;]`, or `[0-9;?]` for the CSI pass. */
  predicate IsParameter(p: Pass, u: CodeUnit) {
    IsDigit(u) || u == 0x3B || (p == Csi && u == 0x3F)
  }

  predicate IsPayload(u: CodeUnit) {
    u != BEL && u != ESC
  }

  /** Length of the longest run of parameter characters. */
  function ParameterRun(p: Pass, t: Text): (k: nat)
    ensures k <= |t|
  {
    if t != [] && IsParameter(p, t[0]) then 1 + ParameterRun(p, t[1..]) else 0
  }

  function PayloadRun(t: Text): (k: nat)
    ensures k <= |t|
  {
    if t != [] && IsPayload(t[0]) then 1 + PayloadRun(t[1..]) else 0
  }

  /** `ESC [`, parameters, and `m` for SGR or any letter for CSI. */
  function ControlMatch(p: Pass, t: Text): (m: nat)
    requires |t| > 1
    ensures m <= |t|
  {
    if t[1] != 0x5B then 0
    else
      var k := 2 + ParameterRun(p, t[2..]);
      if k < |t| && (if p == Sgr then t[k] == 0x6D else IsLetter(t[k])) then k + 1 else 0
  }

  /** `ESC ]`, a payload, and BEL or `ESC \`. */
  function OscMatch(t: Text): (m: nat)
    requires |t| > 1
    ensures m <= |t|
  {
    if t[1] != 0x5D then 0
    else
      var k := 2 + PayloadRun(t[2..]);
      if k < |t| && t[k] == BEL then k + 1
      else if k + 1 < |t| && t[k] == ESC && t[k + 1] == 0x5C then k + 2
      else 0
  }

  /** Length of the match of a pass at the start of `t`; 0 when there is none. */
  function MatchLength(p: Pass, t: Text): (m: nat)
    ensures m <= |t|
    ensures m > 0 ==> t[0] == ESC
  {
    if t == [] || t[0] != ESC then 0
    else if p == LoneEsc then 1
    else if |t| == 1 then 0
    else
      match p
      case Sgr => ControlMatch(p, t)
      case Csi => ControlMatch(p, t)
      case Osc => OscMatch(t)
      case Charset => if (t[1] == 0x28 || t[1] == 0x29) && |t| > 2 && (IsDigit(t[2]) || IsLetter(t[2])) then 3 else 0
      case Keypad => if t[1] == 0x3D || t[1] == 0x3E then 2 else 0
  }

  /** The global replacement of one pass by the empty text: leftmost matches, left to right. */
  function Replace(p: Pass, t: Text): Text
    decreases |t|
  {
    if t == [] then []
    else if MatchLength(p, t) > 0 then Replace(p, t[MatchLength(p, t)..])
    else [t[0]] + Replace(p, t[1..])
  }

  function Stripped(t: Text): Text {
    Replace(LoneEsc, Replace(Keypad, Replace(Charset, Replace(Osc, Replace(Csi, Replace(Sgr, t))))))
  }

  method StripAnsi(text: Text) returns (result: Text)
    ensures result == Stripped(text)
  {
    result := Replace(Sgr, text);
    result := Replace(Csi, result);
    result := Replace(Osc, result);
    result := Replace(Charset, result);
    result := Replace(Keypad, result);
    result := Replace(LoneEsc, result);
  }

  // -------------------------------------------------------------- every input

  predicate EscFree(t: Text) {
    forall i :: 0 <= i < |t| ==> t[i] != ESC
  }

  /** `a` is `b` with some characters left out. */
  predicate Subsequence(a: Text, b: Text) {
    if a == [] then true
    else if b == [] then false
    else if a[0] == b[0] && Subsequence(a[1..], b[1..]) then true
    else Subsequence(a, b[1..])
  }

  lemma {:induction false} SubsequenceOfDropped(a: Text, b: Text, m: nat)
    requires m <= |b| && Subsequence(a, b[m..])
    ensures Subsequence(a, b)
  {
    if m == 0 {
      assert b[0..] == b;
    } else {
      SubsequenceOfDropped(a, b[1..], m - 1);
      assert b[1..][m - 1..] == b[m..];
    }
  }

  lemma {:induction false} SubsequenceIsTransitive(a: Text, b: Text, c: Text)
    requires Subsequence(a, b) && Subsequence(b, c)
    ensures Subsequence(a, c)
    decreases |b| + |c|
  {
    if a == [] || b == [] {
    } else if b[0] == c[0] && Subsequence(b[1..], c[1..]) {
      if a[0] == b[0] && Subsequence(a[1..], b[1..]) {
        SubsequenceIsTransitive(a[1..], b[1..], c[1..]);
      } else {
        SubsequenceIsTransitive(a, b[1..], c[1..]);
      }
    } else {
      SubsequenceIsTransitive(a, b, c[1..]);
    }
  }

  lemma {:induction false} SubsequenceIsShorter(a: Text, b: Text)
    requires Subsequence(a, b)
    ensures |a| <= |b|
  {
    if a != [] {
      if a[0] == b[0] && Subsequence(a[1..], b[1..]) {
        SubsequenceIsShorter(a[1..], b[1..]);
      } else {
        SubsequenceIsShorter(a, b[1..]);
      }
    }
  }

  lemma {:induction false} ReplaceIsSubsequence(p: Pass, t: Text)
    ensures Subsequence(Replace(p, t), t)
    decreases |t|
  {
    if t == [] {
    } else if MatchLength(p, t) > 0 {
      var m := MatchLength(p, t);
      ReplaceIsSubsequence(p, t[m..]);
      SubsequenceOfDropped(Replace(p, t), t, m);
    } else {
      ReplaceIsSubsequence(p, t[1..]);
      assert Replace(p, t)[1..] == Replace(p, t[1..]);
    }
  }

  lemma {:induction false} LastPassDeletesEsc(t: Text)
    ensures EscFree(Replace(LoneEsc, t))
    decreases |t|
  {
    if t != [] {
      LastPassDeletesEsc(t[1..]);
    }
  }

  /** No pass touches text without ESC. */
  lemma {:induction false} ReplaceKeepsPlain(p: Pass, t: Text, rest: Text)
    requires EscFree(t)
    ensures Replace(p, t + rest) == t + Replace(p, rest)
    decreases |t|
  {
    if t == [] {
      assert t + rest == rest;
    } else {
      ReplaceKeepsPlain(p, t[1..], rest);
      assert (t + rest)[1..] == t[1..] + rest;
      assert t == [t[0]] + t[1..];
    }
  }

  lemma PlainIsKept(t: Text)
    requires EscFree(t)
    ensures Stripped(t) == t
  {
    forall p: Pass ensures Replace(p, t) == t {
      ReplaceKeepsPlain(p, t, []);
      assert t + [] == t;
    }
  }

  /** For every text: the result has no ESC, only leaves characters out, is never
      longer, and stripping it again changes nothing. */
  lemma StripEveryText(t: Text)
    ensures EscFree(Stripped(t))
    ensures Subsequence(Stripped(t), t) && |Stripped(t)| <= |t|
    ensures Stripped(Stripped(t)) == Stripped(t)
  {
    var t1 := Replace(Sgr, t);
    var t2 := Replace(Csi, t1);
    var t3 := Replace(Osc, t2);
    var t4 := Replace(Charset, t3);
    var t5 := Replace(Keypad, t4);
    ReplaceIsSubsequence(Sgr, t);
    ReplaceIsSubsequence(Csi, t1);
    ReplaceIsSubsequence(Osc, t2);
    ReplaceIsSubsequence(Charset, t3);
    ReplaceIsSubsequence(Keypad, t4);
    ReplaceIsSubsequence(LoneEsc, t5);
    SubsequenceIsTransitive(t2, t1, t);
    SubsequenceIsTransitive(t3, t2, t);
    SubsequenceIsTransitive(t4, t3, t);
    SubsequenceIsTransitive(t5, t4, t);
    SubsequenceIsTransitive(Stripped(t), t5, t);
    SubsequenceIsShorter(Stripped(t), t);
    LastPassDeletesEsc(t5);
    PlainIsKept(Stripped(t));
  }

  // ---------------------------------------- text interleaved with sequences

  /** A stretch of ESC-free text, or one complete control sequence. */
  datatype Token =
    | Plain(text: Text)
    | Control(params: Text, final: CodeUnit)
    | OscBel(payload: Text)
    | OscSt(payload: Text)
    | Designate(slot: CodeUnit, charset: CodeUnit)
    | KeypadMode(mode: CodeUnit)

  predicate IsToken(k: Token) {
    match k
    case Plain(text) => EscFree(text)
    case Control(params, final) => (forall i :: 0 <= i < |params| ==> IsParameter(Csi, params[i])) && IsLetter(final)
    case OscBel(payload) => forall i :: 0 <= i < |payload| ==> IsPayload(payload[i])
    case OscSt(payload) => forall i :: 0 <= i < |payload| ==> IsPayload(payload[i])
    case Designate(slot, charset) => (slot == 0x28 || slot == 0x29) && (IsDigit(charset) || IsLetter(charset))
    case KeypadMode(mode) => mode == 0x3D || mode == 0x3E
  }

  /** The text of a token after its ESC, if it has one. */
  function Body(k: Token): Text {
    match k
    case Plain(text) => text
    case Control(params, final) => [0x5B] + params + [final]
    case OscBel(payload) => [0x5D] + payload + [BEL]
    case OscSt(payload) => [0x5D] + payload
    case Designate(slot, charset) => [slot, charset]
    case KeypadMode(mode) => [mode]
  }

  function Render(k: Token): Text {
    if k.Plain? then Body(k)
    else if k.OscSt? then [ESC] + Body(k) + [ESC, 0x5C]
    else [ESC] + Body(k)
  }

  function RenderAll(ks: seq<Token>): Text {
    if ks == [] then [] else Render(ks[0]) + RenderAll(ks[1..])
  }

  /** The plain text that the sequences are scattered over. */
  function PlainText(ks: seq<Token>): Text {
    if ks == [] then [] else (if ks[0].Plain? then ks[0].text else []) + PlainText(ks[1..])
  }

  /** The pass whose replacement deletes exactly this token, in its turn. */
  predicate Erases(p: Pass, k: Token) {
    match p
    case Sgr => k.Control? && k.final == 0x6D && 0x3F !in k.params
    case Csi => k.Control?
    case Osc => k.OscBel? || k.OscSt?
    case Charset => k.Designate?
    case Keypad => k.KeypadMode?
    case LoneEsc => false
  }

  function Without(p: Pass, ks: seq<Token>): seq<Token> {
    if ks == [] then []
    else if Erases(p, ks[0]) then Without(p, ks[1..])
    else [ks[0]] + Without(p, ks[1..])
  }

  ghost predicate AllTokens(ks: seq<Token>) {
    forall i :: 0 <= i < |ks| ==> IsToken(ks[i])
  }

  lemma {:induction false} ParameterRunStops(p: Pass, params: Text, rest: Text)
    requires rest != [] && !IsParameter(p, rest[0])
    requires forall i :: 0 <= i < |params| ==> IsParameter(p, params[i])
    ensures ParameterRun(p, params + rest) == |params|
  {
    if params == [] {
      assert params + rest == rest;
    } else {
      ParameterRunStops(p, params[1..], rest);
      assert (params + rest)[1..] == params[1..] + rest;
    }
  }

  /** With a `?` among the parameters the SGR pass stops at that `?`. */
  lemma {:induction false} SgrStopsAtQuestion(params: Text, rest: Text)
    requires 0x3F in params && forall i :: 0 <= i < |params| ==> IsParameter(Csi, params[i])
    ensures ParameterRun(Sgr, params + rest) < |params|
    ensures (params + rest)[ParameterRun(Sgr, params + rest)] == 0x3F
  {
    if params[0] != 0x3F {
      SgrStopsAtQuestion(params[1..], rest);
      assert (params + rest)[1..] == params[1..] + rest;
    }
  }

  lemma {:induction false} PayloadRunStops(payload: Text, rest: Text)
    requires rest != [] && !IsPayload(rest[0])
    requires forall i :: 0 <= i < |payload| ==> IsPayload(payload[i])
    ensures PayloadRun(payload + rest) == |payload|
  {
    if payload == [] {
      assert payload + rest == rest;
    } else {
      PayloadRunStops(payload[1..], rest);
      assert (payload + rest)[1..] == payload[1..] + rest;
    }
  }

  lemma ControlMatchIs(p: Pass, params: Text, final: CodeUnit, rest: Text)
    requires (p == Sgr || p == Csi) && IsToken(Control(params, final))
    ensures var t := [ESC, 0x5B] + (params + ([final] + rest));
            ControlMatch(p, t) == if Erases(p, Control(params, final)) then |params| + 3 else 0
  {
    var tail := params + ([final] + rest);
    var t := [ESC, 0x5B] + tail;
    assert t[2..] == tail;
    if p == Sgr && 0x3F in params {
      SgrStopsAtQuestion(params, [final] + rest);
      assert t[2 + ParameterRun(Sgr, tail)] == tail[ParameterRun(Sgr, tail)];
    } else {
      ParameterRunStops(p, params, [final] + rest);
      assert t[2 + |params|] == tail[|params|] == final;
    }
  }

  lemma OscMatchIs(payload: Text, end: Text, rest: Text)
    requires (forall i :: 0 <= i < |payload| ==> IsPayload(payload[i])) && (end == [BEL] || end == [ESC, 0x5C])
    ensures var t := [ESC, 0x5D] + (payload + (end + rest)); OscMatch(t) == 2 + |payload| + |end|
  {
    var tail := payload + (end + rest);
    var t := [ESC, 0x5D] + tail;
    assert t[2..] == tail;
    PayloadRunStops(payload, end + rest);
    assert t[2 + |payload|] == tail[|payload|] == end[0];
    assert |end| == 2 ==> t[3 + |payload|] == tail[1 + |payload|] == end[1];
  }

  lemma MatchControlToken(p: Pass, params: Text, final: CodeUnit, rest: Text)
    requires IsToken(Control(params, final)) && p != LoneEsc
    ensures MatchLength(p, [ESC, 0x5B] + (params + ([final] + rest))) ==
            if Erases(p, Control(params, final)) then |params| + 3 else 0
  {
    hide ControlMatch, OscMatch, IsToken, ParameterRun;
    var t := [ESC, 0x5B] + (params + ([final] + rest));
    if p == Sgr || p == Csi {
      ControlMatchIs(p, params, final, rest);
    } else {
      NoOscAt(t);
    }
  }

  lemma MatchOscToken(p: Pass, payload: Text, end: Text, rest: Text)
    requires (forall i :: 0 <= i < |payload| ==> IsPayload(payload[i])) && (end == [BEL] || end == [ESC, 0x5C]) && p != LoneEsc
    ensures MatchLength(p, [ESC, 0x5D] + (payload + (end + rest))) == if p == Osc then 2 + |payload| + |end| else 0
  {
    hide ControlMatch, OscMatch, IsPayload;
    var t := [ESC, 0x5D] + (payload + (end + rest));
    if p == Osc {
      OscMatchIs(payload, end, rest);
    } else {
      NoControlAt(p, t);
    }
  }

  lemma MatchShortToken(p: Pass, k: Token, rest: Text)
    requires IsToken(k) && (k.Designate? || k.KeypadMode?) && p != LoneEsc
    ensures MatchLength(p, Render(k) + rest) == if Erases(p, k) then |Render(k)| else 0
  {
    hide ControlMatch, OscMatch;
    NoControlAt(p, Render(k) + rest);
    NoOscAt(Render(k) + rest);
  }

  /** Where the pieces of a rendered sequence stand. */
  lemma RenderShape(k: Token, rest: Text)
    requires k.Control? || k.OscBel? || k.OscSt?
    ensures k.Control? ==> |Render(k)| == |k.params| + 3
                           && Render(k) + rest == [ESC, 0x5B] + (k.params + ([k.final] + rest))
    ensures k.OscBel? ==> |Render(k)| == |k.payload| + 3
                          && Render(k) + rest == [ESC, 0x5D] + (k.payload + ([BEL] + rest))
    ensures k.OscSt? ==> |Render(k)| == |k.payload| + 4
                         && Render(k) + rest == [ESC, 0x5D] + (k.payload + ([ESC, 0x5C] + rest))
  {
    if k.Control? {
      Reassociate(0x5B, k.params, [k.final], rest);
    } else if k.OscBel? {
      Reassociate(0x5D, k.payload, [BEL], rest);
    } else {
      Reassociate(0x5D, k.payload, [ESC, 0x5C], rest);
      assert Render(k) == [ESC] + ([0x5D] + k.payload + [ESC, 0x5C]);
    }
  }

  lemma Reassociate(intro: CodeUnit, middle: Text, end: Text, rest: Text)
    ensures [ESC] + ([intro] + middle + end) + rest == [ESC, intro] + (middle + (end + rest))
  {}

  /** At the ESC of a token a pass matches the whole token or nothing. */
  lemma MatchToken(p: Pass, k: Token, rest: Text)
    requires IsToken(k) && !k.Plain? && p != LoneEsc
    ensures MatchLength(p, Render(k) + rest) == if Erases(p, k) then |Render(k)| else 0
  {
    hide MatchLength, IsToken, Render;
    match k
    case Control(params, final) =>
      MatchControlToken(p, params, final, rest);
      RenderShape(k, rest);
    case OscBel(payload) =>
      PayloadOf(k);
      MatchOscToken(p, payload, [BEL], rest);
      RenderShape(k, rest);
    case OscSt(payload) =>
      PayloadOf(k);
      MatchOscToken(p, payload, [ESC, 0x5C], rest);
      RenderShape(k, rest);
    case _ => MatchShortToken(p, k, rest);
  }

  lemma {:induction false} RunIsParameters(p: Pass, t: Text)
    ensures forall i :: 0 <= i < ParameterRun(p, t) ==> IsParameter(p, t[i])
  {
    if t != [] && IsParameter(p, t[0]) {
      RunIsParameters(p, t[1..]);
    }
  }

  lemma {:induction false} RunIsPayload(t: Text)
    ensures forall i :: 0 <= i < PayloadRun(t) ==> IsPayload(t[i])
  {
    if t != [] && IsPayload(t[0]) {
      RunIsPayload(t[1..]);
    }
  }

  lemma MatchedControl(p: Pass, t: Text) returns (k: Token)
    requires (p == Sgr || p == Csi) && MatchLength(p, t) > 0
    ensures IsToken(k) && Erases(p, k) && Render(k) == t[..MatchLength(p, t)]
  {
    var n := ParameterRun(p, t[2..]);
    RunIsParameters(p, t[2..]);
    k := Control(t[2..][..n], t[2 + n]);
    assert t[2..][..n] == t[2..2 + n];
    assert t[..n + 3] == [ESC] + ([0x5B] + t[2..2 + n] + [t[2 + n]]);
  }

  lemma MatchedOsc(t: Text) returns (k: Token)
    requires MatchLength(Osc, t) > 0
    ensures IsToken(k) && Erases(Osc, k) && Render(k) == t[..MatchLength(Osc, t)]
  {
    var n := PayloadRun(t[2..]);
    RunIsPayload(t[2..]);
    var payload := t[2..][..n];
    assert payload == t[2..2 + n];
    if t[2 + n] == BEL {
      k := OscBel(payload);
      assert t[..n + 3] == [ESC] + ([0x5D] + payload + [BEL]);
    } else {
      k := OscSt(payload);
      assert t[..n + 4] == [ESC] + ([0x5D] + payload) + [ESC, 0x5C];
    }
  }

  /** Where a pass matches, a complete sequence of its own kind stands. */
  lemma MatchedToken(p: Pass, t: Text) returns (k: Token)
    requires p != LoneEsc && MatchLength(p, t) > 0
    ensures IsToken(k) && Erases(p, k) && Render(k) == t[..MatchLength(p, t)]
  {
    match p
    case Sgr => k := MatchedControl(p, t);
    case Csi => k := MatchedControl(p, t);
    case Osc => k := MatchedOsc(t);
    case Charset =>
      k := Designate(t[1], t[2]);
      assert t[..3] == [ESC] + [t[1], t[2]];
    case Keypad =>
      k := KeypadMode(t[1]);
      assert t[..2] == [ESC] + [t[1]];
  }

  ghost predicate StandsAt(p: Pass, k: Token, t: Text) {
    IsToken(k) && Erases(p, k) && Render(k) <= t
  }

  lemma MatchStands(p: Pass, t: Text)
    requires p != LoneEsc && MatchLength(p, t) > 0
    ensures exists k :: StandsAt(p, k, t)
  {
    var k := MatchedToken(p, t);
    hide *;
    assert t[..MatchLength(p, t)] <= t;
    StandsHere(p, k, t);
  }

  lemma StandingMatches(p: Pass, k: Token, t: Text)
    requires p != LoneEsc && StandsAt(p, k, t)
    ensures MatchLength(p, t) == |Render(k)| > 0
  {
    ErasedIsSequence(p, k);
    hide MatchLength, IsToken, Render, Erases;
    MatchToken(p, k, t[|Render(k)|..]);
    assert Render(k) + t[|Render(k)|..] == t;
    RenderIsNonEmpty(k);
  }

  lemma LoneEscIs(t: Text)
    ensures MatchLength(LoneEsc, t) == if t != [] && t[0] == 0x1B then 1 else 0
  {}

  /** A pass matches at a place exactly where a complete sequence of its own kind begins,
      and then the whole of it; the last pass matches one ESC. */
  lemma MatchIff(p: Pass, t: Text)
    ensures p != LoneEsc ==> (MatchLength(p, t) > 0 <==> exists k :: StandsAt(p, k, t))
    ensures p != LoneEsc ==> forall k :: StandsAt(p, k, t) ==> MatchLength(p, t) == |Render(k)|
    ensures MatchLength(LoneEsc, t) == if t != [] && t[0] == 0x1B then 1 else 0
  {
    LoneEscIs(t);
    hide *;
    if p != LoneEsc {
      if MatchLength(p, t) > 0 {
        MatchStands(p, t);
      }
      forall k | StandsAt(p, k, t) ensures MatchLength(p, t) == |Render(k)| > 0 {
        StandingMatches(p, k, t);
      }
    }
  }

  lemma StandsHere(p: Pass, k: Token, t: Text)
    requires IsToken(k) && Erases(p, k) && Render(k) <= t
    ensures StandsAt(p, k, t)
  {}

  lemma ErasedIsSequence(p: Pass, k: Token)
    requires Erases(p, k)
    ensures !k.Plain?
  {}

  /** The characters of parameters, finals and payloads. */
  lemma CharactersAre(p: Pass, u: CodeUnit)
    ensures IsParameter(p, u) <==> 0x30 <= u <= 0x39 || u == 0x3B || (p == Csi && u == 0x3F)
    ensures IsLetter(u) <==> 0x41 <= u <= 0x5A || 0x61 <= u <= 0x7A
    ensures IsPayload(u) <==> u != 0x07 && u != 0x1B
  {}

  lemma PayloadOf(k: Token)
    requires IsToken(k)
    ensures k.OscBel? ==> forall i :: 0 <= i < |k.payload| ==> IsPayload(k.payload[i])
    ensures k.OscSt? ==> forall i :: 0 <= i < |k.payload| ==> IsPayload(k.payload[i])
  {}

  lemma NoControlAt(p: Pass, t: Text)
    requires |t| > 1 && t[1] != 0x5B
    ensures ControlMatch(p, t) == 0
  {}

  lemma NoOscAt(t: Text)
    requires |t| > 1 && t[1] != 0x5D
    ensures OscMatch(t) == 0
  {}

  lemma BodyIsEscFree(k: Token)
    requires IsToken(k)
    ensures EscFree(Body(k))
  {}

  /** An ESC that starts no match is copied, and so is the plain text after it. */
  lemma EscIsCopied(p: Pass, body: Text, rest: Text)
    requires EscFree(body) && MatchLength(p, [ESC] + (body + rest)) == 0
    ensures Replace(p, [ESC] + (body + rest)) == [ESC] + body + Replace(p, rest)
  {
    var t := [ESC] + (body + rest);
    assert t[1..] == body + rest;
    ReplaceKeepsPlain(p, body, rest);
  }

  /** A token that a pass does not delete is copied. */
  lemma TokenIsCopied(p: Pass, k: Token, rest: Text)
    requires IsToken(k) && !Erases(p, k) && p != LoneEsc
    ensures Replace(p, Render(k) + rest) == Render(k) + Replace(p, rest)
  {
    hide Replace, MatchLength, IsToken, Erases, Body;
    BodyIsEscFree(k);
    if k.Plain? {
      ReplaceKeepsPlain(p, Body(k), rest);
    } else {
      MatchToken(p, k, rest);
      if k.OscSt? {
        var tail := [ESC] + ([0x5C] + rest);
        assert Render(k) + rest == [ESC] + (Body(k) + tail);
        EscIsCopied(p, Body(k), tail);
        TerminatorStartsNothing(p, rest);
        EscIsCopied(p, [0x5C], rest);
      } else {
        assert Render(k) + rest == [ESC] + (Body(k) + rest);
        EscIsCopied(p, Body(k), rest);
      }
    }
  }

  lemma TerminatorStartsNothing(p: Pass, rest: Text)
    requires p != LoneEsc
    ensures MatchLength(p, [ESC] + ([0x5C] + rest)) == 0
  {}

  lemma {:induction false} PassOnTokens(p: Pass, ks: seq<Token>)
    requires AllTokens(ks) && p != LoneEsc
    ensures Replace(p, RenderAll(ks)) == RenderAll(Without(p, ks))
    ensures AllTokens(Without(p, ks)) && PlainText(Without(p, ks)) == PlainText(ks)
    ensures forall k :: k in Without(p, ks) <==> k in ks && !Erases(p, k)
  {
    hide Replace, Render, MatchLength, IsToken;
    if ks == [] {
      assert Replace(p, []) == [] by { ReplaceNothing(p); }
    } else {
      var k, rest := ks[0], RenderAll(ks[1..]);
      PassOnTokens(p, ks[1..]);
      if Erases(p, k) {
        assert !k.Plain?;
        MatchToken(p, k, rest);
        RenderIsNonEmpty(k);
        TokenIsDeleted(p, k, rest);
      } else {
        TokenIsCopied(p, k, rest);
        assert Without(p, ks)[1..] == Without(p, ks[1..]);
      }
      assert ks == [k] + ks[1..];
    }
  }

  lemma ReplaceNothing(p: Pass)
    ensures Replace(p, []) == []
  {}

  lemma RenderIsNonEmpty(k: Token)
    requires !k.Plain?
    ensures Render(k) != []
  {}

  lemma TokenIsDeleted(p: Pass, k: Token, rest: Text)
    requires MatchLength(p, Render(k) + rest) == |Render(k)| && Render(k) != []
    ensures Replace(p, Render(k) + rest) == Replace(p, rest)
  {
    assert (Render(k) + rest)[|Render(k)|..] == rest;
  }

  lemma {:induction false} OnlyPlain(ks: seq<Token>)
    requires AllTokens(ks) && forall k :: k in ks ==> k.Plain?
    ensures RenderAll(ks) == PlainText(ks) && EscFree(PlainText(ks))
  {
    if ks != [] {
      assert ks[0] in ks;
      OnlyPlain(ks[1..]);
    }
  }

  /** Stripping any interleaving of plain text with complete sequences gives back
      exactly the plain text. */
  lemma StripErasesExactlyTheSequences(ks: seq<Token>)
    requires AllTokens(ks)
    ensures Stripped(RenderAll(ks)) == PlainText(ks)
  {
    var k1 := Without(Sgr, ks);
    var k2 := Without(Csi, k1);
    var k3 := Without(Osc, k2);
    var k4 := Without(Charset, k3);
    var k5 := Without(Keypad, k4);
    PassOnTokens(Sgr, ks);
    PassOnTokens(Csi, k1);
    PassOnTokens(Osc, k2);
    PassOnTokens(Charset, k3);
    PassOnTokens(Keypad, k4);
    OnlyPlain(k5);
    ReplaceKeepsPlain(LoneEsc, PlainText(ks), []);
    assert PlainText(ks) + [] == PlainText(ks);
  }
}
