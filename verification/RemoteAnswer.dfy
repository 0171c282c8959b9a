/** The hook that pushes a blocked question to the phone and resolves it again.
    The refs are fields; every IPC message is appended to `sent`. */
module RemoteAnswer {
  import opened Common
  import opened AgentStateMachine

  /** Session, time stamp and the first fifty characters of the question. */
  datatype QuestionId = QuestionId(sessionId: string, stamp: int, text: string)

  datatype Message =
    | AgentBlocked(id: QuestionId, question: string, options: seq<string>, multi: bool, tab: int, tabs: int)
    | AgentResolved(id: QuestionId, answer: string)

  /** What one run of the main effect sees. */
  datatype Inputs = Inputs(
    status: Status,
    question: Option<string>,
    options: Option<seq<string>>,
    isMultiQuestion: bool,
    activeTab: int,
    totalTabs: int,
    idle: bool,
    locked: bool,
    stamp: int)

  /** The value of the refs and the messages sent so far. */
  datatype Hook = Hook(
    sessionId: string,
    pushedId: Option<QuestionId>,
    pushedText: Option<string>,
    pushedTab: int,
    prevStatus: Status,
    sent: seq<Message>)

  const DISMISSED: string := "__dismissed__"

  // ----------------------------------------------------------- specification

  function Mounted(sessionId: string): Hook {
    Hook(sessionId, None, None, -1, Unknown, [])
  }

  predicate IsPushDataReady(question: Option<string>) {
    question.Some? && question.value != ""
  }

  function IdOf(h: Hook, inp: Inputs): QuestionId
    requires inp.question.Some?
  {
    var q := inp.question.value;
    QuestionId(h.sessionId, inp.stamp, if |q| > 50 then q[..50] else q)
  }

  function Pushed(h: Hook, inp: Inputs, tab: int): Hook
    requires inp.question.Some?
  {
    var id := IdOf(h, inp);
    var options := if inp.options.Some? then inp.options.value else [];
    h.(pushedId := Some(id), pushedText := inp.question, pushedTab := tab,
       sent := h.sent + [AgentBlocked(id, inp.question.value, options, inp.isMultiQuestion, inp.activeTab, inp.totalTabs)])
  }

  function PushIfReady(h: Hook, inp: Inputs): Hook {
    if h.pushedId.Some? || !(inp.idle || inp.locked) || !IsPushDataReady(inp.question) then h
    else Pushed(h, inp, if inp.isMultiQuestion then inp.activeTab else -1)
  }

  function Resolved(h: Hook, answer: string): Hook
    requires h.pushedId.Some?
  {
    h.(sent := h.sent + [AgentResolved(h.pushedId.value, answer)])
  }

  function Closed(h: Hook, answer: string): Hook {
    if h.pushedId.None? then h else Resolved(h, answer).(pushedId := None, pushedText := None)
  }

  /** The multi-question dialog moved to another tab than the pushed one. */
  predicate TabChanged(h: Hook, inp: Inputs) {
    inp.isMultiQuestion && h.pushedId.Some? && inp.activeTab != h.pushedTab && inp.activeTab >= 0
  }

  function Effect(h: Hook, inp: Inputs): Hook {
    var g := h.(prevStatus := inp.status);
    if inp.status == Blocked then
      if h.prevStatus == Blocked && TabChanged(h, inp) then
        var r := Resolved(g, "");
        if IsPushDataReady(inp.question) then Pushed(r, inp, inp.activeTab) else r
      else PushIfReady(g, inp)
    else if h.prevStatus == Blocked && inp.status == Working then Closed(g, "")
    else if h.prevStatus == Blocked && inp.status != Idle then Closed(g, DISMISSED)
    else g
  }

  function Cleared(h: Hook): Hook {
    Closed(h, "").(pushedText := None, pushedTab := -1)
  }

  datatype Event =
    | RunEffect(inp: Inputs)
    | Clear
    | Notify(id: QuestionId, answer: string)

  function Step(h: Hook, e: Event): Hook {
    match e
    case RunEffect(inp) => Effect(h, inp)
    case Clear => Cleared(h)
    case Notify(id, answer) => h.(sent := h.sent + [AgentResolved(id, answer)])
  }

  function Run(h: Hook, es: seq<Event>): Hook
    decreases |es|
  {
    if es == [] then h else Run(Step(h, es[0]), es[1..])
  }

  // ---------------------------------------------------------- implementation

  class RemoteAnswerHook {
    const sessionId: string
    var pushedQuestionId: Option<QuestionId>
    var pushedQuestionText: Option<string>
    var pushedTabIndex: int
    var prevStatus: Status
    var sent: seq<Message>

    function Model(): Hook
      reads this
    {
      Hook(sessionId, pushedQuestionId, pushedQuestionText, pushedTabIndex, prevStatus, sent)
    }

    constructor (sessionId: string)
      ensures Model() == Mounted(sessionId)
    {
      this.sessionId := sessionId;
      pushedQuestionId, pushedQuestionText := None, None;
      pushedTabIndex := -1;
      prevStatus := Unknown;
      sent := [];
    }

    method Push(inp: Inputs, tab: int)
      requires inp.question.Some?
      modifies this
      ensures Model() == Pushed(old(Model()), inp, tab)
    {
      var questionId := IdOf(Model(), inp);
      pushedQuestionId := Some(questionId);
      pushedQuestionText := inp.question;
      pushedTabIndex := tab;
      var options := if inp.options.Some? then inp.options.value else [];
      sent := sent + [AgentBlocked(questionId, inp.question.value, options, inp.isMultiQuestion, inp.activeTab, inp.totalTabs)];
    }

    method MainEffect(inp: Inputs)
      modifies this
      ensures Model() == Step(old(Model()), RunEffect(inp))
    {
      var prev := prevStatus;
      prevStatus := inp.status;
      if inp.status == Blocked && prev != Blocked {
        if pushedQuestionId.Some? {
          return;
        }
        if !inp.idle && !inp.locked {
          return;
        }
        if !IsPushDataReady(inp.question) {
          return;
        }
        Push(inp, if inp.isMultiQuestion then inp.activeTab else -1);
        return;
      }
      if inp.status == Blocked && inp.isMultiQuestion && pushedQuestionId.Some? {
        if inp.activeTab != pushedTabIndex && inp.activeTab >= 0 {
          sent := sent + [AgentResolved(pushedQuestionId.value, "")];
          if !IsPushDataReady(inp.question) {
            return;
          }
          Push(inp, inp.activeTab);
          return;
        }
      }
      if inp.status == Blocked && (inp.idle || inp.locked) {
        if pushedQuestionId.Some? {
          return;
        }
        if !IsPushDataReady(inp.question) {
          return;
        }
        Push(inp, if inp.isMultiQuestion then inp.activeTab else -1);
        return;
      }
      if prev == Blocked && inp.status == Working {
        if pushedQuestionId.Some? {
          sent := sent + [AgentResolved(pushedQuestionId.value, "")];
          pushedQuestionId := None;
          pushedQuestionText := None;
        }
      }
      if prev == Blocked && (inp.status == Unknown || inp.status == Done) {
        if pushedQuestionId.Some? {
          sent := sent + [AgentResolved(pushedQuestionId.value, DISMISSED)];
          pushedQuestionId := None;
          pushedQuestionText := None;
        }
      }
    }

    method ClearPushedQuestionRef()
      modifies this
      ensures Model() == Step(old(Model()), Clear)
    {
      if pushedQuestionId.Some? {
        sent := sent + [AgentResolved(pushedQuestionId.value, "")];
      }
      pushedQuestionId := None;
      pushedQuestionText := None;
      pushedTabIndex := -1;
    }

    method NotifyResolved(questionId: QuestionId, answer: string)
      modifies this
      ensures Model() == Step(old(Model()), Notify(questionId, answer))
    {
      sent := sent + [AgentResolved(questionId, answer)];
    }
  }

  // -------------------------------------------------------- one question open

  /** The last pushed question, unless a resolution followed it. */
  function OpenQuestion(sent: seq<Message>): Option<QuestionId> {
    if sent == [] then None
    else
      var open, m := OpenQuestion(sent[..|sent| - 1]), sent[|sent| - 1];
      if m.AgentBlocked? then Some(m.id)
      else if open == Some(m.id) then None
      else open
  }

  /** Nothing is pushed while a question is open, and no empty question is pushed. */
  ghost predicate Alternates(sent: seq<Message>) {
    forall j :: 0 <= j < |sent| && sent[j].AgentBlocked? ==> OpenQuestion(sent[..j]).None? && sent[j].question != ""
  }

  ghost predicate Inv(h: Hook) {
    && Alternates(h.sent)
    && (OpenQuestion(h.sent).Some? ==> h.pushedId == OpenQuestion(h.sent))
  }

  lemma OpenAfter(sent: seq<Message>, m: Message)
    ensures OpenQuestion(sent + [m]) ==
            if m.AgentBlocked? then Some(m.id) else if OpenQuestion(sent) == Some(m.id) then None else OpenQuestion(sent)
    ensures Alternates(sent) && (m.AgentBlocked? ==> OpenQuestion(sent).None? && m.question != "") ==> Alternates(sent + [m])
  {
    var t := sent + [m];
    assert t[..|t| - 1] == sent;
    forall j | 0 <= j < |sent| ensures t[..j] == sent[..j] {}
  }

  lemma ResolveKeepsInv(h: Hook, id: QuestionId, answer: string)
    requires Inv(h)
    ensures Inv(h.(sent := h.sent + [AgentResolved(id, answer)]))
    ensures h.pushedId == Some(id) ==> OpenQuestion(h.sent + [AgentResolved(id, answer)]).None?
  {
    OpenAfter(h.sent, AgentResolved(id, answer));
  }

  lemma PushKeepsInv(h: Hook, inp: Inputs, tab: int)
    requires Inv(h) && IsPushDataReady(inp.question) && OpenQuestion(h.sent).None?
    ensures Inv(Pushed(h, inp, tab))
  {
    var g := Pushed(h, inp, tab);
    OpenAfter(h.sent, g.sent[|h.sent|]);
  }

  lemma StepKeepsInv(h: Hook, e: Event)
    requires Inv(h)
    ensures Inv(Step(h, e))
  {
    hide Alternates, OpenQuestion;
    match e
    case Notify(id, answer) => ResolveKeepsInv(h, id, answer);
    case Clear => if h.pushedId.Some? { ResolveKeepsInv(h, h.pushedId.value, ""); }
    case RunEffect(inp) =>
      var g := h.(prevStatus := inp.status);
      if inp.status == Blocked {
        if h.prevStatus == Blocked && TabChanged(h, inp) {
          ResolveKeepsInv(g, h.pushedId.value, "");
          if IsPushDataReady(inp.question) { PushKeepsInv(Resolved(g, ""), inp, inp.activeTab); }
        } else if PushIfReady(g, inp) != g {
          PushKeepsInv(g, inp, if inp.isMultiQuestion then inp.activeTab else -1);
        }
      } else if h.pushedId.Some? {
        ResolveKeepsInv(g, h.pushedId.value, "");
        ResolveKeepsInv(g, h.pushedId.value, DISMISSED);
      }
  }

  lemma {:induction false} RunKeepsInv(h: Hook, es: seq<Event>)
    requires Inv(h)
    ensures Inv(Run(h, es))
    decreases |es|
  {
    if es != [] {
      StepKeepsInv(h, es[0]);
      RunKeepsInv(Step(h, es[0]), es[1..]);
    }
  }

  /** A question that is not open any more was resolved after it was pushed. */
  lemma {:induction false} ClosedWasResolved(sent: seq<Message>, i: nat, j: nat)
    requires i < j <= |sent| && sent[i].AgentBlocked?
    requires forall k :: i < k < j ==> !sent[k].AgentBlocked?
    requires OpenQuestion(sent[..j]) != Some(sent[i].id)
    ensures exists k :: i < k < j && sent[k].AgentResolved? && sent[k].id == sent[i].id
    decreases j
  {
    assert sent[..j][..j - 1] == sent[..j - 1];
    if j == i + 1 {
      assert false;
    } else if !(sent[j - 1].id == sent[i].id) {
      ClosedWasResolved(sent, i, j - 1);
    }
  }

  /** For every run: between two pushes of a session the first was resolved, and
      every push carries a question. */
  lemma PushesAlternateWithResolutions(sessionId: string, es: seq<Event>, i: nat, j: nat)
    requires var sent := Run(Mounted(sessionId), es).sent;
             i < j < |sent| && sent[i].AgentBlocked? && sent[j].AgentBlocked? && forall k :: i < k < j ==> !sent[k].AgentBlocked?
    ensures var sent := Run(Mounted(sessionId), es).sent;
            && sent[i].question != "" && sent[j].question != ""
            && exists k :: i < k < j && sent[k].AgentResolved? && sent[k].id == sent[i].id
  {
    var sent := Run(Mounted(sessionId), es).sent;
    RunKeepsInv(Mounted(sessionId), es);
    ClosedWasResolved(sent, i, j);
  }

  // ------------------------------------------------------- counting the pushes

  function Pushes(sent: seq<Message>): nat {
    if sent == [] then 0
    else Pushes(sent[..|sent| - 1]) + if sent[|sent| - 1].AgentBlocked? then 1 else 0
  }

  function One(b: bool): nat {
    if b then 1 else 0
  }

  /** Steps that take the pushed question away. */
  function Closings(h: Hook, es: seq<Event>): nat
    decreases |es|
  {
    if es == [] then 0
    else One(h.pushedId.Some? && Step(h, es[0]).pushedId.None?) + Closings(Step(h, es[0]), es[1..])
  }

  /** Steps that push the question of another tab of the same dialog. */
  function TabPushes(h: Hook, es: seq<Event>): nat
    decreases |es|
  {
    if es == [] then 0
    else
      var e := es[0];
      One(e.RunEffect? && e.inp.status == Blocked && h.prevStatus == Blocked && TabChanged(h, e.inp) && IsPushDataReady(e.inp.question))
      + TabPushes(Step(h, e), es[1..])
  }

  lemma PushesAfter(sent: seq<Message>, m: Message)
    ensures Pushes(sent + [m]) == Pushes(sent) + One(m.AgentBlocked?)
  {
    assert (sent + [m])[..|sent|] == sent;
  }

  lemma StepCounts(h: Hook, e: Event)
    ensures Pushes(Step(h, e).sent) + One(h.pushedId.Some?) ==
            Pushes(h.sent) + One(h.pushedId.Some? && Step(h, e).pushedId.None?) + TabPushes(h, [e]) + One(Step(h, e).pushedId.Some?)
  {
    var g := Step(h, e);
    assert TabPushes(g, [e][1..]) == 0;
    hide Pushes;
    if |g.sent| == |h.sent| + 1 {
      assert g.sent == h.sent + [g.sent[|h.sent|]];
      PushesAfter(h.sent, g.sent[|h.sent|]);
    } else if |g.sent| == |h.sent| + 2 {
      var mid := h.sent + [g.sent[|h.sent|]];
      assert g.sent == mid + [g.sent[|h.sent| + 1]];
      PushesAfter(h.sent, g.sent[|h.sent|]);
      PushesAfter(mid, g.sent[|h.sent| + 1]);
    }
  }

  /** Every push is accounted for: it was closed, replaced by the next tab, or is
      the one in the ref. */
  lemma {:induction false} PushesAreConserved(h: Hook, es: seq<Event>)
    ensures Pushes(Run(h, es).sent) + One(h.pushedId.Some?) ==
            Pushes(h.sent) + Closings(h, es) + TabPushes(h, es) + One(Run(h, es).pushedId.Some?)
    decreases |es|
  {
    if es != [] {
      StepCounts(h, es[0]);
      assert TabPushes(Step(h, es[0]), [es[0]][1..]) == 0;
      PushesAreConserved(Step(h, es[0]), es[1..]);
    }
  }

  lemma {:induction false} NoTabPushesInSingleDialogs(h: Hook, es: seq<Event>)
    requires forall i :: 0 <= i < |es| && es[i].RunEffect? ==> !es[i].inp.isMultiQuestion
    ensures TabPushes(h, es) == 0
    decreases |es|
  {
    if es != [] {
      NoTabPushesInSingleDialogs(Step(h, es[0]), es[1..]);
    }
  }

  /** With no multi-question dialog and no closing step there is at most one push. */
  lemma AtMostOnePush(sessionId: string, es: seq<Event>)
    requires forall i :: 0 <= i < |es| && es[i].RunEffect? ==> !es[i].inp.isMultiQuestion
    requires Closings(Mounted(sessionId), es) == 0
    ensures Pushes(Run(Mounted(sessionId), es).sent) <= 1
  {
    PushesAreConserved(Mounted(sessionId), es);
    NoTabPushesInSingleDialogs(Mounted(sessionId), es);
  }

  // ------------------------------------------------------------- what one step does

  /** The question of the run has text, and the user is away. */
  predicate MayPush(inp: Inputs) {
    inp.question.Some? && inp.question.value != "" && (inp.idle || inp.locked)
  }

  /** The message of a push: the id is made of session, time stamp and the first fifty
      characters; question, options and tabs are those of the dialog. */
  predicate IsPushOf(m: Message, sessionId: string, inp: Inputs) {
    && inp.question.Some? && m.AgentBlocked?
    && m.id.sessionId == sessionId && m.id.stamp == inp.stamp
    && m.id.text <= inp.question.value && |m.id.text| == (if |inp.question.value| < 50 then |inp.question.value| else 50)
    && m.question == inp.question.value
    && m.options == (if inp.options.Some? then inp.options.value else [])
    && m.multi == inp.isMultiQuestion && m.tab == inp.activeTab && m.tabs == inp.totalTabs
  }

  /** The ref holds the pushed question, with the tab of a multi-question dialog. */
  predicate IsRemembered(h: Hook, m: Message, inp: Inputs) {
    m.AgentBlocked? && h.pushedId == Some(m.id) && h.pushedText == inp.question
    && h.pushedTab == (if inp.isMultiQuestion then inp.activeTab else -1)
  }

  /** An effect run on a blocked dialog of which no question is in the ref pushes exactly
      when the user is away and there is a question. */
  lemma FirstPushIff(h: Hook, inp: Inputs)
    requires inp.status == Blocked && h.pushedId == None
    ensures
      var g := Step(h, RunEffect(inp));
      if MayPush(inp)
      then |g.sent| == |h.sent| + 1 && h.sent <= g.sent && IsPushOf(g.sent[|h.sent|], h.sessionId, inp)
           && IsRemembered(g, g.sent[|h.sent|], inp) && g.prevStatus == Blocked && g.sessionId == h.sessionId
      else g == h.(prevStatus := Blocked)
  {}

  /** With a question in the ref, a blocked dialog sends only when a multi-question dialog
      that was blocked before shows another tab: the old question is resolved without an
      answer, and the new one pushed if it has text. */
  lemma TabPushIff(h: Hook, inp: Inputs)
    requires inp.status == Blocked && h.pushedId.Some?
    ensures
      var g := Step(h, RunEffect(inp));
      var changed := h.prevStatus == Blocked && inp.isMultiQuestion && inp.activeTab >= 0 && inp.activeTab != h.pushedTab;
      var resolved := h.(prevStatus := Blocked, sent := h.sent + [AgentResolved(h.pushedId.value, "")]);
      if !changed then g == h.(prevStatus := Blocked)
      else if inp.question == None || inp.question == Some("") then g == resolved
      else |g.sent| == |h.sent| + 2 && resolved.sent <= g.sent && IsPushOf(g.sent[|h.sent| + 1], h.sessionId, inp)
           && IsRemembered(g, g.sent[|h.sent| + 1], inp) && g.prevStatus == Blocked && g.sessionId == h.sessionId
  {}

  /** A run that is not blocked sends at most one resolution: with no answer for working,
      "dismissed" for done and unknown, nothing for idle or without a pushed question. */
  lemma ExitIs(h: Hook, inp: Inputs)
    requires inp.status != Blocked
    ensures
      var g := Step(h, RunEffect(inp));
      var answer := if inp.status == Working then "" else "__dismissed__";
      g == if h.prevStatus == Blocked && inp.status != Idle && h.pushedId.Some?
           then h.(prevStatus := inp.status, pushedId := None, pushedText := None, sent := h.sent + [AgentResolved(h.pushedId.value, answer)])
           else h.(prevStatus := inp.status)
  {}

  /** Clearing resolves the pushed question without an answer and forgets it; a notice of
      an answer is passed on and changes no ref. */
  lemma ClearAndNotifyAre(h: Hook, id: QuestionId, answer: string)
    ensures Step(h, Notify(id, answer)) == h.(sent := h.sent + [AgentResolved(id, answer)])
    ensures
      Step(h, Clear) ==
      h.(pushedId := None, pushedText := None, pushedTab := -1,
         sent := if h.pushedId.Some? then h.sent + [AgentResolved(h.pushedId.value, "")] else h.sent)
  {}

  // ----------------------------------------------- the exit that resolves nothing

  /** When a pushed question leaves "blocked", it is resolved exactly if the new
      status is not idle. */
  lemma LeavingResolvesIff(h: Hook, inp: Inputs)
    requires h.prevStatus == Blocked && h.pushedId.Some? && inp.status != Blocked
    ensures var g := Step(h, RunEffect(inp));
            && (inp.status != Idle <==> exists answer :: g.sent == h.sent + [AgentResolved(h.pushedId.value, answer)])
            && (inp.status != Idle <==> g.pushedId.None?)
            && (inp.status == Idle ==> g.sent == h.sent)
  {
    var g := Step(h, RunEffect(inp));
    if inp.status != Idle {
      assert g.sent == h.sent + [AgentResolved(h.pushedId.value, if inp.status == Working then "" else DISMISSED)];
    }
  }

  /** An effect run of a single-question dialog that does not leave "blocked" for
      working, done or unknown. */
  predicate IsQuiet(prev: Status, inp: Inputs) {
    && !inp.isMultiQuestion
    && (prev == Blocked ==> inp.status == Blocked || inp.status == Idle)
  }

  ghost predicate AllQuiet(prev: Status, inps: seq<Inputs>)
    decreases |inps|
  {
    inps == [] || (IsQuiet(prev, inps[0]) && AllQuiet(inps[0].status, inps[1..]))
  }

  function Effects(inps: seq<Inputs>): seq<Event> {
    if inps == [] then [] else [RunEffect(inps[0])] + Effects(inps[1..])
  }

  lemma {:induction false} SentGrows(h: Hook, inps: seq<Inputs>)
    ensures h.sent <= Run(h, Effects(inps)).sent
    decreases |inps|
  {
    if inps != [] {
      assert Effects(inps)[1..] == Effects(inps[1..]);
      SentGrows(Step(h, RunEffect(inps[0])), inps[1..]);
    }
  }

  /** While a question is in the ref, effect runs of single-question dialogs send
      nothing exactly as long as no dialog is left for working, done or unknown: after an
      idle exit the old question silences all later dialogs until one ends otherwise. */
  lemma {:induction false} StuckQuestionSilencesLaterDialogs(h: Hook, inps: seq<Inputs>)
    requires h.pushedId.Some?
    requires forall i :: 0 <= i < |inps| ==> !inps[i].isMultiQuestion
    ensures Run(h, Effects(inps)).sent == h.sent <==> AllQuiet(h.prevStatus, inps)
    ensures AllQuiet(h.prevStatus, inps) ==> Run(h, Effects(inps)).pushedId == h.pushedId
    decreases |inps|
  {
    if inps != [] {
      var g := Step(h, RunEffect(inps[0]));
      assert Effects(inps)[1..] == Effects(inps[1..]);
      if IsQuiet(h.prevStatus, inps[0]) {
        StuckQuestionSilencesLaterDialogs(g, inps[1..]);
      } else {
        SentGrows(g, inps[1..]);
        assert |g.sent| > |h.sent|;
      }
    }
  }

  /** "Every push is eventually resolved" fails: push, then blocked to idle, then working. */
  lemma PushedButNeverResolved(sessionId: string, stamp: int)
    ensures var blocked := Inputs(Blocked, Some("Proceed?"), None, false, -1, 0, true, false, stamp);
            var h := Run(Mounted(sessionId), Effects([blocked, blocked.(status := Idle), blocked.(status := Working)]));
            |h.sent| == 1 && h.sent[0].AgentBlocked? && h.pushedId == Some(h.sent[0].id) && h.prevStatus == Working
  {
    var blocked := Inputs(Blocked, Some("Proceed?"), None, false, -1, 0, true, false, stamp);
    var es := [RunEffect(blocked), RunEffect(blocked.(status := Idle)), RunEffect(blocked.(status := Working))];
    var inps := [blocked, blocked.(status := Idle), blocked.(status := Working)];
    assert inps[1..] == [inps[1], inps[2]] && inps[1..][1..] == [inps[2]] && inps[1..][1..][1..] == [];
    assert Effects([inps[2]]) == [es[2]];
    assert Effects(inps[1..]) == [es[1]] + Effects(inps[1..][1..]);
    assert Effects(inps) == [es[0]] + Effects(inps[1..]) == es;
    var h1 := Step(Mounted(sessionId), es[0]);
    var h2 := Step(h1, es[1]);
    var h3 := Step(h2, es[2]);
    assert es[1..][1..][1..] == [];
    assert Run(Mounted(sessionId), es) == Run(h1, es[1..]) == Run(h2, es[1..][1..]) == Run(h3, es[1..][1..][1..]) == h3;
  }
}
