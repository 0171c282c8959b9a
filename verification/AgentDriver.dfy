/** The hook that drives one `AgentState`: terminal handlers, the 500 ms interval
    and the map through which the terminal view reaches the state. */
module AgentDriver {
  import opened Common
  import opened AgentStateMachine

  /** What one interval reads from the terminal: the CLI that the screen shows, the
      status of the current CLI's patterns, whether anything is drawn, and whether
      the last line is a shell prompt. */
  datatype Screen =
    | ScrapeFailed
    | Scraped(shown: Cli, status: Option<Status>, hasContent: bool, shellPrompt: bool)

  datatype Event =
    | Osc(signal: Signal)
    | OscTitle(cli: Cli, title: string)
    | Bell
    | Output
    | Sync(multiSelect: bool)
    | Interval(screen: Screen)
    | Reset

  // ----------------------------------------------------------- specification

  const ACTION_REQUIRED: string := "Action Required"

  /** `handleOscTitle` of the behaviour of each CLI. */
  function TitleStatus(cli: Cli, title: string): Option<(Status, string)> {
    if cli == Codex && title == ACTION_REQUIRED then Some((Blocked, "Action required")) else None
  }

  function TitleStep(a: Agent, cli: Cli, title: string, now: Time): Agent {
    var b := if cli != UnknownCli && a.cli != cli then a.(cli := cli) else a;
    match TitleStatus(cli, title)
    case None => b
    case Some((status, message)) => Screened(b, status, Some(message), now)
  }

  function BellStep(a: Agent, now: Time): Agent {
    if a.cli != UnknownCli && a.status == Working then a.(lastOutputAt := now) else a
  }

  function SyncStep(a: Agent, multiSelect: bool): Agent {
    if a.status == Blocked && a.cli != UnknownCli then a.(isMultiSelect := multiSelect) else a
  }

  /** Blocked by the screen, not by an OSC signal. */
  predicate ScreenBlocked(a: Agent) {
    a.status == Blocked && !a.blockedFromOsc
  }

  function Missed(a: Agent, target: Status, now: Time): Agent {
    var b := a.(blockedMissCount := a.blockedMissCount + 1);
    if b.blockedMissCount >= BLOCKED_MISS_THRESHOLD then ScreenBlockCleared(b, target, now) else b
  }

  function ShellExit(a: Agent): Agent {
    a.(cli := UnknownCli, status := Unknown, pendingStatus := None, blockedMessage := None, blockedFromOsc := false)
  }

  /** No pattern of the CLI is on the screen. */
  function NoPatternStep(a: Agent, hasContent: bool, shellPrompt: bool, now: Time): Agent {
    var b := if ScreenBlocked(a) then Missed(a, Working, now) else a;
    var corrected := ScreenBlocked(a) && b.status != Blocked;
    var c := if !corrected && hasContent && b.status == Working
             then Screened(b, Idle, None, now).(pendingStatus := None) else b;
    if c.status != Blocked && shellPrompt then ShellExit(c) else c
  }

  function KnownCliStep(a: Agent, before: Status, screen: Screen, now: Time): Agent
    requires screen.Scraped?
  {
    match screen.status
    case None => NoPatternStep(a, screen.hasContent, screen.shellPrompt, now)
    case Some(status) =>
      if status == Blocked then Screened(a.(blockedMissCount := 0), Blocked, None, now)
      else if (status == Working || status == Done) && ScreenBlocked(a) then
        Screened(a, status, None, now).(blockedMissCount := 0)
      else if status == Idle && ScreenBlocked(a) then Missed(a, Idle, now)
      else if status != before then Screened(a, status, None, now)
      else a
  }

  function IntervalStep(a: Agent, screen: Screen, now: Time): Agent {
    var b := Ticked(a, now);
    if screen.ScrapeFailed? then b
    else if b.cli != UnknownCli then
      var c := if screen.shown != UnknownCli && screen.shown != b.cli && b.cli != Devin then b.(cli := screen.shown) else b;
      KnownCliStep(c, a.status, screen, now)
    else if screen.shown != UnknownCli then
      var c := b.(cli := screen.shown);
      if screen.status.Some? then Screened(c, screen.status.value, None, now) else c
    else b
  }

  function Step(a: Agent, e: Event, now: Time): Agent {
    match e
    case Osc(signal) => Signalled(a, signal, now)
    case OscTitle(cli, title) => TitleStep(a, cli, title, now)
    case Bell => BellStep(a, now)
    case Output => OutputSeen(a, now)
    case Sync(multiSelect) => SyncStep(a, multiSelect)
    case Interval(screen) => IntervalStep(a, screen, now)
    case Reset => ResetAgent(a, now)
  }

  datatype Timed = Timed(event: Event, at: Time)

  function Run(a: Agent, es: seq<Timed>): Agent
    decreases |es|
  {
    if es == [] then a else Run(Step(a, es[0].event, es[0].at), es[1..])
  }

  // ---------------------------------------------------------- implementation

  method OnOscTitle(state: AgentState, cli: Cli, title: string, now: Time)
    modifies state
    ensures state.Model() == Step(old(state.Model()), OscTitle(cli, title), now)
  {
    if cli != UnknownCli && state.cli != cli {
      state.SetCliType(cli);
    }
    var titleResult := TitleStatus(cli, title);
    if titleResult.Some? {
      state.ApplyScreenStatus(titleResult.value.0, Some(titleResult.value.1), now);
    }
  }

  method OnOscSignal(state: AgentState, signal: Signal, now: Time)
    modifies state
    ensures state.Model() == Step(old(state.Model()), Osc(signal), now)
  {
    var _ := state.ApplySignal(signal, now);
  }

  method OnBell(state: AgentState, now: Time)
    modifies state
    ensures state.Model() == Step(old(state.Model()), Bell, now)
  {
    if state.cli != UnknownCli && state.status == Working {
      state.lastOutputAt := now;
    }
  }

  method SyncToReact(state: AgentState, multiSelect: bool, ghost now: Time)
    modifies state
    ensures state.Model() == Step(old(state.Model()), Sync(multiSelect), now)
  {
    if state.status == Blocked && state.cli != UnknownCli {
      state.isMultiSelect := multiSelect;
    }
  }

  /** One interval in which a screen-set block was not confirmed. */
  method CountMiss(state: AgentState, target: Status, now: Time)
    requires state.status == Blocked
    modifies state
    ensures state.Model() == Missed(old(state.Model()), target, now)
  {
    state.blockedMissCount := state.blockedMissCount + 1;
    if state.blockedMissCount >= BLOCKED_MISS_THRESHOLD {
      state.ClearScreenBlocked(target, now);
    }
  }

  method OnNoPattern(state: AgentState, hasContent: bool, shellPrompt: bool, now: Time)
    modifies state
    ensures state.Model() == NoPatternStep(old(state.Model()), hasContent, shellPrompt, now)
  {
    hide Screened;
    var correctedFromBlocked := false;
    if state.status == Blocked && !state.blockedFromOsc {
      CountMiss(state, Working, now);
      correctedFromBlocked := state.status != Blocked;
    }
    if !correctedFromBlocked && hasContent && state.status == Working {
      state.ApplyScreenStatus(Idle, None, now);
      state.pendingStatus := None;
    }
    if state.status != Blocked {
      if shellPrompt {
        state.SetCliType(UnknownCli);
        state.status := Unknown;
        state.pendingStatus := None;
        state.blockedMessage := None;
        state.blockedFromOsc := false;
      }
    }
  }

  method OnKnownCli(state: AgentState, prevStatus: Status, screen: Screen, now: Time)
    requires screen.Scraped?
    modifies state
    ensures state.Model() == KnownCliStep(old(state.Model()), prevStatus, screen, now)
  {
    hide Screened, Missed, NoPatternStep;
    var screenStatus := screen.status;
    if screenStatus == Some(Blocked) {
      state.blockedMissCount := 0;
      state.ApplyScreenStatus(Blocked, None, now);
    } else if (screenStatus == Some(Working) || screenStatus == Some(Done)) && state.status == Blocked && !state.blockedFromOsc {
      state.ApplyScreenStatus(screenStatus.value, None, now);
      state.blockedMissCount := 0;
    } else if screenStatus == Some(Idle) && state.status == Blocked && !state.blockedFromOsc {
      CountMiss(state, Idle, now);
    } else if screenStatus.Some? {
      if screenStatus.value != prevStatus {
        state.ApplyScreenStatus(screenStatus.value, None, now);
      }
    } else {
      OnNoPattern(state, screen.hasContent, screen.shellPrompt, now);
    }
  }

  /** The body of the 500 ms interval. */
  method OnInterval(state: AgentState, screen: Screen, now: Time)
    modifies state
    ensures state.Model() == Step(old(state.Model()), Interval(screen), now)
  {
    hide Ticked, Screened, KnownCliStep;
    var prevStatus := state.status;
    var _ := state.Tick(now);
    if screen.ScrapeFailed? {
      return;
    }
    if state.cli != UnknownCli {
      if screen.shown != UnknownCli && screen.shown != state.cli && state.cli != Devin {
        state.SetCliType(screen.shown);
      }
      OnKnownCli(state, prevStatus, screen, now);
    } else if screen.shown != UnknownCli {
      state.SetCliType(screen.shown);
      if screen.status.Some? {
        state.ApplyScreenStatus(screen.status.value, None, now);
      }
    }
  }

  /** The module-level map from session to state. */
  class AgentRegistry {
    var states: map<string, AgentState>

    /** Sessions do not share a state object. */
    ghost predicate Valid()
      reads this
    {
      forall s, t :: s in states && t in states && states[s] == states[t] ==> s == t
    }

    constructor ()
      ensures Valid() && states == map[]
    {
      states := map[];
    }

    method Register(sessionId: string, state: AgentState)
      requires Valid() && forall s :: s in states && s != sessionId ==> states[s] != state
      modifies this
      ensures Valid() && states == old(states)[sessionId := state]
    {
      states := states[sessionId := state];
    }

    method Unregister(sessionId: string)
      requires Valid()
      modifies this
      ensures Valid() && states == old(states) - {sessionId}
    {
      states := states - {sessionId};
    }

    method NotifyAgentOutput(sessionId: string, now: Time)
      requires Valid()
      modifies states.Values
      ensures Valid() && states == old(states)
      ensures forall s :: s in states ==>
                states[s].Model() == if s == sessionId then Step(old(states[s].Model()), Output, now) else old(states[s].Model())
    {
      if sessionId in states {
        var _ := states[sessionId].NotifyOutput(now);
      }
    }

    method ResetAgentStatus(sessionId: string, now: Time)
      requires Valid()
      modifies states.Values
      ensures Valid() && states == old(states)
      ensures forall s :: s in states ==>
                states[s].Model() == if s == sessionId then Step(old(states[s].Model()), Reset, now) else old(states[s].Model())
    {
      if sessionId in states {
        states[sessionId].Reset(now);
      }
    }
  }
}
