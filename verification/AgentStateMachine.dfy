/** The status machine of one AI CLI session.  `AgentState` is mutated in place;
    each of its methods is proved against a function on the value `Agent`. */
module AgentStateMachine {
  import opened Common

  datatype Status = Unknown | Idle | Working | Blocked | Done

  datatype Cli = UnknownCli | Devin | OpenCode | ClaudeCode | Codex | Shell

  // Milliseconds of a monotonic clock.
  type Time = real

  datatype Signal =
    | BlockedSignal(message: string)
    | DoneSignal
    | TitleSignal(titleCli: Cli, title: string)
    | NotifySignal(message: string, done: bool)

  const DEBOUNCE_MS: Time := 500.0
  const DONE_TO_IDLE_MS: Time := 5000.0
  const BLOCKED_MISS_THRESHOLD: int := 3
  const WORKING_IDLE_TIMEOUT_MS: Time := 60000.0

  /** The value of an `AgentState`. */
  datatype Agent = Agent(
    status: Status,
    cli: Cli,
    lastOutputAt: Time,
    lastStatusChangeAt: Time,
    pendingStatus: Option<Status>,
    pendingFireAt: Time,
    blockedMessage: Option<string>,
    blockedFromOsc: bool,
    blockedMissCount: int,
    isMultiSelect: bool)

  // ----------------------------------------------------------- specification

  function Created(now: Time): Agent {
    Agent(Unknown, UnknownCli, now, now, None, 0.0, None, false, 0, false)
  }

  function Transition(a: Agent, status: Status, now: Time): Agent {
    if a.status == status then a else a.(status := status, lastStatusChangeAt := now)
  }

  /** Only title signals name a CLI other than Devin. */
  function SignalCli(signal: Signal): Cli {
    if signal.TitleSignal? then signal.titleCli else Devin
  }

  function OscBlocked(a: Agent, message: string, now: Time): Agent {
    Transition(a, Blocked, now).(blockedMessage := Some(message), blockedFromOsc := true, pendingStatus := None)
  }

  function OscDone(a: Agent, now: Time): Agent {
    Transition(a, Done, now).(blockedMessage := None, blockedFromOsc := false, pendingStatus := None)
  }

  function Signalled(a: Agent, signal: Signal, now: Time): Agent {
    var b := if SignalCli(signal) != UnknownCli && a.cli == UnknownCli then a.(cli := SignalCli(signal)) else a;
    match signal
    case BlockedSignal(message) => OscBlocked(b, message, now)
    case DoneSignal => OscDone(b, now)
    case NotifySignal(message, done) => if done then OscDone(b, now) else OscBlocked(b, message, now)
    case TitleSignal(_, _) => b
  }

  function Screened(a: Agent, status: Status, message: Option<string>, now: Time): Agent {
    match status
    case Blocked =>
      Transition(a, Blocked, now).(blockedMessage := message, blockedFromOsc := false, pendingStatus := None, blockedMissCount := 0)
    case Done => OscDone(a, now)
    case Working => Transition(a, Working, now).(pendingStatus := None)
    case Idle =>
      if a.status != Blocked && a.status != Done then Transition(a, Idle, now).(pendingStatus := None) else a
    case Unknown => a
  }

  function ScreenBlockCleared(a: Agent, target: Status, now: Time): Agent {
    if a.status != Blocked then a
    else Transition(a, target, now).(blockedMessage := None, blockedFromOsc := false, pendingStatus := None,
                                     blockedMissCount := 0, isMultiSelect := false)
  }

  function OutputSeen(a: Agent, now: Time): Agent {
    var b := a.(lastOutputAt := now);
    if a.status == Blocked || a.status == Working || a.cli == UnknownCli then b
    else b.(pendingStatus := Some(Working), pendingFireAt := now + DEBOUNCE_MS)
  }

  function Fired(a: Agent, now: Time): Agent {
    if a.pendingStatus.Some? && now >= a.pendingFireAt
    then Transition(a, a.pendingStatus.value, now).(pendingStatus := None)
    else a
  }

  function Decayed(a: Agent, now: Time): Agent {
    if a.status == Done && now - a.lastOutputAt >= DONE_TO_IDLE_MS then Transition(a, Idle, now) else a
  }

  function TimedOut(a: Agent, now: Time): Agent {
    if a.status == Working && a.cli != UnknownCli && now - a.lastOutputAt >= WORKING_IDLE_TIMEOUT_MS
    then Transition(a, Done, now).(pendingStatus := None)
    else a
  }

  function Ticked(a: Agent, now: Time): Agent {
    TimedOut(Decayed(Fired(a, now), now), now)
  }

  function ResetAgent(a: Agent, now: Time): Agent {
    a.(status := Unknown, cli := UnknownCli, lastOutputAt := now, lastStatusChangeAt := now, pendingStatus := None,
       pendingFireAt := 0.0, blockedMessage := None, blockedFromOsc := false)
  }

  // ---------------------------------------------------------- implementation

  class AgentState {
    var status: Status
    var cli: Cli
    var lastOutputAt: Time
    var lastStatusChangeAt: Time
    var pendingStatus: Option<Status>
    var pendingFireAt: Time
    var blockedMessage: Option<string>
    var blockedFromOsc: bool
    var blockedMissCount: int
    var isMultiSelect: bool

    function Model(): Agent
      reads this
    {
      Agent(status, cli, lastOutputAt, lastStatusChangeAt, pendingStatus, pendingFireAt,
            blockedMessage, blockedFromOsc, blockedMissCount, isMultiSelect)
    }

    constructor (now: Time)
      ensures Model() == Created(now)
    {
      status, cli := Unknown, UnknownCli;
      lastOutputAt, lastStatusChangeAt := now, now;
      pendingStatus, pendingFireAt := None, 0.0;
      blockedMessage, blockedFromOsc := None, false;
      blockedMissCount := 0;
      isMultiSelect := false;
    }

    method TransitionTo(target: Status, now: Time)
      modifies this
      ensures Model() == Transition(old(Model()), target, now)
    {
      if status == target {
        return;
      }
      status := target;
      lastStatusChangeAt := now;
    }

    method ScheduleDebounced(target: Status, now: Time)
      modifies this
      ensures target == Blocked ==> Model() == Transition(old(Model()), Blocked, now).(pendingStatus := None)
      ensures target != Blocked ==> Model() == old(Model()).(pendingStatus := Some(target), pendingFireAt := now + DEBOUNCE_MS)
    {
      if target == Blocked {
        TransitionTo(target, now);
        pendingStatus := None;
      } else {
        pendingStatus := Some(target);
        pendingFireAt := now + DEBOUNCE_MS;
      }
    }

    method ApplySignal(signal: Signal, now: Time) returns (result: Status)
      modifies this
      ensures Model() == Signalled(old(Model()), signal, now) && result == status
    {
      if SignalCli(signal) != UnknownCli && cli == UnknownCli {
        cli := SignalCli(signal);
      }
      match signal {
        case BlockedSignal(message) =>
          TransitionTo(Blocked, now);
          blockedMessage := Some(message);
          blockedFromOsc := true;
          pendingStatus := None;
        case DoneSignal =>
          TransitionTo(Done, now);
          blockedMessage := None;
          blockedFromOsc := false;
          pendingStatus := None;
        case NotifySignal(message, done) =>
          if done {
            TransitionTo(Done, now);
            blockedMessage := None;
            blockedFromOsc := false;
          } else {
            TransitionTo(Blocked, now);
            blockedMessage := Some(message);
            blockedFromOsc := true;
          }
          pendingStatus := None;
        case TitleSignal(_, _) =>
      }
      result := status;
    }

    method ApplyScreenStatus(screen: Status, message: Option<string>, now: Time)
      modifies this
      ensures Model() == Screened(old(Model()), screen, message, now)
    {
      if screen == Blocked {
        TransitionTo(Blocked, now);
        blockedMessage := message;
        blockedFromOsc := false;
        pendingStatus := None;
        blockedMissCount := 0;
      } else if screen == Done {
        TransitionTo(Done, now);
        blockedMessage := None;
        blockedFromOsc := false;
        pendingStatus := None;
      } else if screen == Working {
        TransitionTo(Working, now);
        pendingStatus := None;
      } else if screen == Idle {
        if status != Blocked && status != Done {
          TransitionTo(Idle, now);
          pendingStatus := None;
        }
      }
    }

    method ClearScreenBlocked(target: Status, now: Time)
      modifies this
      ensures Model() == ScreenBlockCleared(old(Model()), target, now)
    {
      if status != Blocked {
        return;
      }
      TransitionTo(target, now);
      blockedMessage := None;
      blockedFromOsc := false;
      pendingStatus := None;
      blockedMissCount := 0;
      isMultiSelect := false;
    }

    method NotifyOutput(now: Time) returns (result: Status)
      modifies this
      ensures Model() == OutputSeen(old(Model()), now) && result == status
    {
      lastOutputAt := now;
      if status == Blocked {
        return status;
      }
      if cli == UnknownCli {
        return status;
      }
      if status == Idle || status == Done || status == Unknown {
        ScheduleDebounced(Working, now);
      }
      result := status;
    }

    method Tick(now: Time) returns (result: Status)
      modifies this
      ensures Model() == Ticked(old(Model()), now) && result == status
    {
      if pendingStatus.Some? && now >= pendingFireAt {
        TransitionTo(pendingStatus.value, now);
        pendingStatus := None;
      }
      if status == Done && now - lastOutputAt >= DONE_TO_IDLE_MS {
        TransitionTo(Idle, now);
      }
      if status == Working && cli != UnknownCli && now - lastOutputAt >= WORKING_IDLE_TIMEOUT_MS {
        TransitionTo(Done, now);
        pendingStatus := None;
      }
      result := status;
    }

    method SetCliType(target: Cli)
      modifies this
      ensures Model() == old(Model()).(cli := target)
    {
      cli := target;
    }

    method Reset(now: Time)
      modifies this
      ensures Model() == ResetAgent(old(Model()), now)
    {
      status := Unknown;
      cli := UnknownCli;
      lastOutputAt := now;
      lastStatusChangeAt := now;
      pendingStatus := None;
      pendingFireAt := 0.0;
      blockedMessage := None;
      blockedFromOsc := false;
    }
  }
}
