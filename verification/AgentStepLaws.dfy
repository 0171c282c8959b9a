/** What every event does to a session, said of `Step` alone, field by field. */
module AgentStepLaws {
  import opened Common
  import opened AgentStateMachine
  import opened AgentDriver
  import opened AgentLaws

  // ------------------------------------------------------------------- elapsed time

  /** The session after a tick whose screen could not be read: only time has passed. */
  function Later(a: Agent, now: Time): Agent {
    Step(a, Interval(ScrapeFailed), now)
  }

  predicate IsDue(a: Agent, now: Time) {
    a.pendingStatus.Some? && now >= a.pendingFireAt
  }

  /** Elapsed time turns a due session to working, done to idle after 5 seconds of
      silence and working to done after 60; it changes no other status. */
  lemma TimeChangesStatusIff(a: Agent, now: Time)
    requires Inv(a)
    ensures
      var b := Later(a, now);
      var silence := now - a.lastOutputAt;
      && (IsDue(a, now) ==> b.status == if silence >= 60000.0 then Done else Working)
      && (!IsDue(a, now) && a.status == Done ==> b.status == if silence >= 5000.0 then Idle else Done)
      && (!IsDue(a, now) && a.status == Working ==> b.status == if silence >= 60000.0 then Done else Working)
      && (!IsDue(a, now) && a.status != Done && a.status != Working ==> b == a)
      && (b.status != a.status ==> b.lastStatusChangeAt == now)
      && b.pendingStatus == (if IsDue(a, now) || (a.status == Working && silence >= 60000.0) then None else a.pendingStatus)
      && b == a.(status := b.status, lastStatusChangeAt := b.lastStatusChangeAt, pendingStatus := b.pendingStatus)
  {}

  // ------------------------------------------------ readings of a session not blocked

  /** The CLI after a reading: what the screen shows, except that Devin stays. */
  function Overridden(a: Agent, shown: Cli): Agent {
    if shown == UnknownCli || a.cli == Devin then a else a.(cli := shown)
  }

  /** The change of a status, with its time. */
  function Turned(a: Agent, status: Status, now: Time): Agent {
    a.(status := status, lastStatusChangeAt := if a.status == status then a.lastStatusChangeAt else now)
  }

  /** A reading without patterns of a session that is not blocked: at a shell prompt the
      CLI is gone; otherwise a drawn screen corrects working to idle, and nothing else
      changes. */
  lemma PatternlessReadingIs(a: Agent, shown: Cli, hasContent: bool, shellPrompt: bool, now: Time)
    requires Inv(a) && a.cli != UnknownCli && a.status != Blocked
    ensures
      var c := Overridden(Later(a, now), shown);
      var echo := c.status == Working && hasContent;
      var corrected := if echo then c.(status := Idle, lastStatusChangeAt := now, pendingStatus := None) else c;
      Step(a, Interval(Scraped(shown, None, hasContent, shellPrompt)), now) ==
      if shellPrompt
      then corrected.(cli := UnknownCli, status := Unknown, pendingStatus := None, blockedMessage := None, blockedFromOsc := false)
      else corrected
  {
    TickKeepsInv(a, now);
    hide Ticked;
  }

  /** In particular, for a session that works after the tick: idle with nothing pending on
      a drawn screen, unknown without a CLI at a prompt, working only on an empty one. */
  lemma EchoIsCorrectedIff(a: Agent, shown: Cli, hasContent: bool, shellPrompt: bool, now: Time)
    requires Inv(a) && a.cli != UnknownCli && a.status != Blocked && Later(a, now).status == Working
    ensures
      var b := Step(a, Interval(Scraped(shown, None, hasContent, shellPrompt)), now);
      && (b.status == Idle <==> hasContent && !shellPrompt)
      && (b.status == Unknown <==> shellPrompt)
      && (b.status == Working <==> !hasContent && !shellPrompt)
      && (b.cli == UnknownCli <==> shellPrompt)
      && (hasContent || shellPrompt ==> b.pendingStatus == None)
  {
    TickKeepsInv(a, now);
    PatternlessReadingIs(a, shown, hasContent, shellPrompt, now);
    hide Step, Inv;
    assert Later(a, now).cli == a.cli by {
      LaterKeepsCli(a, now);
    }
  }

  lemma LaterKeepsCli(a: Agent, now: Time)
    ensures Later(a, now).cli == a.cli
  {}

  /** A reading with a status, of a session that is not blocked. The status it had before
      the tick is not applied again, and idle does not override done. */
  lemma StatusReadingIs(a: Agent, shown: Cli, status: Status, hasContent: bool, shellPrompt: bool, now: Time)
    requires Inv(a) && a.cli != UnknownCli && a.status != Blocked
    ensures
      var c := Overridden(Later(a, now), shown);
      var b := Step(a, Interval(Scraped(shown, Some(status), hasContent, shellPrompt)), now);
      && (status == Blocked ==>
            b == Turned(c, Blocked, now).(blockedMessage := None, blockedFromOsc := false, pendingStatus := None, blockedMissCount := 0))
      && (status != Blocked && status == a.status ==> b == c)
      && (status == Done && a.status != Done ==>
            b == Turned(c, Done, now).(blockedMessage := None, blockedFromOsc := false, pendingStatus := None))
      && (status == Working && a.status != Working ==> b == Turned(c, Working, now).(pendingStatus := None))
      && (status == Idle && a.status != Idle ==>
            b == if c.status == Done then c else Turned(c, Idle, now).(pendingStatus := None))
      && (status == Unknown ==> b == c)
  {
    TickKeepsInv(a, now);
    hide Ticked;
  }

  /** A session without a CLI takes the one that the screen shows, with its status. */
  lemma DetectionIs(a: Agent, shown: Cli, status: Option<Status>, hasContent: bool, shellPrompt: bool, now: Time)
    requires Inv(a) && a.cli == UnknownCli
    ensures
      var b := Step(a, Interval(Scraped(shown, status, hasContent, shellPrompt)), now);
      var c := a.(cli := shown);
      && (shown == UnknownCli || status == None || status == Some(Unknown) ==> b == c)
      && (shown != UnknownCli && status == Some(Blocked) ==>
            b == Turned(c, Blocked, now).(blockedMessage := None, blockedFromOsc := false, pendingStatus := None, blockedMissCount := 0))
      && (shown != UnknownCli && status == Some(Done) ==>
            b == Turned(c, Done, now).(blockedMessage := None, blockedFromOsc := false, pendingStatus := None))
      && (shown != UnknownCli && (status == Some(Working) || status == Some(Idle)) ==>
            b == Turned(c, status.value, now).(pendingStatus := None))
  {
    TickKeepsInv(a, now);
    hide Ticked;
  }

  // ------------------------------------------------------ readings of a blocked session

  /** A blocked reading takes a block over for the screen; a working or a done one ends
      it; for an OSC-set block the other readings change nothing. */
  lemma BlockedSessionReadingIs(a: Agent, shown: Cli, status: Option<Status>, hasContent: bool, shellPrompt: bool, now: Time)
    requires Inv(a) && a.cli != UnknownCli && a.status == Blocked
    ensures
      var c := Overridden(a, shown);
      var b := Step(a, Interval(Scraped(shown, status, hasContent, shellPrompt)), now);
      && (status == Some(Blocked) ==> b == c.(blockedMessage := None, blockedFromOsc := false, pendingStatus := None, blockedMissCount := 0))
      && (status == Some(Working) ==>
            b == c.(status := Working, lastStatusChangeAt := now, pendingStatus := None,
                    blockedMissCount := if a.blockedFromOsc then a.blockedMissCount else 0))
      && (status == Some(Done) ==>
            b == c.(status := Done, lastStatusChangeAt := now, pendingStatus := None, blockedMessage := None, blockedFromOsc := false,
                    blockedMissCount := if a.blockedFromOsc then a.blockedMissCount else 0))
      && ((status == Some(Idle) || status == None) && a.blockedFromOsc ==> b == c)
      && (status == Some(Unknown) ==> b == c)
  {
    TickKeepsInv(a, now);
    hide Ticked;
  }

  /** A missed reading of a screen-set block: counted until the third, which ends it. */
  lemma MissedReadingIs(a: Agent, shown: Cli, idle: bool, hasContent: bool, shellPrompt: bool, now: Time)
    requires Inv(a) && a.cli != UnknownCli && a.status == Blocked && !a.blockedFromOsc
    ensures
      var c := Overridden(a, shown);
      var b := Step(a, Interval(Scraped(shown, if idle then Some(Idle) else None, hasContent, shellPrompt)), now);
      var ended := c.(status := if idle then Idle else Working, lastStatusChangeAt := now, blockedMessage := None,
                      blockedFromOsc := false, pendingStatus := None, blockedMissCount := 0, isMultiSelect := false);
      b == if a.blockedMissCount < 2 then c.(blockedMissCount := a.blockedMissCount + 1)
           else if idle || !shellPrompt then ended
           else ended.(cli := UnknownCli, status := Unknown)
  {
    TickKeepsInv(a, now);
    hide Ticked;
  }

  // -------------------------------------------------------------------- other events

  /** An OSC signal names a session's CLI only if it has none. A blocked or done signal
      takes effect at once, whatever the status; a title changes nothing else. */
  lemma SignalIs(a: Agent, signal: Signal, now: Time)
    ensures
      var c := a.(cli := if a.cli != UnknownCli then a.cli else if signal.TitleSignal? then signal.titleCli else Devin);
      var b := Step(a, Osc(signal), now);
      var blocks := signal.BlockedSignal? || (signal.NotifySignal? && !signal.done);
      && (blocks ==> b == Turned(c, Blocked, now).(blockedMessage := Some(signal.message), blockedFromOsc := true, pendingStatus := None))
      && (signal.DoneSignal? || (signal.NotifySignal? && signal.done) ==>
            b == Turned(c, Done, now).(blockedMessage := None, blockedFromOsc := false, pendingStatus := None))
      && (signal.TitleSignal? ==> b == c)
  {}

  /** A title overrides the CLI; Codex's "Action Required" blocks as the screen would. */
  lemma TitleIs(a: Agent, cli: Cli, title: string, now: Time)
    ensures
      var c := if cli == UnknownCli then a else a.(cli := cli);
      Step(a, OscTitle(cli, title), now) ==
      if cli == Codex && title == "Action Required"
      then Turned(c, Blocked, now).(blockedMessage := Some("Action required"), blockedFromOsc := false, pendingStatus := None, blockedMissCount := 0)
      else c
  {}

  /** Output renews the output time; it schedules working in half a second exactly for a
      known CLI that is neither blocked nor working. BEL renews the time only while
      working, synchronisation sets the multi-select flag only while blocked, and a reset
      keeps nothing but the miss count and that flag. */
  lemma OtherEventIs(a: Agent, multiSelect: bool, now: Time)
    ensures
      var scheduled := a.cli != UnknownCli && a.status != Blocked && a.status != Working;
      Step(a, Output, now) ==
      if scheduled then a.(lastOutputAt := now, pendingStatus := Some(Working), pendingFireAt := now + 500.0)
      else a.(lastOutputAt := now)
    ensures Step(a, Bell, now) == if a.cli != UnknownCli && a.status == Working then a.(lastOutputAt := now) else a
    ensures Step(a, Sync(multiSelect), now) ==
            if a.cli != UnknownCli && a.status == Blocked then a.(isMultiSelect := multiSelect) else a
    ensures Step(a, Reset, now) == Agent(Unknown, UnknownCli, now, now, None, 0.0, None, false, a.blockedMissCount, a.isMultiSelect)
  {}
}
