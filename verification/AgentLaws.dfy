/** What every run of one session keeps, for every interleaving of events. */
module AgentLaws {
  import opened Common
  import opened AgentStateMachine
  import opened AgentDriver

  /** Only "working" is ever pending, and only where it can still fire; a session
      without a CLI has no status; the miss count stays below the threshold. */
  predicate Inv(a: Agent) {
    && (a.pendingStatus.Some? ==>
          && a.pendingStatus.value == Working
          && (a.status == Unknown || a.status == Idle || a.status == Done)
          && a.cli != UnknownCli
          && a.pendingFireAt == a.lastOutputAt + DEBOUNCE_MS)
    && (a.cli == UnknownCli ==> a.status == Unknown)
    && 0 <= a.blockedMissCount < BLOCKED_MISS_THRESHOLD
  }

  lemma TickKeepsInv(a: Agent, now: Time)
    requires Inv(a)
    ensures Inv(Ticked(a, now)) && Ticked(a, now).cli == a.cli
    ensures a.status == Blocked ==> Ticked(a, now) == a
    ensures a.cli == UnknownCli ==> Ticked(a, now) == a
    ensures Ticked(a, now).blockedMissCount == a.blockedMissCount && Ticked(a, now).lastOutputAt == a.lastOutputAt
    ensures a.status != Blocked ==> Ticked(a, now).status != Blocked
  {}

  lemma ScreenedKeepsInv(a: Agent, status: Status, message: Option<string>, now: Time)
    requires Inv(a) && a.cli != UnknownCli
    ensures Inv(Screened(a, status, message, now)) && Screened(a, status, message, now).cli == a.cli
    ensures Inv(Screened(a, status, message, now).(pendingStatus := None))
  {}

  lemma MissedKeepsInv(a: Agent, target: Status, now: Time)
    requires Inv(a) && a.cli != UnknownCli && ScreenBlocked(a)
    ensures Inv(Missed(a, target, now)) && Missed(a, target, now).cli == a.cli
  {}

  lemma NoPatternKeepsInv(a: Agent, hasContent: bool, shellPrompt: bool, now: Time)
    requires Inv(a) && a.cli != UnknownCli
    ensures Inv(NoPatternStep(a, hasContent, shellPrompt, now))
  {
    var b := if ScreenBlocked(a) then Missed(a, Working, now) else a;
    if ScreenBlocked(a) {
      MissedKeepsInv(a, Working, now);
    }
    ScreenedKeepsInv(b, Idle, None, now);
    hide Missed, Screened;
  }

  lemma KnownCliKeepsInv(a: Agent, before: Status, screen: Screen, now: Time)
    requires Inv(a) && a.cli != UnknownCli && screen.Scraped?
    ensures Inv(KnownCliStep(a, before, screen, now))
  {
    var zeroed := a.(blockedMissCount := 0);
    NoPatternKeepsInv(a, screen.hasContent, screen.shellPrompt, now);
    ScreenedKeepsInv(zeroed, Blocked, None, now);
    if screen.status.Some? {
      ScreenedKeepsInv(a, screen.status.value, None, now);
      if ScreenBlocked(a) {
        MissedKeepsInv(a, Idle, now);
      }
    }
    hide NoPatternStep, Missed, Screened;
  }

  lemma StepKeepsInv(a: Agent, e: Event, now: Time)
    requires Inv(a)
    ensures Inv(Step(a, e, now))
  {
    match e
    case Interval(screen) =>
      TickKeepsInv(a, now);
      var b := Ticked(a, now);
      hide Ticked, Inv, KnownCliStep;
      if screen.Scraped? {
        IntervalBranches(a, b, screen, now);
      }
    case _ =>
  }

  lemma IntervalBranches(a: Agent, b: Agent, screen: Screen, now: Time)
    requires screen.Scraped? && b == Ticked(a, now) && Inv(b)
    ensures Inv(IntervalStep(a, screen, now))
  {
    hide Ticked, KnownCliStep;
    if b.cli != UnknownCli {
      var c := if screen.shown != UnknownCli && screen.shown != b.cli && b.cli != Devin then b.(cli := screen.shown) else b;
      KnownCliKeepsInv(c, a.status, screen, now);
    }
  }

  /** The invariant holds after every run of a new session. */
  lemma {:induction false} RunKeepsInv(a: Agent, es: seq<Timed>)
    requires Inv(a)
    ensures Inv(Run(a, es))
    decreases |es|
  {
    if es != [] {
      StepKeepsInv(a, es[0].event, es[0].at);
      RunKeepsInv(Step(a, es[0].event, es[0].at), es[1..]);
    }
  }

  lemma EveryReachableState(start: Time, es: seq<Timed>)
    ensures Inv(Run(Created(start), es))
  {
    RunKeepsInv(Created(start), es);
  }

  // ---------------------------------------------------------------- debounce

  ghost predicate ClockRises(es: seq<Timed>) {
    forall i, j :: 0 <= i < j < |es| ==> es[i].at <= es[j].at
  }

  lemma LastOutput(a: Agent, e: Event, now: Time)
    requires Inv(a)
    ensures Step(a, e, now).lastOutputAt == a.lastOutputAt || Step(a, e, now).lastOutputAt == now
    ensures e.Output? ==> Step(a, e, now).lastOutputAt == now
  {
    if e.Interval? {
      TickKeepsInv(a, now);
      if e.screen.Scraped? && a.cli != UnknownCli {
        var b := Ticked(a, now);
        var c := if e.screen.shown != UnknownCli && e.screen.shown != b.cli && b.cli != Devin then b.(cli := e.screen.shown) else b;
        KnownCliKeepsOutputTime(c, a.status, e.screen, now);
      }
      hide Ticked, KnownCliStep;
    }
  }

  lemma KnownCliKeepsOutputTime(a: Agent, before: Status, screen: Screen, now: Time)
    requires screen.Scraped?
    ensures KnownCliStep(a, before, screen, now).lastOutputAt == a.lastOutputAt
  {}

  lemma {:induction false} OutputsAreRecorded(a: Agent, es: seq<Timed>)
    requires Inv(a) && ClockRises(es) && forall i :: 0 <= i < |es| ==> a.lastOutputAt <= es[i].at
    ensures a.lastOutputAt <= Run(a, es).lastOutputAt
    ensures forall i :: 0 <= i < |es| && es[i].event.Output? ==> es[i].at <= Run(a, es).lastOutputAt
    decreases |es|
  {
    if es != [] {
      var b := Step(a, es[0].event, es[0].at);
      StepKeepsInv(a, es[0].event, es[0].at);
      LastOutput(a, es[0].event, es[0].at);
      OutputsAreRecorded(b, es[1..]);
      forall i | 0 <= i < |es| && es[i].event.Output? ensures es[i].at <= Run(a, es).lastOutputAt {
        if i > 0 { assert es[1..][i - 1] == es[i]; }
      }
    }
  }

  /** When a tick turns a session to "working", every output of the run is at
      least 500 ms old. */
  lemma DebounceFiresAfterSilence(start: Time, es: seq<Timed>, now: Time)
    requires ClockRises(es) && forall i :: 0 <= i < |es| ==> start <= es[i].at
    requires Run(Created(start), es).status != Working && Ticked(Run(Created(start), es), now).status == Working
    ensures forall i :: 0 <= i < |es| && es[i].event.Output? ==> es[i].at + 500.0 <= now
  {
    EveryReachableState(start, es);
    OutputsAreRecorded(Created(start), es);
  }

  // ------------------------------------------------------------ anti-flicker

  /** An interval whose screen shows no dialog: idle, or no known pattern. */
  predicate IsMiss(e: Event) {
    e.Interval? && e.screen.Scraped? && (e.screen.status == None || e.screen.status == Some(Idle))
  }

  predicate IsBlockedReading(e: Event) {
    e.Interval? && e.screen.Scraped? && e.screen.status == Some(Blocked)
  }

  /** Output, BEL, synchronisation, and intervals that could not read the screen. */
  predicate IsNeutral(e: Event) {
    e.Output? || e.Bell? || e.Sync? || (e.Interval? && e.screen.ScrapeFailed?)
  }

  predicate IsWatched(e: Event) {
    IsMiss(e) || IsBlockedReading(e) || IsNeutral(e)
  }

  function NextCount(m: int, e: Event): int {
    if IsMiss(e) then m + 1 else if IsBlockedReading(e) then 0 else m
  }

  /** A watched event keeps a screen-set block and counts, or is the miss that ends it. */
  lemma WatchedStep(a: Agent, e: Event, now: Time)
    requires Inv(a) && ScreenBlocked(a) && IsWatched(e)
    ensures var b := Step(a, e, now);
            if NextCount(a.blockedMissCount, e) < BLOCKED_MISS_THRESHOLD
            then ScreenBlocked(b) && b.blockedMissCount == NextCount(a.blockedMissCount, e)
                 && b.blockedMessage == (if IsBlockedReading(e) then None else a.blockedMessage)
            else b.status == if e.screen.status == Some(Idle) then Idle
                             else if e.screen.shellPrompt then Unknown else Working
  {
    if e.Interval? {
      TickKeepsInv(a, now);
      hide Ticked;
    }
  }

  /** Blocked now and after every event of the run. */
  ghost predicate Held(a: Agent, es: seq<Timed>)
    decreases |es|
  {
    a.status == Blocked && (es == [] || Held(Step(a, es[0].event, es[0].at), es[1..]))
  }

  function Misses(es: seq<Timed>): nat {
    if es == [] then 0 else (if IsMiss(es[0].event) then 1 else 0) + Misses(es[1..])
  }

  ghost predicate NoBlockedReading(es: seq<Timed>) {
    forall i :: 0 <= i < |es| ==> !IsBlockedReading(es[i].event)
  }

  /** No three misses without a blocked reading between them, where `m` misses
      have been counted before. */
  ghost predicate FewMisses(m: int, es: seq<Timed>) {
    && (forall j :: 0 <= j <= |es| && NoBlockedReading(es[..j]) ==> m + Misses(es[..j]) < BLOCKED_MISS_THRESHOLD)
    && (forall i, j :: 0 <= i <= j <= |es| && NoBlockedReading(es[i..j]) ==> Misses(es[i..j]) < BLOCKED_MISS_THRESHOLD)
  }

  lemma FewMissesStep(m: int, es: seq<Timed>)
    requires es != [] && 0 <= m < BLOCKED_MISS_THRESHOLD && IsWatched(es[0].event)
    ensures FewMisses(m, es) <==>
            NextCount(m, es[0].event) < BLOCKED_MISS_THRESHOLD && FewMisses(NextCount(m, es[0].event), es[1..])
  {
    var e, rest, n := es[0].event, es[1..], NextCount(m, es[0].event);
    if FewMisses(m, es) {
      FewMissesRest(m, es);
    }
    if n < BLOCKED_MISS_THRESHOLD && FewMisses(n, rest) {
      FewMissesCons(m, es);
    }
  }

  lemma SliceOfRest(es: seq<Timed>, i: int, j: int)
    requires 1 <= i <= j <= |es|
    ensures es[i..j] == es[1..][i - 1..j - 1]
  {
    var rest := es[1..];
    var p, q := es[i..j], rest[i - 1..j - 1];
    assert |p| == |q| == j - i;
    forall k | 0 <= k < j - i ensures p[k] == q[k] {
      assert p[k] == es[i + k] && q[k] == rest[i - 1 + k];
    }
  }

  lemma PrefixOfCons(es: seq<Timed>, j: int)
    requires 1 <= j <= |es|
    ensures es[..j] == [es[0]] + es[1..][..j - 1]
    ensures Misses(es[..j]) == (if IsMiss(es[0].event) then 1 else 0) + Misses(es[1..][..j - 1])
    ensures NoBlockedReading(es[..j]) <==> !IsBlockedReading(es[0].event) && NoBlockedReading(es[1..][..j - 1])
  {
    var p, q := es[..j], es[1..][..j - 1];
    assert p[1..] == q;
    if NoBlockedReading(p) {
      assert !IsBlockedReading(p[0].event);
      forall i | 0 <= i < |q| ensures !IsBlockedReading(q[i].event) { assert q[i] == p[i + 1]; }
    }
    if !IsBlockedReading(es[0].event) && NoBlockedReading(q) {
      forall i | 0 <= i < |p| ensures !IsBlockedReading(p[i].event) { if i > 0 { assert p[i] == q[i - 1]; } }
    }
  }

  lemma FewMissesRest(m: int, es: seq<Timed>)
    requires es != [] && IsWatched(es[0].event) && FewMisses(m, es)
    ensures NextCount(m, es[0].event) < BLOCKED_MISS_THRESHOLD && FewMisses(NextCount(m, es[0].event), es[1..])
  {
    hide IsWatched, NoBlockedReading, Misses;
    var e, rest, n := es[0].event, es[1..], NextCount(m, es[0].event);
    forall i, j | 0 <= i <= j <= |rest| && NoBlockedReading(rest[i..j])
      ensures Misses(rest[i..j]) < BLOCKED_MISS_THRESHOLD
    {
      SliceOfRest(es, i + 1, j + 1);
    }
    forall j | 0 <= j <= |rest| && NoBlockedReading(rest[..j])
      ensures n + Misses(rest[..j]) < BLOCKED_MISS_THRESHOLD
    {
      if IsBlockedReading(e) {
        assert rest[..j] == rest[0..j];
      } else {
        PrefixOfCons(es, j + 1);
      }
    }
    NothingMissed(rest[..0]);
  }

  lemma NothingMissed(es: seq<Timed>)
    requires |es| == 0
    ensures Misses(es) == 0 && NoBlockedReading(es)
  {
    assert es == [];
  }

  lemma FewMissesCons(m: int, es: seq<Timed>)
    requires es != [] && 0 <= m < BLOCKED_MISS_THRESHOLD && IsWatched(es[0].event)
    requires NextCount(m, es[0].event) < BLOCKED_MISS_THRESHOLD && FewMisses(NextCount(m, es[0].event), es[1..])
    ensures FewMisses(m, es)
  {
    hide IsWatched, NoBlockedReading, Misses;
    var e, rest, n := es[0].event, es[1..], NextCount(m, es[0].event);
    NothingMissed(es[..0]);
    forall j | 0 <= j <= |es| && NoBlockedReading(es[..j])
      ensures m + Misses(es[..j]) < BLOCKED_MISS_THRESHOLD && Misses(es[0..j]) < BLOCKED_MISS_THRESHOLD
    {
      assert es[0..j] == es[..j];
      if j == 0 {
        assert es[..0] == [];
      } else {
        PrefixOfCons(es, j);
      }
    }
    forall i, j | 0 <= i <= j <= |es| && NoBlockedReading(es[i..j])
      ensures Misses(es[i..j]) < BLOCKED_MISS_THRESHOLD
    {
      if i == 0 {
        assert es[0..j] == es[..j];
      } else {
        SliceOfRest(es, i, j);
      }
    }
  }

  /** A screen-set block survives a run of watched events exactly when no three
      misses fall together without a blocked reading between them. */
  lemma {:induction false} AntiFlickerIff(a: Agent, es: seq<Timed>)
    requires Inv(a) && ScreenBlocked(a)
    requires forall i :: 0 <= i < |es| ==> IsWatched(es[i].event)
    ensures Held(a, es) <==> FewMisses(a.blockedMissCount, es)
    decreases |es|
  {
    hide IsWatched, IsMiss, IsBlockedReading, Step;
    if es == [] {
      NoFewMisses(a.blockedMissCount, es);
    } else {
      var e, at := es[0].event, es[0].at;
      var b := Step(a, e, at);
      WatchedStep(a, e, at);
      StepKeepsInv(a, e, at);
      FewMissesStep(a.blockedMissCount, es);
      hide FewMisses, Inv;
      if NextCount(a.blockedMissCount, e) < BLOCKED_MISS_THRESHOLD {
        AntiFlickerIff(b, es[1..]);
      }
    }
  }

  lemma NoFewMisses(m: int, es: seq<Timed>)
    requires es == [] && 0 <= m < BLOCKED_MISS_THRESHOLD
    ensures FewMisses(m, es)
  {
    assert es[..0] == [] && es[0..0] == [];
  }

  // ---------------------------------------------------------- OSC-set blocks

  predicate OscSet(a: Agent) {
    a.status == Blocked && a.blockedFromOsc
  }

  /** An OSC done signal, a working or done reading of the screen, or a reset. */
  predicate Releases(e: Event) {
    match e
    case Osc(signal) => signal.DoneSignal? || (signal.NotifySignal? && signal.done)
    case Interval(screen) => screen.Scraped? && (screen.status == Some(Working) || screen.status == Some(Done))
    case Reset => true
    case _ => false
  }

  /** A new blocked signal, from whatever source. */
  predicate Renews(e: Event) {
    match e
    case Osc(signal) => signal.BlockedSignal? || (signal.NotifySignal? && !signal.done)
    case OscTitle(cli, title) => cli == Codex && title == ACTION_REQUIRED
    case Interval(screen) => screen.Scraped? && screen.status == Some(Blocked)
    case _ => false
  }

  /** An OSC-set block is left by exactly the releasing events; it keeps its flag
      unless a non-OSC block replaces it, and its message unless any block does. */
  lemma OscBlockStepIff(a: Agent, e: Event, now: Time)
    requires Inv(a) && OscSet(a)
    ensures var b := Step(a, e, now);
            && (b.status == Blocked <==> !Releases(e))
            && (OscSet(b) <==> !Releases(e) && !(Renews(e) && !e.Osc?))
            && (!Releases(e) && !Renews(e) ==> b.blockedMessage == a.blockedMessage)
  {
    if e.Interval? {
      TickKeepsInv(a, now);
      hide Ticked;
    }
  }

  /** Idle and unreadable screens, outputs, BELs, titles and elapsed time never
      clear an OSC-set block, however long the run. */
  lemma {:induction false} OscBlockSurvives(a: Agent, es: seq<Timed>)
    requires Inv(a) && OscSet(a)
    requires forall i :: 0 <= i < |es| ==> !Releases(es[i].event) && !Renews(es[i].event)
    ensures OscSet(Run(a, es)) && Run(a, es).blockedMessage == a.blockedMessage
    decreases |es|
  {
    if es != [] {
      var e, at := es[0].event, es[0].at;
      OscBlockStepIff(a, e, at);
      StepKeepsInv(a, e, at);
      OscBlockSurvives(Step(a, e, at), es[1..]);
    }
  }

  /** The claim that only an OSC signal clears an OSC-set block fails: a spinner on
      the screen does, and it leaves the flag and the message behind. */
  lemma ScreenClearsOscBlock(message: string, now: Time)
    ensures var a := Step(Created(now), Osc(NotifySignal(message, false)), now);
            var b := Step(a, Interval(Scraped(Devin, Some(Working), true, false)), now);
            && OscSet(a)
            && b.status == Working && b.blockedFromOsc && b.blockedMessage == Some(message)
  {}
}
