/** The two file-backed tables of the OAuth proxy (server/cloud-sync.php): the
    per-client sliding-window rate limit and the one-time OAuth states. */
module RateLimit {
  import opened Common

  const WINDOW: int := 60
  const MAX_REQUESTS: nat := 10

  /** The times of `data` that are later than `now - WINDOW`, in order. */
  function Recent(data: seq<int>, now: int): (r: seq<int>)
    ensures |r| <= |data|
    ensures forall t :: t in r <==> t in data && t > now - WINDOW
  {
    if |data| == 0 then []
    else
      var rest := Recent(data[..|data| - 1], now);
      var t := data[|data| - 1];
      if t > now - WINDOW then rest + [t] else rest
  }

  function Stored(file: Option<seq<int>>): seq<int> {
    match file
    case None => []
    case Some(data) => data
  }

  predicate Admits(file: Option<seq<int>>, now: int) {
    |Recent(Stored(file), now)| < MAX_REQUESTS
  }

  /** What the file holds after a request at `now`: a refused request does not write. */
  function Checked(file: Option<seq<int>>, now: int): Option<seq<int>> {
    if Admits(file, now) then Some(Recent(Stored(file), now) + [now]) else file
  }

  /** The file kept for one client address; `None` until the first accepted request. */
  class RateLimiter {
    var file: Option<seq<int>>

    constructor ()
      ensures file == None
    {
      file := None;
    }

    method CheckRateLimit(now: int) returns (ok: bool)
      modifies this
      ensures ok == Admits(old(file), now)
      ensures file == Checked(old(file), now)
    {
      var data := [];
      if file.Some? {
        data := Recent(file.value, now);
      }
      if |data| >= MAX_REQUESTS {
        return false;
      }
      data := data + [now];
      file := Some(data);
      return true;
    }
  }

  /** A client's requests seen from outside: the file, and the times accepted so far. */
  datatype Client = Client(file: Option<seq<int>>, accepted: seq<int>)

  function Serve(c: Client, now: int): Client {
    Client(Checked(c.file, now), if Admits(c.file, now) then c.accepted + [now] else c.accepted)
  }

  /** The client after requests at these times, from no file. */
  function Run(times: seq<int>): Client {
    if |times| == 0 then Client(None, [])
    else Serve(Run(times[..|times| - 1]), times[|times| - 1])
  }

  ghost predicate Sorted(s: seq<int>) {
    forall i, j :: 0 <= i < j < |s| ==> s[i] <= s[j]
  }

  /** The times in the window (end - 60, end]. */
  function InWindow(s: seq<int>, end: int): (r: seq<int>)
    ensures forall t :: t in r <==> t in s && end - 60 < t <= end
  {
    if |s| == 0 then []
    else
      var rest := InWindow(s[..|s| - 1], end);
      var t := s[|s| - 1];
      if end - 60 < t <= end then rest + [t] else rest
  }

  lemma {:induction false} RecentOfAppend(s: seq<int>, t: int, now: int)
    ensures Recent(s + [t], now) == if t > now - WINDOW then Recent(s, now) + [t] else Recent(s, now)
  {
    assert (s + [t])[..|s|] == s;
  }

  lemma {:induction false} WindowOfAppend(s: seq<int>, t: int, end: int)
    ensures InWindow(s + [t], end) == if end - 60 < t <= end then InWindow(s, end) + [t] else InWindow(s, end)
  {
    assert (s + [t])[..|s|] == s;
  }

  /** Pruning early loses nothing a later pruning would keep. */
  lemma {:induction false} RecentOfRecent(s: seq<int>, earlier: int, now: int)
    requires earlier <= now
    ensures Recent(Recent(s, earlier), now) == Recent(s, now)
  {
    if |s| > 0 {
      var front, t := s[..|s| - 1], s[|s| - 1];
      RecentOfRecent(front, earlier, now);
      if t > earlier - WINDOW {
        RecentOfAppend(Recent(front, earlier), t, now);
      }
    }
  }

  ghost predicate UpTo(s: seq<int>, now: int) {
    forall i :: 0 <= i < |s| ==> s[i] <= now
  }

  /** A window that ends no earlier than every element is the recent part. */
  lemma {:induction false} WindowIsRecent(s: seq<int>, now: int)
    requires UpTo(s, now)
    ensures InWindow(s, now) == Recent(s, now)
  {
    if |s| > 0 {
      WindowIsRecent(s[..|s| - 1], now);
    }
  }

  /** A window that ends later sees no more of the past. */
  lemma {:induction false} WindowShrinks(s: seq<int>, now: int, end: int)
    requires now <= end
    ensures |InWindow(s, end)| <= |Recent(s, now)|
  {
    if |s| > 0 {
      WindowShrinks(s[..|s| - 1], now, end);
    }
  }

  /** The file is the accepted history, pruned at the last acceptance. */
  ghost predicate Tracks(c: Client, now: int) {
    && UpTo(c.accepted, now)
    && (if |c.accepted| == 0 then c.file == None
        else
          var last := c.accepted[|c.accepted| - 1];
          c.file == Some(Recent(c.accepted, last)))
  }

  lemma StoredIsEnough(c: Client, now: int)
    requires Tracks(c, now)
    ensures Recent(Stored(c.file), now) == Recent(c.accepted, now)
  {
    if |c.accepted| > 0 {
      var last := c.accepted[|c.accepted| - 1];
      RecentOfRecent(c.accepted, last, now);
    }
  }

  lemma ServeKeepsTracks(c: Client, now: int)
    requires Tracks(c, now)
    ensures Tracks(Serve(c, now), now)
  {
    StoredIsEnough(c, now);
    RecentOfAppend(c.accepted, now, now);
  }

  lemma TracksLater(c: Client, now: int, later: int)
    requires Tracks(c, now) && now <= later
    ensures Tracks(c, later)
  {
  }

  lemma {:induction false} RunTracks(times: seq<int>, now: int)
    requires Sorted(times)
    requires |times| > 0 ==> times[|times| - 1] <= now
    ensures Tracks(Run(times), now)
  {
    if |times| > 0 {
      var front, last := times[..|times| - 1], times[|times| - 1];
      RunTracks(front, last);
      ServeKeepsTracks(Run(front), last);
      TracksLater(Run(times), last, now);
    }
  }

  /** A request is refused exactly when ten were accepted in the 60 seconds before
      it, however long ago the file was last pruned. */
  lemma RefusedIff(times: seq<int>, now: int)
    requires Sorted(times + [now])
    ensures !Admits(Run(times).file, now) <==> |InWindow(Run(times).accepted, now)| >= 10
  {
    SortedFront(times, now);
    RunTracks(times, now);
    StoredIsEnough(Run(times), now);
    WindowIsRecent(Run(times).accepted, now);
  }

  lemma SortedFront(times: seq<int>, now: int)
    requires Sorted(times + [now])
    ensures Sorted(times)
    ensures |times| > 0 ==> times[|times| - 1] <= now
  {
    var all := times + [now];
    forall i, j | 0 <= i < j < |times| ensures times[i] <= times[j] {
      assert all[i] == times[i] && all[j] == times[j];
    }
    if |times| > 0 {
      assert all[|times| - 1] == times[|times| - 1] && all[|times|] == now;
    }
  }

  /** Over a whole run, every window of 60 seconds, wherever it ends, holds at most
      ten accepted requests. */
  lemma {:induction false} EveryWindowIsBounded(times: seq<int>, end: int)
    requires Sorted(times)
    ensures |InWindow(Run(times).accepted, end)| <= 10
  {
    if |times| > 0 {
      var front, now := times[..|times| - 1], times[|times| - 1];
      assert front + [now] == times;
      SortedFront(front, now);
      EveryWindowIsBounded(front, end);
      var c := Run(front);
      if Admits(c.file, now) {
        RunTracks(front, now);
        StoredIsEnough(c, now);
        WindowOfAppend(c.accepted, now, end);
        if now <= end {
          WindowShrinks(c.accepted, now, end);
        }
      }
    }
  }

  /** A client with no more than ten requests in any window of 60 seconds is never
      refused. */
  lemma {:induction false} ModestClientIsNeverRefused(times: seq<int>)
    requires Sorted(times)
    requires forall end: int :: |InWindow(times, end)| <= 10
    ensures Run(times).accepted == times
  {
    if |times| > 0 {
      var front, now := times[..|times| - 1], times[|times| - 1];
      assert front + [now] == times;
      SortedFront(front, now);
      forall end: int ensures |InWindow(front, end)| <= 10 {
        WindowOfAppend(front, now, end);
        assert |InWindow(times, end)| <= 10;
      }
      ModestClientIsNeverRefused(front);
      RefusedIff(front, now);
      WindowOfAppend(front, now, now);
      assert |InWindow(times, now)| <= 10;
    }
  }

  // ------------------------------------------------------------ one-time states

  const MAX_AGE: int := 600

  datatype ExchangeResult = Valid | Missing | Unknown

  type StateTable = map<string, int>

  /** The table after issuing `state`: older entries are dropped, but only here. */
  function Issued(states: StateTable, state: string, now: int): StateTable {
    var added := states[state := now];
    Unpruned(added, {}, now)
  }

  /** The entries that are young enough, or still to be looked at. */
  function Unpruned(states: StateTable, rest: set<string>, now: int): StateTable {
    map s | s in states && (s in rest || now - states[s] <= MAX_AGE) :: states[s]
  }

  lemma UnprunedStep(states: StateTable, rest: set<string>, s: string, now: int)
    requires s in rest && rest <= states.Keys
    ensures Unpruned(states, rest - {s}, now) ==
            if now - states[s] > MAX_AGE then Unpruned(states, rest, now) - {s} else Unpruned(states, rest, now)
  {
  }

  /** PHP treats "" and "0" as false. */
  predicate Falsy(state: string) { state == "" || state == "0" }

  function ExchangeOf(states: StateTable, state: string): ExchangeResult {
    if Falsy(state) then Missing else if state in states then Valid else Unknown
  }

  /** The shared states file, absent until the first issue. */
  class OAuthStates {
    var file: Option<StateTable>

    function States(): StateTable
      reads this
    {
      match file
      case None => map[]
      case Some(states) => states
    }

    constructor ()
      ensures States() == map[]
    {
      file := None;
    }

    method Issue(state: string, now: int)
      modifies this
      ensures States() == Issued(old(States()), state, now)
    {
      var states := map[];
      if file.Some? {
        states := file.value;
      }
      states := states[state := now];
      // Every entry is visited once; the old ones are unset.
      var all := states;
      var rest := all.Keys;
      while rest != {}
        invariant rest <= all.Keys
        invariant states == Unpruned(all, rest, now)
        decreases |rest|
      {
        var s :| s in rest;
        UnprunedStep(all, rest, s, now);
        rest := rest - {s};
        if now - all[s] > MAX_AGE {
          states := states - {s};
        }
      }
      file := Some(states);
    }

    method Exchange(state: string) returns (result: ExchangeResult)
      modifies this
      ensures result == ExchangeOf(old(States()), state)
      ensures States() == if result == Valid then old(States()) - {state} else old(States())
    {
      if state == "" || state == "0" {
        return Missing;
      }
      var states := map[];
      if file.Some? {
        states := file.value;
      }
      if state !in states {
        return Unknown;
      }
      states := states - {state};
      file := Some(states);
      return Valid;
    }
  }

  datatype Call = Issue(state: string, now: int) | Exchange(state: string)

  function StatesAfter(calls: seq<Call>): StateTable {
    if |calls| == 0 then map[]
    else
      var states := StatesAfter(calls[..|calls| - 1]);
      match calls[|calls| - 1]
      case Issue(state, now) => Issued(states, state, now)
      case Exchange(state) => if ExchangeOf(states, state) == Valid then states - {state} else states
  }

  /** A later call that leaves a state issued at `t` usable: it neither reissues nor
      exchanges that state, and it is not an issue more than 600 seconds later. */
  predicate Spares(c: Call, state: string, t: int) {
    match c
    case Issue(other, now) => other != state && now - t <= 600
    case Exchange(other) => other != state
  }

  ghost predicate UsableSince(calls: seq<Call>, i: nat, state: string, t: int)
    requires i < |calls|
  {
    calls[i] == Issue(state, t) && forall j :: i < j < |calls| ==> Spares(calls[j], state, t)
  }

  ghost predicate Usable(calls: seq<Call>, state: string, t: int) {
    exists i: nat :: i < |calls| && UsableSince(calls, i, state, t)
  }

  lemma UsableOfAppend(calls: seq<Call>, c: Call, state: string, t: int)
    ensures Usable(calls + [c], state, t) <==> c == Issue(state, t) || (Usable(calls, state, t) && Spares(c, state, t))
  {
    var all := calls + [c];
    if c == Issue(state, t) {
      assert UsableSince(all, |calls|, state, t);
    }
    if Usable(calls, state, t) && Spares(c, state, t) {
      var i: nat :| i < |calls| && UsableSince(calls, i, state, t);
      assert UsableSince(all, i, state, t);
    }
    if Usable(all, state, t) && c != Issue(state, t) {
      var i: nat :| i < |all| && UsableSince(all, i, state, t);
      assert all[|calls|] == c;
      assert forall j :: i < j < |calls| ==> calls[j] == all[j];
      assert UsableSince(calls, i, state, t);
    }
  }

  /** The table holds exactly the usable states, with the time of their issue. */
  lemma {:induction false} TableIsUsable(calls: seq<Call>, state: string, t: int)
    requires !Falsy(state)
    ensures (state in StatesAfter(calls) && StatesAfter(calls)[state] == t) <==> Usable(calls, state, t)
  {
    if |calls| > 0 {
      var front, c := calls[..|calls| - 1], calls[|calls| - 1];
      assert front + [c] == calls;
      TableIsUsable(front, state, t);
      UsableOfAppend(front, c, state, t);
    }
  }

  /** An exchange is accepted exactly when its state was issued and, since then,
      neither reissued nor exchanged, and nothing was issued more than 600 seconds
      later. The exchange itself looks at no clock. */
  lemma ExchangeAcceptedIff(calls: seq<Call>, state: string)
    requires !Falsy(state)
    ensures ExchangeOf(StatesAfter(calls), state) == Valid <==> exists t :: Usable(calls, state, t)
  {
    var states := StatesAfter(calls);
    if state in states {
      TableIsUsable(calls, state, states[state]);
    }
    if t :| Usable(calls, state, t) {
      TableIsUsable(calls, state, t);
    }
  }

  /** An exchange without a state, or with one that PHP takes for false, is told so; an
      accepted state is gone at once, and nothing else is. */
  lemma ExchangeIs(calls: seq<Call>, state: string)
    ensures
      var states := StatesAfter(calls);
      var result := ExchangeOf(states, state);
      && (result == Missing <==> state == "" || state == "0")
      && (result == Unknown <==> state != "" && state != "0" && state !in states)
      && StatesAfter(calls + [Exchange(state)]) == if result == Valid then states - {state} else states
  {
    assert (calls + [Exchange(state)])[..|calls|] == calls;
  }

  /** One-time use: between two accepted exchanges of a state it was issued again. */
  lemma AcceptedOncePerIssue(calls: seq<Call>, i: nat, j: nat, state: string)
    requires i < j < |calls| && calls[i] == Exchange(state) && calls[j] == Exchange(state)
    requires !Falsy(state)
    requires ExchangeOf(StatesAfter(calls[..j]), state) == Valid
    ensures exists k :: i < k < j && calls[k].Issue? && calls[k].state == state
  {
    var before := calls[..j];
    ExchangeAcceptedIff(before, state);
    var t :| Usable(before, state, t);
    var k: nat :| k < |before| && UsableSince(before, k, state, t);
    assert before[i] == Exchange(state);
    assert calls[k] == Issue(state, t);
    assert k != i;
  }
}
