/** The desktop's tunnel tasks (src-tauri/src/tunnel_manager.rs). The code between two
    awaits is one step; starts and stops come one after the other, while a task may
    exit at any moment, even before its handle has been stored. */
module TunnelTasks {
  import opened Common

  type TaskId = nat

  /** A client runs; has exited and given up its key; has cleaned up; or was aborted. */
  datatype Stage = Running | KeyRemoved | Finished | Aborted

  datatype Task = Task(pairing: string, stage: Stage)

  type Tasks = map<TaskId, Task>

  /** `starting` is the task that start_tunnel has spawned but not stored yet. */
  datatype Manager = Manager(
    tunnels: map<string, TaskId>,
    keys: set<string>,
    tasks: Tasks,
    next: TaskId,
    starting: Option<(string, TaskId)>)

  predicate Live(tasks: Tasks, t: TaskId) {
    t in tasks && (tasks[t].stage == Running || tasks[t].stage == KeyRemoved)
  }

  /** Aborting a task that is over has no effect. */
  function AbortTask(tasks: Tasks, t: TaskId): Tasks {
    if Live(tasks, t) then tasks[t := tasks[t].(stage := Aborted)] else tasks
  }

  function Stopped(m: Manager, id: string): Manager {
    if id in m.tunnels then m.(tunnels := m.tunnels - {id}, tasks := AbortTask(m.tasks, m.tunnels[id])) else m
  }

  /** The first part of start_tunnel: stop, register the key, spawn. */
  function Begun(m: Manager, id: string): Manager {
    var s := Stopped(m, id);
    s.(keys := s.keys + {id}, tasks := s.tasks[s.next := Task(id, Running)], next := s.next + 1,
       starting := Some((id, s.next)))
  }

  /** The second part: store the handle. */
  function Stored(m: Manager): Manager
    requires m.starting.Some? && m.starting.value.1 in m.tasks
  {
    var (id, t) := m.starting.value;
    m.(tunnels := m.tunnels[id := t], starting := None)
  }

  /** The client returns, and its task gives up the key. */
  function Exited(m: Manager, t: TaskId): Manager
    requires t in m.tasks
  {
    m.(keys := m.keys - {m.tasks[t].pairing}, tasks := m.tasks[t := m.tasks[t].(stage := KeyRemoved)])
  }

  /** The task gets the lock and removes whatever handle its pairing has. */
  function CleanedUp(m: Manager, t: TaskId): Manager
    requires t in m.tasks
  {
    m.(tunnels := m.tunnels - {m.tasks[t].pairing}, tasks := m.tasks[t := m.tasks[t].(stage := Finished)])
  }

  /** Every task with a handle is aborted. */
  function AllAborted(tasks: Tasks, tunnels: map<string, TaskId>): Tasks {
    map t | t in tasks :: if t in tunnels.Values && Live(tasks, t) then tasks[t].(stage := Aborted) else tasks[t]
  }

  function AllStopped(m: Manager): Manager {
    m.(tunnels := map[], tasks := AllAborted(m.tasks, m.tunnels))
  }

  /** The manager with the state its tasks share. */
  class DesktopTunnelManager {
    var tunnels: map<string, TaskId>
    var keys: set<string>
    var tasks: Tasks
    var next: TaskId
    var starting: Option<(string, TaskId)>

    function State(): Manager
      reads this
    {
      Manager(tunnels, keys, tasks, next, starting)
    }

    constructor ()
      ensures State() == Manager(map[], {}, map[], 0, None)
    {
      tunnels, keys, tasks, next, starting := map[], {}, map[], 0, None;
    }

    method Abort(t: TaskId)
      modifies this`tasks
      ensures tasks == AbortTask(old(tasks), t)
    {
      if t in tasks && (tasks[t].stage == Running || tasks[t].stage == KeyRemoved) {
        tasks := tasks[t := tasks[t].(stage := Aborted)];
      }
    }

    method StopTunnel(id: string)
      modifies this
      ensures State() == Stopped(old(State()), id)
    {
      if id in tunnels {
        var handle := tunnels[id];
        tunnels := tunnels - {id};
        Abort(handle);
      }
    }

    method BeginStart(id: string)
      modifies this
      ensures State() == Begun(old(State()), id)
    {
      StopTunnel(id);
      keys := keys + {id};
      tasks := tasks[next := Task(id, Running)];
      starting := Some((id, next));
      next := next + 1;
    }

    method FinishStart()
      requires starting.Some? && starting.value.1 in tasks
      modifies this
      ensures State() == Stored(old(State()))
    {
      var (id, handle) := starting.value;
      tunnels := tunnels[id := handle];
      starting := None;
    }

    method ClientReturns(t: TaskId)
      requires t in tasks && tasks[t].stage == Running
      modifies this
      ensures State() == Exited(old(State()), t)
    {
      keys := keys - {tasks[t].pairing};
      tasks := tasks[t := tasks[t].(stage := KeyRemoved)];
    }

    method CleanUp(t: TaskId)
      requires t in tasks && tasks[t].stage == KeyRemoved
      modifies this
      ensures State() == CleanedUp(old(State()), t)
    {
      tunnels := tunnels - {tasks[t].pairing};
      tasks := tasks[t := tasks[t].(stage := Finished)];
    }

    method StopAll()
      modifies this
      ensures State() == AllStopped(old(State()))
    {
      var drained := tunnels;
      tunnels := map[];
      ghost var done: set<string> := {};
      var ids := drained.Keys;
      assert tasks == AllAborted(old(tasks), map[]);
      while ids != {}
        invariant ids !! done && ids + done == drained.Keys
        invariant tasks == AllAborted(old(tasks), map p | p in done :: drained[p])
        invariant tunnels == map[] && keys == old(keys) && next == old(next)
        invariant starting == old(starting)
        decreases |ids|
      {
        var id :| id in ids;
        AbortOneMore(old(tasks), drained, done, id);
        Abort(drained[id]);
        ids := ids - {id};
        done := done + {id};
      }
      assert (map p | p in done :: drained[p]) == drained;
    }
  }

  lemma AbortOneMore(tasks: Tasks, drained: map<string, TaskId>, done: set<string>, id: string)
    requires done <= drained.Keys && id in drained
    ensures AbortTask(AllAborted(tasks, map p | p in done :: drained[p]), drained[id])
            == AllAborted(tasks, map p | p in done + {id} :: drained[p])
  {
    var before := map p | p in done :: drained[p];
    var after := map p | p in done + {id} :: drained[p];
    assert forall t :: t in after.Values <==> t in before.Values || t == drained[id] by {
      assert after[id] == drained[id];
      assert forall p :: p in before ==> p in after && after[p] == before[p];
      assert forall p :: p in after ==> p == id || (p in before && before[p] == after[p]);
    }
  }

  // ---------------------------------------------------------------------------- runs

  datatype Event =
    | BeginStart(id: string)
    | FinishStart
    | Stop(id: string)
    | StopAll
    | ClientReturns(t: TaskId)
    | CleanUp(t: TaskId)

  /** Starts and stops wait for a start in progress; a task acts in its own stage. */
  predicate Enabled(m: Manager, e: Event) {
    match e
    case BeginStart(_) | Stop(_) | StopAll => m.starting.None?
    case FinishStart => m.starting.Some? && m.starting.value.1 in m.tasks
    case ClientReturns(t) => t in m.tasks && m.tasks[t].stage == Running
    case CleanUp(t) => t in m.tasks && m.tasks[t].stage == KeyRemoved
  }

  function Step(m: Manager, e: Event): Manager
    requires Enabled(m, e)
  {
    match e
    case BeginStart(id) => Begun(m, id)
    case FinishStart => Stored(m)
    case Stop(id) => Stopped(m, id)
    case StopAll => AllStopped(m)
    case ClientReturns(t) => Exited(m, t)
    case CleanUp(t) => CleanedUp(m, t)
  }

  const START: Manager := Manager(map[], {}, map[], 0, None)

  /** Every event of the run is enabled in its turn. */
  ghost predicate Possible(es: seq<Event>)
    decreases |es|, 0
  {
    |es| > 0 ==> Possible(es[..|es| - 1]) && Enabled(Run(es[..|es| - 1]), es[|es| - 1])
  }

  ghost function Run(es: seq<Event>): Manager
    requires Possible(es)
    decreases |es|, 1
  {
    if |es| == 0 then START else Step(Run(es[..|es| - 1]), es[|es| - 1])
  }

  /** Handles lead to tasks of their own pairing. */
  ghost predicate HandlesOk(m: Manager) {
    && (forall t :: t in m.tasks ==> t < m.next)
    && (forall id :: id in m.tunnels ==> m.tunnels[id] in m.tasks && m.tasks[m.tunnels[id]].pairing == id)
  }

  ghost predicate StartingOk(m: Manager) {
    m.starting.Some? ==>
      var (id, t) := m.starting.value;
      id !in m.tunnels && t in m.tasks && m.tasks[t].pairing == id && m.tasks[t].stage != Aborted
  }

  /** A live task is the one its pairing's handle leads to, or the one being started. */
  ghost predicate LiveOk(m: Manager) {
    forall t :: Live(m.tasks, t) ==>
      var id := m.tasks[t].pairing;
      (id in m.tunnels && m.tunnels[id] == t) || m.starting == Some((id, t))
  }

  ghost predicate KeysOk(m: Manager) {
    forall t :: t in m.tasks && m.tasks[t].stage == Running ==> m.tasks[t].pairing in m.keys
  }

  ghost predicate Inv(m: Manager) {
    HandlesOk(m) && StartingOk(m) && LiveOk(m) && KeysOk(m)
  }

  lemma StoppedKeepsInv(m: Manager, id: string)
    requires Inv(m) && m.starting.None?
    ensures Inv(Stopped(m, id)) && Stopped(m, id).starting.None? && id !in Stopped(m, id).tunnels
  {
  }

  lemma BegunKeepsInv(m: Manager, id: string)
    requires Inv(m) && m.starting.None?
    ensures Inv(Begun(m, id))
  {
    StoppedKeepsInv(m, id);
    hide Stopped;
  }

  lemma StoredKeepsInv(m: Manager)
    requires Inv(m) && Enabled(m, FinishStart)
    ensures Inv(Stored(m))
  {
  }

  lemma AllStoppedKeepsInv(m: Manager)
    requires Inv(m) && m.starting.None?
    ensures Inv(AllStopped(m))
    ensures forall t :: !Live(AllStopped(m).tasks, t)
  {
    forall t | t in m.tasks && Live(m.tasks, t) ensures t in m.tunnels.Values {
      assert m.tunnels[m.tasks[t].pairing] == t;
    }
  }

  lemma ExitedKeepsInv(m: Manager, t: TaskId)
    requires Inv(m) && Enabled(m, ClientReturns(t))
    ensures Inv(Exited(m, t))
  {
  }

  lemma CleanedUpKeepsInv(m: Manager, t: TaskId)
    requires Inv(m) && Enabled(m, CleanUp(t))
    ensures Inv(CleanedUp(m, t))
  {
  }

  lemma StepKeepsInv(m: Manager, e: Event)
    requires Inv(m) && Enabled(m, e)
    ensures Inv(Step(m, e))
  {
    hide Inv, Stopped, Begun, Stored, Exited, CleanedUp, AllStopped;
    match e
    case BeginStart(id) => BegunKeepsInv(m, id);
    case FinishStart => StoredKeepsInv(m);
    case Stop(id) => StoppedKeepsInv(m, id);
    case StopAll => AllStoppedKeepsInv(m);
    case ClientReturns(t) => ExitedKeepsInv(m, t);
    case CleanUp(t) => CleanedUpKeepsInv(m, t);
  }

  lemma {:induction false} RunKeepsInv(es: seq<Event>)
    requires Possible(es)
    ensures Inv(Run(es))
    decreases |es|
  {
    if |es| > 0 {
      RunKeepsInv(es[..|es| - 1]);
      hide Inv, Step, Enabled;
      StepKeepsInv(Run(es[..|es| - 1]), es[|es| - 1]);
    }
  }

  /** Whenever no start is in progress, each pairing has at most one live task, the one
      its handle leads to, and a running client's key is registered. */
  lemma OneLiveTaskPerPairing(es: seq<Event>, t: TaskId, u: TaskId)
    requires Possible(es) && Run(es).starting.None?
    requires Live(Run(es).tasks, t)
    ensures
      var m := Run(es);
      var id := m.tasks[t].pairing;
      && id in m.tunnels && m.tunnels[id] == t
      && (m.tasks[t].stage == Running ==> id in m.keys)
      && (Live(m.tasks, u) && m.tasks[u].pairing == id ==> u == t)
  {
    RunKeepsInv(es);
    hide Run;
  }

  /** A task that cleans up never takes away the handle of another task. */
  lemma CleanUpTakesOwnHandle(es: seq<Event>, t: TaskId)
    requires Possible(es) && Enabled(Run(es), CleanUp(t))
    ensures
      var m := Run(es);
      var id := m.tasks[t].pairing;
      id in m.tunnels ==> m.tunnels[id] == t
  {
    RunKeepsInv(es);
    hide Run;
  }

  /** After a stop the pairing has no live task; after stop_all no pairing has. */
  lemma StopsLeaveNothingLive(es: seq<Event>, id: string, t: TaskId)
    requires Possible(es) && Run(es).starting.None?
    ensures
      var stopped := Stopped(Run(es), id);
      Live(stopped.tasks, t) ==> stopped.tasks[t].pairing != id
    ensures !Live(AllStopped(Run(es)).tasks, t)
  {
    RunKeepsInv(es);
    StoppedKeepsInv(Run(es), id);
    AllStoppedKeepsInv(Run(es));
    hide Run, Stopped, AllStopped;
  }

  // ------------------------------------------------------------- what a step changes

  /** The pairing that an event other than stop_all is about. */
  predicate IsAbout(m: Manager, e: Event, id: string) {
    match e
    case BeginStart(other) => other == id
    case Stop(other) => other == id
    case FinishStart => m.starting.Some? && m.starting.value.0 == id
    case ClientReturns(t) => t in m.tasks && m.tasks[t].pairing == id
    case CleanUp(t) => t in m.tasks && m.tasks[t].pairing == id
    case StopAll => true
  }

  /** The two states agree about a pairing: its handle, its key and its tasks. */
  ghost predicate SameFor(m: Manager, m': Manager, id: string) {
    && (id in m.tunnels <==> id in m'.tunnels)
    && (id in m.tunnels ==> m.tunnels[id] == m'.tunnels[id])
    && (id in m.keys <==> id in m'.keys)
    && (forall t :: t in m.tasks && m.tasks[t].pairing == id ==> t in m'.tasks && m'.tasks[t] == m.tasks[t])
    && (forall t :: t in m'.tasks && m'.tasks[t].pairing == id ==> t in m.tasks && m.tasks[t].pairing == id)
  }

  /** No event but stop_all touches a pairing that it is not about: several phones can be
      paired at once. */
  lemma OtherPairingsAreUntouched(m: Manager, e: Event, id: string)
    requires Inv(m) && Enabled(m, e) && !IsAbout(m, e, id)
    ensures SameFor(m, Step(m, e), id)
  {
  }

  /** What an event does to its own pairing. */
  lemma OwnPairingIs(m: Manager, e: Event)
    requires Inv(m) && Enabled(m, e)
    ensures
      var m' := Step(m, e);
      match e
      case BeginStart(id) =>
        && id !in m'.tunnels && id in m'.keys && m'.starting == Some((id, m.next)) && m'.next == m.next + 1
        && m.next in m'.tasks && m'.tasks[m.next] == Task(id, Running)
        && (id in m.tunnels && Live(m.tasks, m.tunnels[id]) ==> m'.tasks[m.tunnels[id]].stage == Aborted)
      case FinishStart =>
        && m'.starting == None && m'.tasks == m.tasks && m'.keys == m.keys
        && m'.tunnels == m.tunnels[m.starting.value.0 := m.starting.value.1]
      case Stop(id) =>
        && m'.tunnels == m.tunnels - {id} && m'.keys == m.keys && m'.starting == None
        && (id in m.tunnels && Live(m.tasks, m.tunnels[id]) ==> m'.tasks[m.tunnels[id]].stage == Aborted)
      case StopAll =>
        && m'.tunnels == map[] && m'.keys == m.keys && m'.tasks.Keys == m.tasks.Keys
        && (forall t :: t in m.tasks ==>
              m'.tasks[t] == if Live(m.tasks, t) then Task(m.tasks[t].pairing, Aborted) else m.tasks[t])
      case ClientReturns(t) =>
        && m'.tunnels == m.tunnels && m'.keys == m.keys - {m.tasks[t].pairing}
        && m'.tasks == m.tasks[t := Task(m.tasks[t].pairing, KeyRemoved)]
      case CleanUp(t) =>
        && m'.tunnels == m.tunnels - {m.tasks[t].pairing} && m'.keys == m.keys
        && m'.tasks == m.tasks[t := Task(m.tasks[t].pairing, Finished)]
  {
    match e
    case StopAll =>
      forall t | Live(m.tasks, t) ensures t in m.tunnels.Values {
        assert m.tunnels[m.tasks[t].pairing] == t;
      }
    case _ =>
  }

  /** A completed start leaves the pairing with a running task, its handle and its key. */
  lemma StartedRuns(m: Manager, id: string)
    requires Inv(m) && m.starting.None?
    ensures
      var begun := Step(m, BeginStart(id));
      && Enabled(begun, FinishStart)
      && (var m' := Step(begun, FinishStart);
          && id in m'.tunnels && m'.tunnels[id] in m'.tasks && m'.tasks[m'.tunnels[id]] == Task(id, Running)
          && id in m'.keys && m'.starting.None?)
  {
    OwnPairingIs(m, BeginStart(id));
    BegunKeepsInv(m, id);
    hide Begun;
    OwnPairingIs(Begun(m, id), FinishStart);
  }

  /** No event of the continuation is about the pairing. */
  ghost predicate Spares(es: seq<Event>, more: seq<Event>, id: string)
    decreases |more|
  {
    |more| > 0 ==>
      var front, e := more[..|more| - 1], more[|more| - 1];
      Spares(es, front, id) && Possible(es + front) && Enabled(Run(es + front), e) && !IsAbout(Run(es + front), e, id)
  }

  /** Over every continuation, a pairing stays as it is, its tasks live or not, until an
      event of its own or a stop_all. */
  lemma {:induction false} PairingLasts(es: seq<Event>, more: seq<Event>, id: string)
    requires Possible(es) && Spares(es, more, id)
    ensures Possible(es + more)
    ensures SameFor(Run(es), Run(es + more), id)
    ensures forall t :: Live(Run(es).tasks, t) && Run(es).tasks[t].pairing == id ==> Live(Run(es + more).tasks, t)
    decreases |more|
  {
    if |more| == 0 {
      assert es + more == es;
    } else {
      var front, e := more[..|more| - 1], more[|more| - 1];
      PairingLasts(es, front, id);
      assert (es + more)[..|es + more| - 1] == es + front;
      RunKeepsInv(es + front);
      OtherPairingsAreUntouched(Run(es + front), e, id);
      hide Step, Enabled, Inv, IsAbout;
      SameForIsTransitive(Run(es), Run(es + front), Step(Run(es + front), e), id);
    }
  }

  lemma SameForIsTransitive(a: Manager, b: Manager, c: Manager, id: string)
    requires SameFor(a, b, id) && SameFor(b, c, id)
    ensures SameFor(a, c, id)
  {
  }

  // ----------------------------------------------------------- handles of dead tasks

  /** The event finishes the start of task `t`. */
  predicate Stores(m: Manager, e: Event, t: TaskId) {
    e == FinishStart && m.starting.Some? && m.starting.value.1 == t
  }

  ghost predicate StoredAt(es: seq<Event>, t: TaskId, i: nat, j: nat)
    requires Possible(es)
  {
    i < j < |es| && es[i] == CleanUp(t) && Possible(es[..j]) && Stores(Run(es[..j]), es[j], t)
  }

  /** The task cleaned up before its own start was finished. */
  ghost predicate CleanedUpBeforeStored(es: seq<Event>, t: TaskId)
    requires Possible(es)
  {
    exists i: nat, j: nat :: StoredAt(es, t, i, j)
  }

  lemma LaterEvent(es: seq<Event>, t: TaskId)
    requires |es| > 0 && Possible(es)
    ensures
      var front, e := es[..|es| - 1], es[|es| - 1];
      CleanedUpBeforeStored(es, t) <==> CleanedUpBeforeStored(front, t) || (Stores(Run(front), e, t) && CleanUp(t) in front)
  {
    hide Run, Stores, Enabled;
    var n := |es| - 1;
    var front, e := es[..n], es[n];
    if CleanedUpBeforeStored(front, t) {
      var i: nat, j: nat :| StoredAt(front, t, i, j);
      assert es[..j] == front[..j];
      assert StoredAt(es, t, i, j);
    }
    if Stores(Run(front), e, t) && CleanUp(t) in front {
      var i: nat :| i < n && front[i] == CleanUp(t);
      assert StoredAt(es, t, i, n);
    }
    if CleanedUpBeforeStored(es, t) {
      var i: nat, j: nat :| StoredAt(es, t, i, j);
      assert front[i] == CleanUp(t);
      if j < n {
        assert es[..j] == front[..j];
        assert StoredAt(front, t, i, j);
      }
    }
  }

  /** A task has finished exactly when its clean-up is among the events. */
  ghost predicate FinishedOk(m: Manager, es: seq<Event>) {
    forall t :: CleanUp(t) in es <==> t in m.tasks && m.tasks[t].stage == Finished
  }

  lemma {:induction false} FinishedIff(es: seq<Event>)
    requires Possible(es)
    ensures FinishedOk(Run(es), es)
    decreases |es|
  {
    if |es| > 0 {
      var front, e := es[..|es| - 1], es[|es| - 1];
      assert es == front + [e];
      FinishedIff(front);
      RunKeepsInv(front);
      FinishedStep(Run(front), front, e);
    }
  }

  lemma FinishedStep(m: Manager, es: seq<Event>, e: Event)
    requires Inv(m) && Enabled(m, e) && FinishedOk(m, es)
    ensures FinishedOk(Step(m, e), es + [e])
  {
  }

  /** A step keeps a handle and whether its task is live, or stores the handle. */
  lemma HandleStep(m: Manager, e: Event, id: string)
    requires Inv(m) && Enabled(m, e) && id in Step(m, e).tunnels
    ensures
      var m' := Step(m, e);
      var t := m'.tunnels[id];
      if Stores(m, e, t) then Live(m'.tasks, t) <==> m.tasks[t].stage != Finished
      else id in m.tunnels && m.tunnels[id] == t && (Live(m'.tasks, t) <==> Live(m.tasks, t))
  {
  }

  lemma CleanedUpIsAnEvent(es: seq<Event>, t: TaskId)
    requires Possible(es) && CleanedUpBeforeStored(es, t)
    ensures CleanUp(t) in es
  {
    var i: nat, j: nat :| StoredAt(es, t, i, j);
  }

  /** A pairing that is_tunnel_active reports has a live task exactly unless that task
      cleaned up before its own start was finished. */
  lemma {:induction false} ActiveIff(es: seq<Event>, id: string)
    requires Possible(es) && id in Run(es).tunnels
    ensures Live(Run(es).tasks, Run(es).tunnels[id]) <==> !CleanedUpBeforeStored(es, Run(es).tunnels[id])
    decreases |es|
  {
    if |es| > 0 {
      var front, e := es[..|es| - 1], es[|es| - 1];
      var m := Run(front);
      var t := Run(es).tunnels[id];
      RunKeepsInv(front);
      FinishedIff(front);
      HandleStep(m, e, id);
      LaterEvent(es, t);
      if !Stores(m, e, t) {
        ActiveIff(front, id);
      } else {
        if CleanedUpBeforeStored(front, t) {
          CleanedUpIsAnEvent(front, t);
        }
      }
    }
  }

  /** A client that exits at once leaves a handle to a finished task behind. */
  lemma DeadHandleExample()
    ensures
      var es := [BeginStart("a"), ClientReturns(0), CleanUp(0), FinishStart];
      && Possible(es)
      && (var m := Run(es); "a" in m.tunnels && !Live(m.tasks, m.tunnels["a"]))
  {
    var e0: seq<Event> := [];
    var e1 := [BeginStart("a")];
    var e2 := e1 + [ClientReturns(0)];
    var e3 := e2 + [CleanUp(0)];
    var e4 := e3 + [FinishStart];
    assert e1[..0] == e0 && e2[..1] == e1 && e3[..2] == e2 && e4[..3] == e3;
    assert Run(e0) == START;
    assert Possible(e1) && Run(e1) == Begun(START, "a");
    assert Possible(e2) && Run(e2) == Exited(Run(e1), 0);
    assert Possible(e3) && Run(e3) == CleanedUp(Run(e2), 0);
    assert Possible(e4) && Run(e4) == Stored(Run(e3));
    assert e4 == [BeginStart("a"), ClientReturns(0), CleanUp(0), FinishStart];
  }
}
