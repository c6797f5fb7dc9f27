/**
 * The hand-off between the dispatcher's main loop, its worker threads and the threads that
 * add and remove sockets. Every step that one thread takes without the others noticing is
 * one transition. Each registration owns one token: it lies in wantRead, with the main
 * loop, in a queued task or with a worker, and is never duplicated.
 */
module SocketDispatching {

  type Socket = nat
  type Worker = nat

  /** The identity of a SocketInfo object; re-adding a socket makes a new one. */
  type Registration = nat

  datatype Info = Info(hasTimeout: bool, wantRead: bool)

  datatype Kind = Readable | Exception | Timeout

  datatype Task = Task(kind: Kind, socket: Socket, reg: Registration)

  datatype Command = Add(socket: Socket, hasTimeout: bool) | Remove(socket: Socket) | Reset

  /** What poll reports for a socket. */
  datatype Events = Events(read: bool, error: bool)

  /** Where the main loop is. */
  datatype Main =
    | Sweeping(todo: set<Socket>)
    | Expired(todo: set<Socket>, socket: Socket)           // timed out, wantRead not cleared yet
    | TimedOut(todo: set<Socket>, socket: Socket)          // wantRead cleared, task not queued yet
    | Dispatching(ready: map<Socket, Events>)
    | Hit(ready: map<Socket, Events>, socket: Socket, events: Events)       // wantRead seen
    | Cleared(ready: map<Socket, Events>, socket: Socket, events: Events)   // wantRead cleared
    | Erring(ready: map<Socket, Events>, socket: Socket)   // an exception task is still to be queued
    | Executing

  datatype State = State(
    infos: seq<Info>,
    socketMap: map<Socket, Registration>,
    commands: seq<Command>,
    tasks: seq<Task>,
    running: map<Worker, Task>,
    main: Main)

  datatype Step =
    | Submit(command: Command)
    | Visit(socket: Socket, elapsed: bool)
    | ClearExpired
    | QueueTimeout
    | Poll(ready: map<Socket, Events>)
    | PollFails
    | Look(socket: Socket)
    | ClearHit
    | QueueReadable
    | QueueException
    | EndDispatch
    | Execute
    | ExecuteFails
    | EndCommands
    | Take(worker: Worker)
    | Finish(worker: Worker, initialized: bool)

  const INITIAL := State([], map[], [], [], map[], Sweeping({}))

  predicate Enabled(s: State, step: Step) {
    match step
    case Submit(_) => true
    case Visit(socket, _) => s.main.Sweeping? && socket in s.main.todo
    case ClearExpired => s.main.Expired?
    case QueueTimeout => s.main.TimedOut?
    case Poll(_) => s.main == Sweeping({})
    case PollFails => s.main.Sweeping?
    case Look(socket) => s.main.Dispatching? && socket in s.main.ready
    case ClearHit => s.main.Hit?
    case QueueReadable => s.main.Cleared?
    case QueueException => s.main.Erring?
    case EndDispatch => s.main == Dispatching(map[])
    case Execute => s.main.Executing? && s.commands != []
    case ExecuteFails => s.main.Executing? && s.commands != []
    case EndCommands => s.main.Executing? && s.commands == []
    case Take(worker) => worker !in s.running && s.tasks != []
    case Finish(worker, _) => worker in s.running
  }

  predicate Sane(s: State) {
    Indexed(s) && MainInMap(s)
  }

  predicate Indexed(s: State) {
    && (forall k :: k in s.socketMap ==> s.socketMap[k] < |s.infos|)
    && (forall k :: 0 <= k < |s.tasks| ==> s.tasks[k].reg < |s.infos|)
    && (forall w :: w in s.running ==> s.running[w].reg < |s.infos|)
  }

  /** What the main loop works on is in the map, which nobody else changes. */
  predicate MainInMap(s: State) {
    match s.main
    case Sweeping(todo) => todo <= s.socketMap.Keys
    case Expired(todo, socket) => todo <= s.socketMap.Keys && socket in s.socketMap
    case TimedOut(todo, socket) => todo <= s.socketMap.Keys && socket in s.socketMap
    case Hit(_, socket, _) => socket in s.socketMap
    case Cleared(_, socket, _) => socket in s.socketMap
    case Erring(_, socket) => socket in s.socketMap
    case _ => true
  }

  function SetWantRead(s: State, reg: Registration, wantRead: bool): State
    requires reg < |s.infos|
  {
    s.(infos := s.infos[reg := s.infos[reg].(wantRead := wantRead)])
  }

  function Queue(s: State, kind: Kind, socket: Socket): State
    requires socket in s.socketMap
  {
    s.(tasks := s.tasks + [Task(kind, socket, s.socketMap[socket])])
  }

  function Run(s: State, command: Command): State {
    match command
    case Add(socket, hasTimeout) =>
      s.(infos := s.infos + [Info(hasTimeout, true)], socketMap := s.socketMap[socket := |s.infos|])
    case Remove(socket) => s.(socketMap := s.socketMap - {socket})
    case Reset => s.(socketMap := map[])
  }

  function Next(s: State, step: Step): State
    requires Sane(s) && Enabled(s, step)
  {
    match step
    case Submit(command) => s.(commands := s.commands + [command])
    case Visit(socket, elapsed) =>
      var info := s.infos[s.socketMap[socket]];
      var rest := s.main.todo - {socket};
      if info.wantRead && info.hasTimeout && elapsed
      then s.(main := Expired(rest, socket))
      else s.(main := Sweeping(rest))
    case ClearExpired =>
      SetWantRead(s, s.socketMap[s.main.socket], false).(main := TimedOut(s.main.todo, s.main.socket))
    case QueueTimeout => Queue(s, Timeout, s.main.socket).(main := Sweeping(s.main.todo))
    case Poll(ready) => s.(main := Dispatching(ready))
    case PollFails => s.(main := Sweeping(s.socketMap.Keys))
    case Look(socket) =>
      var rest := s.main.ready - {socket};
      if socket in s.socketMap && s.infos[s.socketMap[socket]].wantRead
      then s.(main := Hit(rest, socket, s.main.ready[socket]))
      else s.(main := Dispatching(rest))
    case ClearHit =>
      SetWantRead(s, s.socketMap[s.main.socket], false).(main := Cleared(s.main.ready, s.main.socket, s.main.events))
    case QueueReadable =>
      var after := if s.main.events.error then Erring(s.main.ready, s.main.socket) else Dispatching(s.main.ready);
      (if s.main.events.read then Queue(s, Readable, s.main.socket) else s).(main := after)
    case QueueException => Queue(s, Exception, s.main.socket).(main := Dispatching(s.main.ready))
    case EndDispatch => s.(main := Executing)
    case Execute => Run(s.(commands := s.commands[1..]), s.commands[0])
    case ExecuteFails =>
      // the poll set or the shutdown of a closed socket has thrown, after the change of the map
      var n := Run(s.(commands := s.commands[1..]), s.commands[0]);
      n.(main := Sweeping(n.socketMap.Keys))
    case EndCommands => s.(main := Sweeping(s.socketMap.Keys))
    case Take(worker) => s.(tasks := s.tasks[1..], running := s.running[worker := s.tasks[0]])
    case Finish(worker, initialized) =>
      var task := s.running[worker];
      var done := s.(running := s.running - {worker});
      if task.kind.Exception? then done else SetWantRead(done, task.reg, initialized)
  }

  lemma StaysSane(s: State, step: Step)
    requires Sane(s) && Enabled(s, step)
    ensures Sane(Next(s, step))
  {
    hide Next, Indexed, MainInMap;
    StaysIndexed(s, step);
    MainStaysInMap(s, step);
  }

  lemma StaysIndexed(s: State, step: Step)
    requires Sane(s) && Enabled(s, step)
    ensures Indexed(Next(s, step))
  {
  }

  lemma MainStaysInMap(s: State, step: Step)
    requires Sane(s) && Enabled(s, step)
    ensures MainInMap(Next(s, step))
  {
  }

  // ---- Tokens ----

  /** Handler calls that read or time out; exception calls hold no token. */
  predicate Holds(task: Task, reg: Registration) {
    task.reg == reg && !task.kind.Exception?
  }

  function Queued(tasks: seq<Task>, reg: Registration): nat {
    if tasks == [] then 0 else (if Holds(tasks[0], reg) then 1 else 0) + Queued(tasks[1..], reg)
  }

  function Workers(s: State, reg: Registration): set<Worker> {
    set w | w in s.running && Holds(s.running[w], reg)
  }

  /** The main loop has cleared wantRead and not queued the task yet. */
  predicate InMain(s: State, reg: Registration) {
    && (s.main.TimedOut? || s.main.Cleared?)
    && s.main.socket in s.socketMap
    && s.socketMap[s.main.socket] == reg
  }

  function Tokens(s: State, reg: Registration): nat {
    (if reg < |s.infos| && s.infos[reg].wantRead then 1 else 0)
    + (if InMain(s, reg) then 1 else 0) + Queued(s.tasks, reg) + |Workers(s, reg)|
  }

  /** Each registration has at most one token, and no two sockets share a registration. */
  ghost predicate Inv(s: State) {
    && Sane(s)
    && (forall reg :: Tokens(s, reg) <= 1)
    && (forall a, b :: a in s.socketMap && b in s.socketMap && a != b ==> s.socketMap[a] != s.socketMap[b])
    && ((s.main.Expired? || s.main.Hit?) ==> s.infos[s.socketMap[s.main.socket]].wantRead)
  }

  lemma {:induction false} QueuedAppend(tasks: seq<Task>, task: Task, reg: Registration)
    ensures Queued(tasks + [task], reg) == Queued(tasks, reg) + if Holds(task, reg) then 1 else 0
  {
    if tasks != [] {
      assert (tasks + [task])[1..] == tasks[1..] + [task];
      QueuedAppend(tasks[1..], task, reg);
    }
  }

  lemma {:induction false} QueuedNone(tasks: seq<Task>, reg: Registration)
    requires forall k :: 0 <= k < |tasks| ==> tasks[k].reg != reg
    ensures Queued(tasks, reg) == 0
  {
    if tasks != [] {
      assert tasks[0].reg != reg;
      QueuedNone(tasks[1..], reg);
    }
  }

  /** The ways in which a registration loses its token for good. */
  predicate Drops(s: State, step: Step, reg: Registration)
    requires Sane(s) && Enabled(s, step)
  {
    match step
    case QueueReadable => s.socketMap[s.main.socket] == reg && !s.main.events.read
    case Finish(worker, initialized) => Holds(s.running[worker], reg) && !initialized
    case _ => false
  }

  function Count(b: bool): nat {
    if b then 1 else 0
  }

  lemma WorkersAfter(s: State, step: Step, reg: Registration)
    requires Sane(s) && Enabled(s, step)
    ensures var before, after := |Workers(s, reg)|, |Workers(Next(s, step), reg)|;
      match step
      case Take(_) => after == before + Count(Holds(s.tasks[0], reg))
      case Finish(worker, _) => before == after + Count(Holds(s.running[worker], reg))
      case _ => after == before
  {
    hide Next;
    hide Holds;
    RunningAfter(s, step);
    var n := Next(s, step);
    match step
    case Take(worker) => WorkersTaken(s, n, worker, s.tasks[0], reg);
    case Finish(worker, _) => WorkersTaken(n, s, worker, s.running[worker], reg);
    case _ => assert Workers(n, reg) == Workers(s, reg);
  }

  lemma RunningAfter(s: State, step: Step)
    requires Sane(s) && Enabled(s, step)
    ensures var n := Next(s, step);
      match step
      case Take(worker) => worker !in s.running && n.running == s.running[worker := s.tasks[0]]
      case Finish(worker, _) => worker !in n.running && s.running == n.running[worker := s.running[worker]]
      case _ => n.running == s.running
  {
  }

  lemma WorkersTaken(s: State, n: State, worker: Worker, task: Task, reg: Registration)
    requires worker !in s.running && n.running == s.running[worker := task]
    ensures |Workers(n, reg)| == |Workers(s, reg)| + Count(Holds(task, reg))
  {
    assert Workers(n, reg) == Workers(s, reg) + if Holds(task, reg) then {worker} else {};
  }

  lemma QueuedAfter(s: State, step: Step, reg: Registration)
    requires Sane(s) && Enabled(s, step)
    ensures var before, after := Queued(s.tasks, reg), Queued(Next(s, step).tasks, reg);
      match step
      case Take(_) => before == after + Count(Holds(s.tasks[0], reg))
      case QueueTimeout => after == before + Count(s.socketMap[s.main.socket] == reg)
      case QueueReadable => after == before + Count(s.main.events.read && s.socketMap[s.main.socket] == reg)
      case _ => after == before
  {
    if step.QueueTimeout? || step.QueueReadable? || step.QueueException? {
      var reg' := s.socketMap[s.main.socket];
      QueuedAppend(s.tasks, Task(Timeout, s.main.socket, reg'), reg);
      QueuedAppend(s.tasks, Task(Readable, s.main.socket, reg'), reg);
      QueuedAppend(s.tasks, Task(Exception, s.main.socket, reg'), reg);
    }
  }

  /** A token is only ever moved, or lost in one of two ways; only a new registration gets one. */
  lemma TokensAreConserved(s: State, step: Step, reg: Registration)
    requires Inv(s) && Enabled(s, step)
    requires reg < |s.infos|
    ensures Tokens(Next(s, step), reg) == if Drops(s, step, reg) then 0 else Tokens(s, reg)
  {
    hide Workers;
    hide Queued;
    assert Tokens(s, reg) <= 1;
    WorkersAfter(s, step, reg);
    QueuedAfter(s, step, reg);
  }

  lemma UnusedHasNoToken(s: State, reg: Registration)
    requires Sane(s) && |s.infos| <= reg
    ensures Tokens(s, reg) == 0
  {
    QueuedNone(s.tasks, reg);
    assert Workers(s, reg) == {};
  }

  lemma RegistrationsStay(s: State, step: Step)
    requires Sane(s) && Enabled(s, step)
    ensures |s.infos| <= |Next(s, step).infos|
  {
  }

  /** A registration that has just been made: its token lies in wantRead. */
  lemma NewHasOneToken(s: State, step: Step, reg: Registration)
    requires Sane(s) && Enabled(s, step)
    requires |s.infos| <= reg < |Next(s, step).infos|
    ensures Tokens(Next(s, step), reg) == 1
  {
    var n := Next(s, step);
    QueuedNone(s.tasks, reg);
    assert Workers(n, reg) == {};
  }

  lemma StepKeepsInv(s: State, step: Step)
    requires Inv(s) && Enabled(s, step)
    ensures Inv(Next(s, step))
  {
    var n := Next(s, step);
    StaysSane(s, step);
    forall reg: Registration ensures Tokens(n, reg) <= 1 {
      assert Tokens(s, reg) <= 1;
      if reg < |s.infos| {
        TokensAreConserved(s, step, reg);
      } else if reg < |n.infos| {
        NewHasOneToken(s, step, reg);
      } else {
        UnusedHasNoToken(n, reg);
      }
    }
    WantReadHolds(s, step);
  }

  /** Nobody but the main loop clears wantRead, so what it saw still holds when it clears the flag. */
  lemma WantReadHolds(s: State, step: Step)
    requires Inv(s) && Enabled(s, step)
    ensures var n := Next(s, step);
      (n.main.Expired? || n.main.Hit?) ==> (
        && n.main.socket in n.socketMap
        && n.socketMap[n.main.socket] < |n.infos|
        && n.infos[n.socketMap[n.main.socket]].wantRead)
  {
    if step.Finish? && (s.main.Expired? || s.main.Hit?) {
      var reg := s.socketMap[s.main.socket];
      assert Tokens(s, reg) <= 1;
      WorkersAfter(s, step, reg);
    }
  }

  // ---- Runs ----

  predicate IsPath(states: seq<State>, steps: seq<Step>) {
    && |states| == |steps| + 1
    && forall k :: 0 <= k < |steps| ==>
      Sane(states[k]) && Enabled(states[k], steps[k]) && states[k + 1] == Next(states[k], steps[k])
  }

  predicate IsRun(states: seq<State>, steps: seq<Step>) {
    IsPath(states, steps) && states[0] == INITIAL
  }

  lemma {:induction false} PathKeepsInv(states: seq<State>, steps: seq<Step>, k: nat)
    requires IsPath(states, steps) && Inv(states[0]) && k < |states|
    ensures Inv(states[k])
  {
    hide Inv, Next;
    if k > 0 {
      PathKeepsInv(states, steps, k - 1);
      StepKeepsInv(states[k - 1], steps[k - 1]);
      assert states[k - 1 + 1] == Next(states[k - 1], steps[k - 1]);
    }
  }

  lemma InitialIsGood()
    ensures Inv(INITIAL)
  {
    forall reg: Registration ensures Tokens(INITIAL, reg) <= 1 {
      UnusedHasNoToken(INITIAL, reg);
    }
  }

  /** The invariant holds throughout every run. */
  lemma RunKeepsInv(states: seq<State>, steps: seq<Step>, k: nat)
    requires IsRun(states, steps) && k < |states|
    ensures Inv(states[k])
  {
    hide Inv;
    InitialIsGood();
    PathKeepsInv(states, steps, k);
  }

  /** In every run no two workers are in a readable or timeout call of one registration. */
  lemma CallsNeverOverlap(states: seq<State>, steps: seq<Step>, k: nat, v: Worker, w: Worker)
    requires IsRun(states, steps) && k < |states|
    requires v in states[k].running && w in states[k].running && v != w
    requires states[k].running[v].reg == states[k].running[w].reg
    ensures states[k].running[v].kind.Exception? || states[k].running[w].kind.Exception?
  {
    var s := states[k];
    var reg := s.running[v].reg;
    RunKeepsInv(states, steps, k);
    assert Tokens(s, reg) <= 1;
    if Holds(s.running[v], reg) && Holds(s.running[w], reg) {
      assert {v, w} <= Workers(s, reg);
      SubsetSize({v, w}, Workers(s, reg));
      assert false;
    }
  }

  lemma {:induction false} SubsetSize<T>(a: set<T>, b: set<T>)
    requires a <= b
    ensures |a| <= |b|
  {
    if a != {} {
      var x :| x in a;
      SubsetSize(a - {x}, b - {x});
    }
  }

  /** While a call is queued or under way, the main loop does not take the registration for ready. */
  lemma BusyIsNotReady(states: seq<State>, steps: seq<Step>, k: nat, w: Worker)
    requires IsRun(states, steps) && k < |states|
    requires w in states[k].running && !states[k].running[w].kind.Exception?
    ensures states[k].running[w].reg < |states[k].infos|
    ensures !states[k].infos[states[k].running[w].reg].wantRead
    ensures Queued(states[k].tasks, states[k].running[w].reg) == 0
  {
    var s := states[k];
    var reg := s.running[w].reg;
    RunKeepsInv(states, steps, k);
    assert Tokens(s, reg) <= 1;
    assert w in Workers(s, reg);
  }

  /** A token that is lost is lost for good: the registration is never read again. */
  lemma {:induction false} LostForGood(states: seq<State>, steps: seq<Step>, k: nat, reg: Registration)
    requires IsPath(states, steps) && Inv(states[0]) && k < |states|
    requires reg < |states[0].infos| && Tokens(states[0], reg) == 0
    ensures reg < |states[k].infos| && Tokens(states[k], reg) == 0
  {
    hide Tokens, Inv, Next;
    if k > 0 {
      LostForGood(states, steps, k - 1, reg);
      PathKeepsInv(states, steps, k - 1);
      assert states[k - 1 + 1] == Next(states[k - 1], steps[k - 1]);
      RegistrationsStay(states[k - 1], steps[k - 1]);
      TokensAreConserved(states[k - 1], steps[k - 1], reg);
    }
  }

  /** There is a way to go on from s after which a readable or timeout task is queued for the registration. */
  ghost predicate CanBeHandedOut(s: State, reg: Registration) {
    exists states, steps :: LeadsToTask(states, steps, s, reg)
  }

  predicate LeadsToTask(states: seq<State>, steps: seq<Step>, s: State, reg: Registration) {
    IsPath(states, steps) && states[0] == s && Queued(states[|steps|].tasks, reg) > 0
  }

  lemma StepFirst(s: State, step: Step, reg: Registration)
    requires Sane(s) && Enabled(s, step) && CanBeHandedOut(Next(s, step), reg)
    ensures CanBeHandedOut(s, reg)
  {
    hide Next, Queued, Sane, Enabled;
    var states, steps :| LeadsToTask(states, steps, Next(s, step), reg);
    var all, allSteps := [s] + states, [step] + steps;
    forall k | 0 <= k < |allSteps|
      ensures Sane(all[k]) && Enabled(all[k], allSteps[k]) && all[k + 1] == Next(all[k], allSteps[k])
    {
      if k > 0 {
        assert all[k] == states[k - 1] && all[k + 1] == states[k - 1 + 1] && allSteps[k] == steps[k - 1];
      }
    }
    assert all[|allSteps|] == states[|steps|];
    assert LeadsToTask(all, allSteps, s, reg);
  }

  lemma AtOnce(s: State, reg: Registration)
    requires Queued(s.tasks, reg) > 0
    ensures CanBeHandedOut(s, reg)
  {
    assert LeadsToTask([s], [], s, reg);
  }

  /** From an empty sweep, a socket that wants to be read and is reported readable is handed out. */
  lemma ReportedIsHandedOut(s: State, socket: Socket)
    requires Sane(s) && s.main == Sweeping({})
    requires socket in s.socketMap && s.infos[s.socketMap[socket]].wantRead
    ensures CanBeHandedOut(s, s.socketMap[socket])
  {
    hide CanBeHandedOut, Queued;
    var reg := s.socketMap[socket];
    var polled := Next(s, Poll(map[socket := Events(true, false)]));
    var hit := Next(polled, Look(socket));
    assert polled == s.(main := Dispatching(map[socket := Events(true, false)]));
    assert hit == s.(main := Hit(hit.main.ready, socket, Events(true, false)));
    var cleared := Next(hit, ClearHit);
    StaysSane(hit, ClearHit);
    QueuedAfter(cleared, QueueReadable, reg);
    AtOnce(Next(cleared, QueueReadable), reg);
    StepFirst(cleared, QueueReadable, reg);
    StepFirst(hit, ClearHit, reg);
    StepFirst(polled, Look(socket), reg);
    StepFirst(s, Poll(map[socket := Events(true, false)]), reg);
  }

  /** The sweep can come to its end without touching anything. */
  lemma {:induction false} SweepFirst(s: State, todo: set<Socket>, reg: Registration)
    requires Sane(s) && s.main == Sweeping(todo)
    requires CanBeHandedOut(s.(main := Sweeping({})), reg)
    ensures CanBeHandedOut(s, reg)
    decreases todo
  {
    hide CanBeHandedOut;
    if todo == {} {
      assert s == s.(main := Sweeping({}));
    } else {
      var socket :| socket in todo;
      var rest := todo - {socket};
      var n := Next(s, Visit(socket, false));
      assert n == s.(main := Sweeping(rest));
      assert n.(main := Sweeping({})) == s.(main := Sweeping({}));
      SweepFirst(n, rest, reg);
      StepFirst(s, Visit(socket, false), reg);
    }
  }

  /** While the main loop sweeps, a registered socket can still be handed to a worker exactly if it has its token. */
  lemma HandedOutIffHasToken(s: State, socket: Socket)
    requires Inv(s) && s.main.Sweeping? && socket in s.socketMap
    ensures CanBeHandedOut(s, s.socketMap[socket]) <==> Tokens(s, s.socketMap[socket]) == 1
  {
    hide CanBeHandedOut;
    var reg := s.socketMap[socket];
    assert Tokens(s, reg) <= 1;
    if Tokens(s, reg) == 0 {
      NeverHandedOut(s, reg);
    } else if Queued(s.tasks, reg) > 0 {
      AtOnce(s, reg);
    } else if s.infos[reg].wantRead {
      ReportedIsHandedOut(s.(main := Sweeping({})), socket);
      SweepFirst(s, s.main.todo, reg);
    } else {
      assert Workers(s, reg) != {};
      var worker :| worker in Workers(s, reg);
      var n := Next(s, Finish(worker, true));
      StaysSane(s, Finish(worker, true));
      ReportedIsHandedOut(n.(main := Sweeping({})), socket);
      SweepFirst(n, n.main.todo, reg);
      StepFirst(s, Finish(worker, true), reg);
    }
  }

  lemma NeverHandedOut(s: State, reg: Registration)
    requires Inv(s) && reg < |s.infos| && Tokens(s, reg) == 0
    ensures !CanBeHandedOut(s, reg)
  {
    hide Inv, IsPath;
    if states, steps :| LeadsToTask(states, steps, s, reg) {
      PathIsLong(states, steps);
      LostForGood(states, steps, |steps|, reg);
    }
  }

  lemma PathIsLong(states: seq<State>, steps: seq<Step>)
    requires IsPath(states, steps)
    ensures |states| == |steps| + 1
  {
  }

  /**
   * A socket that poll reports with an error and nothing to read loses its token: the
   * exception handler runs once, and unless the socket is added again it is not read again.
   */
  lemma ErrorAloneEndsReading(s: State, reg: Registration)
    requires Inv(s) && Enabled(s, QueueReadable)
    requires s.socketMap[s.main.socket] == reg && !s.main.events.read && s.main.events.error
    ensures Tokens(s, reg) == 1
    ensures Tokens(Next(s, QueueReadable), reg) == 0
    ensures Enabled(Next(s, QueueReadable), QueueException)
  {
    assert InMain(s, reg) && Tokens(s, reg) <= 1;
    TokensAreConserved(s, QueueReadable, reg);
  }

  lemma OneMore(states: seq<State>, steps: seq<Step>, step: Step) returns (states': seq<State>, steps': seq<Step>)
    requires IsRun(states, steps) && Sane(states[|steps|]) && Enabled(states[|steps|], step)
    ensures IsRun(states', steps') && states'[|steps'|] == Next(states[|steps|], step) && Sane(states'[|steps'|])
  {
    hide Next, Sane, Enabled;
    StaysSane(states[|steps|], step);
    states', steps' := states + [Next(states[|steps|], step)], steps + [step];
    forall k | 0 <= k < |steps'|
      ensures Sane(states'[k]) && Enabled(states'[k], steps'[k]) && states'[k + 1] == Next(states'[k], steps'[k])
    {
      if k < |steps| {
        assert states'[k] == states[k] && states'[k + 1] == states[k + 1] && steps'[k] == steps[k];
      }
    }
  }

  /** The registration of the one socket that the runs below add. */
  const ONE := map[0 := 0]

  const ERROR_ONLY := Events(false, true)

  lemma OneSocketAdded() returns (states: seq<State>, steps: seq<Step>)
    ensures IsRun(states, steps)
    ensures states[|steps|] == State([Info(false, true)], ONE, [], [], map[], Sweeping({}))
  {
    states, steps := [INITIAL], [];
    states, steps := OneMore(states, steps, Submit(Add(0, false)));
    states, steps := OneMore(states, steps, Poll(map[]));
    states, steps := OneMore(states, steps, EndDispatch);
    states, steps := OneMore(states, steps, Execute);
    assert states[|steps|] == State([Info(false, true)], ONE, [], [], map[], Executing);
    states, steps := OneMore(states, steps, EndCommands);
    assert states[|steps|].main == Sweeping({0});
    states, steps := OneMore(states, steps, Visit(0, false));
  }

  lemma ErrorReported() returns (states: seq<State>, steps: seq<Step>)
    ensures IsRun(states, steps)
    ensures states[|steps|] == State([Info(false, false)], ONE, [], [], map[], Cleared(map[], 0, ERROR_ONLY))
  {
    states, steps := OneSocketAdded();
    states, steps := OneMore(states, steps, Poll(map[0 := ERROR_ONLY]));
    states, steps := OneMore(states, steps, Look(0));
    assert states[|steps|].main == Hit(map[], 0, ERROR_ONLY);
    states, steps := OneMore(states, steps, ClearHit);
  }

  lemma ErrorHandled() returns (states: seq<State>, steps: seq<Step>)
    ensures IsRun(states, steps)
    ensures states[|steps|] == State([Info(false, false)], ONE, [], [], map[], Dispatching(map[]))
  {
    states, steps := ErrorReported();
    states, steps := OneMore(states, steps, QueueReadable);
    states, steps := OneMore(states, steps, QueueException);
    states, steps := OneMore(states, steps, Take(0));
    states, steps := OneMore(states, steps, Finish(0, false));
  }

  /** A run with one error report and nothing removed, after which the socket, still registered, is never read again. */
  lemma ReadingEnds() returns (states: seq<State>, steps: seq<Step>)
    ensures IsRun(states, steps)
    ensures states[|steps|] == State([Info(false, false)], ONE, [], [], map[], Sweeping({0}))
    ensures !CanBeHandedOut(states[|steps|], 0)
  {
    hide CanBeHandedOut, Inv, Tokens;
    states, steps := ErrorHandled();
    states, steps := OneMore(states, steps, EndDispatch);
    states, steps := OneMore(states, steps, EndCommands);
    RunKeepsInv(states, steps, |steps|);
    NothingHeld(states[|steps|], 0);
    NeverHandedOut(states[|steps|], 0);
  }

  lemma NothingHeld(s: State, reg: Registration)
    requires s.tasks == [] && s.running == map[] && s.main.Sweeping? && reg < |s.infos| && !s.infos[reg].wantRead
    ensures Tokens(s, reg) == 0
  {
    assert Workers(s, reg) == {};
  }

  // ---- After removal ----

  predicate Registered(s: State, reg: Registration) {
    exists socket :: socket in s.socketMap && s.socketMap[socket] == reg
  }

  function TasksOf(tasks: seq<Task>, reg: Registration): seq<Task> {
    if tasks == [] then []
    else (if tasks[0].reg == reg then [tasks[0]] else []) + TasksOf(tasks[1..], reg)
  }

  lemma {:induction false} TasksOfAppend(tasks: seq<Task>, task: Task, reg: Registration)
    ensures TasksOf(tasks + [task], reg) == TasksOf(tasks, reg) + if task.reg == reg then [task] else []
  {
    if tasks != [] {
      assert (tasks + [task])[1..] == tasks[1..] + [task];
      TasksOfAppend(tasks[1..], task, reg);
    }
  }

  predicate IsSuffix<T(==)>(a: seq<T>, b: seq<T>) {
    |a| <= |b| && a == b[|b| - |a|..]
  }

  /** A registration that is no longer in the map does not come back, and no task is queued for it. */
  lemma StepAfterRemoval(s: State, step: Step, reg: Registration)
    requires Sane(s) && Enabled(s, step)
    requires reg < |s.infos| && !Registered(s, reg)
    ensures !Registered(Next(s, step), reg)
    ensures IsSuffix(TasksOf(Next(s, step).tasks, reg), TasksOf(s.tasks, reg))
  {
    var n := Next(s, step);
    forall socket | socket in n.socketMap ensures n.socketMap[socket] != reg {
      if socket in s.socketMap {
        assert s.socketMap[socket] != reg;
      }
    }
    match step {
      case QueueTimeout =>
        TasksOfAppend(s.tasks, Task(Timeout, s.main.socket, s.socketMap[s.main.socket]), reg);
      case QueueReadable =>
        TasksOfAppend(s.tasks, Task(Readable, s.main.socket, s.socketMap[s.main.socket]), reg);
      case QueueException =>
        TasksOfAppend(s.tasks, Task(Exception, s.main.socket, s.socketMap[s.main.socket]), reg);
      case _ =>
    }
  }

  /** From its removal on, the tasks queued for a registration are what is left of those queued before. */
  lemma {:induction false} NoNewTaskAfterRemoval(states: seq<State>, steps: seq<Step>, i: nat, j: nat, reg: Registration)
    requires IsRun(states, steps) && i <= j < |states|
    requires reg < |states[i].infos| && !Registered(states[i], reg)
    ensures reg < |states[j].infos| && !Registered(states[j], reg)
    ensures IsSuffix(TasksOf(states[j].tasks, reg), TasksOf(states[i].tasks, reg))
    decreases j
  {
    hide Next;
    hide Registered;
    hide TasksOf;
    if i < j {
      NoNewTaskAfterRemoval(states, steps, i, j - 1, reg);
      assert states[j - 1 + 1] == Next(states[j - 1], steps[j - 1]);
      RegistrationsStay(states[j - 1], steps[j - 1]);
      StepAfterRemoval(states[j - 1], steps[j - 1], reg);
    }
  }

  /** Executing a removal takes the socket's registration out of the map, also when it throws afterwards. */
  lemma RemovalUnregisters(s: State, socket: Socket)
    requires Inv(s) && Enabled(s, Execute) && s.commands[0] in {Remove(socket), Reset}
    requires socket in s.socketMap
    ensures !Registered(Next(s, Execute), s.socketMap[socket])
    ensures !Registered(Next(s, ExecuteFails), s.socketMap[socket])
  {
  }
}
