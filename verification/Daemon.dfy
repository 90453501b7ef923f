/**
 * The daemon as a whole: connections that attach or create, session tasks around their actors, their shells,
 * and the idle watcher, interleaved in any order. A task ends in three steps: its table entry goes under the
 * lock, the notification follows, and then the session is dropped, which ends the shell.
 */
module Daemon {
  import opened Bytes
  import opened Registry
  import opened ActorCommands
  import opened Actor
  import opened ActorTheorems

  /**
   * A session task. It is `Leaving` once its loop has ended or its open has failed, and `Gone` once it has
   * dropped its session.
   */
  datatype Phase = Opening | Running | Leaving | Notifying | Dropping | Gone {
    predicate InTable() {
      Opening? || Running? || Leaving?
    }

    function Rank(): nat {
      match this
      case Opening => 0
      case Running => 1
      case Leaving => 2
      case Notifying => 3
      case Dropping => 4
      case Gone => 5
    }
  }

  /** The shell's process. The actor gave up waiting for an `Unreaped` one, which may still run. */
  datatype Shell = NotSpawned | Alive | Unreaped | Ended {
    predicate MayRun() {
      Alive? || Unreaped?
    }

    /** SIGKILL to its group, and a wait for it. */
    function Killed(): Shell {
      if NotSpawned? then NotSpawned else Ended
    }
  }

  datatype Task = Task(id: Id, phase: Phase, actor: Option<State>, shell: Shell)

  /**
   * Where the idle watcher stands. The first loop waits for the first session; `Sleep` is the grace period.
   * A `Wait` state has checked and will now ask for a notification; a parked one has asked and found none.
   * Behind its return, or a signal, the daemon goes `Down`.
   */
  datatype Watcher =
    | FirstCheck | FirstWait | FirstParked | FirstWoken
    | Check | Sleep | Recheck | Wait | Parked | Woken
    | Returned | Down
  {
    predicate InFirstLoop() {
      FirstCheck? || FirstWait? || FirstParked? || FirstWoken?
    }
  }

  datatype Daemon = Daemon(tasks: seq<Task>, sessions: map<Id, nat>, permit: bool, watcher: Watcher)

  datatype Setup = Setup(maxSessions: nat, actors: Config)

  const STARTED := Daemon([], map[], false, FirstCheck)

  /** `gaveUp` says that a turn that records the shell's end did so without having seen it end. */
  datatype Action =
    | AttachOrCreate(id: Id)
    | ShellOpened(t: nat, size: (u16, u16))
    | OpenFailed(t: nat)
    | FdFailed(t: nat, size: (u16, u16))
    | ActorTurn(t: nat, e: Event, gaveUp: bool)
    | RemoveEntry(t: nat)
    | NotifyRemoved(t: nat)
    | DropSession(t: nat)
    | ShellDies(t: nat)
    | WatcherTurn
    | Shutdown(signalled: bool)

  /** Wakes a parked watcher, or leaves the one permit for the next one to ask. */
  function NotifyOne(d: Daemon): Daemon {
    match d.watcher
    case FirstParked => d.(watcher := FirstWoken)
    case Parked => d.(watcher := Woken)
    case _ => d.(permit := true)
  }

  predicate Empty(d: Daemon) {
    NoSessions(d.sessions)
  }

  function WatcherStep(d: Daemon): Daemon {
    match d.watcher
    case FirstCheck => d.(watcher := if Empty(d) then FirstWait else Check)
    case FirstWait => if d.permit then d.(permit := false, watcher := FirstCheck) else d.(watcher := FirstParked)
    case FirstParked => d
    case FirstWoken => d.(watcher := FirstCheck)
    case Check => d.(watcher := if Empty(d) then Sleep else Wait)
    case Sleep => d.(watcher := Recheck)
    case Recheck => d.(watcher := if Empty(d) then Returned else Wait)
    case Wait => if d.permit then d.(permit := false, watcher := Check) else d.(watcher := Parked)
    case Parked => d
    case Woken => d.(watcher := Check)
    case Returned => d
    case Down => d
  }

  function WithTask(d: Daemon, t: nat, task: Task): Daemon
    requires t < |d.tasks|
  {
    d.(tasks := d.tasks[t := task])
  }

  /** The registered handle owns a sender, so the command channel cannot close while the entry is there. */
  predicate SenderRegistered(d: Daemon, t: nat)
    requires t < |d.tasks|
  {
    d.tasks[t].id in d.sessions && d.sessions[d.tasks[t].id] == t
  }

  function Create(u: Setup, d: Daemon, id: Id): Daemon {
    var handle := |d.tasks|;
    if BindIn(d.sessions, u.maxSessions, id, handle).Created? then
      NotifyOne(d.(
        sessions := TableAfter(d.sessions, u.maxSessions, id, handle),
        tasks := d.tasks + [Task(id, Opening, None, NotSpawned)]))
    else d
  }

  /** The shell behind a turn: a recorded end is one that was seen, unless the actor gave up waiting for it. */
  function ShellAfter(shell: Shell, before: Lifecycle, after: Lifecycle, gaveUp: bool): Shell {
    if before.Dead? || after.Live? then shell
    else if !gaveUp then Ended
    else if shell.Alive? then Unreaped
    else shell
  }

  function TaskTurn(u: Setup, d: Daemon, t: nat, e: Event, gaveUp: bool): Daemon
    requires t < |d.tasks|
  {
    var task := d.tasks[t];
    if task.phase.Running? && task.actor.Some? && InRange(task.actor.value)
      && !(e.SendersGone? && SenderRegistered(d, t)) then
      var next := Step(u.actors, task.actor.value, e);
      WithTask(d, t, task.(
        phase := if next.left.Some? then Leaving else Running,
        actor := Some(next),
        shell := ShellAfter(task.shell, task.actor.value.life, next.life, gaveUp)))
    else d
  }

  /** The runtime goes, and with it every task and session that is left. */
  function Stopped(task: Task): Task {
    task.(phase := Gone, shell := task.shell.Killed())
  }

  function ShutDown(d: Daemon): Daemon {
    Daemon(seq(|d.tasks|, t requires 0 <= t < |d.tasks| => Stopped(d.tasks[t])), map[], d.permit, Down)
  }

  /** What a task does in one of its phases; `task` is what becomes of it. */
  function TaskStep(d: Daemon, t: nat, phase: Phase, task: Task -> Task): Daemon {
    if t < |d.tasks| && d.tasks[t].phase == phase then WithTask(d, t, task(d.tasks[t])) else d
  }

  function Started(size: (u16, u16), task: Task): Task {
    task.(phase := Running, actor := Some(Opened(size)), shell := Alive)
  }

  /** Spawned, but its descriptor cannot be watched. */
  function Unwatched(size: (u16, u16), task: Task): Task {
    task.(phase := Leaving, actor := Some(Opened(size).(left := Some(IoFailed))), shell := Alive)
  }

  function Dropped(task: Task): Task {
    task.(phase := Gone, shell := task.shell.Killed())
  }

  function Died(task: Task): Task {
    task.(shell := task.shell.Killed())
  }

  /** One action; one that is not possible now does nothing. */
  function Next(u: Setup, d: Daemon, a: Action): Daemon {
    if d.watcher.Down? then d
    else
      match a
      case AttachOrCreate(id) => Create(u, d, id)
      case WatcherTurn => WatcherStep(d)
      case ShellOpened(t, size) => TaskStep(d, t, Opening, (task: Task) => Started(size, task))
      case OpenFailed(t) => TaskStep(d, t, Opening, (task: Task) => task.(phase := Leaving))
      case FdFailed(t, size) => TaskStep(d, t, Opening, (task: Task) => Unwatched(size, task))
      case ActorTurn(t, e, gaveUp) =>
        if t < |d.tasks| then TaskTurn(u, d, t, e, gaveUp) else d
      case RemoveEntry(t) =>
        if t < |d.tasks| && d.tasks[t].phase.Leaving? then Removed(d, t) else d
      case NotifyRemoved(t) =>
        if t < |d.tasks| && d.tasks[t].phase.Notifying? then
          NotifyOne(WithTask(d, t, d.tasks[t].(phase := Dropping)))
        else d
      case DropSession(t) => TaskStep(d, t, Dropping, Dropped)
      case ShellDies(t) => if t < |d.tasks| then WithTask(d, t, Died(d.tasks[t])) else d
      case Shutdown(signalled) => if signalled || d.watcher.Returned? then ShutDown(d) else d
  }

  function Removed(d: Daemon, t: nat): Daemon
    requires t < |d.tasks|
  {
    WithTask(d, t, d.tasks[t].(phase := Notifying)).(sessions := TableWithout(d.sessions, d.tasks[t].id))
  }

  function Exec(u: Setup, actions: seq<Action>): Daemon {
    if actions == [] then STARTED else Next(u, Exec(u, Init(actions)), Last(actions))
  }

  // ---------------------------------------------------- one actor per id

  /** The table's keys are exactly the ids of the tasks that have not removed themselves, one task an id. */
  ghost predicate TableIsTasks(tasks: seq<Task>, sessions: map<Id, nat>) {
    && (forall id :: id in sessions ==>
          sessions[id] < |tasks| && tasks[sessions[id]].id == id && tasks[sessions[id]].phase.InTable())
    && (forall t :: 0 <= t < |tasks| && tasks[t].phase.InTable() ==>
          tasks[t].id in sessions && sessions[tasks[t].id] == t)
  }

  ghost predicate WithinCap(u: Setup, d: Daemon) {
    |d.sessions| <= u.maxSessions
  }

  // ---------------------------------------------------- keep until dead

  /** What holds of a task, its actor and its shell in every phase. */
  ghost predicate SoundTask(task: Task) {
    && (task.phase.Opening? ==> task.actor.None?)
    && (task.actor.None? ==> task.shell.NotSpawned?)
    && (task.phase.Running? ==> task.actor.Some? && task.actor.value.left.None?)
    && (task.phase.Gone? ==> !task.shell.MayRun())
    && (task.actor.Some? ==>
          && InRange(task.actor.value)
          && Escalation(task.actor.value) && LeftWhenDead(task.actor.value)
          && task.actor.value.left != Some(ChannelGone)
          && (task.actor.value.life.Dead? ==> !task.shell.Alive?)
          && (!task.phase.Running? && !task.phase.Gone? ==> task.actor.value.left.Some?))
  }

  ghost predicate AllSound(tasks: seq<Task>) {
    forall t :: 0 <= t < |tasks| ==> SoundTask(tasks[t])
  }

  /** An I/O failure ended the actor over its shell. */
  predicate CutLoose(task: Task) {
    task.actor.Some? && task.actor.value.left == Some(IoFailed)
  }

  // --------------------------------------------------- no lost wake-up

  ghost predicate NotifierPending(tasks: seq<Task>) {
    exists t :: 0 <= t < |tasks| && tasks[t].phase.Notifying?
  }

  /**
   * No change is slept through. In the second loop that is an empty table: a permit waits, or a remover has
   * yet to notify. In the first it is a session: the watcher is not parked, and a permit waits for it.
   */
  ghost predicate NoLostWakeUp(d: Daemon) {
    && (d.watcher.FirstParked? ==> Empty(d))
    && (d.watcher.FirstWait? && !Empty(d) ==> d.permit)
    && (Empty(d) && d.watcher.Wait? ==> d.permit || NotifierPending(d.tasks))
    && (Empty(d) && d.watcher.Parked? ==> NotifierPending(d.tasks))
  }

  ghost predicate Sound(u: Setup, d: Daemon) {
    TableIsTasks(d.tasks, d.sessions) && WithinCap(u, d) && AllSound(d.tasks) && NoLostWakeUp(d)
  }

  // ------------------------------------------------------ preservation

  lemma NotifyKeeps(u: Setup, d: Daemon)
    requires TableIsTasks(d.tasks, d.sessions) && WithinCap(u, d) && AllSound(d.tasks)
    ensures Sound(u, NotifyOne(d))
  {
    hide TableIsTasks, AllSound, NotifierPending;
  }

  lemma WatcherKeeps(u: Setup, d: Daemon)
    requires Sound(u, d)
    ensures Sound(u, WatcherStep(d))
  {
    hide TableIsTasks, AllSound, NotifierPending;
  }

  lemma CreateKeeps(u: Setup, d: Daemon, id: Id)
    requires Sound(u, d)
    ensures Sound(u, Create(u, d, id))
  {
    hide Escalation, LeftWhenDead;
    var handle := |d.tasks|;
    if BindIn(d.sessions, u.maxSessions, id, handle).Created? {
      var e := d.(sessions := d.sessions[id := handle], tasks := d.tasks + [Task(id, Opening, None, NotSpawned)]);
      assert |e.sessions| == |d.sessions| + 1;
      NotifyKeeps(u, e);
    }
  }

  /** Changing one task, neither into the table nor out of it, leaves the rest alone. */
  lemma TaskChangeKeeps(u: Setup, d: Daemon, t: nat, task: Task)
    requires Sound(u, d) && t < |d.tasks|
    requires task.id == d.tasks[t].id && d.tasks[t].phase.InTable() == task.phase.InTable()
    requires d.tasks[t].phase.Notifying? ==> task.phase.Notifying?
    requires SoundTask(task)
    ensures Sound(u, WithTask(d, t, task))
  {
    hide SoundTask;
    var e := WithTask(d, t, task);
    if NotifierPending(d.tasks) {
      var n :| 0 <= n < |d.tasks| && d.tasks[n].phase.Notifying?;
      assert e.tasks[n].phase.Notifying?;
    }
  }

  lemma TurnKeeps(u: Setup, d: Daemon, t: nat, e: Event, gaveUp: bool)
    requires Sound(u, d) && t < |d.tasks|
    ensures Sound(u, TaskTurn(u, d, t, e, gaveUp))
  {
    var task := d.tasks[t];
    assert SoundTask(task);
    if TaskTurn(u, d, t, e, gaveUp) != d {
      hide Escalation, LeftWhenDead, Step;
      var s := task.actor.value;
      StepEscalates(u.actors, s, e);
      ReasonsHaveCauses(u.actors, s, e);
      TaskChangeKeeps(u, d, t, TaskTurn(u, d, t, e, gaveUp).tasks[t]);
    }
  }

  lemma CommandReasons(c: Config, s: State, cmd: SessionCommand, busy: bool, now: nat)
    requires InRange(s) && s.left.None?
    ensures var left := OnCommand(c, s, cmd, busy, now).left;
            left == None || left == Some(ClosedWhenDead) || left == Some(AttachedWhenDead)
  {
    hide Effective, Marked, Handshake, OfferAll;
  }

  lemma ReadableReasons(c: Config, s: State, bytes: seq<byte>, exit: Option<int>, busy: bool, now: nat)
    requires InRange(s) && s.left.None?
    ensures var left := OnReadable(c, s, bytes, exit, busy, now).left; left == None || left == Some(ReapedAfterClose)
  {
    hide Forward, Report, DataFrames, PushOrDrop;
    var t := Forward(Absorb(s, bytes, exit), DataFrames(bytes));
    ForwardTouchesQueues(Absorb(s, bytes, exit), DataFrames(bytes));
    ReportTouchesStatus(c, t, busy);
    if exit.Some? {
      PushTouchesQueues(Report(c, t, busy), ExitFrame(exit.value));
    }
  }

  /** Only the closing of the command channel, and only a failed read, make an actor leave for that reason. */
  lemma ReasonsHaveCauses(c: Config, s: State, e: Event)
    requires InRange(s) && s.left.None?
    ensures !e.SendersGone? ==> Step(c, s, e).left != Some(ChannelGone)
    ensures !e.ReadFailed? ==> Step(c, s, e).left != Some(IoFailed)
  {
    hide OnCommand, OnReadable, PushStatus, Marked;
    match e {
      case Commanded(cmd, busy, now) => CommandReasons(c, s, cmd, busy, now);
      case Readable(bytes, exit, busy, now) => ReadableReasons(c, s, bytes, exit, busy, now);
      case PollTick(busy) => PollTouchesStatus(c, s.(pollRunning := busy));
      case _ =>
    }
  }

  lemma RemoveKeeps(u: Setup, d: Daemon, t: nat)
    requires Sound(u, d) && t < |d.tasks| && d.tasks[t].phase.Leaving?
    ensures Sound(u, Removed(d, t))
  {
    hide SoundTask, AllSound, NoLostWakeUp, NotifierPending, TableWithout;
    assert d.tasks[t].id in d.sessions && !Empty(d);
    hide TableIsTasks;
    RemovalKeepsTable(d, t);
    RemovalShrinks(d.sessions, d.tasks[t].id);
    LeavingKeepsAllSound(d, t, Notifying);
    RemoverIsPending(Removed(d, t), t);
    RemoverWillNotify(d, Removed(d, t));
  }

  lemma RemoverIsPending(e: Daemon, t: nat)
    requires t < |e.tasks| && e.tasks[t].phase.Notifying?
    ensures NotifierPending(e.tasks)
  {
  }

  /** Behind a removal no wake-up is lost: the remover has yet to notify. */
  lemma RemoverWillNotify(d: Daemon, e: Daemon)
    requires NoLostWakeUp(d) && !Empty(d)
    requires e.watcher == d.watcher && e.permit == d.permit && NotifierPending(e.tasks)
    ensures NoLostWakeUp(e)
  {
  }

  lemma LeavingKeepsAllSound(d: Daemon, t: nat, phase: Phase)
    requires AllSound(d.tasks) && t < |d.tasks| && (d.tasks[t].phase.Leaving? || d.tasks[t].phase.Notifying?)
    requires phase.Notifying? || phase.Dropping?
    ensures AllSound(WithTask(d, t, d.tasks[t].(phase := phase)).tasks)
  {
    hide SoundTask;
    LeavingStaysSound(d.tasks[t], phase);
  }

  /** A removal by id takes its session task's own entry, and no other's. */
  lemma RemovalKeepsTable(d: Daemon, t: nat)
    requires TableIsTasks(d.tasks, d.sessions) && t < |d.tasks| && d.tasks[t].phase.InTable()
    ensures TableIsTasks(Removed(d, t).tasks, Removed(d, t).sessions)
  {
    var e := Removed(d, t);
    forall id | id in e.sessions
      ensures e.sessions[id] < |e.tasks| && e.tasks[e.sessions[id]].id == id && e.tasks[e.sessions[id]].phase.InTable()
    {
      assert id in d.sessions && d.sessions[id] != t;
    }
  }

  lemma LeavingStaysSound(task: Task, phase: Phase)
    requires SoundTask(task) && (task.phase.Leaving? || task.phase.Notifying?)
    requires phase.Notifying? || phase.Dropping?
    ensures SoundTask(task.(phase := phase))
  {
  }

  lemma NotifyRemovedKeeps(u: Setup, d: Daemon, t: nat)
    requires Sound(u, d) && t < |d.tasks| && d.tasks[t].phase.Notifying?
    ensures Sound(u, NotifyOne(WithTask(d, t, d.tasks[t].(phase := Dropping))))
  {
    hide SoundTask;
    LeavingKeepsAllSound(d, t, Dropping);
    NotifyKeeps(u, WithTask(d, t, d.tasks[t].(phase := Dropping)));
  }

  lemma OpeningKeeps(u: Setup, d: Daemon, t: nat, size: (u16, u16))
    requires Sound(u, d) && t < |d.tasks| && d.tasks[t].phase.Opening?
    ensures Sound(u, WithTask(d, t, Started(size, d.tasks[t])))
    ensures Sound(u, WithTask(d, t, d.tasks[t].(phase := Leaving)))
    ensures Sound(u, WithTask(d, t, Unwatched(size, d.tasks[t])))
  {
    OpenedEscalates(size);
    assert SoundTask(d.tasks[t]);
    TaskChangeKeeps(u, d, t, Started(size, d.tasks[t]));
    TaskChangeKeeps(u, d, t, d.tasks[t].(phase := Leaving));
    TaskChangeKeeps(u, d, t, Unwatched(size, d.tasks[t]));
  }

  lemma ShellKeeps(u: Setup, d: Daemon, t: nat)
    requires Sound(u, d) && t < |d.tasks|
    ensures Sound(u, WithTask(d, t, Died(d.tasks[t])))
    ensures d.tasks[t].phase.Dropping? ==> Sound(u, WithTask(d, t, Dropped(d.tasks[t])))
  {
    hide Escalation, LeftWhenDead;
    assert SoundTask(d.tasks[t]);
    TaskChangeKeeps(u, d, t, Died(d.tasks[t]));
    if d.tasks[t].phase.Dropping? {
      TaskChangeKeeps(u, d, t, Dropped(d.tasks[t]));
    }
  }

  lemma ShutDownKeeps(u: Setup, d: Daemon)
    requires Sound(u, d)
    ensures Sound(u, ShutDown(d))
  {
    hide Escalation, LeftWhenDead;
    var e := ShutDown(d);
    forall t | 0 <= t < |e.tasks|
      ensures SoundTask(e.tasks[t])
    {
      assert SoundTask(d.tasks[t]);
    }
  }

  lemma NextKeeps(u: Setup, d: Daemon, a: Action)
    requires Sound(u, d)
    ensures Sound(u, Next(u, d, a))
  {
    hide Sound, Create, WatcherStep, TaskTurn, WithTask, Removed, ShutDown;
    match a {
      case AttachOrCreate(id) => CreateKeeps(u, d, id);
      case WatcherTurn => WatcherKeeps(u, d);
      case ShellOpened(t, size) => if t < |d.tasks| && d.tasks[t].phase.Opening? { OpeningKeeps(u, d, t, size); }
      case OpenFailed(t) => if t < |d.tasks| && d.tasks[t].phase.Opening? { OpeningKeeps(u, d, t, (0, 0)); }
      case FdFailed(t, size) => if t < |d.tasks| && d.tasks[t].phase.Opening? { OpeningKeeps(u, d, t, size); }
      case ActorTurn(t, e, gaveUp) => if t < |d.tasks| { TurnKeeps(u, d, t, e, gaveUp); }
      case RemoveEntry(t) => if t < |d.tasks| && d.tasks[t].phase.Leaving? { RemoveKeeps(u, d, t); }
      case NotifyRemoved(t) => if t < |d.tasks| && d.tasks[t].phase.Notifying? { NotifyRemovedKeeps(u, d, t); }
      case DropSession(t) => if t < |d.tasks| { ShellKeeps(u, d, t); }
      case ShellDies(t) => if t < |d.tasks| { ShellKeeps(u, d, t); }
      case Shutdown(_) => ShutDownKeeps(u, d);
    }
  }

  /**
   * In every interleaving: the table is exactly the tasks not yet removed, one an id and within the cap;
   * every actor that has left did so over a dead shell or an I/O error; and no wake-up is lost.
   */
  lemma {:induction false} DaemonIsSound(u: Setup, actions: seq<Action>)
    ensures Sound(u, Exec(u, actions))
  {
    hide Sound, Next;
    if actions == [] {
      StartedIsSound(u);
    } else {
      DaemonIsSound(u, Init(actions));
      NextKeeps(u, Exec(u, Init(actions)), Last(actions));
    }
  }

  lemma StartedIsSound(u: Setup)
    ensures Sound(u, STARTED)
  {
  }

  // ------------------------------------------------------ consequences

  /** Whoever has dropped its session has no shell any more. */
  lemma {:induction false} DropsEndShells(u: Setup, actions: seq<Action>, t: nat)
    ensures var d := Exec(u, actions);
            t < |d.tasks| && d.tasks[t].phase.Gone? ==> !d.tasks[t].shell.MayRun()
  {
    hide Exec;
    DaemonIsSound(u, actions);
    if t < |Exec(u, actions).tasks| {
      assert SoundTask(Exec(u, actions).tasks[t]);
    }
  }

  /**
   * When the idle watcher returns, no session task is left in the table. A shell that may still run belongs to a
   * task that has yet to drop its session, behind an I/O failure or a wait that it gave up; so none may run once
   * all tasks have dropped theirs, and none at all in a run without such a failure.
   */
  lemma {:induction false} ReturnsWithoutRunningShells(u: Setup, actions: seq<Action>, a: Action)
    requires !Exec(u, actions).watcher.Returned? && Next(u, Exec(u, actions), a).watcher.Returned?
    ensures var d := Exec(u, actions);
            && (forall t :: 0 <= t < |d.tasks| ==> !d.tasks[t].phase.InTable())
            && (forall t :: 0 <= t < |d.tasks| && d.tasks[t].shell.MayRun() ==>
                  && (d.tasks[t].phase.Notifying? || d.tasks[t].phase.Dropping?)
                  && (CutLoose(d.tasks[t]) || d.tasks[t].shell.Unreaped?))
            && (AllGone(d) ==> NoneMayRun(d))
            && ((forall b :: b in actions ==> !Fails(b)) ==> NoneMayRun(d))
  {
    hide Escalation, Step, Next;
    var d := Exec(u, actions);
    DaemonIsSound(u, actions);
    OnlyWatcherReturns(u, d, a);
    assert Empty(d);
    forall t | 0 <= t < |d.tasks|
      ensures !d.tasks[t].phase.InTable()
      ensures d.tasks[t].shell.MayRun() ==>
                && (d.tasks[t].phase.Notifying? || d.tasks[t].phase.Dropping?)
                && (CutLoose(d.tasks[t]) || d.tasks[t].shell.Unreaped?)
    {
      assert SoundTask(d.tasks[t]);
    }
    if forall b :: b in actions ==> !Fails(b) {
      NothingFails(u, actions);
    }
  }

  ghost predicate NoneMayRun(d: Daemon) {
    forall t :: 0 <= t < |d.tasks| ==> !d.tasks[t].shell.MayRun()
  }

  /** And behind the return, or a signal, the end of the runtime ends all that is left. */
  lemma ShutdownEndsAllShells(u: Setup, d: Daemon, signalled: bool)
    requires !d.watcher.Down?
    ensures var e := Next(u, d, Shutdown(signalled));
            && (e.watcher.Down? <==> signalled || d.watcher.Returned?)
            && (e.watcher.Down? ==> NoneMayRun(e) && AllGone(e))
  {
  }

  /** A task that is leaving takes itself there: three steps of its own, whatever others do meanwhile. */
  lemma OwnStepsEndShell(u: Setup, d: Daemon, t: nat)
    requires t < |d.tasks| && !d.watcher.Down?
    requires d.tasks[t].phase.Leaving? || d.tasks[t].phase.Notifying? || d.tasks[t].phase.Dropping?
    ensures var e := Next(u, Next(u, Next(u, d, RemoveEntry(t)), NotifyRemoved(t)), DropSession(t));
            t < |e.tasks| && e.tasks[t].phase.Gone? && !e.tasks[t].shell.MayRun()
  {
  }

  /** Returning takes two looks at an empty table, one on each side of the grace period, and nothing in between. */
  lemma OnlyWatcherReturns(u: Setup, d: Daemon, a: Action)
    ensures Next(u, d, a).watcher.Returned? <==>
            (d.watcher.Returned? && !a.Shutdown?) || (a.WatcherTurn? && d.watcher.Recheck? && Empty(d))
    ensures Next(u, d, a).watcher.Sleep? <==>
            || (d.watcher.Sleep? && !a.WatcherTurn? && a != Shutdown(true))
            || (a.WatcherTurn? && d.watcher.Check? && Empty(d))
  {
    hide Step;
  }

  /** A session's I/O fails when its descriptor is registered, or read from; a wait fails by being given up. */
  predicate Fails(a: Action) {
    a.FdFailed? || (a.ActorTurn? && (a.e.ReadFailed? || a.gaveUp))
  }

  ghost predicate NoneFailed(tasks: seq<Task>) {
    forall t :: 0 <= t < |tasks| ==> !CutLoose(tasks[t]) && !tasks[t].shell.Unreaped?
  }

  lemma NextFailsNothing(u: Setup, d: Daemon, a: Action)
    requires AllSound(d.tasks) && NoneFailed(d.tasks) && !Fails(a)
    ensures NoneFailed(Next(u, d, a).tasks)
  {
    hide Step, Escalation, LeftWhenDead;
    if a.ActorTurn? && a.t < |d.tasks| {
      assert SoundTask(d.tasks[a.t]);
      if TaskTurn(u, d, a.t, a.e, a.gaveUp) != d {
        ReasonsHaveCauses(u.actors, d.tasks[a.t].actor.value, a.e);
      }
    }
  }

  lemma {:induction false} NothingFails(u: Setup, actions: seq<Action>)
    requires forall a :: a in actions ==> !Fails(a)
    ensures NoneFailed(Exec(u, actions).tasks)
  {
    hide Next, NoneFailed, TableIsTasks, AllSound;
    if actions == [] {
      NoneStarted();
    } else {
      NothingFails(u, Init(actions));
      DaemonIsSound(u, Init(actions));
      NextFailsNothing(u, Exec(u, Init(actions)), Last(actions));
    }
  }

  lemma NoneStarted()
    ensures NoneFailed([])
  {
  }

  /**
   * Keep until dead: before the shutdown, an entry leaves the table only by its own task's removal, behind the
   * end of its actor. Its shell may run then only behind an I/O failure or a wait given up, until the drop.
   */
  lemma {:induction false} KeepUntilDead(u: Setup, actions: seq<Action>, a: Action, id: Id)
    ensures var d := Exec(u, actions);
            id in d.sessions && id !in Next(u, d, a).sessions && !a.Shutdown? ==>
              var t := d.sessions[id];
              && a == RemoveEntry(t) && t < |d.tasks| && d.tasks[t].id == id && d.tasks[t].phase.Leaving?
              && (d.tasks[t].shell.MayRun() ==> CutLoose(d.tasks[t]) || d.tasks[t].shell.Unreaped?)
              && ((forall b :: b in actions ==> !Fails(b)) ==> !d.tasks[t].shell.MayRun())
  {
    var d := Exec(u, actions);
    DaemonIsSound(u, actions);
    if id in d.sessions && id !in Next(u, d, a).sessions && !a.Shutdown? {
      hide Next, Escalation, Exec, NoLostWakeUp, LeftWhenDead;
      OnlyRemovalTakes(u, d, a, id);
      if d.tasks[a.t].shell.MayRun() {
        assert SoundTask(d.tasks[a.t]);
        RemovableMayRun(d.tasks[a.t]);
      }
      if forall b :: b in actions ==> !Fails(b) {
        NothingFails(u, actions);
      }
    }
  }

  lemma RemovableMayRun(task: Task)
    requires SoundTask(task) && !task.phase.Running? && task.shell.MayRun()
    ensures CutLoose(task) || task.shell.Unreaped?
  {
  }

  lemma OnlyRemovalTakes(u: Setup, d: Daemon, a: Action, id: Id)
    requires id in d.sessions && id !in Next(u, d, a).sessions && !a.Shutdown?
    ensures a.RemoveEntry? && a.t < |d.tasks| && d.tasks[a.t].phase.Leaving? && d.tasks[a.t].id == id
  {
    hide Step;
  }

  /** An id that is in the table is never turned away, and a second request for it creates nothing. */
  lemma {:induction false} ExistingIsNeverRejected(u: Setup, actions: seq<Action>, id: Id)
    requires id in Exec(u, actions).sessions
    ensures var d := Exec(u, actions);
            && BindIn(d.sessions, u.maxSessions, id, |d.tasks|).Existing?
            && Next(u, d, AttachOrCreate(id)) == d
            && d.sessions[id] < |d.tasks| && d.tasks[d.sessions[id]].id == id
  {
    hide SoundTask;
    DaemonIsSound(u, actions);
  }

  /**
   * Who is admitted: while the daemon is up, a request creates a session exactly if no task in the table has that
   * id and the table holds fewer sessions than the cap; its task is then the only one added, opening, and in the
   * table. Otherwise nothing changes.
   */
  lemma {:induction false} AdmittedIff(u: Setup, actions: seq<Action>, id: Id)
    ensures var d, e := Exec(u, actions), Next(u, Exec(u, actions), AttachOrCreate(id));
            var free := forall t :: 0 <= t < |d.tasks| && d.tasks[t].phase.InTable() ==> d.tasks[t].id != id;
            if !d.watcher.Down? && free && |d.sessions| < u.maxSessions then
              && e.tasks == d.tasks + [Task(id, Opening, None, NotSpawned)]
              && e.sessions == d.sessions[id := |d.tasks|]
            else e == d
  {
    var d := Exec(u, actions);
    DaemonIsSound(u, actions);
    FreeIff(d, id);
    hide Exec, TableIsTasks, AllSound;
    if id !in d.sessions && |d.sessions| < u.maxSessions {
      var f := d.(sessions := d.sessions[id := |d.tasks|], tasks := d.tasks + [Task(id, Opening, None, NotSpawned)]);
      NotifyTouchesNoTask(f);
    }
  }

  lemma FreeIff(d: Daemon, id: Id)
    requires TableIsTasks(d.tasks, d.sessions)
    ensures id !in d.sessions <==>
            forall t :: 0 <= t < |d.tasks| && d.tasks[t].phase.InTable() ==> d.tasks[t].id != id
  {
  }

  lemma NotifyTouchesNoTask(d: Daemon)
    ensures NotifyOne(d).tasks == d.tasks && NotifyOne(d).sessions == d.sessions
  {
  }

  /** Tasks only move forward, and only its own removal takes a task out of the table before the shutdown. */
  lemma PhasesAdvance(u: Setup, d: Daemon, a: Action, t: nat)
    requires t < |d.tasks|
    ensures var e := Next(u, d, a);
            && t < |e.tasks| && e.tasks[t].id == d.tasks[t].id
            && d.tasks[t].phase.Rank() <= e.tasks[t].phase.Rank()
            && (d.tasks[t].phase.InTable() && !e.tasks[t].phase.InTable() && !a.Shutdown? ==>
                  a == RemoveEntry(t) && d.tasks[t].phase.Leaving?)
  {
    hide Step, NotifyOne;
    match a {
      case AttachOrCreate(id) =>
        NotifyTouchesNoTask(d.(
          sessions := TableAfter(d.sessions, u.maxSessions, id, |d.tasks|),
          tasks := d.tasks + [Task(id, Opening, None, NotSpawned)]));
      case NotifyRemoved(n) =>
        if n < |d.tasks| {
          NotifyTouchesNoTask(WithTask(d, n, d.tasks[n].(phase := Dropping)));
        }
      case _ =>
    }
  }

  lemma {:induction false} RanksGrow(u: Setup, actions: seq<Action>, t: nat, i: nat, j: nat)
    requires i <= j <= |actions| && t < |Exec(u, actions[..i]).tasks|
    ensures t < |Exec(u, actions[..j]).tasks|
    ensures Exec(u, actions[..i]).tasks[t].phase.Rank() <= Exec(u, actions[..j]).tasks[t].phase.Rank()
    decreases j
  {
    if i < j {
      hide Next;
      RanksGrow(u, actions, t, i, j - 1);
      assert actions[..j] == actions[..j - 1] + [actions[j - 1]];
      ExecSnoc(u, actions[..j - 1], actions[j - 1]);
      PhasesAdvance(u, Exec(u, actions[..j - 1]), actions[j - 1], t);
      hide Exec;
    }
  }

  /** The `i`-th action takes the task from a phase of at most rank `r` beyond it. */
  ghost predicate PassesAt(u: Setup, actions: seq<Action>, t: nat, r: nat, i: nat)
    requires i < |actions|
  {
    var d, e := Exec(u, actions[..i]), Exec(u, actions[..i + 1]);
    t < |d.tasks| && t < |e.tasks| && d.tasks[t].phase.Rank() <= r < e.tasks[t].phase.Rank()
  }

  /** In every run each task passes each phase at most once: one removal, one notification, one drop. */
  lemma {:induction false} PassesOnce(u: Setup, actions: seq<Action>, t: nat, r: nat, i: nat, j: nat)
    requires i < |actions| && j < |actions|
    ensures PassesAt(u, actions, t, r, i) && PassesAt(u, actions, t, r, j) ==> i == j
  {
    hide Exec;
    if PassesAt(u, actions, t, r, i) && PassesAt(u, actions, t, r, j) {
      if i < j {
        RanksGrow(u, actions, t, i + 1, j);
      } else if j < i {
        RanksGrow(u, actions, t, j + 1, i);
      }
    }
  }

  // ------------------------------------------------------- self-exit

  function WatcherTurns(d: Daemon, n: nat): Daemon
    decreases n
  {
    if n == 0 then d else WatcherTurns(WatcherStep(d), n - 1)
  }

  ghost predicate AllGone(d: Daemon) {
    forall t :: 0 <= t < |d.tasks| ==> d.tasks[t].phase.Gone?
  }

  /** With all sessions gone and notified, the watcher's turns end the daemon exactly if it has left its first loop. */
  lemma QuietDaemonExits(u: Setup, actions: seq<Action>, n: nat)
    requires AllGone(Exec(u, actions)) && n >= 4
    ensures var ended := WatcherTurns(Exec(u, actions), n).watcher;
            ended.Returned? || ended.Down? <==> !Exec(u, actions).watcher.InFirstLoop()
  {
    hide SoundTask;
    var d := Exec(u, actions);
    DaemonIsSound(u, actions);
    TableEmptied(d);
    if d.watcher.InFirstLoop() {
      FirstLoopStays(d, n);
    } else if d.watcher.Down? {
      DownStays(d, n);
    } else {
      TurnsReturn(d, n);
    }
  }

  lemma TableEmptied(d: Daemon)
    requires TableIsTasks(d.tasks, d.sessions) && AllGone(d)
    ensures Empty(d)
  {
  }

  lemma {:induction false} FirstLoopStays(d: Daemon, n: nat)
    requires Empty(d) && d.watcher.InFirstLoop()
    ensures WatcherTurns(d, n).watcher.InFirstLoop()
    decreases n
  {
    if n > 0 {
      FirstLoopStays(WatcherStep(d), n - 1);
    }
  }

  /** Over a session, and with no notification to come, the watcher's turns park it: it does not spin. */
  lemma BusyDaemonParks(d: Daemon, n: nat)
    requires !Empty(d) && !d.permit && n >= 3
    requires !d.watcher.InFirstLoop() && !d.watcher.Returned? && !d.watcher.Down?
    ensures WatcherTurns(d, n).watcher.Parked?
  {
    var d1 := WatcherStep(d);
    var d2 := WatcherStep(d1);
    var d3 := WatcherStep(d2);
    assert d3.watcher.Parked?;
    assert WatcherTurns(d, n) == WatcherTurns(d1, n - 1) == WatcherTurns(d2, n - 2) == WatcherTurns(d3, n - 3);
    ParkedStays(d3, n - 3);
  }

  lemma {:induction false} ParkedStays(d: Daemon, n: nat)
    requires d.watcher.Parked?
    ensures WatcherTurns(d, n).watcher.Parked?
    decreases n
  {
    if n > 0 {
      ParkedStays(WatcherStep(d), n - 1);
    }
  }

  lemma {:induction false} DownStays(d: Daemon, n: nat)
    requires d.watcher.Down?
    ensures WatcherTurns(d, n).watcher.Down?
    decreases n
  {
    if n > 0 {
      DownStays(WatcherStep(d), n - 1);
    }
  }

  lemma TurnsReturn(d: Daemon, n: nat)
    requires Empty(d) && !d.watcher.InFirstLoop() && !d.watcher.Parked? && !d.watcher.Down?
    requires (d.watcher.Wait? ==> d.permit) && n >= 4
    ensures WatcherTurns(d, n).watcher.Returned?
  {
    var d1 := WatcherStep(d);
    var d2 := WatcherStep(d1);
    var d3 := WatcherStep(d2);
    var d4 := WatcherStep(d3);
    assert d4.watcher.Returned?;
    assert WatcherTurns(d, n) == WatcherTurns(d1, n - 1) == WatcherTurns(d2, n - 2);
    assert WatcherTurns(d2, n - 2) == WatcherTurns(d3, n - 3) == WatcherTurns(d4, n - 4);
    ReturnedStays(d4, n - 4);
  }

  lemma {:induction false} ReturnedStays(d: Daemon, n: nat)
    requires d.watcher.Returned?
    ensures WatcherTurns(d, n).watcher.Returned?
    decreases n
  {
    if n > 0 {
      ReturnedStays(d, n - 1);
    }
  }

  lemma ExecSnoc(u: Setup, actions: seq<Action>, a: Action)
    ensures Exec(u, actions + [a]) == Next(u, Exec(u, actions), a)
  {
    assert Init(actions + [a]) == actions;
  }

  lemma ExecNothing(u: Setup)
    ensures Exec(u, []) == STARTED
  {
  }

  /** The first session of a daemon. */
  lemma FirstCreated(u: Setup, permit: bool, w: Watcher, id: Id)
    requires u.maxSessions > 0 && !w.Down?
    ensures Next(u, Daemon([], map[], permit, w), AttachOrCreate(id))
            == NotifyOne(Daemon([Task(id, Opening, None, NotSpawned)], map[id := 0], permit, w))
  {
    assert [] + [Task(id, Opening, None, NotSpawned)] == [Task(id, Opening, None, NotSpawned)];
  }

  /** Its open fails, and its entry goes. */
  lemma FirstFails(u: Setup, permit: bool, w: Watcher, id: Id)
    requires !w.Down?
    ensures var d := Daemon([Task(id, Opening, None, NotSpawned)], map[id := 0], permit, w);
            Next(u, Next(u, d, OpenFailed(0)), RemoveEntry(0))
            == Daemon([Task(id, Notifying, None, NotSpawned)], map[], permit, w)
  {
    var d := Daemon([Task(id, Opening, None, NotSpawned)], map[id := 0], permit, w);
    assert Next(u, d, OpenFailed(0)) == Daemon([Task(id, Leaving, None, NotSpawned)], map[id := 0], permit, w);
    assert TableWithout(map[id := 0], id) == map[];
  }

  /** It notifies, and is gone. */
  lemma FirstEnds(u: Setup, permit: bool, w: Watcher, id: Id)
    requires !w.Down? && !w.Parked? && !w.FirstParked?
    ensures var d := Daemon([Task(id, Notifying, None, NotSpawned)], map[], permit, w);
            Next(u, Next(u, d, NotifyRemoved(0)), DropSession(0))
            == Daemon([Task(id, Gone, None, NotSpawned)], map[], true, w)
  {
    var d := Daemon([Task(id, Notifying, None, NotSpawned)], map[], permit, w);
    assert Next(u, d, NotifyRemoved(0)) == Daemon([Task(id, Dropping, None, NotSpawned)], map[], true, w);
  }

  /** A run whose only session comes and goes while the watcher is parked for the first time. */
  function BriefSession(id: Id): seq<Action> {
    [WatcherTurn] + [WatcherTurn] + [AttachOrCreate(id)]
      + [OpenFailed(0)] + [RemoveEntry(0)] + [NotifyRemoved(0)] + [DropSession(0)]
  }

  /** The watcher, woken, finds the table empty and takes it for one that never held a session: the daemon stays up. */
  lemma ShortSessionIsMissed(u: Setup, id: Id, n: nat)
    requires u.maxSessions > 0
    ensures var d := Exec(u, BriefSession(id));
            && AllGone(d) && |d.tasks| == 1 && d.watcher.InFirstLoop()
            && !WatcherTurns(d, n).watcher.Returned?
  {
    hide Exec, Next, Create, TaskTurn;
    var a2 := [WatcherTurn] + [WatcherTurn];
    var a3 := a2 + [AttachOrCreate(id)];
    var a5 := a3 + [OpenFailed(0)] + [RemoveEntry(0)];
    ExecNothing(u);
    assert STARTED == Daemon([], map[], false, FirstCheck) && Empty(STARTED);
    assert [] + [WatcherTurn] == [WatcherTurn];
    ExecSnoc(u, [], WatcherTurn);
    TurnIsStep(u, STARTED);
    ExecSnoc(u, [WatcherTurn], WatcherTurn);
    TurnIsStep(u, Exec(u, [WatcherTurn]));
    assert Exec(u, a2) == Daemon([], map[], false, FirstParked);
    FirstCreated(u, false, FirstParked, id);
    ExecSnoc(u, a2, AttachOrCreate(id));
    FirstFails(u, false, FirstWoken, id);
    ExecSnoc(u, a3, OpenFailed(0));
    ExecSnoc(u, a3 + [OpenFailed(0)], RemoveEntry(0));
    assert Exec(u, a5) == Daemon([Task(id, Notifying, None, NotSpawned)], map[], false, FirstWoken);
    FirstEnds(u, false, FirstWoken, id);
    ExecSnoc(u, a5, NotifyRemoved(0));
    ExecSnoc(u, a5 + [NotifyRemoved(0)], DropSession(0));
    assert Exec(u, BriefSession(id)) == Daemon([Task(id, Gone, None, NotSpawned)], map[], true, FirstWoken);
    FirstLoopStays(Exec(u, BriefSession(id)), n);
  }

  /** A run that leads the watcher into its grace period: one session has come and gone. */
  function IntoGrace(id: Id): seq<Action> {
    [AttachOrCreate(id), WatcherTurn, OpenFailed(0), RemoveEntry(0)] + [WatcherTurn]
  }

  lemma GraceReached(u: Setup, id: Id)
    requires u.maxSessions > 0
    ensures Exec(u, IntoGrace(id)) == Daemon([Task(id, Notifying, None, NotSpawned)], map[], true, Sleep)
  {
    hide Exec, Next, Create, TaskTurn;
    var a1 := [AttachOrCreate(id)];
    var a2 := a1 + [WatcherTurn];
    var a4 := a2 + [OpenFailed(0)] + [RemoveEntry(0)];
    ExecNothing(u);
    assert [] + a1 == a1;
    ExecSnoc(u, [], AttachOrCreate(id));
    FirstCreated(u, false, FirstCheck, id);
    assert STARTED == Daemon([], map[], false, FirstCheck);
    assert Exec(u, a1) == Daemon([Task(id, Opening, None, NotSpawned)], map[id := 0], true, FirstCheck);
    assert id in Exec(u, a1).sessions;
    ExecSnoc(u, a1, WatcherTurn);
    TurnIsStep(u, Exec(u, a1));
    assert Exec(u, a2) == Daemon([Task(id, Opening, None, NotSpawned)], map[id := 0], true, Check);
    ExecSnoc(u, a2, OpenFailed(0));
    ExecSnoc(u, a2 + [OpenFailed(0)], RemoveEntry(0));
    FirstFails(u, true, Check, id);
    assert Exec(u, a4) == Daemon([Task(id, Notifying, None, NotSpawned)], map[], true, Check);
    assert a4 + [WatcherTurn] == IntoGrace(id);
    ExecSnoc(u, a4, WatcherTurn);
    TurnIsStep(u, Exec(u, a4));
  }

  /** A session that comes and goes within the grace period does not restart it. */
  lemma GraceIsNotRestarted(u: Setup, id: Id)
    requires u.maxSessions > 0
    ensures var during := IntoGrace(id) + [AttachOrCreate(id)];
            && Exec(u, IntoGrace(id)).watcher.Sleep?
            && Exec(u, during).watcher.Sleep? && !Empty(Exec(u, during))
            && Exec(u, during + [OpenFailed(1)] + [RemoveEntry(1)] + [WatcherTurn] + [WatcherTurn]).watcher.Returned?
  {
    hide Exec, IntoGrace;
    var a1 := IntoGrace(id) + [AttachOrCreate(id)];
    var a2 := a1 + [OpenFailed(1)];
    var a3 := a2 + [RemoveEntry(1)];
    var a4 := a3 + [WatcherTurn];
    GraceReached(u, id);
    ExecSnoc(u, IntoGrace(id), AttachOrCreate(id));
    var t0, t1 := Task(id, Notifying, None, NotSpawned), Task(id, Opening, None, NotSpawned);
    assert Exec(u, a1) == Daemon([t0, t1], map[id := 1], true, Sleep);
    ExecSnoc(u, a1, OpenFailed(1));
    ExecSnoc(u, a2, RemoveEntry(1));
    assert Exec(u, a3).sessions == map[];
    ExecSnoc(u, a3, WatcherTurn);
    ExecSnoc(u, a4, WatcherTurn);
  }

  // ------------------------------------------------- what the grace period saw

  ghost predicate EmptyThroughout(u: Setup, before: seq<Action>, during: seq<Action>) {
    forall i :: 0 <= i <= |during| ==> Empty(Exec(u, before + during[..i]))
  }

  /** Nobody asked for a new session, or the cap admits none. */
  ghost predicate NothingCreated(u: Setup, during: seq<Action>) {
    u.maxSessions == 0 || forall a :: a in during ==> !a.AttachOrCreate?
  }

  lemma EmptyStep(u: Setup, d: Daemon, a: Action)
    requires Empty(d) && !d.watcher.Down?
    ensures Empty(Next(u, d, a)) <==> u.maxSessions == 0 || !a.AttachOrCreate?
  {
    hide Step;
    if a.AttachOrCreate? && u.maxSessions > 0 {
      assert a.id in TableAfter(d.sessions, u.maxSessions, a.id, |d.tasks|);
    }
  }

  lemma DownIsFinal(u: Setup, actions: seq<Action>, a: Action)
    requires !Exec(u, actions + [a]).watcher.Down?
    ensures !Exec(u, actions).watcher.Down?
  {
    ExecSnoc(u, actions, a);
  }

  /** While the daemon is up, an empty table stays empty throughout exactly if nothing is created. */
  lemma {:induction false} EmptyIffNothingCreated(u: Setup, before: seq<Action>, during: seq<Action>)
    requires Empty(Exec(u, before)) && !Exec(u, before + during).watcher.Down?
    ensures EmptyThroughout(u, before, during) <==> NothingCreated(u, during)
  {
    hide Exec, Next, Empty;
    if during == [] {
      assert forall i :: 0 <= i <= |during| ==> before + during[..i] == before;
    } else {
      var front, a := Init(during), Last(during);
      assert during == front + [a] && before + during == before + front + [a];
      DownIsFinal(u, before + front, a);
      EmptyIffNothingCreated(u, before, front);
      assert forall i :: 0 <= i <= |front| ==> during[..i] == front[..i];
      assert during[..|during|] == during && front[..|front|] == front;
      assert before + during == before + front + [a];
      ExecSnoc(u, before + front, a);
      EmptyThroughoutStep(u, before, front, a);
      if Empty(Exec(u, before + front)) {
        EmptyStep(u, Exec(u, before + front), a);
      }
    }
  }

  lemma EmptyThroughoutStep(u: Setup, before: seq<Action>, during: seq<Action>, a: Action)
    ensures EmptyThroughout(u, before, during + [a]) <==>
            EmptyThroughout(u, before, during) && Empty(Exec(u, before + (during + [a])))
    ensures EmptyThroughout(u, before, during) ==> Empty(Exec(u, before + during))
  {
    hide Exec, Empty;
    var more := during + [a];
    forall i | 0 <= i <= |during|
      ensures Empty(Exec(u, before + during[..i])) <==> Empty(Exec(u, before + more[..i]))
    {
      assert more[..i] == during[..i];
    }
    assert more[..|more|] == more && during[..|during|] == during;
  }

  /** A run splits at a look that found the table empty, with the watcher in its grace period ever since. */
  ghost predicate GraceBegins(u: Setup, actions: seq<Action>, before: seq<Action>, during: seq<Action>) {
    && actions == before + [WatcherTurn] + during
    && Exec(u, before).watcher.Check? && Empty(Exec(u, before))
    && forall i :: 0 <= i <= |during| ==> InGrace(Exec(u, before + [WatcherTurn] + during[..i]).watcher)
  }

  predicate InGrace(w: Watcher) {
    w.Sleep? || w.Recheck?
  }

  lemma {:induction false} GraceHasBegun(u: Setup, actions: seq<Action>)
    returns (before: seq<Action>, during: seq<Action>)
    requires InGrace(Exec(u, actions).watcher)
    ensures GraceBegins(u, actions, before, during)
    decreases |actions|
  {
    hide Next, Empty;
    assert actions != [];
    var front, a := Init(actions), Last(actions);
    assert actions == front + [a];
    if InGrace(Exec(u, front).watcher) {
      before, during := GraceHasBegun(u, front);
      GraceGoesOn(u, front, before, during, a);
      during := during + [a];
    } else {
      OnlyLookEntersGrace(u, Exec(u, front), a);
      before, during := front, [];
      assert actions == before + [WatcherTurn] + [];
    }
  }

  lemma OnlyLookEntersGrace(u: Setup, d: Daemon, a: Action)
    requires InGrace(Next(u, d, a).watcher) && !InGrace(d.watcher)
    ensures a.WatcherTurn? && d.watcher.Check? && Empty(d)
  {
    hide Step;
  }

  lemma GraceGoesOn(u: Setup, actions: seq<Action>, before: seq<Action>, during: seq<Action>, a: Action)
    requires GraceBegins(u, actions, before, during) && InGrace(Exec(u, actions + [a]).watcher)
    ensures GraceBegins(u, actions + [a], before, during + [a])
  {
    hide Exec, Empty;
    var more := during + [a];
    assert actions + [a] == before + [WatcherTurn] + more;
    forall i | 0 <= i <= |more|
      ensures InGrace(Exec(u, before + [WatcherTurn] + more[..i]).watcher)
    {
      if i < |more| {
        assert more[..i] == during[..i];
      } else {
        assert more[..i] == more;
      }
    }
  }

  /**
   * Whenever the watcher returns, it comes from two looks at an empty table. Between them the table was empty
   * throughout exactly if nothing was created: a session that came and went in between does not matter to it.
   */
  lemma {:induction false} ReturnsAfterEmptyGraceIff(u: Setup, actions: seq<Action>, a: Action)
    requires !Exec(u, actions).watcher.Returned? && Next(u, Exec(u, actions), a).watcher.Returned?
    ensures Empty(Exec(u, actions))
    ensures exists before, during ::
              && GraceBegins(u, actions, before, during)
              && (EmptyThroughout(u, before + [WatcherTurn], during) <==> NothingCreated(u, during))
  {
    OnlyWatcherReturns(u, Exec(u, actions), a);
    var before, during := GraceHasBegun(u, actions);
    ExecSnoc(u, before, WatcherTurn);
    hide Exec, Next, Empty;
    LookLeavesEmpty(Exec(u, before));
    assert Next(u, Exec(u, before), WatcherTurn) == WatcherStep(Exec(u, before)) by { TurnIsStep(u, Exec(u, before)); }
    assert before + [WatcherTurn] + during == actions;
    EmptyIffNothingCreated(u, before + [WatcherTurn], during);
    assert GraceBegins(u, actions, before, during);
  }

  lemma LookLeavesEmpty(d: Daemon)
    ensures Empty(WatcherStep(d)) <==> Empty(d)
  {
  }

  lemma TurnIsStep(u: Setup, d: Daemon)
    ensures Next(u, d, WatcherTurn) == WatcherStep(d)
  {
  }
}
