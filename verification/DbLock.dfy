/**
  The database lock as a transition system over any number of tasks.

  `mdb_db_lock`/`mdb_db_unlock` count nested acquisitions in one shared depth
  variable; below them `sc_db_lock`/`sc_db_unlock` keep the owner variable
  under a mutex, and either wait on a condition variable (Linux) or poll
  (Win32). Every transition is one statement of one task. A task's calls may
  be interleaved with those of the others in any way, waiters may wake
  spuriously, and a newcomer may overtake a waiter that was signalled.
*/
module DbLock {

  type Task = int

  const INIT_TASK: Task := -100

  datatype Platform = Condvar | Polling

  datatype Answer = Set | Skip

  // Where a task stands. Positions inside the mutex are listed by InMutex.
  datatype Pc =
    | Idle
    // sc_db_lock
    | LockEnter
    | LockCheck
    | LockLeave(answer: Answer)
    | Waiting
    | Awakened
    | RetryLeave
    | Sleeping
    // the rest of mdb_db_lock
    | LockDone(answer: Answer)
    | NoteOwner
    // mdb_db_unlock
    | UnlockTest
    | CountDown
    | ZeroTest
    // sc_db_unlock; direct when it was not called through mdb_db_unlock
    | UnlockEnter(direct: bool)
    | UnlockBody(direct: bool)
    | UnlockSignal(direct: bool, error: bool)
    | UnlockLeave(direct: bool, error: bool)

  // owner is gEDBTaskId, depth is _mdb_db_lock_depth, noted is the recorded
  // owner of the wrapper. held counts, for each task, the acquisitions granted
  // and not yet given back; no transition reads it.
  datatype State = State(
    platform: Platform,
    mutex: set<Task>,
    owner: Task,
    depth: int,
    noted: set<Task>,
    pc: map<Task, Pc>,
    held: map<Task, int>)

  datatype Action =
    | CallLock(t: Task)
    | CallUnlock(t: Task)
    | CallDirectUnlock(t: Task)
    | Run(t: Task)
    | Signal(t: Task, woken: Task)
    | SpuriousWake(t: Task)

  predicate InMutex(pc: Pc) {
    pc.LockCheck? || pc.LockLeave? || pc.RetryLeave? ||
    pc.UnlockBody? || pc.UnlockSignal? || pc.UnlockLeave?
  }

  predicate Asking(pc: Pc) {
    pc.LockEnter? || pc.LockCheck? || pc.Waiting? || pc.Awakened? || pc.RetryLeave? || pc.Sleeping?
  }

  predicate SomeoneWaits(s: State) {
    exists t :: t in s.pc && s.pc[t].Waiting?
  }

  ghost predicate Initial(s: State) {
    && INIT_TASK !in s.pc
    && s.mutex == {} && s.owner == INIT_TASK && s.depth == 0 && s.noted == {}
    && s.held.Keys == s.pc.Keys
    && (forall t :: t in s.pc ==> s.pc[t] == Idle && s.held[t] == 0)
  }

  // --------------------------------------------------------------------------
  // Transitions

  predicate Enabled(s: State, a: Action) {
    && s.held.Keys == s.pc.Keys
    && a.t in s.pc
    && match a
       case CallLock(t) => s.pc[t].Idle?
       case CallUnlock(t) => s.pc[t].Idle?
       case CallDirectUnlock(t) => s.pc[t].Idle?
       case Run(t) =>
         && !s.pc[t].Idle? && !s.pc[t].Waiting? && !s.pc[t].UnlockSignal?
         && (s.pc[t].LockEnter? || s.pc[t].Awakened? || s.pc[t].UnlockEnter? ==> s.mutex == {})
       case Signal(t, woken) =>
         && s.pc[t].UnlockSignal?
         && (SomeoneWaits(s) ==> woken in s.pc && s.pc[woken].Waiting?)
       case SpuriousWake(t) => s.pc[t].Waiting?
  }

  function Goto(s: State, t: Task, pc: Pc): State {
    s.(pc := s.pc[t := pc])
  }

  function Next(s: State, a: Action): State
    requires Enabled(s, a)
  {
    match a
    case CallLock(t) => Goto(s, t, LockEnter)
    case CallUnlock(t) => Goto(s, t, UnlockTest)
    case CallDirectUnlock(t) => Goto(s, t, UnlockEnter(true))
    case Run(t) => RunTask(s, t)
    case Signal(t, woken) =>
      var left := Goto(s, t, UnlockLeave(s.pc[t].direct, s.pc[t].error));
      if SomeoneWaits(s) then Goto(left, woken, Awakened) else left
    case SpuriousWake(t) => Goto(s, t, Awakened)
  }

  function RunTask(s: State, t: Task): State
    requires Enabled(s, Run(t))
  {
    match s.pc[t]
    case LockEnter => Goto(s.(mutex := {t}), t, LockCheck)
    case LockCheck =>
      if s.owner == INIT_TASK then
        Goto(s.(owner := t, held := s.held[t := s.held[t] + 1]), t, LockLeave(Set))
      else if s.owner == t then
        Goto(s.(held := s.held[t := s.held[t] + 1]), t, LockLeave(Skip))
      else if s.platform == Condvar then
        Goto(s.(mutex := {}), t, Waiting)
      else
        Goto(s, t, RetryLeave)
    case LockLeave(answer) => Goto(s.(mutex := {}), t, LockDone(answer))
    case Awakened => Goto(s.(mutex := {t}), t, LockCheck)
    case RetryLeave => Goto(s.(mutex := {}), t, Sleeping)
    case Sleeping => Goto(s, t, LockEnter)
    case LockDone(_) => Goto(s.(depth := s.depth + 1), t, NoteOwner)
    case NoteOwner => Goto(if s.depth == 1 then s.(noted := {t}) else s, t, Idle)
    case UnlockTest =>
      if s.depth == 0 && s.noted == {} then Goto(s, t, Idle) else Goto(s, t, CountDown)
    case CountDown => Goto(s.(depth := s.depth - 1), t, ZeroTest)
    case ZeroTest =>
      if s.depth == 0 then
        Goto(s.(noted := {}), t, UnlockEnter(false))
      else
        Goto(s.(held := s.held[t := s.held[t] - 1]), t, Idle)
    case UnlockEnter(direct) => Goto(s.(mutex := {t}), t, UnlockBody(direct))
    case UnlockBody(direct) =>
      var error := s.owner != t && s.owner != INIT_TASK;
      var freed :=
        if s.owner != t then s
        else if direct then s.(owner := INIT_TASK)
        else s.(owner := INIT_TASK, held := s.held[t := s.held[t] - 1]);
      Goto(freed, t, if s.platform == Condvar then UnlockSignal(direct, error) else UnlockLeave(direct, error))
    case UnlockLeave(_, _) => Goto(s.(mutex := {}), t, Idle)
    case _ => s
  }

  // Callers pair mdb_db_lock with mdb_db_unlock, and nobody calls the inner
  // sc_db_unlock directly while it has an acquisition open.
  predicate Disciplined(s: State, a: Action)
    requires Enabled(s, a)
  {
    && (a.CallUnlock? ==> s.held[a.t] > 0)
    && (a.CallDirectUnlock? ==> s.held[a.t] == 0)
  }

  ghost predicate IsRun(states: seq<State>, actions: seq<Action>) {
    && |states| == |actions| + 1
    && Initial(states[0])
    && forall i :: 0 <= i < |actions| ==>
         && Enabled(states[i], actions[i])
         && Disciplined(states[i], actions[i])
         && states[i + 1] == Next(states[i], actions[i])
  }

  // --------------------------------------------------------------------------
  // The invariant

  // Acquisitions of the owner that the depth variable does not count at pc.
  function Uncounted(pc: Pc): int {
    if pc.LockLeave? || pc.LockDone? || pc.ZeroTest? ||
       (pc.UnlockEnter? && !pc.direct) || (pc.UnlockBody? && !pc.direct)
    then 1 else 0
  }

  predicate TaskInv(s: State, t: Task)
    requires t in s.pc && t in s.held
  {
    var pc := s.pc[t];
    && (InMutex(pc) <==> s.mutex == {t})
    && s.held[t] >= 0
    && (s.held[t] > 0 <==> s.owner == t)
    && (pc.Waiting? || pc.Awakened? || pc.RetryLeave? || pc.Sleeping? ==> s.held[t] == 0)
    && (pc.LockLeave? || pc.LockDone? ==> s.held[t] > 0 && (pc.answer.Set? <==> s.held[t] == 1))
    && (pc.NoteOwner? || pc.UnlockTest? || pc.CountDown? || pc.ZeroTest? ==> s.held[t] > 0)
    && (pc.UnlockEnter? || pc.UnlockBody? ==> s.held[t] == if pc.direct then 0 else 1)
    && (pc.UnlockSignal? || pc.UnlockLeave? ==> s.held[t] == 0 && (pc.error ==> pc.direct))
    && (s.platform == Condvar ==> !pc.Sleeping? && !pc.RetryLeave?)
    && (s.platform == Polling ==> !pc.Waiting? && !pc.Awakened? && !pc.UnlockSignal?)
  }

  // Somebody will look at the owner variable again.
  ghost predicate WillLook(s: State) {
    exists t :: t in s.pc && (s.pc[t].Awakened? || s.pc[t].LockCheck? || s.pc[t].UnlockSignal?)
  }

  ghost predicate ShapeInv(s: State) {
    && s.held.Keys == s.pc.Keys
    && INIT_TASK !in s.pc
    && (s.owner == INIT_TASK || s.owner in s.pc)
    && (s.mutex == {} || exists t :: t in s.pc && s.mutex == {t})
  }

  predicate DepthInv(s: State) {
    && (s.owner == INIT_TASK ==> s.depth == 0)
    && (s.owner != INIT_TASK && s.owner in s.pc && s.owner in s.held ==>
          s.depth == s.held[s.owner] - Uncounted(s.pc[s.owner]))
  }

  ghost predicate TasksInv(s: State)
    requires s.held.Keys == s.pc.Keys
  {
    forall t :: t in s.pc ==> TaskInv(s, t)
  }

  ghost predicate Inv(s: State) {
    && ShapeInv(s) && DepthInv(s) && TasksInv(s)
    && (s.owner == INIT_TASK && SomeoneWaits(s) ==> WillLook(s))
  }

  lemma InitialEstablishesInv(s: State)
    requires Initial(s)
    ensures Inv(s)
  {
  }

  predicate Locking(pc: Pc) {
    pc.LockEnter? || pc.LockCheck? || pc.LockLeave? || pc.Waiting? || pc.Awakened? || pc.RetryLeave? ||
    pc.Sleeping? || pc.LockDone? || pc.NoteOwner?
  }

  // The task that moves, inside a lock call and inside an unlock call.
  lemma LockerKeepsInv(s: State, t: Task)
    requires Inv(s) && Enabled(s, Run(t)) && Locking(s.pc[t])
    ensures t in RunTask(s, t).pc && t in RunTask(s, t).held && TaskInv(RunTask(s, t), t)
  {
    assert TaskInv(s, t);
    if s.pc[t].LockCheck? {
      CheckerKeepsInv(s, t);
    }
  }

  lemma CheckerKeepsInv(s: State, t: Task)
    requires Inv(s) && Enabled(s, Run(t)) && s.pc[t].LockCheck?
    ensures t in RunTask(s, t).pc && t in RunTask(s, t).held && TaskInv(RunTask(s, t), t)
  {
    assert TaskInv(s, t);
  }

  lemma UnlockerKeepsInv(s: State, t: Task)
    requires Inv(s) && Enabled(s, Run(t)) && !Locking(s.pc[t])
    ensures t in RunTask(s, t).pc && t in RunTask(s, t).held && TaskInv(RunTask(s, t), t)
  {
    assert TaskInv(s, t);
    if s.owner != INIT_TASK {
      assert TaskInv(s, s.owner);
    }
  }

  // The tasks that stand still while t moves.
  lemma {:induction false} BystanderKeepsInv(s: State, t: Task, other: Task)
    requires Inv(s) && Enabled(s, Run(t)) && other in s.pc && other != t
    ensures other in RunTask(s, t).pc && other in RunTask(s, t).held && TaskInv(RunTask(s, t), other)
  {
    assert TaskInv(s, t) && TaskInv(s, other);
    assert RunTask(s, t).pc[other] == s.pc[other];
  }

  lemma {:induction false} TaskKeepsInv(s: State, a: Action, t: Task)
    requires Inv(s) && Enabled(s, a) && Disciplined(s, a) && t in s.pc
    ensures t in Next(s, a).pc && t in Next(s, a).held && TaskInv(Next(s, a), t)
  {
    if a.Run? {
      if t != a.t {
        BystanderKeepsInv(s, a.t, t);
      } else if Locking(s.pc[t]) {
        LockerKeepsInv(s, t);
      } else {
        UnlockerKeepsInv(s, t);
      }
    } else {
      assert TaskInv(s, t) && TaskInv(s, a.t);
    }
  }

  lemma StepKeepsWakeUp(s: State, a: Action)
    requires Inv(s) && Enabled(s, a) && Disciplined(s, a)
    requires Next(s, a).owner == INIT_TASK && SomeoneWaits(Next(s, a))
    ensures WillLook(Next(s, a))
  {
    var s' := Next(s, a);
    assert TaskInv(s, a.t);
    if s.owner == INIT_TASK && SomeoneWaits(s) {
      var look :| look in s.pc && (s.pc[look].Awakened? || s.pc[look].LockCheck? || s.pc[look].UnlockSignal?);
      assert TaskInv(s, look);
      if a.Signal? {
        assert s'.pc[a.woken].Awakened?;
      } else {
        assert look in s'.pc;
        assert s'.pc[a.t].Awakened? || s'.pc[a.t].LockCheck? || s'.pc[a.t].UnlockSignal?
            || s'.pc[look] == s.pc[look];
      }
    } else {
      var w :| w in s'.pc && s'.pc[w].Waiting?;
      assert w in s.pc && TaskInv(s, w);
      assert s'.pc[a.t].UnlockSignal?;
    }
  }

  lemma StepKeepsShape(s: State, a: Action)
    requires Inv(s) && Enabled(s, a) && Disciplined(s, a)
    ensures ShapeInv(Next(s, a))
  {
    assert TaskInv(s, a.t);
  }

  lemma StepKeepsDepth(s: State, a: Action)
    requires Inv(s) && Enabled(s, a) && Disciplined(s, a)
    ensures DepthInv(Next(s, a))
  {
    assert TaskInv(s, a.t);
    if s.owner != INIT_TASK {
      assert TaskInv(s, s.owner);
    }
  }

  lemma {:induction false} StepKeepsInv(s: State, a: Action)
    requires Inv(s) && Enabled(s, a) && Disciplined(s, a)
    ensures Inv(Next(s, a))
  {
    StepKeepsShape(s, a);
    StepKeepsDepth(s, a);
    forall t | t in Next(s, a).pc
      ensures TaskInv(Next(s, a), t)
    {
      TaskKeepsInv(s, a, t);
    }
    if Next(s, a).owner == INIT_TASK && SomeoneWaits(Next(s, a)) {
      StepKeepsWakeUp(s, a);
    }
  }

  lemma {:induction false} RunKeepsInv(states: seq<State>, actions: seq<Action>, n: nat)
    requires IsRun(states, actions) && n < |states|
    ensures Inv(states[n])
  {
    if n == 0 {
      InitialEstablishesInv(states[0]);
    } else {
      RunKeepsInv(states, actions, n - 1);
      StepKeepsInv(states[n - 1], actions[n - 1]);
    }
  }

  // --------------------------------------------------------------------------
  // What every run guarantees

  /** At most one task is between a granted acquisition and its release; the
      shared depth is its nesting; SKIP goes to the current owner only, SET to
      a task that held nothing; a paired unlock never fails. */
  lemma MutualExclusion(states: seq<State>, actions: seq<Action>, i: nat)
    requires IsRun(states, actions) && i < |states|
    ensures var s := states[i];
      && s.held.Keys == s.pc.Keys
      && (forall t, u :: t in s.pc && u in s.pc && s.held[t] > 0 && s.held[u] > 0 ==> t == u)
      && (forall t :: t in s.pc && s.held[t] > 0 && s.pc[t].Idle? ==> s.depth == s.held[t])
      && (forall t :: t in s.pc && s.pc[t].LockDone? ==>
            s.owner == t && (s.pc[t].answer == Set <==> s.held[t] == 1))
      && (forall t :: t in s.pc && s.pc[t].UnlockLeave? && !s.pc[t].direct ==> !s.pc[t].error)
  {
    RunKeepsInv(states, actions, i);
    var s := states[i];
    assert Inv(s);
    assert forall t :: t in s.pc ==> TaskInv(s, t);
  }

  /** A call of the inner unlock by a task that holds nothing fails exactly
      when another task owns the lock, and changes nothing but its own position. */
  lemma ForeignUnlock(states: seq<State>, actions: seq<Action>, i: nat, t: Task)
    requires IsRun(states, actions) && i < |actions|
    requires actions[i] == Run(t) && states[i].pc[t] == UnlockBody(true)
    ensures var s, s' := states[i], states[i + 1];
      && t in s'.pc && (s'.pc[t].UnlockSignal? || s'.pc[t].UnlockLeave?)
      && (s'.pc[t].error <==> exists u :: u in s.pc && u in s.held && s.held[u] > 0)
      && s' == s.(pc := s'.pc)
  {
    RunKeepsInv(states, actions, i);
    var s := states[i];
    assert Inv(s) && TaskInv(s, t);
    if s.owner != INIT_TASK {
      assert TaskInv(s, s.owner);
    }
    assert forall u :: u in s.pc ==> TaskInv(s, u);
  }

  /** With the lock free and nobody inside the mutex, a waiting task implies
      an awakened one: the single signal of an unlock never strands the waiters. */
  lemma NoLostWakeUp(states: seq<State>, actions: seq<Action>, i: nat)
    requires IsRun(states, actions) && i < |states|
    requires states[i].mutex == {} && states[i].owner == INIT_TASK && SomeoneWaits(states[i])
    ensures exists t :: t in states[i].pc && states[i].pc[t].Awakened?
  {
    RunKeepsInv(states, actions, i);
    var s := states[i];
    assert Inv(s);
    var look :| look in s.pc && (s.pc[look].Awakened? || s.pc[look].LockCheck? || s.pc[look].UnlockSignal?);
    assert TaskInv(s, look);
  }

  predicate Internal(a: Action) {
    a.Run? || a.Signal?
  }

  lemma StuckBehindAHolder(s: State, blocked: Task)
    requires Inv(s) && forall a :: Internal(a) ==> !Enabled(s, a)
    requires blocked in s.pc && !s.pc[blocked].Idle?
    ensures s.pc[blocked].Waiting? && s.owner in s.pc && s.owner in s.held
    ensures s.owner != blocked && s.pc[s.owner].Idle? && s.held[s.owner] > 0
  {
    forall t | t in s.pc
      ensures s.pc[t].Idle? || s.pc[t].Waiting?
    {
      NobodyMoves(s, t);
    }
    assert s.pc[blocked].Waiting? && TaskInv(s, blocked);
    if s.owner == INIT_TASK {
      var look :| look in s.pc && (s.pc[look].Awakened? || s.pc[look].LockCheck? || s.pc[look].UnlockSignal?);
      assert false;
    } else {
      assert TaskInv(s, s.owner);
    }
  }

  // Nobody can be inside the mutex then, and so nobody waits for it.
  lemma NobodyMoves(s: State, t: Task)
    requires Inv(s) && (forall a :: Internal(a) ==> !Enabled(s, a)) && t in s.pc
    ensures s.pc[t].Idle? || s.pc[t].Waiting?
  {
    if s.mutex != {} {
      var u :| u in s.pc && s.mutex == {u};
      assert TaskInv(s, u);
      InsiderMoves(s, u);
    }
    assert TaskInv(s, t);
    assert Internal(Run(t));
  }

  lemma InsiderMoves(s: State, t: Task)
    requires s.held.Keys == s.pc.Keys && t in s.pc && InMutex(s.pc[t])
    ensures exists a :: Internal(a) && Enabled(s, a)
  {
    if !s.pc[t].UnlockSignal? {
      assert Internal(Run(t)) && Enabled(s, Run(t));
    } else if w :| w in s.pc && s.pc[w].Waiting? {
      assert Internal(Signal(t, w)) && Enabled(s, Signal(t, w));
    } else {
      assert Internal(Signal(t, t)) && Enabled(s, Signal(t, t));
    }
  }

  /** When no task can take another step inside the lock's own code, every task
      still inside it waits behind an owner that is out in its section. */
  lemma StuckOnlyBehindAHolder(states: seq<State>, actions: seq<Action>, i: nat, blocked: Task)
    requires IsRun(states, actions) && i < |states|
    requires forall a :: Internal(a) ==> !Enabled(states[i], a)
    requires blocked in states[i].pc && !states[i].pc[blocked].Idle?
    ensures var s := states[i];
      s.pc[blocked].Waiting? && s.owner in s.pc && s.owner in s.held
      && s.owner != blocked && s.pc[s.owner].Idle? && s.held[s.owner] > 0
  {
    RunKeepsInv(states, actions, i);
    StuckBehindAHolder(states[i], blocked);
  }

  // --------------------------------------------------------------------------
  // A free lock is taken, whatever the schedule

  // The steps a task can still take inside the lock's code while the lock stays
  // free; a signaller passes some of its own to the task it wakes.
  function Weight(pc: Pc): nat {
    match pc
    case LockCheck => 1
    case LockEnter => 2
    case Awakened => 2
    case Sleeping => 3
    case RetryLeave => 4
    case UnlockLeave(_, _) => 1
    case UnlockSignal(_, _) => 4
    case UnlockBody(_) => 5
    case UnlockEnter(_) => 6
    case _ => 0
  }

  ghost function Sum<T>(m: map<T, nat>): nat
    decreases |m|
  {
    if m == map[] then 0 else
      var t :| t in m;
      m[t] + Sum(m - {t})
  }

  lemma {:induction false} SumPick<T>(m: map<T, nat>, t: T)
    requires t in m
    ensures Sum(m) == m[t] + Sum(m - {t})
    decreases |m|
  {
    var u :| u in m && Sum(m) == m[u] + Sum(m - {u});
    if u != t {
      SumPick(m - {u}, t);
      SumPick(m - {t}, u);
      assert m - {u} - {t} == m - {t} - {u};
    }
  }

  lemma SumUpdate<T>(m: map<T, nat>, t: T, v: nat)
    requires t in m
    ensures Sum(m[t := v]) == Sum(m) - m[t] + v
  {
    SumPick(m, t);
    SumPick(m[t := v], t);
    assert m[t := v] - {t} == m - {t};
  }

  function Weights(pc: map<Task, Pc>): map<Task, nat> { map t | t in pc :: Weight(pc[t]) }

  ghost function Work(s: State): nat { Sum(Weights(s.pc)) }

  lemma WorkGoto(s: State, t: Task, pc: Pc)
    requires t in s.pc
    ensures Sum(Weights(s.pc[t := pc])) == Work(s) - Weight(s.pc[t]) + Weight(pc)
  {
    SumUpdate(Weights(s.pc), t, Weight(pc));
    assert Weights(s.pc[t := pc]) == Weights(s.pc)[t := Weight(pc)];
  }

  lemma RunUsesWork(s: State, t: Task)
    requires Inv(s) && s.owner == INIT_TASK && Enabled(s, Run(t)) && RunTask(s, t).owner == INIT_TASK
    ensures RunTask(s, t).pc == s.pc[t := RunTask(s, t).pc[t]]
    ensures Weight(RunTask(s, t).pc[t]) < Weight(s.pc[t])
  {
    assert TaskInv(s, t);
  }

  // Every step inside the lock's code uses some of the work up, or takes the lock.
  lemma StepUsesWork(s: State, a: Action)
    requires Inv(s) && s.owner == INIT_TASK && Internal(a) && Enabled(s, a)
    requires Next(s, a).owner == INIT_TASK
    ensures Work(Next(s, a)) < Work(s)
  {
    if a.Run? {
      RunUsesWork(s, a.t);
      WorkGoto(s, a.t, Next(s, a).pc[a.t]);
    } else {
      SignalUsesWork(s, a.t, a.woken);
    }
  }

  lemma SignalUsesWork(s: State, t: Task, woken: Task)
    requires Enabled(s, Signal(t, woken))
    ensures Work(Next(s, Signal(t, woken))) < Work(s)
  {
    var left := Goto(s, t, UnlockLeave(s.pc[t].direct, s.pc[t].error));
    WorkGoto(s, t, left.pc[t]);
    if SomeoneWaits(s) {
      WorkGoto(left, woken, Awakened);
    }
  }

  lemma StepKeepsAsking(s: State, a: Action, t: Task)
    requires Inv(s) && s.owner == INIT_TASK && Internal(a) && Enabled(s, a)
    requires Next(s, a).owner == INIT_TASK && t in s.pc && Asking(s.pc[t])
    ensures t in Next(s, a).pc && Asking(Next(s, a).pc[t])
  {
  }

  // Steps of tasks inside the lock's code that lead from s to last, the lock
  // staying free all the while.
  ghost predicate StaysFree(s: State, steps: seq<Action>, last: State)
    decreases |steps|
  {
    && s.owner == INIT_TASK
    && if |steps| == 0 then s == last
       else Internal(steps[0]) && Enabled(s, steps[0]) && StaysFree(Next(s, steps[0]), steps[1..], last)
  }

  lemma {:induction false} FreeStepsUseWork(s: State, steps: seq<Action>, last: State, t: Task)
    requires Inv(s) && StaysFree(s, steps, last) && t in s.pc && Asking(s.pc[t])
    ensures Inv(last) && last.owner == INIT_TASK
    ensures Work(last) + |steps| <= Work(s)
    ensures t in last.pc && Asking(last.pc[t])
    decreases |steps|
  {
    if |steps| > 0 {
      var next := Next(s, steps[0]);
      StepUsesWork(s, steps[0]);
      StepKeepsAsking(s, steps[0], t);
      StepKeepsInv(s, steps[0]);
      FreeStepsUseWork(next, steps[1..], last, t);
    }
  }

  /** Once the lock is free while a task asks for it, every schedule hands it to
      somebody: the tasks inside the lock's code can take a bounded number of steps
      with the lock staying free, and as long as it stays free there is another
      step to take. No new call and no spurious wake-up is needed, on either
      platform. */
  lemma FreeLockIsTaken(states: seq<State>, actions: seq<Action>, i: nat, steps: seq<Action>, last: State, t: Task)
    requires IsRun(states, actions) && i < |states|
    requires t in states[i].pc && Asking(states[i].pc[t]) && StaysFree(states[i], steps, last)
    ensures |steps| <= Work(states[i])
    ensures exists a :: Internal(a) && Enabled(last, a)
  {
    RunKeepsInv(states, actions, i);
    FreeStepsUseWork(states[i], steps, last, t);
    if forall a :: Internal(a) ==> !Enabled(last, a) {
      StuckBehindAHolder(last, t);
    }
  }

  // --------------------------------------------------------------------------
  // Both platforms refine one atomic re-entrant lock

  datatype AtomicLock = AtomicLock(holder: set<Task>, held: map<Task, int>, asking: set<Task>)

  ghost predicate AtomicStep(a: AtomicLock, b: AtomicLock, t: Task) {
    t in a.held &&
    ( // ask for the lock
      || (t !in a.asking && b == a.(asking := a.asking + {t}))
      // be granted it, free or already one's own
      || (t in a.asking && a.holder <= {t}
          && b == AtomicLock({t}, a.held[t := a.held[t] + 1], a.asking - {t}))
      // give one acquisition back, the last one frees the lock
      || (a.holder == {t} && a.held[t] > 0
          && b == a.(held := a.held[t := a.held[t] - 1], holder := if a.held[t] == 1 then {} else {t}))
    )
  }

  function Abstract(s: State): AtomicLock {
    AtomicLock(
      if s.owner == INIT_TASK then {} else {s.owner},
      s.held,
      set t | t in s.pc && Asking(s.pc[t]))
  }

  lemma AskingAfter(s: State, a: Action)
    requires Inv(s) && Enabled(s, a)
    ensures a.t in Next(s, a).pc
    ensures Abstract(Next(s, a)).asking ==
              if Asking(Next(s, a).pc[a.t]) then Abstract(s).asking + {a.t} else Abstract(s).asking - {a.t}
  {
    SamePcKeys(s, a);
    var now, before := Abstract(Next(s, a)).asking, Abstract(s).asking;
    forall u
      ensures u in now <==> if u == a.t then Asking(Next(s, a).pc[u]) else u in before
    {
      if u in s.pc && u != a.t {
        OthersKeepAsking(s, a, u);
      }
    }
  }

  lemma SamePcKeys(s: State, a: Action)
    requires Inv(s) && Enabled(s, a)
    ensures Next(s, a).pc.Keys == s.pc.Keys
  {
  }

  lemma OthersKeepAsking(s: State, a: Action, u: Task)
    requires Inv(s) && Enabled(s, a) && u in s.pc && u != a.t
    ensures u in Next(s, a).pc && (Asking(Next(s, a).pc[u]) <==> Asking(s.pc[u]))
  {
    var s' := Next(s, a);
    if a.Signal? && SomeoneWaits(s) && u == a.woken {
      assert s'.pc[u].Awakened?;
    } else {
      assert s'.pc[u] == s.pc[u];
    }
  }

  lemma TaskRefinesAtomicLock(s: State, t: Task)
    requires Inv(s) && Enabled(s, Run(t))
    ensures Abstract(RunTask(s, t)) == Abstract(s) || AtomicStep(Abstract(s), Abstract(RunTask(s, t)), t)
  {
    assert TaskInv(s, t);
    AskingAfter(s, Run(t));
    var a, b := Abstract(s), Abstract(RunTask(s, t));
    assert Asking(s.pc[t]) <==> t in a.asking;
    if s.owner != INIT_TASK {
      assert TaskInv(s, s.owner);
    }
    if s.pc[t].LockCheck? && s.owner in {INIT_TASK, t} {
      assert b.holder == {t} && b.asking == a.asking - {t};
    } else if s.pc[t].ZeroTest? && s.depth != 0 {
      assert b.holder == a.holder == {t} && b.asking == a.asking;
    } else if s.pc[t].UnlockBody? && s.owner == t {
      assert b.asking == a.asking;
    } else {
      assert b.holder == a.holder && b.held == a.held && b.asking == a.asking;
    }
  }

  /** Every step of either platform's code is one step of the atomic lock, or
      leaves the atomic lock as it is. */
  lemma StepRefinesAtomicLock(s: State, a: Action)
    requires Inv(s) && Enabled(s, a) && Disciplined(s, a)
    ensures Abstract(Next(s, a)) == Abstract(s) || AtomicStep(Abstract(s), Abstract(Next(s, a)), a.t)
  {
    if a.Run? {
      TaskRefinesAtomicLock(s, a.t);
    } else {
      AskingAfter(s, a);
      assert Asking(s.pc[a.t]) <==> a.t in Abstract(s).asking;
      if a.CallLock? {
        assert a.t !in Abstract(s).asking;
      } else {
        assert Abstract(Next(s, a)).asking == Abstract(s).asking;
      }
    }
  }

  lemma RunsRefineAtomicLock(states: seq<State>, actions: seq<Action>, i: nat)
    requires IsRun(states, actions) && i < |actions|
    ensures Abstract(states[0]) == AtomicLock({}, states[0].held, {})
    ensures Abstract(states[i + 1]) == Abstract(states[i]) ||
            AtomicStep(Abstract(states[i]), Abstract(states[i + 1]), actions[i].t)
  {
    RunKeepsInv(states, actions, i);
    assert forall t :: t in states[0].pc ==> !Asking(states[0].pc[t]);
    assert Abstract(states[0]).asking == {};
    assert Inv(states[i]);
    StepRefinesAtomicLock(states[i], actions[i]);
  }

  // --------------------------------------------------------------------------
  // The discipline is needed

  ghost predicate Leads(s: State, actions: seq<Action>, last: State)
    decreases |actions|
  {
    if |actions| == 0 then s == last
    else Enabled(s, actions[0]) && Leads(Next(s, actions[0]), actions[1..], last)
  }

  lemma LeadsOn(s: State, first: Action, rest: seq<Action>, last: State)
    requires Enabled(s, first) && Leads(Next(s, first), rest, last)
    ensures Leads(s, [first] + rest, last)
  {
    assert ([first] + rest)[1..] == rest;
  }

  lemma EnterFreeLock(s: State, u: Task) returns (last: State)
    requires s.held.Keys == s.pc.Keys && s.mutex == {} && s.owner == INIT_TASK
    requires u in s.pc && s.pc[u].LockEnter?
    ensures Leads(s, [Run(u), Run(u)], last)
    ensures u in last.held && last.held == s.held[u := s.held[u] + 1]
  {
    var inside := Next(s, Run(u));
    last := Next(inside, Run(u));
    LeadsOn(inside, Run(u), [], last);
    LeadsOn(s, Run(u), [Run(u)], last);
    assert [Run(u)] + [Run(u)] == [Run(u), Run(u)];
    assert [Run(u)] + [] == [Run(u)];
  }

  // From inside the unlock's critical section out of the mutex.
  lemma LeaveUnlock(s: State, t: Task) returns (actions: seq<Action>, last: State)
    requires s.held.Keys == s.pc.Keys && t in s.pc
    requires s.pc[t].UnlockSignal? || s.pc[t].UnlockLeave?
    ensures Leads(s, actions, last)
    ensures last.held == s.held && last.owner == s.owner && last.mutex == {}
    ensures last.pc.Keys == s.pc.Keys
    ensures forall u :: u in s.pc && s.pc[u].LockEnter? ==> last.pc[u].LockEnter?
    decreases s.pc[t].UnlockSignal?
  {
    var first := Run(t);
    if s.pc[t].UnlockSignal? {
      if SomeoneWaits(s) {
        var w :| w in s.pc && s.pc[w].Waiting?;
        first := Signal(t, w);
      } else {
        first := Signal(t, t);
      }
      var rest;
      rest, last := LeaveUnlock(Next(s, first), t);
      actions := [first] + rest;
      LeadsOn(s, first, rest, last);
    } else {
      last := Next(s, first);
      actions := [first] + [];
      LeadsOn(s, first, [], last);
    }
  }

  lemma LeadsJoin(s: State, a: seq<Action>, middle: State, b: seq<Action>, last: State)
    requires Leads(s, a, middle) && Leads(middle, b, last)
    ensures Leads(s, a + b, last)
    decreases |a|
  {
    if |a| == 0 {
      assert a + b == b;
    } else {
      LeadsJoin(Next(s, a[0]), a[1..], middle, b, last);
      LeadsOn(s, a[0], a[1..] + b, last);
      assert [a[0]] + (a[1..] + b) == a + b;
    }
  }

  /** From every reachable state in which t is out in its section, the mutex is
      free and another task is at the lock's entry, one inner unlock by t (as
      after a lock call that answered SKIP) puts both tasks into the section. */
  lemma {:induction false} DirectUnlockByHolderBreaksExclusion(states: seq<State>, actions: seq<Action>, i: nat,
                                                               t: Task, u: Task)
    returns (more: seq<Action>, last: State)
    requires IsRun(states, actions) && i < |states| && states[i].mutex == {}
    requires t in states[i].pc && t in states[i].held && states[i].pc[t].Idle? && states[i].held[t] > 0
    requires u in states[i].pc && u != t && states[i].pc[u].LockEnter?
    ensures Leads(states[i], [CallDirectUnlock(t)] + more, last)
    ensures Enabled(states[i], CallDirectUnlock(t)) && !Disciplined(states[i], CallDirectUnlock(t))
    ensures t in last.held && u in last.held && last.held[t] > 0 && last.held[u] > 0
  {
    RunKeepsInv(states, actions, i);
    var s := states[i];
    assert Inv(s) && TaskInv(s, t) && TaskInv(s, u);
    var s1 := Next(s, CallDirectUnlock(t));
    var s2 := Next(s1, Run(t));
    var s3 := Next(s2, Run(t));
    assert s3.owner == INIT_TASK && s3.held == s.held;
    var out, s4 := LeaveUnlock(s3, t);
    last := EnterFreeLock(s4, u);
    LeadsJoin(s3, out, s4, [Run(u), Run(u)], last);
    LeadsOn(s2, Run(t), out + [Run(u), Run(u)], last);
    LeadsOn(s1, Run(t), [Run(t)] + (out + [Run(u), Run(u)]), last);
    more := [Run(t)] + ([Run(t)] + (out + [Run(u), Run(u)]));
    LeadsOn(s, CallDirectUnlock(t), more, last);
  }
}
