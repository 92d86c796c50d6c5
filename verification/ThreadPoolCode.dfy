// run, getTask, runInThread and stop as the threads run them: loops around a wait, with any other
// threads in between.
module ThreadPoolCode {
  import opened Common
  import opened Monitor
  import opened Histories
  import opened Machine = ThreadPool
  import opened Runs

  // The thread an action belongs to; a spurious wakeup belongs to nobody.
  predicate ByAnother<T>(a: Action<T>, me: Tid) {
    a.Wakeup? || a.t != me
  }

  // The call of a thread stands where it stood, and a cleared flag stays clear.
  ghost predicate Kept<T>(s: State<T>, s': State<T>, me: Tid) {
    && WorkOf(s', me) == WorkOf(s, me) && (s'.running ==> s.running)
    && Mine(s'.accepted, me) == Mine(s.accepted, me) && Mine(s'.taken, me) == Mine(s.taken, me)
  }

  // What the other threads can and cannot do to a thread and, while it owns the mutex, to the pool.
  ghost predicate Interfered<T>(s: State<T>, s': State<T>, me: Tid) {
    && Kept(s, s', me)
    && (At(s'.mon, me) == At(s.mon, me) || (At(s.mon, me).Waiting? && At(s'.mon, me) == Woken(At(s.mon, me).c)))
    && (Owning(At(s.mon, me)) ==> s'.tasks == s.tasks && s'.running == s.running && s'.mon.owner == s.mon.owner)
  }

  lemma OneInterference<T>(s: State<T>, a: Action<T>, me: Tid)
    requires Sound(s.mon) && ByAnother(a, me)
    ensures Interfered(s, Apply(s, a), me)
  {
    hide Statement, Mine;
    match a
    case Turn(t, woken) => if At(s.mon, t).Inside? { StatementInterferes(s, t, woken, me); }
    case _ =>
  }

  lemma StatementInterferes<T>(s: State<T>, t: Tid, woken: set<Tid>, me: Tid)
    requires Sound(s.mon) && At(s.mon, t).Inside? && t != me
    ensures Interfered(s, Statement(s, t, woken), me)
  {
    hide Mine, WakeAll;
    assert Owning(At(s.mon, t)) && !Owning(At(s.mon, me));
    match WorkOf(s, t)
    case RunPush(task) => MineOfOneMore(s.accepted, t, task, me);
    case GetPop => if s.tasks != [] { MineOfOneMore(s.taken, t, s.tasks[0], me); }
    case _ =>
  }

  // The next mutex instruction of the thread itself.
  lemma InstructionKeeps<T>(s: State<T>, me: Tid)
    requires CanAdvance(s.mon, me)
    ensures Kept(s, Apply(s, Instruction(me)), me)
    ensures Apply(s, Instruction(me)).tasks == s.tasks && Apply(s, Instruction(me)).running == s.running
    ensures At(Apply(s, Instruction(me)).mon, me) ==
      match At(s.mon, me)
      case Locking => Locked
      case Locked => Inside
      case Unlocking => Outside
      case Parking(c) => Waiting(c)
      case Woken(c) => Retaken(c)
      case Retaken(c) => Inside
      case other => other
  {
  }

  lemma InterferenceComposes<T>(s: State<T>, m: State<T>, s': State<T>, me: Tid)
    requires Interfered(s, m, me) && Interfered(m, s', me)
    ensures Interfered(s, s', me)
  {
  }

  lemma InterferenceIsReflexive<T>(s: State<T>, me: Tid)
    ensures Interfered(s, s, me)
  {
  }

  lemma WhatFits<T>(s: State<T>, me: Tid)
    requires Inv(s)
    ensures Sound(s.mon) && Fits(s, At(s.mon, me), WorkOf(s, me), me in s.workers)
  {
  }

  lemma SignalStep<T>(s: State<T>, me: Tid, c: nat, woken: set<Tid>, chosen: set<Tid>)
    requires At(s.mon, me).Inside?
    requires (WorkOf(s, me).RunNotify? && c == NOT_EMPTY) || (WorkOf(s, me).GetNotify? && c == NOT_FULL)
    requires chosen == if Wakes(s.mon, c, woken) then woken else Sleepers(s.mon, c)
    ensures Wakes(s.mon, c, chosen)
    ensures
      var s' := Apply(s, Turn(me, chosen));
      && At(s'.mon, me).Inside? && s'.accepted == s.accepted && s'.taken == s.taken
      && s'.tasks == s.tasks && s'.running == s.running
      && WorkOf(s', me) == if WorkOf(s, me).RunNotify? then LeaveCall else GetReturn(Some(WorkOf(s, me).task))
  {
    hide Sleepers, WakeAll;
    assert Wakes(s.mon, c, chosen);
    assert me !in chosen;
  }

  class ThreadPool<T> {
    const m_maxQueueSize: nat
    const m_threads: set<Tid>
    var m_brunning: bool
    var m_tasks: seq<T>
    var m_mutex: Mon // with both conditions
    // The program counters of all threads, and what the scheduler lets them do between two
    // instructions of the running thread.
    var work: map<Tid, Work<T>>
    var schedule: seq<seq<Action<T>>>
    var accepted: seq<(Tid, T)>
    var taken: seq<(Tid, T)>
    ghost var trace: seq<Action<T>>

    function S(): State<T>
      reads this
    {
      State(m_mutex, work, m_threads, m_brunning, m_maxQueueSize, m_tasks, accepted, taken)
    }

    // Every state of the object is the state after a run of the machine.
    ghost predicate Valid()
      reads this
    {
      Inv(S()) && S() == Machine.Run(Initial(m_threads, m_maxQueueSize), trace)
    }

    // The pool after start.
    constructor (threads: set<Tid>, maxQueueSize: nat, schedule: seq<seq<Action<T>>>)
      ensures Valid() && S() == Initial(threads, maxQueueSize)
      ensures m_threads == threads && m_maxQueueSize == maxQueueSize && this.schedule == schedule
    {
      m_threads, m_maxQueueSize, this.schedule := threads, maxQueueSize, schedule;
      var start: State<T> := Initial(threads, maxQueueSize);
      m_brunning, m_tasks, m_mutex, work := true, [], INITIAL, start.work;
      accepted, taken, trace := [], [], [];
      new;
      Reachable<T>(threads, maxQueueSize, []);
    }

    // One action of another thread.
    method Perform(a: Action<T>)
      requires Valid()
      modifies this
      ensures Valid() && S() == Apply(old(S()), a) && schedule == old(schedule)
      ensures old(Stopped(S())) ==> Stopped(S())
    {
      hide Inv, Apply, Stopped;
      StepKeepsInv(S(), a);
      AfterOneMore(Apply, Initial(m_threads, m_maxQueueSize), trace, a);
      SettingsOfStep(S(), a);
      if Stopped(S()) { StepKeepsStopped(S(), a); }
      var n := Apply(S(), a);
      m_brunning, m_tasks, m_mutex, work, accepted, taken := n.running, n.tasks, n.mon, n.work, n.accepted, n.taken;
      trace := trace + [a];
    }

    // The assignments before were an action of the running thread.
    ghost method Did(s: State<T>, a: Action<T>)
      requires Inv(s) && s == Machine.Run(Initial(m_threads, m_maxQueueSize), trace) && S() == Apply(s, a)
      modifies this`trace
      ensures Valid()
    {
      hide Inv, Apply;
      StepKeepsInv(s, a);
      AfterOneMore(Apply, Initial(m_threads, m_maxQueueSize), trace, a);
      trace := trace + [a];
    }

    // The next mutex instruction.
    method Step(me: Tid)
      requires Valid() && CanAdvance(m_mutex, me)
      modifies this
      ensures Valid() && S() == Apply(old(S()), Instruction(me)) && schedule == old(schedule)
    {
      hide Inv, Advance;
      ghost var s := S();
      m_mutex := Advance(m_mutex, me);
      Did(s, Instruction(me));
    }

    // A caller enters run or stop.
    method Enter(me: Tid, w: Work<T>)
      requires Valid() && At(m_mutex, me).Outside? && me !in m_threads && (w.RunTest? || w.StopClear?)
      modifies this
      ensures Valid() && schedule == old(schedule)
      ensures S() == Apply(old(S()), if w.RunTest? then CallRun(me, w.task) else CallStop(me))
    {
      hide Inv;
      ghost var s := S();
      m_mutex, work := BeginLock(m_mutex, me), work[me := w];
      Did(s, if w.RunTest? then CallRun(me, w.task) else CallStop(me));
    }

    // The wait's m_holder = 0, after a loop test that is true.
    method ReleaseToWait(me: Tid, c: nat)
      requires Valid() && At(m_mutex, me).Inside? && (
        if c == NOT_FULL then WorkOf(S(), me).RunTest? && IsFull(S())
        else c == NOT_EMPTY && WorkOf(S(), me).GetTest? && m_tasks == [] && m_brunning)
      modifies this
      ensures Valid() && S() == Apply(old(S()), Turn(me, {})) && schedule == old(schedule)
    {
      hide Inv;
      ghost var s := S();
      m_mutex := BeginWait(m_mutex, me, c);
      Did(s, Turn(me, {}));
    }

    // The loop test of run, now false.
    method PassRunTest(me: Tid, task: T)
      requires Valid() && At(m_mutex, me).Inside? && WorkOf(S(), me) == RunTest(task) && !IsFull(S())
      modifies this
      ensures Valid() && S() == Apply(old(S()), Turn(me, {})) && schedule == old(schedule)
    {
      hide Inv;
      ghost var s := S();
      work := work[me := RunPush(task)];
      Did(s, Turn(me, {}));
    }

    // m_tasks.push_back(task).
    method PushBackTask(me: Tid, task: T)
      requires Valid() && At(m_mutex, me).Inside? && WorkOf(S(), me) == RunPush(task)
      modifies this
      ensures Valid() && S() == Apply(old(S()), Turn(me, {})) && schedule == old(schedule)
      ensures m_tasks == old(m_tasks) + [task]
    {
      hide Inv;
      ghost var s := S();
      m_tasks := m_tasks + [task];
      accepted, work := accepted + [(me, task)], work[me := RunNotify];
      Did(s, Turn(me, {}));
    }

    // The loop test of getTask, now false, and the test for a task.
    method PassGetTest(me: Tid)
      requires Valid() && At(m_mutex, me).Inside? && WorkOf(S(), me) == GetTest && (m_tasks != [] || !m_brunning)
      modifies this
      ensures Valid() && S() == Apply(old(S()), Turn(me, {})) && schedule == old(schedule)
    {
      hide Inv;
      ghost var s := S();
      work := work[me := if m_tasks == [] then GetReturn(None) else GetPop];
      Did(s, Turn(me, {}));
    }

    // m_tasks.front() and m_tasks.pop_front().
    method PopFrontTask(me: Tid) returns (task: T)
      requires Valid() && At(m_mutex, me).Inside? && WorkOf(S(), me) == GetPop && m_tasks != []
      modifies this
      ensures Valid() && S() == Apply(old(S()), Turn(me, {})) && schedule == old(schedule)
      ensures old(m_tasks) == [task] + m_tasks
    {
      hide Inv;
      ghost var s := S();
      task := m_tasks[0];
      m_tasks := m_tasks[1..];
      taken, work := taken + [(me, task)], work[me := GetNotify(task)];
      Did(s, Turn(me, {}));
    }

    // pthread_cond_signal.
    method Signal(me: Tid, c: nat, woken: set<Tid>)
      requires Valid() && At(m_mutex, me).Inside? && Wakes(m_mutex, c, woken)
      requires if c == NOT_EMPTY then WorkOf(S(), me).RunNotify? else c == NOT_FULL && WorkOf(S(), me).GetNotify?
      modifies this
      ensures Valid() && S() == Apply(old(S()), Turn(me, woken)) && schedule == old(schedule)
    {
      hide Inv;
      ghost var s := S();
      m_mutex := WakeAll(m_mutex, c, woken);
      work := work[me := if work[me].RunNotify? then LeaveCall else GetReturn(Some(work[me].task))];
      Did(s, Turn(me, woken));
    }

    // m_brunning = false.
    method ClearFlag(me: Tid)
      requires Valid() && At(m_mutex, me).Inside? && WorkOf(S(), me) == StopClear
      modifies this
      ensures Valid() && S() == Apply(old(S()), Turn(me, {})) && schedule == old(schedule)
    {
      hide Inv;
      ghost var s := S();
      m_brunning := false;
      work := work[me := StopBroadcast];
      Did(s, Turn(me, {}));
    }

    // pthread_cond_broadcast.
    method WakeEverybody(me: Tid)
      requires Valid() && At(m_mutex, me).Inside? && WorkOf(S(), me) == StopBroadcast
      modifies this
      ensures Valid() && S() == Apply(old(S()), Turn(me, {})) && schedule == old(schedule)
    {
      hide Inv;
      ghost var s := S();
      m_mutex := WakeAll(m_mutex, NOT_EMPTY, Sleepers(m_mutex, NOT_EMPTY));
      work := work[me := LeaveCall];
      Did(s, Turn(me, {}));
    }

    // The unlock's m_holder = 0.
    method Release(me: Tid)
      requires Valid() && At(m_mutex, me).Inside? && (WorkOf(S(), me).LeaveCall? || WorkOf(S(), me).GetReturn?)
      modifies this
      ensures Valid() && S() == Apply(old(S()), Turn(me, {})) && schedule == old(schedule)
      ensures old(Stopped(S())) ==> Stopped(S())
    {
      hide Inv, Stopped;
      ghost var s := S();
      if Stopped(s) { StepKeepsStopped(s, Turn(me, {})); }
      m_mutex := BeginUnlock(m_mutex, me);
      work := work[me := if work[me].LeaveCall? then Idle else Execute(work[me].got)];
      Did(s, Turn(me, {}));
    }

    // The test of the flag in runInThread, which begins getTask or leaves the loop.
    method TestAndGo(me: Tid)
      requires Valid() && At(m_mutex, me).Outside? && WorkOf(S(), me).LoopTest?
      modifies this
      ensures Valid() && S() == Apply(old(S()), Proceed(me)) && schedule == old(schedule)
    {
      hide Inv;
      ghost var s := S();
      if m_brunning {
        m_mutex, work := BeginLock(m_mutex, me), work[me := GetTest];
      } else {
        work := work[me := Finished];
      }
      Did(s, Proceed(me));
    }

    // The task has returned.
    method TaskReturns(me: Tid)
      requires Valid() && At(m_mutex, me).Outside? && WorkOf(S(), me).Execute?
      modifies this
      ensures Valid() && S() == Apply(old(S()), Proceed(me)) && schedule == old(schedule)
    {
      hide Inv;
      ghost var s := S();
      work := work[me := LoopTest];
      Did(s, Proceed(me));
    }

    // What the other threads do before the running thread's next instruction.
    method Others(me: Tid)
      requires Valid()
      modifies this
      ensures Valid() && Interfered(old(S()), S(), me)
      ensures schedule == if old(schedule) == [] then [] else old(schedule)[1..]
      ensures old(Stopped(S())) ==> Stopped(S())
    {
      hide Inv, Interfered, Apply, Stopped;
      assert Interfered(S(), S(), me) by { InterferenceIsReflexive(S(), me); }
      if schedule != [] {
        var chunk := schedule[0];
        schedule := schedule[1..];
        for i := 0 to |chunk|
          invariant Valid() && Interfered(old(S()), S(), me) && schedule == old(schedule)[1..]
          invariant old(Stopped(S())) ==> Stopped(S())
        {
          if ByAnother(chunk[i], me) {
            ghost var before := S();
            WhatFits(before, me);
            OneInterference(before, chunk[i], me);
            Perform(chunk[i]);
            InterferenceComposes(old(S()), before, S(), me);
          }
        }
      }
    }

    // Until the thread is awake and the mutex is free; false when the schedule ends before.
    method AwaitMutex(me: Tid) returns (ok: bool)
      requires Valid() && (At(m_mutex, me).Locking? || At(m_mutex, me).Waiting?)
      modifies this
      ensures Valid() && Kept(old(S()), S(), me)
      ensures !ok ==> schedule == []
      ensures ok ==> m_mutex.owner == None && (At(m_mutex, me).Locking? || At(m_mutex, me).Woken?)
      ensures |schedule| <= |old(schedule)| && (ok && old(At(m_mutex, me).Waiting?) ==> |schedule| < |old(schedule)|)
      ensures old(At(m_mutex, me).Locking? && m_mutex.owner == None) ==> ok && S() == old(S())
    {
      hide Inv, Mine, At, WorkOf, Apply, Stopped;
      ghost var before := At(m_mutex, me);
      while At(m_mutex, me).Waiting? || m_mutex.owner != None
        invariant Valid() && Kept(old(S()), S(), me)
        invariant At(m_mutex, me) == before || (before.Waiting? && At(m_mutex, me) == Woken(before.c))
        invariant |schedule| <= |old(schedule)|
        invariant before.Waiting? ==> At(m_mutex, me).Waiting? || |schedule| < |old(schedule)|
        invariant before.Locking? && old(m_mutex.owner) == None ==> S() == old(S())
        decreases |schedule|
      {
        if schedule == [] {
          return false;
        }
        Others(me);
      }
      ok := true;
    }

    // pthread_mutex_lock and assign(), or their part of pthread_cond_wait. False when the
    // schedule ends with the mutex still taken or the thread still asleep.
    method TakeMutex(me: Tid) returns (ok: bool)
      requires Valid() && (At(m_mutex, me).Locking? || At(m_mutex, me).Waiting?)
      modifies this
      ensures Valid() && Kept(old(S()), S(), me)
      ensures if ok then At(m_mutex, me).Inside? else schedule == []
      ensures |schedule| <= |old(schedule)| && (ok && old(At(m_mutex, me).Waiting?) ==> |schedule| < |old(schedule)|)
      ensures old(At(m_mutex, me).Locking? && m_mutex.owner == None) ==> ok && m_tasks == old(m_tasks) && m_brunning == old(m_brunning)
    {
      hide Inv, Mine, At, WorkOf, Apply, Stopped;
      ok := AwaitMutex(me);
      if ok {
        InstructionKeeps(S(), me);
        Step(me); // takes the mutex
        Others(me);
        InstructionKeeps(S(), me);
        Step(me); // assign()
        Others(me);
      }
    }

    // The first half of a wait, from the true loop test: the thread gives the mutex up and sleeps.
    method FallAsleep(me: Tid)
      requires Valid() && At(m_mutex, me).Inside?
      requires (WorkOf(S(), me).RunTest? && IsFull(S())) || (WorkOf(S(), me).GetTest? && m_tasks == [] && m_brunning)
      modifies this
      ensures Valid() && Kept(old(S()), S(), me) && |schedule| <= |old(schedule)|
      ensures m_mutex.owner == None
      ensures At(m_mutex, me) == Waiting(if old(WorkOf(S(), me)).RunTest? then NOT_FULL else NOT_EMPTY)
    {
      hide Inv, Mine, Stopped;
      ReleaseToWait(me, if work[me].RunTest? then NOT_FULL else NOT_EMPTY);
      Others(me);
      Step(me); // gives the mutex back and falls asleep
    }

    // m_notFull.wait() or m_notEmpty.wait(), from the true loop test to the next loop test.
    method WaitOn(me: Tid) returns (ok: bool)
      requires Valid() && At(m_mutex, me).Inside?
      requires (WorkOf(S(), me).RunTest? && IsFull(S())) || (WorkOf(S(), me).GetTest? && m_tasks == [] && m_brunning)
      modifies this
      ensures Valid() && Kept(old(S()), S(), me) && |schedule| <= |old(schedule)|
      ensures ok ==> At(m_mutex, me).Inside? && |schedule| < |old(schedule)|
    {
      hide Inv, Mine, Stopped, WorkOf;
      FallAsleep(me);
      ok := TakeMutex(me);
    }

    // unlock() at the end of run and stop, and of getTask.
    method Unlock(me: Tid)
      requires Valid() && At(m_mutex, me).Inside? && (WorkOf(S(), me).LeaveCall? || WorkOf(S(), me).GetReturn?)
      modifies this
      ensures Valid() && At(m_mutex, me).Outside? && (m_brunning ==> old(m_brunning))
      ensures WorkOf(S(), me) == if old(WorkOf(S(), me)).LeaveCall? then Idle else Execute(old(WorkOf(S(), me)).got)
      ensures Mine(accepted, me) == old(Mine(accepted, me)) && Mine(taken, me) == old(Mine(taken, me))
      ensures |schedule| <= |old(schedule)| && (old(Stopped(S())) ==> Stopped(S()))
      ensures m_tasks == old(m_tasks) && m_brunning == old(m_brunning)
    {
      hide Inv, Mine, Stopped;
      Release(me);
      Others(me);
      InstructionKeeps(S(), me);
      if Stopped(S()) { StepKeepsStopped(S(), Instruction(me)); }
      Step(me); // pthread_mutex_unlock
    }

    // notify() on the condition that the running thread is about to signal.
    method Notify(me: Tid, woken: set<Tid>)
      requires Valid() && At(m_mutex, me).Inside? && (WorkOf(S(), me).RunNotify? || WorkOf(S(), me).GetNotify?)
      modifies this
      ensures Valid() && At(m_mutex, me).Inside? && |schedule| <= |old(schedule)|
      ensures WorkOf(S(), me) ==
        if old(WorkOf(S(), me)).RunNotify? then LeaveCall else GetReturn(Some(old(WorkOf(S(), me)).task))
      ensures Mine(accepted, me) == old(Mine(accepted, me)) && Mine(taken, me) == old(Mine(taken, me))
      ensures m_tasks == old(m_tasks) && m_brunning == old(m_brunning)
    {
      hide Inv, Mine, Stopped, Apply, Wakes, Sleepers;
      var c := if WorkOf(S(), me).RunNotify? then NOT_EMPTY else NOT_FULL;
      // Whoever the signal is said to wake, it wakes a sleeper if there is one.
      var chosen := if Wakes(m_mutex, c, woken) then woken else Sleepers(m_mutex, c);
      SignalStep(S(), me, c, woken, chosen);
      Signal(me, c, chosen);
      Others(me);
    }

    // When run returns, its task has been accepted once; when the schedule ends first, not at
    // all. Without workers the task is forgotten.
    method Run(me: Tid, task: T, woken: set<Tid>) returns (done: bool)
      requires Valid() && At(m_mutex, me).Outside? && me !in m_threads
      modifies this
      ensures Valid() && (done ==> At(m_mutex, me).Outside?)
      ensures Mine(accepted, me) == old(Mine(accepted, me)) + if done && m_threads != {} then [task] else []
      ensures Mine(taken, me) == old(Mine(taken, me))
      ensures old(m_mutex.owner == None && |m_tasks| < m_maxQueueSize) && m_threads != {} ==>
        done && m_tasks == old(m_tasks) + [task]
    {
      hide Inv, Mine, Stopped;
      if m_threads == {} {
        return true;
      }
      Enter(me, RunTest(task));
      done := TakeMutex(me);
      if !done {
        return;
      }
      while IsFull(S())
        invariant Valid() && At(m_mutex, me).Inside? && WorkOf(S(), me) == RunTest(task)
        invariant old(m_mutex.owner == None && |m_tasks| < m_maxQueueSize) ==> m_tasks == old(m_tasks)
        invariant Mine(accepted, me) == old(Mine(accepted, me)) && Mine(taken, me) == old(Mine(taken, me))
        decreases |schedule|
      {
        done := WaitOn(me);
        if !done {
          return;
        }
      }
      PushBackAndLeave(me, task, woken);
      done := true;
    }

    // The rest of run, once there is room.
    method PushBackAndLeave(me: Tid, task: T, woken: set<Tid>)
      requires Valid() && At(m_mutex, me).Inside? && WorkOf(S(), me) == RunTest(task) && !IsFull(S())
      modifies this
      ensures Valid() && At(m_mutex, me).Outside?
      ensures Mine(accepted, me) == old(Mine(accepted, me)) + [task]
      ensures Mine(taken, me) == old(Mine(taken, me))
      ensures m_tasks == old(m_tasks) + [task]
    {
      hide Inv, Mine, Stopped;
      PassRunTest(me, task);
      Others(me);
      MineOfOneMore(accepted, me, task, me);
      PushBackTask(me, task);
      Others(me);
      Notify(me, woken);
      Unlock(me);
    }

    // getTask, called by a worker that has passed the test of the flag. It returns a task that
    // nobody else has got, or none when the pool has no tasks and does not run.
    method GetTask(me: Tid, woken: set<Tid>) returns (ok: bool, task: Option<T>)
      requires Valid() && At(m_mutex, me).Locking? && WorkOf(S(), me).GetTest?
      modifies this
      ensures Valid() && (ok ==> At(m_mutex, me).Outside? && WorkOf(S(), me) == Execute(task))
      ensures ok && task.None? ==> !m_brunning
      ensures Mine(taken, me) == old(Mine(taken, me)) + if task.Some? then [task.value] else []
      ensures (ok || task.None?) && |schedule| <= |old(schedule)|
      ensures old(m_mutex.owner == None && m_tasks != []) ==>
        ok && task == Some(old(m_tasks)[0]) && m_tasks == old(m_tasks)[1..]
      ensures old(m_mutex.owner == None && m_tasks == [] && !m_brunning) ==> ok && task == None
    {
      hide Inv, Mine, Stopped;
      task := None;
      ok := TakeMutex(me);
      if !ok {
        return;
      }
      while m_tasks == [] && m_brunning
        invariant Valid() && At(m_mutex, me).Inside? && WorkOf(S(), me) == GetTest
        invariant old(m_mutex.owner == None && (m_tasks != [] || !m_brunning)) ==>
          m_tasks == old(m_tasks) && m_brunning == old(m_brunning)
        invariant Mine(taken, me) == old(Mine(taken, me)) && |schedule| <= |old(schedule)|
        decreases |schedule|
      {
        ok := WaitOn(me);
        if !ok {
          return;
        }
      }
      task := PopFrontAndLeave(me, woken);
    }

    // The rest of getTask after the loop.
    method PopFrontAndLeave(me: Tid, woken: set<Tid>) returns (task: Option<T>)
      requires Valid() && At(m_mutex, me).Inside? && WorkOf(S(), me) == GetTest && (m_tasks != [] || !m_brunning)
      modifies this
      ensures Valid() && At(m_mutex, me).Outside? && WorkOf(S(), me) == Execute(task)
      ensures task == if old(m_tasks) == [] then None else Some(old(m_tasks)[0])
      ensures task.None? ==> !m_brunning
      ensures Mine(taken, me) == old(Mine(taken, me)) + if task.Some? then [task.value] else []
      ensures |schedule| <= |old(schedule)|
      ensures m_tasks == if old(m_tasks) == [] then [] else old(m_tasks)[1..]
    {
      hide Inv, Mine, Stopped;
      task := None;
      PassGetTest(me);
      Others(me);
      if m_tasks != [] {
        var front := PopFront(me, woken);
        task := Some(front);
      }
      Unlock(me);
    }

    method PopFront(me: Tid, woken: set<Tid>) returns (front: T)
      requires Valid() && At(m_mutex, me).Inside? && WorkOf(S(), me) == GetPop && m_tasks != []
      modifies this
      ensures Valid() && At(m_mutex, me).Inside? && WorkOf(S(), me) == GetReturn(Some(front))
      ensures front == old(m_tasks)[0] && Mine(taken, me) == old(Mine(taken, me)) + [front]
      ensures |schedule| <= |old(schedule)|
      ensures m_tasks == old(m_tasks)[1..] && m_brunning == old(m_brunning)
    {
      hide Inv, Mine, Stopped;
      MineOfOneMore(taken, me, m_tasks[0], me);
      front := PopFrontTask(me);
      Others(me);
      Notify(me, woken);
    }

    // The loop test of runInThread.
    method TestFlag(me: Tid) returns (running: bool)
      requires Valid() && me in m_threads && At(m_mutex, me).Outside? && WorkOf(S(), me).LoopTest?
      modifies this
      ensures Valid() && Mine(taken, me) == old(Mine(taken, me)) && |schedule| <= |old(schedule)|
      ensures if running then At(m_mutex, me).Locking? && WorkOf(S(), me).GetTest? else !m_brunning && WorkOf(S(), me).Finished?
      ensures old(!m_brunning) ==> !running
    {
      hide Inv, Mine, Stopped;
      Others(me);
      running := m_brunning;
      TestAndGo(me);
    }

    // runInThread. The tasks a worker executes are exactly those it took, in order, and it
    // leaves only after stop. Left is false when the schedule ends first.
    method RunInThread(me: Tid, woken: set<Tid>) returns (executed: seq<T>, left: bool)
      requires Valid() && me in m_threads && At(m_mutex, me).Outside? && WorkOf(S(), me).LoopTest?
      modifies this
      ensures Valid() && Mine(taken, me) == old(Mine(taken, me)) + executed
      ensures left ==> !m_brunning && WorkOf(S(), me).Finished?
      ensures old(!m_brunning) ==> left && executed == []
    {
      hide Inv, Mine, Stopped;
      executed := [];
      while true
        invariant Valid() && At(m_mutex, me).Outside? && WorkOf(S(), me).LoopTest?
        invariant Mine(taken, me) == old(Mine(taken, me)) + executed
        invariant old(!m_brunning) ==> !m_brunning && executed == []
        decreases |schedule|
      {
        var running := TestFlag(me);
        if !running {
          return executed, true;
        }
        var ok, task := GetTask(me, woken);
        if !ok {
          return executed, false;
        }
        if task.Some? {
          executed := executed + [task.value];
        }
        if schedule == [] {
          return executed, false;
        }
        Others(me);
        TaskReturns(me);
      }
    }

    // The section of stop: when it is over no worker is asleep, and none will ever be.
    method StopSection(me: Tid) returns (done: bool)
      requires Valid() && At(m_mutex, me).Outside? && me !in m_threads
      modifies this
      ensures Valid() && if done then Stopped(S()) && At(m_mutex, me).Outside? else schedule == []
      ensures old(m_mutex.owner == None) ==> done && !m_brunning
    {
      hide Inv, Mine, Stopped;
      Enter(me, StopClear);
      done := TakeMutex(me);
      if !done {
        return;
      }
      ClearFlag(me);
      Others(me);
      Broadcast(me);
      Unlock(me);
      StoppedIsNotRunning(S());
    }

    // stop with its joins. It returns only when every worker has left runInThread; it does not
    // when the schedule ends before.
    method Stop(me: Tid) returns (done: bool)
      requires Valid() && At(m_mutex, me).Outside? && me !in m_threads
      modifies this
      ensures Valid()
      ensures done ==> Stopped(S()) && forall w <- m_threads :: WorkOf(S(), w).Finished?
      ensures !done ==> schedule == []
    {
      hide Inv, Mine, Stopped;
      done := StopSection(me);
      if !done {
        return false;
      }
      while exists w <- m_threads :: !WorkOf(S(), w).Finished?
        invariant Valid() && Stopped(S())
        decreases |schedule|
      {
        if schedule == [] {
          return false;
        }
        Others(me);
      }
    }

    // m_notEmpty.notifyAll().
    method Broadcast(me: Tid)
      requires Valid() && At(m_mutex, me).Inside? && WorkOf(S(), me).StopBroadcast?
      modifies this
      ensures Valid() && At(m_mutex, me).Inside? && WorkOf(S(), me).LeaveCall? && Stopped(S())
      ensures m_tasks == old(m_tasks)
    {
      hide Inv, Mine, Stopped;
      BroadcastStops(S(), me);
      WakeEverybody(me);
      Others(me);
    }
  }

  lemma BroadcastStops<T>(s: State<T>, me: Tid)
    requires Inv(s) && At(s.mon, me).Inside? && WorkOf(s, me).StopBroadcast?
    ensures Stopped(Apply(s, Turn(me, {})))
  {
    hide Fits, NoLostWakeup, Values, Sound;
    StepKeepsInv(s, Turn(me, {}));
    BroadcastFits(s, me, me);
    assert Sleepers(Apply(s, Turn(me, {})).mon, NOT_EMPTY) == {};
  }
}
