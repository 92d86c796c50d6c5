// put and get as the threads run them: loops around a wait, with any other threads in between.
module BoundedQueueCode {
  import opened Common
  import opened Monitor
  import opened Histories
  import opened Runs
  import opened BoundedQueue

  // The thread an action belongs to; a spurious wakeup belongs to nobody.
  predicate ByAnother<T>(a: Action<T>, me: Tid) {
    match a
    case CallPut(t, _) => t != me
    case CallGet(t) => t != me
    case Instruction(t) => t != me
    case Wakeup(_) => true
    case Turn(t, _) => t != me
  }

  // The call of a thread stands where it stood.
  ghost predicate Kept<T>(s: State<T>, s': State<T>, me: Tid) {
    && WorkOf(s', me) == WorkOf(s, me)
    && Mine(s'.accepted, me) == Mine(s.accepted, me) && Mine(s'.delivered, me) == Mine(s.delivered, me)
  }

  // What the other threads can and cannot do to a thread and, while it owns the mutex, to the queue.
  ghost predicate Interfered<T>(s: State<T>, s': State<T>, me: Tid) {
    && Kept(s, s', me)
    && (At(s'.mon, me) == At(s.mon, me) || (At(s.mon, me).Waiting? && At(s'.mon, me) == Woken(At(s.mon, me).c)))
    && (Owning(At(s.mon, me)) ==> s'.queue == s.queue && s'.mon.owner == s.mon.owner)
  }

  lemma OneInterference<T>(s: State<T>, a: Action<T>, me: Tid)
    requires Sound(s.mon) && ByAnother(a, me)
    ensures Interfered(s, Apply(s, a), me)
  {
    match a
    case Turn(t, woken) => if At(s.mon, t).Inside? { StatementInterferes(s, t, woken, me); }
    case _ =>
  }

  lemma StatementInterferes<T>(s: State<T>, t: Tid, woken: set<Tid>, me: Tid)
    requires Sound(s.mon) && At(s.mon, t).Inside? && t != me
    ensures Interfered(s, Statement(s, t, woken), me)
  {
    hide Mine;
    assert Owning(At(s.mon, t)) && !Owning(At(s.mon, me));
    match WorkOf(s, t)
    case PutPush(value) => MineOfOneMore(s.accepted, t, value, me);
    case GetPop => if s.queue != [] { MineOfOneMore(s.delivered, t, s.queue[0], me); }
    case _ =>
  }

  // The next mutex instruction of the thread itself.
  lemma InstructionKeeps<T>(s: State<T>, me: Tid)
    requires CanAdvance(s.mon, me)
    ensures Kept(s, Apply(s, Instruction(me)), me) && Apply(s, Instruction(me)).queue == s.queue
    ensures At(Apply(s, Instruction(me)).mon, me) ==
      match At(s.mon, me)
      case Locking => Locked
      case Locked => Inside
      case Unlocking => Outside
      case Parking(c) => Waiting(c)
      case Woken(c) => Retaken(c)
      case Retaken(c) => Inside
      case other => other
  {
  }

  lemma InterferenceComposes<T>(s: State<T>, m: State<T>, s': State<T>, me: Tid)
    requires Interfered(s, m, me) && Interfered(m, s', me)
    ensures Interfered(s, s', me)
  {
  }

  class BoundedBlockingQueue<T> {
    const maxSize: nat
    var m_queue: seq<T>
    var m_mutex: Mon // with both conditions
    // The program counters of all threads, and what the scheduler lets them do between two
    // instructions of the running thread.
    var work: map<Tid, Work<T>>
    var schedule: seq<seq<Action<T>>>
    var accepted: seq<(Tid, T)>
    var delivered: seq<(Tid, T)>
    ghost var trace: seq<Action<T>>

    function S(): State<T>
      reads this
    {
      State(m_mutex, work, maxSize, m_queue, accepted, delivered)
    }

    // Every state of the object is the state after a run of the machine.
    ghost predicate Valid()
      reads this
    {
      Inv(S()) && S() == Run(Initial(maxSize), trace)
    }

    constructor (maxSize: nat, schedule: seq<seq<Action<T>>>)
      ensures Valid() && this.maxSize == maxSize && this.schedule == schedule && S() == Initial(maxSize)
    {
      this.maxSize := maxSize;
      m_queue, m_mutex, work, accepted, delivered := [], INITIAL, map[], [], [];
      this.schedule := schedule;
      trace := [];
      new;
      Reachable<T>(maxSize, []);
    }

    // One action of another thread.
    method Perform(a: Action<T>)
      requires Valid()
      modifies this
      ensures Valid() && S() == Apply(old(S()), a) && schedule == old(schedule)
    {
      hide Inv, Apply;
      StepKeepsInv(S(), a);
      AfterOneMore(Apply, Initial(maxSize), trace, a);
      CapacityOfStep(S(), a);
      var n := Apply(S(), a);
      m_queue, m_mutex, work, accepted, delivered := n.queue, n.mon, n.work, n.accepted, n.delivered;
      trace := trace + [a];
    }

    // The assignments before were an action of the running thread.
    ghost method Did(s: State<T>, a: Action<T>)
      requires Inv(s) && s == Run(Initial(maxSize), trace) && S() == Apply(s, a)
      modifies this`trace
      ensures Valid()
    {
      hide Inv, Apply;
      StepKeepsInv(s, a);
      AfterOneMore(Apply, Initial(maxSize), trace, a);
      trace := trace + [a];
    }

    // The next mutex instruction.
    method Step(me: Tid)
      requires Valid() && CanAdvance(m_mutex, me)
      modifies this
      ensures Valid() && S() == Apply(old(S()), Instruction(me)) && schedule == old(schedule)
    {
      hide Inv, Advance;
      ghost var s := S();
      m_mutex := Advance(m_mutex, me);
      Did(s, Instruction(me));
    }

    method EnterPut(me: Tid, value: T)
      requires Valid() && At(m_mutex, me).Outside?
      modifies this
      ensures Valid() && S() == Apply(old(S()), CallPut(me, value)) && schedule == old(schedule)
    {
      hide Inv;
      ghost var s := S();
      m_mutex, work := BeginLock(m_mutex, me), work[me := PutTest(value)];
      Did(s, CallPut(me, value));
    }

    method EnterGet(me: Tid)
      requires Valid() && At(m_mutex, me).Outside?
      modifies this
      ensures Valid() && S() == Apply(old(S()), CallGet(me)) && schedule == old(schedule)
    {
      hide Inv;
      ghost var s := S();
      m_mutex, work := BeginLock(m_mutex, me), work[me := GetTest];
      Did(s, CallGet(me));
    }

    // The wait's m_holder = 0, after a loop test that is true.
    method ReleaseToWait(me: Tid, c: nat)
      requires Valid() && At(m_mutex, me).Inside?
      requires if c == FULL then WorkOf(S(), me).PutTest? && |m_queue| == maxSize
               else c == EMPTY && WorkOf(S(), me).GetTest? && m_queue == []
      modifies this
      ensures Valid() && S() == Apply(old(S()), Turn(me, {})) && schedule == old(schedule)
    {
      hide Inv;
      ghost var s := S();
      m_mutex := BeginWait(m_mutex, me, c);
      Did(s, Turn(me, {}));
    }

    // A loop test that is false.
    method PassTest(me: Tid)
      requires Valid() && At(m_mutex, me).Inside?
      requires (WorkOf(S(), me).PutTest? && |m_queue| != maxSize) || (WorkOf(S(), me).GetTest? && m_queue != [])
      modifies this
      ensures Valid() && S() == Apply(old(S()), Turn(me, {})) && schedule == old(schedule)
    {
      hide Inv;
      ghost var s := S();
      work := work[me := if work[me].PutTest? then PutPush(work[me].value) else GetPop];
      Did(s, Turn(me, {}));
    }

    // m_queue.push_back(value).
    method PushBackItem(me: Tid, value: T)
      requires Valid() && At(m_mutex, me).Inside? && WorkOf(S(), me) == PutPush(value)
      modifies this
      ensures Valid() && S() == Apply(old(S()), Turn(me, {})) && schedule == old(schedule)
      ensures m_queue == old(m_queue) + [value]
    {
      assert |m_queue| < maxSize by { RoomForPush(S(), me); }
      hide Inv;
      ghost var s := S();
      m_queue := PushBack(m_queue, maxSize, value);
      accepted, work := accepted + [(me, value)], work[me := PutNotify];
      Did(s, Turn(me, {}));
    }

    // m_queue.front() and m_queue.pop_front().
    method PopFrontItem(me: Tid) returns (value: T)
      requires Valid() && At(m_mutex, me).Inside? && WorkOf(S(), me).GetPop? && m_queue != []
      modifies this
      ensures Valid() && S() == Apply(old(S()), Turn(me, {})) && schedule == old(schedule)
      ensures old(m_queue) == [value] + m_queue
    {
      hide Inv;
      ghost var s := S();
      value := m_queue[0];
      m_queue := m_queue[1..];
      delivered, work := delivered + [(me, value)], work[me := GetNotify(value)];
      Did(s, Turn(me, {}));
    }

    // pthread_cond_signal.
    method Signal(me: Tid, c: nat, woken: set<Tid>)
      requires Valid() && At(m_mutex, me).Inside? && Wakes(m_mutex, c, woken)
      requires if c == EMPTY then WorkOf(S(), me).PutNotify? else c == FULL && WorkOf(S(), me).GetNotify?
      modifies this
      ensures Valid() && S() == Apply(old(S()), Turn(me, woken)) && schedule == old(schedule)
    {
      hide Inv;
      ghost var s := S();
      m_mutex, work := WakeAll(m_mutex, c, woken), work[me := Leave];
      Did(s, Turn(me, woken));
    }

    // The unlock's m_holder = 0.
    method Release(me: Tid)
      requires Valid() && At(m_mutex, me).Inside? && WorkOf(S(), me).Leave?
      modifies this
      ensures Valid() && S() == Apply(old(S()), Turn(me, {})) && schedule == old(schedule)
    {
      hide Inv;
      ghost var s := S();
      m_mutex, work := BeginUnlock(m_mutex, me), work[me := Idle];
      Did(s, Turn(me, {}));
    }

    // What the other threads do before the running thread's next instruction.
    method Others(me: Tid)
      requires Valid()
      modifies this
      ensures Valid() && Interfered(old(S()), S(), me)
      ensures schedule == if old(schedule) == [] then [] else old(schedule)[1..]
    {
      hide Inv, Interfered, Apply;
      assert Interfered(S(), S(), me) by { InterferenceIsReflexive(S(), me); }
      if schedule != [] {
        var chunk := schedule[0];
        schedule := schedule[1..];
        for i := 0 to |chunk|
          invariant Valid() && Interfered(old(S()), S(), me) && schedule == old(schedule)[1..]
        {
          if ByAnother(chunk[i], me) {
            ghost var before := S();
            InvIsSound(before);
            OneInterference(before, chunk[i], me);
            Perform(chunk[i]);
            InterferenceComposes(old(S()), before, S(), me);
          }
        }
      }
    }

    // Until the thread is awake and the mutex is free; false when the schedule ends before.
    method AwaitMutex(me: Tid) returns (ok: bool)
      requires Valid() && (At(m_mutex, me).Locking? || At(m_mutex, me).Waiting?)
      modifies this
      ensures Valid() && Kept(old(S()), S(), me)
      ensures ok ==> m_mutex.owner == None && (At(m_mutex, me).Locking? || At(m_mutex, me).Woken?)
      ensures |schedule| <= |old(schedule)| && (ok && old(At(m_mutex, me).Waiting?) ==> |schedule| < |old(schedule)|)
      ensures old(At(m_mutex, me).Locking? && m_mutex.owner == None) ==> ok && S() == old(S())
    {
      hide Inv, Mine, At, WorkOf, Apply;
      ghost var before := At(m_mutex, me);
      while At(m_mutex, me).Waiting? || m_mutex.owner != None
        invariant Valid() && Kept(old(S()), S(), me)
        invariant At(m_mutex, me) == before || (before.Waiting? && At(m_mutex, me) == Woken(before.c))
        invariant |schedule| <= |old(schedule)|
        invariant before.Waiting? ==> At(m_mutex, me).Waiting? || |schedule| < |old(schedule)|
        invariant before.Locking? && old(m_mutex.owner) == None ==> S() == old(S())
        decreases |schedule|
      {
        if schedule == [] {
          return false;
        }
        Others(me);
      }
      ok := true;
    }

    // pthread_mutex_lock and assign(), or their part of pthread_cond_wait. False when the
    // schedule ends with the mutex still taken or the thread still asleep.
    method TakeMutex(me: Tid) returns (ok: bool)
      requires Valid() && (At(m_mutex, me).Locking? || At(m_mutex, me).Waiting?)
      modifies this
      ensures Valid() && Kept(old(S()), S(), me)
      ensures ok ==> At(m_mutex, me).Inside?
      ensures |schedule| <= |old(schedule)| && (ok && old(At(m_mutex, me).Waiting?) ==> |schedule| < |old(schedule)|)
      ensures old(At(m_mutex, me).Locking? && m_mutex.owner == None) ==> ok && m_queue == old(m_queue)
    {
      hide Inv, Mine, At, WorkOf, Apply;
      ok := AwaitMutex(me);
      if ok {
        InstructionKeeps(S(), me);
        Step(me); // takes the mutex
        Others(me);
        InstructionKeeps(S(), me);
        Step(me); // assign()
        Others(me);
      }
    }

    // The first half of a wait, from the true loop test: the thread gives the mutex up and sleeps.
    method FallAsleep(me: Tid)
      requires Valid() && At(m_mutex, me).Inside?
      requires (WorkOf(S(), me).PutTest? && |m_queue| == maxSize) || (WorkOf(S(), me).GetTest? && m_queue == [])
      modifies this
      ensures Valid() && Kept(old(S()), S(), me) && |schedule| <= |old(schedule)|
      ensures m_mutex.owner == None && At(m_mutex, me) == Waiting(if old(WorkOf(S(), me)).PutTest? then FULL else EMPTY)
    {
      hide Inv, Mine;
      ReleaseToWait(me, if work[me].PutTest? then FULL else EMPTY);
      Others(me);
      Step(me); // gives the mutex back and falls asleep
    }

    // m_full.wait() or m_empty.wait(), from the true loop test to the next loop test: the thread
    // sleeps until some wakeup and has the mutex again when the wait returns.
    method WaitOn(me: Tid) returns (ok: bool)
      requires Valid() && At(m_mutex, me).Inside?
      requires (WorkOf(S(), me).PutTest? && |m_queue| == maxSize) || (WorkOf(S(), me).GetTest? && m_queue == [])
      modifies this
      ensures Valid() && Kept(old(S()), S(), me)
      ensures ok ==> At(m_mutex, me).Inside? && |schedule| < |old(schedule)|
    {
      hide Inv, Mine, WorkOf;
      FallAsleep(me);
      ok := TakeMutex(me);
    }

    // unlock().
    method Unlock(me: Tid)
      requires Valid() && At(m_mutex, me).Inside? && WorkOf(S(), me).Leave?
      modifies this
      ensures Valid() && At(m_mutex, me).Outside?
      ensures Mine(accepted, me) == old(Mine(accepted, me)) && Mine(delivered, me) == old(Mine(delivered, me))
      ensures m_queue == old(m_queue)
    {
      hide Inv, Mine;
      Release(me);
      Others(me);
      InstructionKeeps(S(), me);
      Step(me); // pthread_mutex_unlock
    }

    // notify() on the condition that the running thread is about to signal.
    method Notify(me: Tid, woken: set<Tid>)
      requires Valid() && At(m_mutex, me).Inside? && (WorkOf(S(), me).PutNotify? || WorkOf(S(), me).GetNotify?)
      modifies this
      ensures Valid() && At(m_mutex, me).Inside? && WorkOf(S(), me).Leave?
      ensures Mine(accepted, me) == old(Mine(accepted, me)) && Mine(delivered, me) == old(Mine(delivered, me))
      ensures m_queue == old(m_queue)
    {
      hide Inv, Mine;
      var c := if WorkOf(S(), me).PutNotify? then EMPTY else FULL;
      // Whoever the signal is said to wake, it wakes a sleeper if there is one.
      var chosen := if Wakes(m_mutex, c, woken) then woken else Sleepers(m_mutex, c);
      assert me !in Sleepers(m_mutex, c);
      Signal(me, c, chosen);
      Others(me);
    }

    // When put returns, its value has been accepted once; when the schedule ends first, not at all.
    // With the mutex free and room it returns, and the value is at the end of the queue.
    method Put(me: Tid, value: T, woken: set<Tid>) returns (done: bool)
      requires Valid() && At(m_mutex, me).Outside?
      modifies this
      ensures Valid() && (done ==> At(m_mutex, me).Outside?)
      ensures Mine(accepted, me) == old(Mine(accepted, me)) + if done then [value] else []
      ensures Mine(delivered, me) == old(Mine(delivered, me))
      ensures old(m_mutex.owner == None && |m_queue| < maxSize) ==> done && m_queue == old(m_queue) + [value]
    {
      hide Inv, Mine;
      EnterPut(me, value);
      done := TakeMutex(me);
      if !done {
        return;
      }
      while |m_queue| == maxSize
        invariant Valid() && At(m_mutex, me).Inside? && WorkOf(S(), me) == PutTest(value)
        invariant old(m_mutex.owner == None && |m_queue| < maxSize) ==> m_queue == old(m_queue)
        invariant Mine(accepted, me) == old(Mine(accepted, me)) && Mine(delivered, me) == old(Mine(delivered, me))
        decreases |schedule|
      {
        done := WaitOn(me);
        if !done {
          return;
        }
      }
      PushBackAndLeave(me, value, woken);
      done := true;
    }

    // The rest of put, once there is room.
    method PushBackAndLeave(me: Tid, value: T, woken: set<Tid>)
      requires Valid() && At(m_mutex, me).Inside? && WorkOf(S(), me) == PutTest(value) && |m_queue| != maxSize
      modifies this
      ensures Valid() && At(m_mutex, me).Outside?
      ensures Mine(accepted, me) == old(Mine(accepted, me)) + [value]
      ensures Mine(delivered, me) == old(Mine(delivered, me))
      ensures m_queue == old(m_queue) + [value]
    {
      hide Inv, Mine;
      PassTest(me);
      Others(me);
      assert |m_queue| < maxSize by { RoomForPush(S(), me); }
      MineOfOneMore(accepted, me, value, me);
      PushBackItem(me, value);
      Others(me);
      Notify(me, woken);
      Unlock(me);
    }

    // When get returns, its value has been delivered to the caller once. With the mutex free and an
    // item it returns the first.
    method Get(me: Tid, woken: set<Tid>) returns (value: Option<T>)
      requires Valid() && At(m_mutex, me).Outside?
      modifies this
      ensures Valid() && (value.Some? ==> At(m_mutex, me).Outside?)
      ensures Mine(delivered, me) == old(Mine(delivered, me)) + if value.Some? then [value.value] else []
      ensures Mine(accepted, me) == old(Mine(accepted, me))
      ensures old(m_mutex.owner == None && m_queue != []) ==>
        value == Some(old(m_queue)[0]) && m_queue == old(m_queue)[1..]
    {
      hide Inv, Mine;
      EnterGet(me);
      var ok := TakeMutex(me);
      if !ok {
        return None;
      }
      while m_queue == []
        invariant Valid() && At(m_mutex, me).Inside? && WorkOf(S(), me) == GetTest
        invariant old(m_mutex.owner == None && m_queue != []) ==> m_queue == old(m_queue)
        invariant Mine(accepted, me) == old(Mine(accepted, me)) && Mine(delivered, me) == old(Mine(delivered, me))
        decreases |schedule|
      {
        ok := WaitOn(me);
        if !ok {
          return None;
        }
      }
      var front := PopFrontAndLeave(me, woken);
      value := Some(front);
    }

    // The rest of get, once there is an item.
    method PopFrontAndLeave(me: Tid, woken: set<Tid>) returns (front: T)
      requires Valid() && At(m_mutex, me).Inside? && WorkOf(S(), me) == GetTest && m_queue != []
      modifies this
      ensures Valid() && At(m_mutex, me).Outside? && front == old(m_queue)[0]
      ensures Mine(delivered, me) == old(Mine(delivered, me)) + [front]
      ensures Mine(accepted, me) == old(Mine(accepted, me))
      ensures m_queue == old(m_queue)[1..]
    {
      hide Inv, Mine;
      PassTest(me);
      Others(me);
      MineOfOneMore(delivered, me, m_queue[0], me);
      front := PopFrontItem(me);
      Others(me);
      Notify(me, woken);
      Unlock(me);
    }
  }

  lemma InterferenceIsReflexive<T>(s: State<T>, me: Tid)
    ensures Interfered(s, s, me)
  {
  }

  lemma InvIsSound<T>(s: State<T>)
    requires Inv(s)
    ensures Sound(s.mon)
  {
  }

  lemma RoomForPush<T>(s: State<T>, me: Tid)
    requires Inv(s) && At(s.mon, me).Inside? && WorkOf(s, me).PutPush?
    ensures |s.queue| < s.capacity
  {
    assert Fits(s, At(s.mon, me), WorkOf(s, me));
  }

  lemma CapacityOfStep<T>(s: State<T>, a: Action<T>)
    ensures Apply(s, a).capacity == s.capacity
  {
  }
}
