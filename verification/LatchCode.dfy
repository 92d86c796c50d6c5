// wait and countDown of the latch as the threads run them, with any other threads in between.
module LatchCode {
  import opened Common
  import opened Monitor
  import opened Machine = Latch
  import opened Runs

  // The thread an action belongs to; a spurious wakeup belongs to nobody.
  predicate ByAnother(a: Action, me: Tid) {
    a.Wakeup? || a.t != me
  }

  // How often a thread has counted down.
  function CallsOf(downs: seq<Tid>, t: Tid): nat {
    multiset(downs)[t]
  }

  lemma CallsOfOneMore(downs: seq<Tid>, u: Tid, t: Tid)
    ensures CallsOf(downs + [u], t) == CallsOf(downs, t) + if u == t then 1 else 0
  {
  }

  // The call of a thread stands where it stood, and the count only goes down.
  ghost predicate Kept(s: State, s': State, me: Tid) {
    && WorkOf(s', me) == WorkOf(s, me) && CallsOf(s'.downs, me) == CallsOf(s.downs, me)
    && |s'.downs| >= |s.downs| && s'.count + |s'.downs| == s.count + |s.downs| && s.released <= s'.released
  }

  // What the other threads can and cannot do to a thread and, while it owns the mutex, to the count.
  ghost predicate Interfered(s: State, s': State, me: Tid) {
    && Kept(s, s', me)
    && (At(s'.mon, me) == At(s.mon, me) || (At(s.mon, me).Waiting? && At(s'.mon, me) == Woken(At(s.mon, me).c)))
    && (Owning(At(s.mon, me)) ==> s'.count == s.count && s'.mon.owner == s.mon.owner)
  }

  lemma OneInterference(s: State, a: Action, me: Tid)
    requires Sound(s.mon) && ByAnother(a, me)
    ensures Interfered(s, Apply(s, a), me)
  {
    match a
    case Turn(t) => if At(s.mon, t).Inside? { StatementInterferes(s, t, me); }
    case _ =>
  }

  lemma StatementInterferes(s: State, t: Tid, me: Tid)
    requires Sound(s.mon) && At(s.mon, t).Inside? && t != me
    ensures Interfered(s, Statement(s, t), me)
  {
    assert Owning(At(s.mon, t)) && !Owning(At(s.mon, me));
    CallsOfOneMore(s.downs, t, me);
  }

  // The next mutex instruction of the thread itself.
  lemma InstructionKeeps(s: State, me: Tid)
    requires CanAdvance(s.mon, me)
    ensures Kept(s, Apply(s, Instruction(me)), me) && Apply(s, Instruction(me)).count == s.count
    ensures At(Apply(s, Instruction(me)).mon, me) ==
      match At(s.mon, me)
      case Locking => Locked
      case Locked => Inside
      case Unlocking => Outside
      case Parking(c) => Waiting(c)
      case Woken(c) => Retaken(c)
      case Retaken(c) => Inside
      case other => other
  {
  }

  lemma InterferenceComposes(s: State, m: State, s': State, me: Tid)
    requires Interfered(s, m, me) && Interfered(m, s', me)
    ensures Interfered(s, s', me)
  {
  }

  class CountDownLatch {
    const start: int // the count at first
    var m_count: int
    var m_mutex: Mon // with the condition
    // The program counters of all threads, and what the scheduler lets them do between two
    // instructions of the running thread.
    var work: map<Tid, Work>
    var schedule: seq<seq<Action>>
    // Who has counted down so far, and the threads whose wait has returned.
    var downs: seq<Tid>
    var released: set<Tid>
    ghost var trace: seq<Action>

    function S(): State
      reads this
    {
      State(m_mutex, work, m_count, downs, released)
    }

    // Every state of the object is the state after a run of the machine.
    ghost predicate Valid()
      reads this
    {
      Inv(S()) && S() == Run(Initial(start), trace)
    }

    constructor (count: int, schedule: seq<seq<Action>>)
      ensures Valid() && start == count && this.schedule == schedule && S() == Initial(count)
    {
      start, m_count, m_mutex, work, downs, released := count, count, INITIAL, map[], [], {};
      this.schedule := schedule;
      trace := [];
      new;
      RunKeepsInv(Initial(start), []);
    }

    // One action of another thread.
    method Perform(a: Action)
      requires Valid()
      modifies this
      ensures Valid() && S() == Apply(old(S()), a) && schedule == old(schedule)
    {
      hide Inv, Apply;
      StepKeepsInv(S(), a);
      AfterOneMore(Apply, Initial(start), trace, a);
      var n := Apply(S(), a);
      m_count, m_mutex, work, downs, released := n.count, n.mon, n.work, n.downs, n.released;
      trace := trace + [a];
    }

    // The assignments before were an action of the running thread.
    ghost method Did(s: State, a: Action)
      requires Inv(s) && s == Run(Initial(start), trace) && S() == Apply(s, a)
      modifies this`trace
      ensures Valid()
    {
      hide Inv, Apply;
      StepKeepsInv(s, a);
      AfterOneMore(Apply, Initial(start), trace, a);
      trace := trace + [a];
    }

    // The next mutex instruction.
    method Step(me: Tid)
      requires Valid() && CanAdvance(m_mutex, me)
      modifies this
      ensures Valid() && S() == Apply(old(S()), Instruction(me)) && schedule == old(schedule)
    {
      hide Inv, Advance;
      ghost var s := S();
      m_mutex := Advance(m_mutex, me);
      Did(s, Instruction(me));
    }

    method EnterWait(me: Tid)
      requires Valid() && At(m_mutex, me).Outside?
      modifies this
      ensures Valid() && S() == Apply(old(S()), CallWait(me)) && schedule == old(schedule)
    {
      hide Inv;
      ghost var s := S();
      m_mutex, work := BeginLock(m_mutex, me), work[me := WaitTest];
      Did(s, CallWait(me));
    }

    method EnterCountDown(me: Tid)
      requires Valid() && At(m_mutex, me).Outside?
      modifies this
      ensures Valid() && S() == Apply(old(S()), CallCountDown(me)) && schedule == old(schedule)
    {
      hide Inv;
      ghost var s := S();
      m_mutex, work := BeginLock(m_mutex, me), work[me := Decrement];
      Did(s, CallCountDown(me));
    }

    // The wait's m_holder = 0, after a loop test that is true.
    method ReleaseToWait(me: Tid)
      requires Valid() && At(m_mutex, me).Inside? && WorkOf(S(), me).WaitTest? && m_count > 0
      modifies this
      ensures Valid() && S() == Apply(old(S()), Turn(me)) && schedule == old(schedule)
    {
      hide Inv;
      ghost var s := S();
      m_mutex := BeginWait(m_mutex, me, COND);
      Did(s, Turn(me));
    }

    // A loop test that is false.
    method PassTest(me: Tid)
      requires Valid() && At(m_mutex, me).Inside? && WorkOf(S(), me).WaitTest? && m_count <= 0
      modifies this
      ensures Valid() && S() == Apply(old(S()), Turn(me)) && schedule == old(schedule)
    {
      hide Inv;
      ghost var s := S();
      work := work[me := Work.Leave(true)];
      Did(s, Turn(me));
    }

    // --m_count, and the test for zero.
    method CountOne(me: Tid)
      requires Valid() && At(m_mutex, me).Inside? && WorkOf(S(), me).Decrement?
      modifies this
      ensures Valid() && S() == Apply(old(S()), Turn(me)) && schedule == old(schedule)
    {
      hide Inv;
      ghost var s := S();
      m_count := m_count - 1;
      downs, work := downs + [me], work[me := if m_count == 0 then Broadcast else Work.Leave(false)];
      Did(s, Turn(me));
    }

    // pthread_cond_broadcast.
    method WakeEverybody(me: Tid)
      requires Valid() && At(m_mutex, me).Inside? && WorkOf(S(), me).Broadcast?
      modifies this
      ensures Valid() && S() == Apply(old(S()), Turn(me)) && schedule == old(schedule)
    {
      hide Inv;
      ghost var s := S();
      m_mutex, work := WakeAll(m_mutex, COND, Sleepers(m_mutex, COND)), work[me := Work.Leave(false)];
      Did(s, Turn(me));
    }

    // The unlock's m_holder = 0.
    method Release(me: Tid)
      requires Valid() && At(m_mutex, me).Inside? && WorkOf(S(), me).Leave?
      modifies this
      ensures Valid() && S() == Apply(old(S()), Turn(me)) && schedule == old(schedule)
    {
      hide Inv;
      ghost var s := S();
      released := if work[me].waited then released + {me} else released;
      m_mutex, work := BeginUnlock(m_mutex, me), work[me := Idle];
      Did(s, Turn(me));
    }

    // What the other threads do before the running thread's next instruction.
    method Others(me: Tid)
      requires Valid()
      modifies this
      ensures Valid() && Interfered(old(S()), S(), me)
      ensures schedule == if old(schedule) == [] then [] else old(schedule)[1..]
    {
      hide Inv, Interfered, Apply;
      assert Interfered(S(), S(), me) by { InterferenceIsReflexive(S(), me); }
      if schedule != [] {
        var chunk := schedule[0];
        schedule := schedule[1..];
        for i := 0 to |chunk|
          invariant Valid() && Interfered(old(S()), S(), me) && schedule == old(schedule)[1..]
        {
          if ByAnother(chunk[i], me) {
            ghost var before := S();
            InvIsSound(before);
            OneInterference(before, chunk[i], me);
            Perform(chunk[i]);
            InterferenceComposes(old(S()), before, S(), me);
          }
        }
      }
    }

    // Until the thread is awake and the mutex is free; false when the schedule ends before.
    method AwaitMutex(me: Tid) returns (ok: bool)
      requires Valid() && (At(m_mutex, me).Locking? || At(m_mutex, me).Waiting?)
      modifies this
      ensures Valid() && Kept(old(S()), S(), me)
      ensures ok ==> m_mutex.owner == None && (At(m_mutex, me).Locking? || At(m_mutex, me).Woken?)
      ensures |schedule| <= |old(schedule)| && (ok && old(At(m_mutex, me).Waiting?) ==> |schedule| < |old(schedule)|)
      ensures old(At(m_mutex, me).Locking? && m_mutex.owner == None) ==> ok && S() == old(S())
    {
      hide Inv, At, WorkOf, Apply;
      ghost var before := At(m_mutex, me);
      while At(m_mutex, me).Waiting? || m_mutex.owner != None
        invariant Valid() && Kept(old(S()), S(), me)
        invariant At(m_mutex, me) == before || (before.Waiting? && At(m_mutex, me) == Woken(before.c))
        invariant |schedule| <= |old(schedule)|
        invariant before.Waiting? ==> At(m_mutex, me).Waiting? || |schedule| < |old(schedule)|
        invariant before.Locking? && old(m_mutex.owner) == None ==> S() == old(S())
        decreases |schedule|
      {
        if schedule == [] {
          return false;
        }
        Others(me);
      }
      ok := true;
    }

    // pthread_mutex_lock and assign(), or their part of pthread_cond_wait. False when the
    // schedule ends with the mutex still taken or the thread still asleep.
    method TakeMutex(me: Tid) returns (ok: bool)
      requires Valid() && (At(m_mutex, me).Locking? || At(m_mutex, me).Waiting?)
      modifies this
      ensures Valid() && Kept(old(S()), S(), me)
      ensures ok ==> At(m_mutex, me).Inside?
      ensures |schedule| <= |old(schedule)| && (ok && old(At(m_mutex, me).Waiting?) ==> |schedule| < |old(schedule)|)
      ensures old(At(m_mutex, me).Locking? && m_mutex.owner == None) ==> ok && m_count == old(m_count)
    {
      hide Inv, At, WorkOf, Apply;
      ok := AwaitMutex(me);
      if ok {
        InstructionKeeps(S(), me);
        Step(me); // takes the mutex
        Others(me);
        InstructionKeeps(S(), me);
        Step(me); // assign()
        Others(me);
      }
    }

    // The first half of a wait, from the true loop test: the thread gives the mutex up and sleeps.
    method FallAsleep(me: Tid)
      requires Valid() && At(m_mutex, me).Inside? && WorkOf(S(), me).WaitTest? && m_count > 0
      modifies this
      ensures Valid() && Kept(old(S()), S(), me) && |schedule| <= |old(schedule)|
      ensures m_mutex.owner == None && At(m_mutex, me) == Waiting(COND)
    {
      hide Inv, CallsOf;
      ReleaseToWait(me);
      Others(me);
      Step(me); // gives the mutex back and falls asleep
    }

    // m_cond.wait(), from the true loop test to the next loop test.
    method WaitOn(me: Tid) returns (ok: bool)
      requires Valid() && At(m_mutex, me).Inside? && WorkOf(S(), me).WaitTest? && m_count > 0
      modifies this
      ensures Valid() && Kept(old(S()), S(), me)
      ensures ok ==> At(m_mutex, me).Inside? && |schedule| < |old(schedule)|
    {
      hide Inv, CallsOf, WorkOf;
      FallAsleep(me);
      ok := TakeMutex(me);
    }

    // unlock().
    method Unlock(me: Tid)
      requires Valid() && At(m_mutex, me).Inside? && WorkOf(S(), me).Leave?
      modifies this
      ensures Valid() && At(m_mutex, me).Outside? && m_mutex.owner == None
      ensures |downs| >= |old(downs)| && m_count + |downs| == old(m_count + |downs|)
      ensures CallsOf(downs, me) == old(CallsOf(downs, me))
      ensures m_count == old(m_count)
      ensures old(released) <= released && (old(WorkOf(S(), me)) == Work.Leave(true) ==> me in released)
    {
      hide Inv, CallsOf;
      Release(me);
      Others(me);
      InstructionKeeps(S(), me);
      Step(me); // pthread_mutex_unlock
    }

    // When wait returns, countDown has been called as often as the count said.
    method Wait(me: Tid) returns (done: bool)
      requires Valid() && At(m_mutex, me).Outside?
      modifies this
      ensures Valid() && (done ==> At(m_mutex, me).Outside? && m_count <= 0 && |downs| >= start)
      ensures done ==> me in released
      ensures old(m_mutex.owner == None && m_count <= 0) ==> done
    {
      hide Inv, CallsOf;
      EnterWait(me);
      done := TakeMutex(me);
      if !done {
        return;
      }
      while m_count > 0
        invariant Valid() && At(m_mutex, me).Inside? && WorkOf(S(), me) == WaitTest
        invariant old(m_mutex.owner == None && m_count <= 0) ==> m_count == old(m_count)
        decreases |schedule|
      {
        done := WaitOn(me);
        if !done {
          return;
        }
      }
      PassTest(me);
      Others(me);
      Unlock(me);
      CountsAddUp(start, trace);
      done := true;
    }

    // A countDown that returns has counted down once, and one that does not return has not.
    // Once the count is down nobody is asleep when it returns.
    method CountDown(me: Tid) returns (done: bool)
      requires Valid() && At(m_mutex, me).Outside?
      modifies this
      ensures Valid() && m_count + |downs| == old(m_count + |downs|)
      ensures CallsOf(downs, me) == old(CallsOf(downs, me)) + if done then 1 else 0
      ensures done ==> At(m_mutex, me).Outside? && (m_count <= 0 ==> Sleepers(m_mutex, COND) == {})
      ensures old(m_mutex.owner == None) ==> done && m_count == old(m_count) - 1
    {
      hide Inv, CallsOf;
      EnterCountDown(me);
      done := TakeMutex(me);
      if !done {
        return;
      }
      CallsOfOneMore(downs, me, me);
      CountOne(me);
      Others(me);
      if m_count == 0 {
        NotifyAll(me);
      }
      Unlock(me);
      NobodyAsleep(S());
    }

    // m_cond.notifyAll(): everybody who slept is awake.
    method NotifyAll(me: Tid)
      requires Valid() && At(m_mutex, me).Inside? && WorkOf(S(), me).Broadcast?
      modifies this
      ensures Valid() && At(m_mutex, me).Inside? && WorkOf(S(), me).Leave?
      ensures |downs| >= |old(downs)| && m_count + |downs| == old(m_count + |downs|)
      ensures CallsOf(downs, me) == old(CallsOf(downs, me))
      ensures m_count == old(m_count)
    {
      hide Inv, CallsOf;
      WakeEverybody(me);
      Others(me);
    }
  }

  lemma NobodyAsleep(s: State)
    requires Inv(s)
    ensures s.count <= 0 && s.mon.owner == None ==> Sleepers(s.mon, COND) == {}
  {
  }

  lemma InterferenceIsReflexive(s: State, me: Tid)
    ensures Interfered(s, s, me)
  {
  }

  lemma InvIsSound(s: State)
    requires Inv(s)
    ensures Sound(s.mon)
  {
  }

  lemma CountsAddUp(count: int, actions: seq<Action>)
    ensures var s := Run(Initial(count), actions); s.count + |s.downs| == count
  {
    RunKeepsInv(Initial(count), actions);
  }
}
