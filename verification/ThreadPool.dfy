// The thread pool: callers run tasks, workers take and execute them, and stop shuts it down.
module ThreadPool {
  import opened Common
  import opened Monitor
  import opened Histories
  import opened Runs

  const NOT_FULL := 0
  const NOT_EMPTY := 1

  // What a thread has left to do. The first group belongs to callers of run and stop, the
  // second to workers in runInThread and getTask.
  datatype Work<T> =
    | Idle
    | RunTest(task: T)
    | RunPush(task: T)
    | RunNotify
    | StopClear
    | StopBroadcast
    | LeaveCall
    | LoopTest               // reads m_brunning without the mutex
    | GetTest                // the loop test of getTask
    | GetPop
    | GetNotify(task: T)
    | GetReturn(got: Option<T>)
    | Execute(got: Option<T>) // back in runInThread with what getTask returned
    | Finished

  // accepted and taken record which thread handed over or took which task.
  datatype State<T> = State(
    mon: Mon,
    work: map<Tid, Work<T>>,
    workers: set<Tid>,
    running: bool,
    maxQueueSize: nat,
    tasks: seq<T>,
    accepted: seq<(Tid, T)>,
    taken: seq<(Tid, T)>)

  // start() has set the flag and created the workers.
  function Initial<T>(workers: set<Tid>, maxQueueSize: nat): State<T> {
    State(INITIAL, map t | t in workers :: LoopTest, workers, true, maxQueueSize, [], [], [])
  }

  function WorkOf<T>(s: State<T>, t: Tid): Work<T> {
    if t in s.work then s.work[t] else Idle
  }

  function SetWork<T>(s: State<T>, t: Tid, w: Work<T>): State<T> {
    s.(work := s.work[t := w])
  }

  datatype Action<T> =
    | CallRun(t: Tid, task: T)
    | CallStop(t: Tid)
    | Proceed(t: Tid)               // a worker's next step outside getTask
    | Instruction(t: Tid)
    | Wakeup(t: Tid)
    | Turn(t: Tid, woken: set<Tid>)

  predicate IsFull<T>(s: State<T>) {
    |s.tasks| >= s.maxQueueSize
  }

  function Statement<T>(s: State<T>, t: Tid, woken: set<Tid>): State<T>
    requires At(s.mon, t).Inside?
  {
    match WorkOf(s, t)
    case RunTest(task) => if IsFull(s) then s.(mon := BeginWait(s.mon, t, NOT_FULL)) else SetWork(s, t, RunPush(task))
    case RunPush(task) => SetWork(s, t, RunNotify).(tasks := s.tasks + [task], accepted := s.accepted + [(t, task)])
    case RunNotify =>
      if Wakes(s.mon, NOT_EMPTY, woken) then SetWork(s, t, LeaveCall).(mon := WakeAll(s.mon, NOT_EMPTY, woken)) else s
    case StopClear => SetWork(s, t, StopBroadcast).(running := false)
    case StopBroadcast => SetWork(s, t, LeaveCall).(mon := WakeAll(s.mon, NOT_EMPTY, Sleepers(s.mon, NOT_EMPTY)))
    case LeaveCall => SetWork(s, t, Idle).(mon := BeginUnlock(s.mon, t))
    case GetTest =>
      if s.tasks == [] && s.running then s.(mon := BeginWait(s.mon, t, NOT_EMPTY))
      else SetWork(s, t, if s.tasks == [] then GetReturn(None) else GetPop)
    case GetPop =>
      if s.tasks == [] then s
      else SetWork(s, t, GetNotify(s.tasks[0])).(tasks := s.tasks[1..], taken := s.taken + [(t, s.tasks[0])])
    case GetNotify(task) =>
      if Wakes(s.mon, NOT_FULL, woken)
      then SetWork(s, t, GetReturn(Some(task))).(mon := WakeAll(s.mon, NOT_FULL, woken)) else s
    case GetReturn(got) => SetWork(s, t, Execute(got)).(mon := BeginUnlock(s.mon, t))
    case _ => s
  }

  function Apply<T>(s: State<T>, a: Action<T>): State<T> {
    match a
    case CallRun(t, task) =>
      if At(s.mon, t).Outside? && t !in s.workers then SetWork(s, t, RunTest(task)).(mon := BeginLock(s.mon, t)) else s
    case CallStop(t) =>
      if At(s.mon, t).Outside? && t !in s.workers then SetWork(s, t, StopClear).(mon := BeginLock(s.mon, t)) else s
    case Proceed(t) =>
      if !At(s.mon, t).Outside? then s
      else if WorkOf(s, t).LoopTest? then
        if s.running then SetWork(s, t, GetTest).(mon := BeginLock(s.mon, t)) else SetWork(s, t, Finished)
      else if WorkOf(s, t).Execute? then SetWork(s, t, LoopTest)
      else s
    case Instruction(t) => if CanAdvance(s.mon, t) then s.(mon := Advance(s.mon, t)) else s
    case Wakeup(t) => if At(s.mon, t).Waiting? then s.(mon := WakeAll(s.mon, At(s.mon, t).c, {t})) else s
    case Turn(t, woken) => if At(s.mon, t).Inside? then Statement(s, t, woken) else s
  }

  function Run<T>(s: State<T>, actions: seq<Action<T>>): State<T> {
    After(Apply, s, actions)
  }

  // Tasks for workers, free slots for callers of run.
  function Units<T>(s: State<T>, c: nat): int {
    if c == NOT_EMPTY then (if s.running then |s.tasks| else 0) else s.maxQueueSize - |s.tasks|
  }

  predicate TestOf<T>(w: Work<T>, c: nat) {
    if c == NOT_EMPTY then w.GetTest? else c == NOT_FULL && w.RunTest?
  }

  predicate Due<T>(p: Pos, w: Work<T>, c: nat) {
    || p == Woken(c) || p == Retaken(c)
    || (p.Inside? && (TestOf(w, c) || (if c == NOT_EMPTY then w.GetPop? || w.RunNotify? else w.RunPush? || w.GetNotify?)))
  }

  function DueThreads<T>(s: State<T>, c: nat): (ts: set<Tid>)
    ensures forall t :: t in ts <==> Due(At(s.mon, t), WorkOf(s, t), c)
  {
    set t | t in s.mon.pos && Due(s.mon.pos[t], WorkOf(s, t), c)
  }

  predicate WorkerWork<T>(w: Work<T>) {
    w.LoopTest? || w.GetTest? || w.GetPop? || w.GetNotify? || w.GetReturn? || w.Execute? || w.Finished?
  }

  predicate Fits<T>(s: State<T>, p: Pos, w: Work<T>, worker: bool) {
    && WorkerWork(w) == worker
    && match p
       case Outside => w.Idle? || w.LoopTest? || w.Execute? || (w.Finished? && !s.running)
       case Locking => w.RunTest? || w.StopClear? || w.GetTest?
       case Locked => w.RunTest? || w.StopClear? || w.GetTest?
       case Inside =>
         && !w.Idle? && !w.LoopTest? && !w.Execute? && !w.Finished?
         && (w.RunPush? ==> |s.tasks| < s.maxQueueSize) && (w.GetPop? ==> s.tasks != [])
         && (w.StopBroadcast? ==> !s.running)
       case Unlocking => w.Idle? || w.Execute?
       case Parking(c) => TestOf(w, c) && (if c == NOT_EMPTY then s.tasks == [] && s.running else |s.tasks| >= s.maxQueueSize)
       case Waiting(c) => TestOf(w, c)
       case Woken(c) => TestOf(w, c)
       case Retaken(c) => TestOf(w, c)
  }

  ghost predicate NoLostWakeup<T>(s: State<T>, c: nat) {
    Sleepers(s.mon, c) != {} ==> Units(s, c) <= |DueThreads(s, c)|
  }

  // After the flag is cleared a worker sleeps only until the broadcast that follows.
  ghost predicate NobodyLeftAsleep<T>(s: State<T>) {
    !s.running && Sleepers(s.mon, NOT_EMPTY) != {} ==>
      s.mon.owner.Some? && At(s.mon, s.mon.owner.value).Inside? && WorkOf(s, s.mon.owner.value).StopBroadcast?
  }

  ghost predicate AllFit<T>(s: State<T>) {
    forall t: Tid :: Fits(s, At(s.mon, t), WorkOf(s, t), t in s.workers)
  }

  ghost predicate Inv<T>(s: State<T>) {
    && Sound(s.mon) && AllFit(s)
    && |s.tasks| <= s.maxQueueSize
    && Values(s.taken) + s.tasks == Values(s.accepted)
    && NoLostWakeup(s, NOT_EMPTY) && NoLostWakeup(s, NOT_FULL)
    && NobodyLeftAsleep(s)
  }

  // A step of one thread.
  ghost predicate MovesOnly<T>(s: State<T>, s': State<T>, t: Tid) {
    && s'.maxQueueSize == s.maxQueueSize && s'.workers == s.workers && (s'.running ==> s.running)
    && (forall u: Tid :: u != t ==> At(s'.mon, u) == At(s.mon, u) && WorkOf(s', u) == WorkOf(s, u))
    && ((s'.tasks == s.tasks && s'.running == s.running) || At(s.mon, t).Inside?)
  }

  predicate Balanced<T>(s: State<T>, s': State<T>, t: Tid, c: nat) {
    var before, after := Due(At(s.mon, t), WorkOf(s, t), c), Due(At(s'.mon, t), WorkOf(s', t), c);
    || Units(s', c) <= 0
    || (At(s'.mon, t) != Waiting(c) &&
        Units(s', c) - Units(s, c) <= (if after then 1 else 0) - (if before then 1 else 0))
  }

  lemma MoveKeepsWakeups<T>(s: State<T>, s': State<T>, t: Tid, c: nat)
    requires MovesOnly(s, s', t) && NoLostWakeup(s, c) && Balanced(s, s', t, c)
    ensures NoLostWakeup(s', c)
  {
    hide Due, At, WorkOf, Units;
    SizeAfterMove(DueThreads(s, c), DueThreads(s', c), t);
    if Units(s', c) > 0 && Sleepers(s'.mon, c) != {} {
      var u :| u in Sleepers(s'.mon, c);
      assert u in Sleepers(s.mon, c);
    }
  }

  lemma OthersFit<T>(s: State<T>, s': State<T>, t: Tid, u: Tid)
    requires Sound(s.mon) && AllFit(s) && MovesOnly(s, s', t) && u != t
    ensures Fits(s', At(s'.mon, u), WorkOf(s', u), u in s'.workers)
  {
    assert Fits(s, At(s.mon, u), WorkOf(s, u), u in s.workers);
    assert At(s.mon, t).Inside? ==> Owning(At(s.mon, t)) && !Owning(At(s.mon, u));
  }

  // The steps that touch the flag, the broadcast or the sleepers on NOT_EMPTY say so here.
  lemma MoveKeepsInv<T>(s: State<T>, s': State<T>, t: Tid)
    requires Inv(s) && Sound(s'.mon) && MovesOnly(s, s', t) && |s'.tasks| <= s'.maxQueueSize
    requires Fits(s', At(s'.mon, t), WorkOf(s', t), t in s'.workers)
    requires Values(s'.taken) + s'.tasks == Values(s'.accepted)
    requires Balanced(s, s', t, NOT_EMPTY) && Balanced(s, s', t, NOT_FULL)
    requires NobodyLeftAsleep(s')
    ensures Inv(s')
  {
    hide Fits, Balanced, NoLostWakeup, Sound, At, WorkOf, Values, NobodyLeftAsleep;
    forall u: Tid
      ensures Fits(s', At(s'.mon, u), WorkOf(s', u), u in s'.workers)
    {
      if u != t { OthersFit(s, s', t, u); }
    }
    MoveKeepsWakeups(s, s', t, NOT_EMPTY);
    MoveKeepsWakeups(s, s', t, NOT_FULL);
  }

  // A step that is neither the clearing of the flag nor the broadcast leaves nobody asleep
  // who was not.
  lemma MoveLeavesNobodyAsleep<T>(s: State<T>, s': State<T>, t: Tid)
    requires Sound(s.mon) && NobodyLeftAsleep(s) && MovesOnly(s, s', t) && s'.running == s.running
    requires !(At(s.mon, t).Inside? && WorkOf(s, t).StopBroadcast?)
    requires At(s'.mon, t) != Waiting(NOT_EMPTY) || s.running
    requires s.mon.owner.Some? && s.mon.owner.value != t ==> s'.mon.owner == s.mon.owner
    ensures NobodyLeftAsleep(s')
  {
    if !s'.running && Sleepers(s'.mon, NOT_EMPTY) != {} {
      var u :| u in Sleepers(s'.mon, NOT_EMPTY);
      assert u in Sleepers(s.mon, NOT_EMPTY);
    }
  }

  // A signal by t on side c, after which t goes on with the given work.
  ghost predicate Signals<T>(s: State<T>, t: Tid, c: nat, woken: set<Tid>, next: Work<T>) {
    && Inv(s) && At(s.mon, t).Inside? && Wakes(s.mon, c, woken)
    && ((c == NOT_EMPTY && WorkOf(s, t).RunNotify? && next.LeaveCall?) ||
        (c == NOT_FULL && WorkOf(s, t).GetNotify? && next.GetReturn?))
  }

  function Signalled<T>(s: State<T>, t: Tid, c: nat, woken: set<Tid>, next: Work<T>): State<T>
    requires woken <= Sleepers(s.mon, c)
  {
    SetWork(s, t, next).(mon := WakeAll(s.mon, c, woken))
  }

  lemma SignalOf<T>(s: State<T>, t: Tid, c: nat, woken: set<Tid>, next: Work<T>, u: Tid)
    requires Signals(s, t, c, woken, next)
    ensures
      var s' := Signalled(s, t, c, woken, next);
      Fits(s', At(s'.mon, u), WorkOf(s', u), u in s'.workers)
  {
    hide NoLostWakeup, Sound, Values, NobodyLeftAsleep;
    assert Fits(s, At(s.mon, u), WorkOf(s, u), u in s.workers);
    assert Fits(s, At(s.mon, t), WorkOf(s, t), t in s.workers);
    assert t !in woken;
  }

  lemma SignalDue<T>(s: State<T>, t: Tid, c: nat, woken: set<Tid>, next: Work<T>, side: nat, u: Tid)
    requires Signals(s, t, c, woken, next) && (side == NOT_EMPTY || side == NOT_FULL)
    ensures
      var s' := Signalled(s, t, c, woken, next);
      Due(At(s'.mon, u), WorkOf(s', u), side) <==>
        if side == c then u in woken || (u != t && u in DueThreads(s, c)) else u in DueThreads(s, side)
  {
    hide Inv, Fits;
    assert t !in woken;
  }

  lemma SignalParts<T>(s: State<T>, t: Tid, c: nat, woken: set<Tid>, next: Work<T>)
    requires Signals(s, t, c, woken, next)
    ensures t in DueThreads(s, c) && t !in woken && woken !! DueThreads(s, c)
  {
    hide Inv, Fits;
  }

  lemma SignalKeepsInv<T>(s: State<T>, t: Tid, c: nat, woken: set<Tid>, next: Work<T>)
    requires Signals(s, t, c, woken, next)
    ensures Inv(Signalled(s, t, c, woken, next))
  {
    hide Due, Fits, Values, Sound;
    var s' := Signalled(s, t, c, woken, next);
    SectionSound(s.mon, t, c);
    forall u: Tid { SignalOf(s, t, c, woken, next, u); }
    var other := if c == NOT_EMPTY then NOT_FULL else NOT_EMPTY;
    forall u: Tid { SignalDue(s, t, c, woken, next, c, u); }
    forall u: Tid { SignalDue(s, t, c, woken, next, other, u); }
    SignalParts(s, t, c, woken, next);
    SizeAfterSignal(DueThreads(s, c), DueThreads(s', c), t, woken);
    assert DueThreads(s', other) == DueThreads(s, other);
    assert Sleepers(s'.mon, other) == Sleepers(s.mon, other);
    assert Sleepers(s'.mon, c) <= Sleepers(s.mon, c);
    assert NobodyLeftAsleep(s') by { SignallerIsNoBroadcaster(s, t, c, woken, next); }
  }

  lemma SignallerIsNoBroadcaster<T>(s: State<T>, t: Tid, c: nat, woken: set<Tid>, next: Work<T>)
    requires Signals(s, t, c, woken, next)
    ensures NobodyLeftAsleep(Signalled(s, t, c, woken, next))
  {
    hide Fits, Values, NoLostWakeup;
    var s' := Signalled(s, t, c, woken, next);
    assert s.mon.owner == Some(t) by { assert Owning(At(s.mon, t)); }
    assert forall u: Tid :: u in Sleepers(s'.mon, NOT_EMPTY) ==> u in Sleepers(s.mon, NOT_EMPTY);
  }

  lemma BroadcastFits<T>(s: State<T>, t: Tid, u: Tid)
    requires Inv(s) && At(s.mon, t).Inside? && WorkOf(s, t).StopBroadcast?
    ensures !s.running
    ensures var s' := Statement(s, t, {});
            Fits(s', At(s'.mon, u), WorkOf(s', u), u in s'.workers)
    ensures var s' := Statement(s, t, {});
            Due(At(s'.mon, u), WorkOf(s', u), NOT_FULL) <==> u in DueThreads(s, NOT_FULL)
  {
    hide NoLostWakeup, NobodyLeftAsleep, Sound, Values;
    assert Fits(s, At(s.mon, u), WorkOf(s, u), u in s.workers);
    assert Fits(s, At(s.mon, t), WorkOf(s, t), t in s.workers);
  }

  lemma BroadcastKeepsInv<T>(s: State<T>, t: Tid)
    requires Inv(s) && At(s.mon, t).Inside? && WorkOf(s, t).StopBroadcast?
    ensures Inv(Statement(s, t, {}))
  {
    hide Values, Sound, Fits, Due;
    var s' := Statement(s, t, {});
    SectionSound(s.mon, t, NOT_EMPTY);
    forall u: Tid { BroadcastFits(s, t, u); }
    BroadcastFits(s, t, t);
    assert Sleepers(s'.mon, NOT_EMPTY) == {};
    assert Sleepers(s'.mon, NOT_FULL) == Sleepers(s.mon, NOT_FULL);
    assert DueThreads(s', NOT_FULL) == DueThreads(s, NOT_FULL);
  }

  lemma ClearKeepsInv<T>(s: State<T>, t: Tid)
    requires Inv(s) && At(s.mon, t).Inside? && WorkOf(s, t).StopClear?
    ensures Inv(Statement(s, t, {}))
  {
    hide NoLostWakeup, Values;
    var s' := Statement(s, t, {});
    assert Fits(s, At(s.mon, t), WorkOf(s, t), t in s.workers);
    assert s.mon.owner == Some(t) by { assert Owning(At(s.mon, t)); }
    MoveKeepsInv(s, s', t);
  }

  lemma PushKeepsInv<T>(s: State<T>, t: Tid)
    requires Inv(s) && At(s.mon, t).Inside? && WorkOf(s, t).RunPush?
    ensures Inv(Statement(s, t, {}))
  {
    hide NoLostWakeup, Sound, NobodyLeftAsleep;
    var s' := Statement(s, t, {});
    assert Fits(s, At(s.mon, t), WorkOf(s, t), t in s.workers);
    OwnerIs(s.mon, t);
    MoveLeavesNobodyAsleep(s, s', t);
    MoveKeepsInv(s, s', t);
  }

  lemma PopKeepsInv<T>(s: State<T>, t: Tid)
    requires Inv(s) && At(s.mon, t).Inside? && WorkOf(s, t).GetPop?
    ensures Inv(Statement(s, t, {}))
  {
    hide NoLostWakeup, Sound, NobodyLeftAsleep;
    var s' := Statement(s, t, {});
    assert Fits(s, At(s.mon, t), WorkOf(s, t), t in s.workers);
    assert Values(s'.taken) == Values(s.taken) + [s.tasks[0]];
    assert s.tasks == [s.tasks[0]] + s'.tasks;
    OwnerIs(s.mon, t);
    MoveLeavesNobodyAsleep(s, s', t);
    MoveKeepsInv(s, s', t);
  }

  lemma OwnerIs(m: Mon, t: Tid)
    requires Sound(m) && Owning(At(m, t))
    ensures m.owner == Some(t)
  {
  }

  lemma StatementKeepsInv<T>(s: State<T>, t: Tid, woken: set<Tid>)
    requires Inv(s) && At(s.mon, t).Inside?
    ensures Inv(Statement(s, t, woken))
  {
    hide NoLostWakeup, Sound, Sleepers, WakeAll, NobodyLeftAsleep, Values;
    match WorkOf(s, t)
    case RunPush(_) => PushKeepsInv(s, t);
    case RunNotify => if Wakes(s.mon, NOT_EMPTY, woken) { SignalKeepsInv(s, t, NOT_EMPTY, woken, LeaveCall); }
    case StopClear => ClearKeepsInv(s, t);
    case StopBroadcast => BroadcastKeepsInv(s, t);
    case GetPop => PopKeepsInv(s, t);
    case GetNotify(task) =>
      if Wakes(s.mon, NOT_FULL, woken) { SignalKeepsInv(s, t, NOT_FULL, woken, GetReturn(Some(task))); }
    case _ => PlainStatementKeepsInv(s, t, woken);
  }

  lemma PlainStatementKeepsInv<T>(s: State<T>, t: Tid, woken: set<Tid>)
    requires Inv(s) && At(s.mon, t).Inside?
    requires var w := WorkOf(s, t); w.RunTest? || w.LeaveCall? || w.GetTest? || w.GetReturn? || w.Idle? || w.LoopTest? || w.Execute? || w.Finished?
    ensures Inv(Statement(s, t, woken))
  {
    hide NoLostWakeup, Sound, Sleepers, WakeAll, NobodyLeftAsleep, Values;
    var s' := Statement(s, t, woken);
    SectionSound(s.mon, t, NOT_FULL);
    SectionSound(s.mon, t, NOT_EMPTY);
    assert Fits(s, At(s.mon, t), WorkOf(s, t), t in s.workers);
    OwnerIs(s.mon, t);
    MoveLeavesNobodyAsleep(s, s', t);
    MoveKeepsInv(s, s', t);
  }

  lemma CallKeepsInv<T>(s: State<T>, t: Tid, w: Work<T>)
    requires Inv(s) && At(s.mon, t).Outside?
    requires if t in s.workers then WorkOf(s, t).LoopTest? && w.GetTest? else w.RunTest? || w.StopClear?
    ensures Inv(SetWork(s, t, w).(mon := BeginLock(s.mon, t)))
  {
    hide NoLostWakeup, Values;
    var s' := SetWork(s, t, w).(mon := BeginLock(s.mon, t));
    SectionSound(s.mon, t, 0);
    MoveLeavesNobodyAsleep(s, s', t);
    MoveKeepsInv(s, s', t);
  }

  lemma ProceedKeepsInv<T>(s: State<T>, t: Tid)
    requires Inv(s)
    ensures Inv(Apply(s, Proceed(t)))
  {
    hide NoLostWakeup, Values;
    assert Fits(s, At(s.mon, t), WorkOf(s, t), t in s.workers);
    var s' := Apply(s, Proceed(t));
    if s' != s {
      if WorkOf(s, t).LoopTest? && s.running {
        CallKeepsInv(s, t, GetTest);
      } else {
        MoveLeavesNobodyAsleep(s, s', t);
        MoveKeepsInv(s, s', t);
      }
    }
  }

  lemma AdvanceKeepsInv<T>(s: State<T>, t: Tid)
    requires Inv(s) && CanAdvance(s.mon, t)
    ensures Inv(s.(mon := Advance(s.mon, t)))
  {
    hide NoLostWakeup, Values, NobodyLeftAsleep;
    var s' := s.(mon := Advance(s.mon, t));
    assert Fits(s, At(s.mon, t), WorkOf(s, t), t in s.workers);
    AdvanceSound(s.mon, t);
    AdvanceOwner(s.mon, t);
    MoveLeavesNobodyAsleep(s, s', t);
    hide Sound;
    MoveKeepsInv(s, s', t);
  }

  lemma AdvanceOwner(m: Mon, t: Tid)
    requires Sound(m) && CanAdvance(m, t)
    ensures m.owner.Some? && m.owner.value != t ==> Advance(m, t).owner == m.owner
  {
  }

  lemma WakeupKeepsInv<T>(s: State<T>, t: Tid)
    requires Inv(s) && At(s.mon, t).Waiting?
    ensures Inv(s.(mon := WakeAll(s.mon, At(s.mon, t).c, {t})))
  {
    hide NoLostWakeup, Values, NobodyLeftAsleep;
    var s' := s.(mon := WakeAll(s.mon, At(s.mon, t).c, {t}));
    assert Fits(s, At(s.mon, t), WorkOf(s, t), t in s.workers);
    SectionSound(s.mon, t, At(s.mon, t).c);
    MoveLeavesNobodyAsleep(s, s', t);
    MoveKeepsInv(s, s', t);
  }

  lemma StepKeepsInv<T>(s: State<T>, a: Action<T>)
    requires Inv(s)
    ensures Inv(Apply(s, a))
  {
    hide Inv;
    match a
    case CallRun(t, task) => if At(s.mon, t).Outside? && t !in s.workers { CallKeepsInv(s, t, RunTest(task)); }
    case CallStop(t) => if At(s.mon, t).Outside? && t !in s.workers { CallKeepsInv(s, t, StopClear); }
    case Proceed(t) => ProceedKeepsInv(s, t);
    case Instruction(t) => if CanAdvance(s.mon, t) { AdvanceKeepsInv(s, t); }
    case Wakeup(t) => if At(s.mon, t).Waiting? { WakeupKeepsInv(s, t); }
    case Turn(t, woken) => if At(s.mon, t).Inside? { StatementKeepsInv(s, t, woken); }
  }

  lemma {:induction false} RunKeepsInv<T>(s: State<T>, actions: seq<Action<T>>)
    requires Inv(s)
    ensures Inv(Run(s, actions))
    decreases actions
  {
    if actions != [] {
      StepKeepsInv(s, actions[0]);
      RunKeepsInv(Apply(s, actions[0]), actions[1..]);
    }
  }

  lemma Reachable<T>(workers: set<Tid>, maxQueueSize: nat, actions: seq<Action<T>>)
    ensures Inv(Run(Initial(workers, maxQueueSize), actions))
  {
    RunKeepsInv(Initial(workers, maxQueueSize), actions);
  }

  lemma {:induction false} SettingsAreFixed<T>(s: State<T>, actions: seq<Action<T>>)
    ensures Run(s, actions).workers == s.workers && Run(s, actions).maxQueueSize == s.maxQueueSize
    decreases actions
  {
    if actions != [] {
      SettingsOfStep(s, actions[0]);
      SettingsAreFixed(Apply(s, actions[0]), actions[1..]);
    }
  }

  lemma SettingsOfStep<T>(s: State<T>, a: Action<T>)
    ensures Apply(s, a).workers == s.workers && Apply(s, a).maxQueueSize == s.maxQueueSize
  {
  }

  // First in, first out and exactly once: the tasks taken, in order, and then the queue, are the
  // tasks accepted, in order, so no task goes to two workers; and the queue keeps its limit.
  lemma Fifo<T>(workers: set<Tid>, maxQueueSize: nat, actions: seq<Action<T>>)
    ensures
      var s := Run(Initial(workers, maxQueueSize), actions);
      Values(s.taken) + s.tasks == Values(s.accepted) && |s.tasks| <= maxQueueSize
  {
    Reachable(workers, maxQueueSize, actions);
    SettingsAreFixed(Initial<T>(workers, maxQueueSize), actions);
  }

  // Whenever the mutex is free: a worker sleeps unsignalled only while the pool runs and every
  // task has a woken worker; a caller only while every free slot has a woken caller.
  lemma NoLostWakeups<T>(workers: set<Tid>, maxQueueSize: nat, actions: seq<Action<T>>)
    ensures
      var s := Run(Initial(workers, maxQueueSize), actions);
      s.mon.owner == None ==>
        && (Sleepers(s.mon, NOT_EMPTY) != {} ==> s.running && |s.tasks| <= |Signallees(s.mon, NOT_EMPTY)|)
        && (Sleepers(s.mon, NOT_FULL) != {} ==> s.maxQueueSize - |s.tasks| <= |Signallees(s.mon, NOT_FULL)|)
  {
    var s := Run(Initial(workers, maxQueueSize), actions);
    Reachable(workers, maxQueueSize, actions);
    hide Fits;
    if s.mon.owner == None {
      assert forall t :: !Owning(At(s.mon, t));
      assert DueThreads(s, NOT_EMPTY) == Signallees(s.mon, NOT_EMPTY);
      assert DueThreads(s, NOT_FULL) == Signallees(s.mon, NOT_FULL);
    }
  }

  // Nobody can execute anything: no mutex instruction, no statement, and no step of a worker
  // outside getTask (tasks return).
  ghost predicate Quiet<T>(s: State<T>) {
    forall t: Tid ::
      !CanAdvance(s.mon, t) && !At(s.mon, t).Inside? &&
      !(At(s.mon, t).Outside? && (WorkOf(s, t).LoopTest? || WorkOf(s, t).Execute?))
  }

  lemma QuietWorker<T>(s: State<T>, w: Tid)
    requires Inv(s) && Quiet(s) && w in s.workers
    ensures if s.running then At(s.mon, w) == Waiting(NOT_EMPTY) else WorkOf(s, w).Finished?
    ensures s.running ==> s.tasks == []
  {
    hide NoLostWakeup, Values;
    QuietMeansAsleep(s.mon);
    assert Fits(s, At(s.mon, w), WorkOf(s, w), w in s.workers);
    if At(s.mon, w) == Waiting(NOT_EMPTY) {
      assert w in Sleepers(s.mon, NOT_EMPTY);
      if s.running { QuietQueue(s); }
    }
  }

  lemma QuietQueue<T>(s: State<T>)
    requires Inv(s) && Quiet(s)
    ensures s.running && Sleepers(s.mon, NOT_EMPTY) != {} ==> s.tasks == []
    ensures Sleepers(s.mon, NOT_FULL) != {} ==> |s.tasks| == s.maxQueueSize
  {
    hide Fits, Values;
    QuietMeansAsleep(s.mon);
    assert DueThreads(s, NOT_EMPTY) == {};
    assert DueThreads(s, NOT_FULL) == {};
  }

  // No deadlock while the pool runs: with a worker and room for a task, when nothing can move
  // every accepted task has been taken and no caller of run is blocked.
  lemma NoDeadlock<T>(workers: set<Tid>, maxQueueSize: nat, actions: seq<Action<T>>)
    requires workers != {} && maxQueueSize > 0
    requires Quiet(Run(Initial(workers, maxQueueSize), actions)) && Run(Initial(workers, maxQueueSize), actions).running
    ensures
      var s := Run(Initial(workers, maxQueueSize), actions);
      Values(s.taken) == Values(s.accepted) && Sleepers(s.mon, NOT_FULL) == {}
  {
    var s := Run(Initial(workers, maxQueueSize), actions);
    Reachable(workers, maxQueueSize, actions);
    SettingsAreFixed(Initial<T>(workers, maxQueueSize), actions);
    var w :| w in workers;
    QuietWorker(s, w);
    QuietQueue(s);
  }

  // --- Shutdown -----------------------------------------------------------------------------

  // stop has cleared the flag and its broadcast has been sent.
  ghost predicate Stopped<T>(s: State<T>) {
    Inv(s) && !s.running && Sleepers(s.mon, NOT_EMPTY) == {}
  }

  // As soon as the mutex is free after the flag was cleared, the pool has stopped ...
  lemma FreeMutexMeansStopped<T>(s: State<T>)
    requires Inv(s) && !s.running && s.mon.owner == None
    ensures Stopped(s)
  {
  }

  // ... and from then on no worker ever sleeps again.
  lemma StepKeepsStopped<T>(s: State<T>, a: Action<T>)
    requires Stopped(s)
    ensures Stopped(Apply(s, a))
  {
    hide NoLostWakeup, Values, NobodyLeftAsleep, WakeAll, Apply, Fits, Sound;
    StepKeepsInv(s, a);
    var s' := Apply(s, a);
    forall t: Tid
      ensures At(s'.mon, t) != Waiting(NOT_EMPTY)
    {
      assert At(s.mon, t) != Waiting(NOT_EMPTY) by { assert t !in Sleepers(s.mon, NOT_EMPTY); }
      assert Fits(s, At(s.mon, t), WorkOf(s, t), t in s.workers);
      StepKeepsAwake(s, a, t);
    }
    FlagStaysClear(s, a);
  }

  lemma StepKeepsAwake<T>(s: State<T>, a: Action<T>, t: Tid)
    requires !s.running && At(s.mon, t) != Waiting(NOT_EMPTY) && Fits(s, At(s.mon, t), WorkOf(s, t), t in s.workers)
    ensures At(Apply(s, a).mon, t) != Waiting(NOT_EMPTY)
  {
    hide WakeAll, Sleepers;
  }

  lemma FlagStaysClear<T>(s: State<T>, a: Action<T>)
    requires !s.running
    ensures !Apply(s, a).running
  {
    hide WakeAll, Sleepers;
  }

  // The tasks a worker may still take: one if it is already past the flag, otherwise none.
  function MayTake<T>(s: State<T>, w: Tid): nat {
    if WorkOf(s, w).GetTest? || WorkOf(s, w).GetPop? then 1 else 0
  }

  lemma StepTakes<T>(s: State<T>, a: Action<T>, w: Tid)
    requires !s.running && w in s.workers
    ensures |Mine(Apply(s, a).taken, w)| + MayTake(Apply(s, a), w) <= |Mine(s.taken, w)| + MayTake(s, w)
  {
    hide WakeAll, Advance, Statement, Mine;
    match a
    case Turn(t, woken) => if At(s.mon, t).Inside? { StatementTakes(s, t, woken, w); }
    case _ =>
  }

  lemma StatementTakes<T>(s: State<T>, t: Tid, woken: set<Tid>, w: Tid)
    requires At(s.mon, t).Inside? && w in s.workers
    ensures
      |Mine(Statement(s, t, woken).taken, w)| + MayTake(Statement(s, t, woken), w) <= |Mine(s.taken, w)| + MayTake(s, w)
  {
    hide WakeAll, Sleepers, Mine, At;
    if WorkOf(s, t).GetPop? && s.tasks != [] {
      MineOfOneMore(s.taken, t, s.tasks[0], w);
    }
  }

  lemma StoppedIsNotRunning<T>(s: State<T>)
    requires Stopped(s)
    ensures !s.running
  {
  }

  // After stop at most one further task is dequeued by each worker.
  lemma {:induction false} AtMostOneMoreTask<T>(s: State<T>, actions: seq<Action<T>>, w: Tid)
    requires Stopped(s) && w in s.workers
    ensures Stopped(Run(s, actions))
    ensures |Mine(Run(s, actions).taken, w)| + MayTake(Run(s, actions), w) <= |Mine(s.taken, w)| + MayTake(s, w)
    ensures |Mine(Run(s, actions).taken, w)| <= |Mine(s.taken, w)| + 1
    decreases actions
  {
    hide Stopped, Mine;
    if actions != [] {
      StepKeepsStopped(s, actions[0]);
      assert !s.running by { StoppedIsNotRunning(s); }
      StepTakes(s, actions[0], w);
      SettingsOfStep(s, actions[0]);
      AtMostOneMoreTask(Apply(s, actions[0]), actions[1..], w);
    }
  }

  // The number of its own steps a worker has left before it leaves runInThread.
  function StepsLeft<T>(p: Pos, w: Work<T>): nat {
    match w
    case GetTest => (if p.Locking? || p.Woken? then 9 else if p.Locked? || p.Retaken? then 8 else 7)
    case GetPop => 6
    case GetNotify(_) => 5
    case GetReturn(_) => 4
    case Execute(_) => (if p.Unlocking? then 3 else 2)
    case LoopTest => 1
    case _ => 0
  }

  function Rank<T>(s: State<T>, w: Tid): nat {
    StepsLeft(At(s.mon, w), WorkOf(s, w))
  }

  ghost predicate Stepped<T>(s: State<T>, s': State<T>, w: Tid) {
    At(s'.mon, w) != At(s.mon, w) || WorkOf(s', w) != WorkOf(s, w)
  }

  function Actor<T>(a: Action<T>): Tid {
    a.t
  }

  // Only its own actions move a thread that is awake.
  lemma OthersLeaveItThere<T>(s: State<T>, a: Action<T>, w: Tid)
    requires Actor(a) != w && !At(s.mon, w).Waiting?
    ensures !Stepped(s, Apply(s, a), w)
  {
    hide Statement;
    match a
    case Turn(t, woken) => if At(s.mon, t).Inside? { StatementLeavesItThere(s, t, woken, w); }
    case _ =>
  }

  lemma StatementLeavesItThere<T>(s: State<T>, t: Tid, woken: set<Tid>, w: Tid)
    requires t != w && At(s.mon, t).Inside? && !At(s.mon, w).Waiting?
    ensures !Stepped(s, Statement(s, t, woken), w)
  {
    hide WakeAll, Sleepers;
    assert w !in Sleepers(s.mon, NOT_EMPTY) && w !in Sleepers(s.mon, NOT_FULL);
  }

  lemma OwnStepLowersRank<T>(s: State<T>, a: Action<T>, w: Tid)
    requires Actor(a) == w && w in s.workers && !s.running && !At(s.mon, w).Waiting?
    requires Fits(s, At(s.mon, w), WorkOf(s, w), true)
    ensures Stepped(s, Apply(s, a), w) ==> Rank(Apply(s, a), w) < Rank(s, w)
  {
  }

  lemma StepLowersRank<T>(s: State<T>, a: Action<T>, w: Tid)
    requires Stopped(s) && w in s.workers
    ensures
      var s' := Apply(s, a);
      Rank(s', w) + (if Stepped(s, s', w) then 1 else 0) <= Rank(s, w)
  {
    hide NoLostWakeup, Values, NobodyLeftAsleep, Sound, Apply, StepsLeft;
    assert Fits(s, At(s.mon, w), WorkOf(s, w), true);
    assert At(s.mon, w) != Waiting(NOT_EMPTY) by { assert w !in Sleepers(s.mon, NOT_EMPTY); }
    if Actor(a) == w {
      OwnStepLowersRank(s, a, w);
    } else {
      OthersLeaveItThere(s, a, w);
    }
  }

  // How often a worker steps in a run.
  ghost function StepCount<T>(s: State<T>, actions: seq<Action<T>>, w: Tid): nat
    decreases actions
  {
    if actions == [] then 0
    else (if Stepped(s, Apply(s, actions[0]), w) then 1 else 0) + StepCount(Apply(s, actions[0]), actions[1..], w)
  }

  // After stop every worker makes at most nine more steps in any run, whatever the others do ...
  lemma {:induction false} WorkersRunOut<T>(s: State<T>, actions: seq<Action<T>>, w: Tid)
    requires Stopped(s) && w in s.workers
    ensures StepCount(s, actions, w) + Rank(Run(s, actions), w) <= Rank(s, w) <= 9
    decreases actions
  {
    hide Stopped, Rank, Stepped, Apply;
    RankBound(s, w);
    if actions != [] {
      StepKeepsStopped(s, actions[0]);
      StepLowersRank(s, actions[0], w);
      SettingsOfStep(s, actions[0]);
      WorkersRunOut(Apply(s, actions[0]), actions[1..], w);
    }
  }

  lemma RankBound<T>(s: State<T>, w: Tid)
    ensures Rank(s, w) <= 9
  {
  }

  // ... while it has not left, it or the owner of the mutex can step ...
  lemma WorkerProceeds<T>(s: State<T>, w: Tid)
    requires Stopped(s) && w in s.workers && !WorkOf(s, w).Finished?
    ensures
      || CanAdvance(s.mon, w) || At(s.mon, w).Inside?
      || (At(s.mon, w).Outside? && (WorkOf(s, w).LoopTest? || WorkOf(s, w).Execute?))
      || (s.mon.owner.Some? && (CanAdvance(s.mon, s.mon.owner.value) || At(s.mon, s.mon.owner.value).Inside?))
  {
    hide NoLostWakeup, Values, NobodyLeftAsleep;
    assert Fits(s, At(s.mon, w), WorkOf(s, w), true);
    assert At(s.mon, w) != Waiting(NOT_EMPTY) by { assert w !in Sleepers(s.mon, NOT_EMPTY); }
    assert s.mon.owner.Some? ==> Owning(At(s.mon, s.mon.owner.value));
  }

  // ... and when nothing can move any more, every worker has left runInThread.
  lemma ShutdownCompletes<T>(s: State<T>, actions: seq<Action<T>>, w: Tid)
    requires Stopped(s) && Quiet(Run(s, actions)) && w in s.workers
    ensures WorkOf(Run(s, actions), w).Finished?
  {
    AtMostOneMoreTask(s, actions, w);
    SettingsAreFixed(s, actions);
    QuietWorker(Run(s, actions), w);
  }

  // Shutdown in one statement: whatever ran before, once stop has cleared the flag and the mutex
  // has been free since, each worker takes at most one more task and makes at most nine more
  // steps in any continuation, and has left runInThread when nothing can move.
  lemma Shutdown<T>(workers: set<Tid>, maxQueueSize: nat, before: seq<Action<T>>, after: seq<Action<T>>, w: Tid)
    requires w in workers
    requires var s := Run(Initial(workers, maxQueueSize), before); !s.running && s.mon.owner == None
    ensures
      var s := Run(Initial(workers, maxQueueSize), before);
      && |Mine(Run(s, after).taken, w)| <= |Mine(s.taken, w)| + 1
      && StepCount(s, after, w) <= 9
      && Sleepers(Run(s, after).mon, NOT_EMPTY) == {}
      && (Quiet(Run(s, after)) ==> WorkOf(Run(s, after), w).Finished?)
  {
    var s := Run(Initial(workers, maxQueueSize), before);
    Reachable(workers, maxQueueSize, before);
    SettingsAreFixed(Initial<T>(workers, maxQueueSize), before);
    FreeMutexMeansStopped(s);
    AtMostOneMoreTask(s, after, w);
    WorkersRunOut(s, after, w);
    if Quiet(Run(s, after)) { ShutdownCompletes(s, after, w); }
  }
}
