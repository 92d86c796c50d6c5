// The unbounded blocking queue: one condition, and put never waits.
module BlockingQueue {
  import opened Common
  import opened Monitor
  import opened Histories
  import opened Runs

  const COND := 0

  datatype Work<T> =
    | Idle
    | PutPush(value: T)
    | PutNotify
    | GetTest
    | GetPop
    | Leave

  datatype State<T> = State(
    mon: Mon,
    work: map<Tid, Work<T>>,
    queue: seq<T>,
    accepted: seq<(Tid, T)>,
    delivered: seq<(Tid, T)>)

  function Initial<T>(): State<T> {
    State(INITIAL, map[], [], [], [])
  }

  function WorkOf<T>(s: State<T>, t: Tid): Work<T> {
    if t in s.work then s.work[t] else Idle
  }

  function SetWork<T>(s: State<T>, t: Tid, w: Work<T>): State<T> {
    s.(work := s.work[t := w])
  }

  datatype Action<T> =
    | CallPut(t: Tid, value: T)
    | CallGet(t: Tid)
    | Instruction(t: Tid)
    | Wakeup(t: Tid)
    | Turn(t: Tid, woken: set<Tid>)

  function Statement<T>(s: State<T>, t: Tid, woken: set<Tid>): State<T>
    requires At(s.mon, t).Inside?
  {
    match WorkOf(s, t)
    case PutPush(value) => SetWork(s, t, PutNotify).(queue := s.queue + [value], accepted := s.accepted + [(t, value)])
    case PutNotify =>
      if Wakes(s.mon, COND, woken) then SetWork(s, t, Leave).(mon := WakeAll(s.mon, COND, woken)) else s
    case GetTest => if s.queue == [] then s.(mon := BeginWait(s.mon, t, COND)) else SetWork(s, t, GetPop)
    case GetPop =>
      if s.queue == [] then s
      else SetWork(s, t, Leave).(queue := s.queue[1..], delivered := s.delivered + [(t, s.queue[0])])
    case Leave => SetWork(s, t, Idle).(mon := BeginUnlock(s.mon, t))
    case Idle => s
  }

  function Apply<T>(s: State<T>, a: Action<T>): State<T> {
    match a
    case CallPut(t, value) =>
      if At(s.mon, t).Outside? then SetWork(s, t, PutPush(value)).(mon := BeginLock(s.mon, t)) else s
    case CallGet(t) => if At(s.mon, t).Outside? then SetWork(s, t, GetTest).(mon := BeginLock(s.mon, t)) else s
    case Instruction(t) => if CanAdvance(s.mon, t) then s.(mon := Advance(s.mon, t)) else s
    case Wakeup(t) => if At(s.mon, t).Waiting? then s.(mon := WakeAll(s.mon, At(s.mon, t).c, {t})) else s
    case Turn(t, woken) => if At(s.mon, t).Inside? then Statement(s, t, woken) else s
  }

  function Run<T>(s: State<T>, actions: seq<Action<T>>): State<T> {
    After(Apply, s, actions)
  }

  // The getters that will still look at the queue, and the putter about to signal.
  predicate Due<T>(p: Pos, w: Work<T>) {
    p == Woken(COND) || p == Retaken(COND) || (p.Inside? && (w.GetTest? || w.GetPop? || w.PutNotify?))
  }

  function DueThreads<T>(s: State<T>): (ts: set<Tid>)
    ensures forall t :: t in ts <==> Due(At(s.mon, t), WorkOf(s, t))
  {
    set t | t in s.mon.pos && Due(s.mon.pos[t], WorkOf(s, t))
  }

  predicate Fits<T>(s: State<T>, p: Pos, w: Work<T>) {
    match p
    case Outside => w.Idle?
    case Locking => w.PutPush? || w.GetTest?
    case Locked => w.PutPush? || w.GetTest?
    case Inside => !w.Idle? && (w.GetPop? ==> s.queue != [])
    case Unlocking => w.Idle?
    case Parking(c) => c == COND && w.GetTest? && s.queue == []
    case Waiting(c) => c == COND && w.GetTest?
    case Woken(c) => c == COND && w.GetTest?
    case Retaken(c) => c == COND && w.GetTest?
  }

  ghost predicate NoLostWakeup<T>(s: State<T>) {
    Sleepers(s.mon, COND) != {} ==> |s.queue| <= |DueThreads(s)|
  }

  ghost predicate Inv<T>(s: State<T>) {
    && Sound(s.mon)
    && (forall t: Tid :: Fits(s, At(s.mon, t), WorkOf(s, t)))
    && Values(s.delivered) + s.queue == Values(s.accepted)
    && NoLostWakeup(s)
  }

  ghost predicate MovesOnly<T>(s: State<T>, s': State<T>, t: Tid) {
    forall u: Tid :: u != t ==> At(s'.mon, u) == At(s.mon, u) && WorkOf(s', u) == WorkOf(s, u)
  }

  predicate Balanced<T>(s: State<T>, s': State<T>, t: Tid) {
    var before, after := Due(At(s.mon, t), WorkOf(s, t)), Due(At(s'.mon, t), WorkOf(s', t));
    || s'.queue == []
    || (!At(s'.mon, t).Waiting? && |s'.queue| - |s.queue| <= (if after then 1 else 0) - (if before then 1 else 0))
  }

  lemma MoveKeepsWakeups<T>(s: State<T>, s': State<T>, t: Tid)
    requires MovesOnly(s, s', t) && NoLostWakeup(s) && Balanced(s, s', t)
    ensures NoLostWakeup(s')
  {
    hide Due, At, WorkOf;
    SizeAfterMove(DueThreads(s), DueThreads(s'), t);
    if s'.queue != [] && Sleepers(s'.mon, COND) != {} {
      var u :| u in Sleepers(s'.mon, COND);
      assert u in Sleepers(s.mon, COND);
    }
  }

  lemma OthersFit<T>(s: State<T>, s': State<T>, t: Tid, u: Tid)
    requires Sound(s.mon) && MovesOnly(s, s', t) && u != t && Fits(s, At(s.mon, u), WorkOf(s, u))
    requires s'.queue == s.queue || At(s.mon, t).Inside?
    ensures Fits(s', At(s'.mon, u), WorkOf(s', u))
  {
    assert At(s.mon, t).Inside? ==> Owning(At(s.mon, t)) && !Owning(At(s.mon, u));
  }

  lemma MoveKeepsInv<T>(s: State<T>, s': State<T>, t: Tid)
    requires Inv(s) && Sound(s'.mon) && MovesOnly(s, s', t) && Balanced(s, s', t)
    requires s'.queue == s.queue || At(s.mon, t).Inside?
    requires Fits(s', At(s'.mon, t), WorkOf(s', t)) && Values(s'.delivered) + s'.queue == Values(s'.accepted)
    ensures Inv(s')
  {
    hide Fits, Balanced, NoLostWakeup, Sound, At, WorkOf, Values;
    forall u: Tid
      ensures Fits(s', At(s'.mon, u), WorkOf(s', u))
    {
      if u != t {
        assert Fits(s, At(s.mon, u), WorkOf(s, u));
        OthersFit(s, s', t, u);
      }
    }
    MoveKeepsWakeups(s, s', t);
  }

  function Signalled<T>(s: State<T>, t: Tid, woken: set<Tid>): State<T>
    requires woken <= Sleepers(s.mon, COND)
  {
    SetWork(s, t, Leave).(mon := WakeAll(s.mon, COND, woken))
  }

  lemma SignalOf<T>(s: State<T>, t: Tid, woken: set<Tid>, u: Tid)
    requires Inv(s) && At(s.mon, t).Inside? && WorkOf(s, t).PutNotify? && Wakes(s.mon, COND, woken)
    ensures
      var s' := Signalled(s, t, woken);
      Fits(s', At(s'.mon, u), WorkOf(s', u)) &&
      (Due(At(s'.mon, u), WorkOf(s', u)) <==> u in woken || (u != t && u in DueThreads(s)))
  {
    hide NoLostWakeup, Sound, Values;
    assert Fits(s, At(s.mon, u), WorkOf(s, u));
    assert t !in woken;
  }

  lemma SignalKeepsInv<T>(s: State<T>, t: Tid, woken: set<Tid>)
    requires Inv(s) && At(s.mon, t).Inside? && WorkOf(s, t).PutNotify? && Wakes(s.mon, COND, woken)
    ensures Inv(Signalled(s, t, woken))
  {
    hide Fits, Values, Sound;
    var s' := Signalled(s, t, woken);
    SectionSound(s.mon, t, COND);
    forall u: Tid { SignalOf(s, t, woken, u); }
    SizeAfterSignal(DueThreads(s), DueThreads(s'), t, woken);
    assert Sleepers(s'.mon, COND) <= Sleepers(s.mon, COND);
  }

  lemma StatementKeepsInv<T>(s: State<T>, t: Tid, woken: set<Tid>)
    requires Inv(s) && At(s.mon, t).Inside?
    ensures Inv(Statement(s, t, woken))
  {
    hide NoLostWakeup, Sound, Sleepers, WakeAll;
    var s' := Statement(s, t, woken);
    SectionSound(s.mon, t, COND);
    assert Fits(s, At(s.mon, t), WorkOf(s, t));
    match WorkOf(s, t)
    case PutNotify => if Wakes(s.mon, COND, woken) { SignalKeepsInv(s, t, woken); }
    case GetPop =>
      assert Values(s'.delivered) == Values(s.delivered) + [s.queue[0]];
      assert s.queue == [s.queue[0]] + s'.queue;
      MoveKeepsInv(s, s', t);
    case _ => MoveKeepsInv(s, s', t);
  }

  lemma CallKeepsInv<T>(s: State<T>, t: Tid, w: Work<T>)
    requires Inv(s) && At(s.mon, t).Outside? && (w.PutPush? || w.GetTest?)
    ensures Inv(SetWork(s, t, w).(mon := BeginLock(s.mon, t)))
  {
    hide NoLostWakeup, Sound, Values;
    SectionSound(s.mon, t, COND);
    MoveKeepsInv(s, SetWork(s, t, w).(mon := BeginLock(s.mon, t)), t);
  }

  lemma AdvanceKeepsInv<T>(s: State<T>, t: Tid)
    requires Inv(s) && CanAdvance(s.mon, t)
    ensures Inv(s.(mon := Advance(s.mon, t)))
  {
    hide NoLostWakeup, Sound, Values;
    assert Fits(s, At(s.mon, t), WorkOf(s, t));
    AdvanceSound(s.mon, t);
    MoveKeepsInv(s, s.(mon := Advance(s.mon, t)), t);
  }

  lemma WakeupKeepsInv<T>(s: State<T>, t: Tid)
    requires Inv(s) && At(s.mon, t).Waiting?
    ensures Inv(s.(mon := WakeAll(s.mon, At(s.mon, t).c, {t})))
  {
    hide NoLostWakeup, Sound, Values;
    assert Fits(s, At(s.mon, t), WorkOf(s, t));
    SectionSound(s.mon, t, At(s.mon, t).c);
    MoveKeepsInv(s, s.(mon := WakeAll(s.mon, At(s.mon, t).c, {t})), t);
  }

  lemma StepKeepsInv<T>(s: State<T>, a: Action<T>)
    requires Inv(s)
    ensures Inv(Apply(s, a))
  {
    hide Inv;
    match a
    case CallPut(t, value) => if At(s.mon, t).Outside? { CallKeepsInv(s, t, PutPush(value)); }
    case CallGet(t) => if At(s.mon, t).Outside? { CallKeepsInv(s, t, GetTest); }
    case Instruction(t) => if CanAdvance(s.mon, t) { AdvanceKeepsInv(s, t); }
    case Wakeup(t) => if At(s.mon, t).Waiting? { WakeupKeepsInv(s, t); }
    case Turn(t, woken) => if At(s.mon, t).Inside? { StatementKeepsInv(s, t, woken); }
  }

  lemma {:induction false} RunKeepsInv<T>(s: State<T>, actions: seq<Action<T>>)
    requires Inv(s)
    ensures Inv(Run(s, actions))
    decreases actions
  {
    if actions != [] {
      StepKeepsInv(s, actions[0]);
      RunKeepsInv(Apply(s, actions[0]), actions[1..]);
    }
  }

  // In every run: first in first out and exactly once; while the mutex is free a getter sleeps
  // unsignalled only if every item has a woken getter; and when nothing can move, a getter
  // sleeps only on an empty queue.
  lemma EveryRun<T>(actions: seq<Action<T>>)
    ensures
      var s := Run(Initial<T>(), actions);
      && Values(s.delivered) + s.queue == Values(s.accepted)
      && (s.mon.owner == None && Sleepers(s.mon, COND) != {} ==> |s.queue| <= |Signallees(s.mon, COND)|)
      && ((forall t: Tid :: !CanAdvance(s.mon, t) && !At(s.mon, t).Inside?) && Sleepers(s.mon, COND) != {} ==> s.queue == [])
  {
    var s := Run(Initial<T>(), actions);
    RunKeepsInv(Initial<T>(), actions);
    if s.mon.owner == None {
      assert forall t :: !Owning(At(s.mon, t));
      assert DueThreads(s) == Signallees(s.mon, COND);
    }
    if forall t: Tid :: !CanAdvance(s.mon, t) && !At(s.mon, t).Inside? {
      QuietMeansAsleep(s.mon);
      assert Signallees(s.mon, COND) == {};
    }
  }
}
