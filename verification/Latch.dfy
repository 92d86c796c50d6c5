// The count-down latch: waiters sleep until the count is down to zero.
module Latch {
  import opened Common
  import opened Monitor
  import opened Runs

  const COND := 0

  datatype Work = Idle | WaitTest | Decrement | Broadcast | Leave(waited: bool)

  // released holds the threads whose wait has returned, downs lists who has counted down.
  datatype State = State(mon: Mon, work: map<Tid, Work>, count: int, downs: seq<Tid>, released: set<Tid>)

  function Initial(count: int): State {
    State(INITIAL, map[], count, [], {})
  }

  function WorkOf(s: State, t: Tid): Work {
    if t in s.work then s.work[t] else Idle
  }

  function SetWork(s: State, t: Tid, w: Work): State {
    s.(work := s.work[t := w])
  }

  datatype Action =
    | CallWait(t: Tid)
    | CallCountDown(t: Tid)
    | Instruction(t: Tid)
    | Wakeup(t: Tid)
    | Turn(t: Tid)

  function Statement(s: State, t: Tid): State
    requires At(s.mon, t).Inside?
  {
    match WorkOf(s, t)
    case WaitTest => if s.count > 0 then s.(mon := BeginWait(s.mon, t, COND)) else SetWork(s, t, Leave(true))
    case Decrement =>
      SetWork(s, t, if s.count - 1 == 0 then Broadcast else Leave(false)).(count := s.count - 1, downs := s.downs + [t])
    case Broadcast => SetWork(s, t, Leave(false)).(mon := WakeAll(s.mon, COND, Sleepers(s.mon, COND)))
    case Leave(waited) =>
      SetWork(s, t, Idle).(mon := BeginUnlock(s.mon, t), released := if waited then s.released + {t} else s.released)
    case Idle => s
  }

  function Apply(s: State, a: Action): State {
    match a
    case CallWait(t) => if At(s.mon, t).Outside? then SetWork(s, t, WaitTest).(mon := BeginLock(s.mon, t)) else s
    case CallCountDown(t) => if At(s.mon, t).Outside? then SetWork(s, t, Decrement).(mon := BeginLock(s.mon, t)) else s
    case Instruction(t) => if CanAdvance(s.mon, t) then s.(mon := Advance(s.mon, t)) else s
    case Wakeup(t) => if At(s.mon, t).Waiting? then s.(mon := WakeAll(s.mon, At(s.mon, t).c, {t})) else s
    case Turn(t) => if At(s.mon, t).Inside? then Statement(s, t) else s
  }

  function Run(s: State, actions: seq<Action>): State {
    After(Apply, s, actions)
  }

  predicate Fits(s: State, p: Pos, w: Work) {
    match p
    case Outside => w.Idle?
    case Locking => w.WaitTest? || w.Decrement?
    case Locked => w.WaitTest? || w.Decrement?
    case Inside => !w.Idle? && (w == Leave(true) ==> s.count <= 0) && (w.Broadcast? ==> s.count == 0)
    case Unlocking => w.Idle?
    case Parking(c) => c == COND && w.WaitTest? && s.count > 0
    case Waiting(c) => c == COND && w.WaitTest?
    case Woken(c) => c == COND && w.WaitTest?
    case Retaken(c) => c == COND && w.WaitTest?
  }

  // Once the count is down, nobody sleeps unless the broadcast is the very next statement.
  ghost predicate NobodyLeftAsleep(s: State) {
    s.count <= 0 && Sleepers(s.mon, COND) != {} ==>
      s.mon.owner.Some? && At(s.mon, s.mon.owner.value).Inside? && WorkOf(s, s.mon.owner.value).Broadcast?
  }

  ghost predicate Inv(s: State) {
    && Sound(s.mon)
    && (forall t: Tid :: Fits(s, At(s.mon, t), WorkOf(s, t)))
    && NobodyLeftAsleep(s)
    && (s.released != {} ==> s.count <= 0)
  }

  ghost predicate MovesOnly(s: State, s': State, t: Tid) {
    && (forall u: Tid :: u != t ==> At(s'.mon, u) == At(s.mon, u) && WorkOf(s', u) == WorkOf(s, u))
    && (s'.count == s.count || At(s.mon, t).Inside?)
  }

  lemma OthersFit(s: State, s': State, t: Tid, u: Tid)
    requires Inv(s) && MovesOnly(s, s', t) && u != t
    ensures Fits(s', At(s'.mon, u), WorkOf(s', u))
  {
    assert Fits(s, At(s.mon, u), WorkOf(s, u));
    assert At(s.mon, t).Inside? ==> Owning(At(s.mon, t)) && !Owning(At(s.mon, u));
  }

  lemma MoveKeepsInv(s: State, s': State, t: Tid)
    requires Inv(s) && Sound(s'.mon) && MovesOnly(s, s', t)
    requires Fits(s', At(s'.mon, t), WorkOf(s', t)) && NobodyLeftAsleep(s')
    requires s'.released != {} ==> s'.count <= 0
    ensures Inv(s')
  {
    forall u: Tid
      ensures Fits(s', At(s'.mon, u), WorkOf(s', u))
    {
      if u != t { OthersFit(s, s', t, u); }
    }
  }

  lemma BroadcastKeepsInv(s: State, t: Tid)
    requires Inv(s) && At(s.mon, t).Inside? && WorkOf(s, t).Broadcast?
    ensures Inv(Statement(s, t))
  {
    var s' := Statement(s, t);
    SectionSound(s.mon, t, COND);
    forall u: Tid
      ensures Fits(s', At(s'.mon, u), WorkOf(s', u))
    {
      assert Fits(s, At(s.mon, u), WorkOf(s, u));
    }
    assert Sleepers(s'.mon, COND) == {};
  }

  lemma StatementKeepsInv(s: State, t: Tid)
    requires Inv(s) && At(s.mon, t).Inside?
    ensures Inv(Statement(s, t))
  {
    var s' := Statement(s, t);
    SectionSound(s.mon, t, COND);
    assert Fits(s, At(s.mon, t), WorkOf(s, t));
    assert s.mon.owner == Some(t) by { assert Owning(At(s.mon, t)); }
    if WorkOf(s, t).Broadcast? {
      BroadcastKeepsInv(s, t);
    } else {
      assert forall u: Tid :: u in Sleepers(s'.mon, COND) ==> u in Sleepers(s.mon, COND);
      MoveKeepsInv(s, s', t);
    }
  }

  lemma AdvanceKeepsInv(s: State, t: Tid)
    requires Inv(s) && CanAdvance(s.mon, t)
    ensures Inv(s.(mon := Advance(s.mon, t)))
  {
    var s' := s.(mon := Advance(s.mon, t));
    AdvanceSound(s.mon, t);
    assert Fits(s, At(s.mon, t), WorkOf(s, t));
    assert Owning(At(s.mon, t)) ==> s.mon.owner == Some(t);
    assert forall u: Tid :: u in Sleepers(s'.mon, COND) ==> u in Sleepers(s.mon, COND) || (u == t && At(s.mon, t).Parking?);
    MoveKeepsInv(s, s', t);
  }

  lemma StepKeepsInv(s: State, a: Action)
    requires Inv(s)
    ensures Inv(Apply(s, a))
  {
    var s' := Apply(s, a);
    match a
    case CallWait(t) => if At(s.mon, t).Outside? { CallKeepsInv(s, t, WaitTest); }
    case CallCountDown(t) => if At(s.mon, t).Outside? { CallKeepsInv(s, t, Decrement); }
    case Instruction(t) => if CanAdvance(s.mon, t) { AdvanceKeepsInv(s, t); }
    case Wakeup(t) => if At(s.mon, t).Waiting? { WakeupKeepsInv(s, t); }
    case Turn(t) => if At(s.mon, t).Inside? { StatementKeepsInv(s, t); }
  }

  lemma CallKeepsInv(s: State, t: Tid, w: Work)
    requires Inv(s) && At(s.mon, t).Outside? && (w.WaitTest? || w.Decrement?)
    ensures Inv(SetWork(s, t, w).(mon := BeginLock(s.mon, t)))
  {
    var s' := SetWork(s, t, w).(mon := BeginLock(s.mon, t));
    SectionSound(s.mon, t, 0);
    assert s.mon.owner != Some(t) by { assert !Owning(At(s.mon, t)); }
    assert forall u: Tid :: u in Sleepers(s'.mon, COND) ==> u in Sleepers(s.mon, COND);
    MoveKeepsInv(s, s', t);
  }

  lemma WakeupKeepsInv(s: State, t: Tid)
    requires Inv(s) && At(s.mon, t).Waiting?
    ensures Inv(s.(mon := WakeAll(s.mon, At(s.mon, t).c, {t})))
  {
    var s' := s.(mon := WakeAll(s.mon, At(s.mon, t).c, {t}));
    SectionSound(s.mon, t, At(s.mon, t).c);
    assert Fits(s, At(s.mon, t), WorkOf(s, t));
    assert s.mon.owner != Some(t) by { assert !Owning(At(s.mon, t)); }
    assert forall u: Tid :: u in Sleepers(s'.mon, COND) ==> u in Sleepers(s.mon, COND);
    MoveKeepsInv(s, s', t);
  }

  // The count is the initial count less the calls of countDown.
  lemma {:induction false} RunKeepsInv(s: State, actions: seq<Action>)
    requires Inv(s)
    ensures Inv(Run(s, actions)) && Run(s, actions).count + |Run(s, actions).downs| == s.count + |s.downs|
    decreases actions
  {
    hide Inv;
    if actions != [] {
      StepKeepsInv(s, actions[0]);
      CountOfStep(s, actions[0]);
      RunKeepsInv(Apply(s, actions[0]), actions[1..]);
    }
  }

  lemma CountOfStep(s: State, a: Action)
    ensures Apply(s, a).count + |Apply(s, a).downs| == s.count + |s.downs|
  {
  }

  // In every run from any count: no wait has returned before countDown was called count times;
  // and once it was, whenever the mutex is free nobody is asleep without a signal.
  lemma EveryRun(count: int, actions: seq<Action>)
    ensures
      var s := Run(Initial(count), actions);
      && (s.released != {} ==> |s.downs| >= count)
      && (|s.downs| >= count && s.mon.owner == None ==> Sleepers(s.mon, COND) == {})
  {
    RunKeepsInv(Initial(count), actions);
  }

  // When nothing can move, a waiter is asleep only while calls of countDown are missing.
  lemma NoWaiterForgotten(count: int, actions: seq<Action>)
    requires var s := Run(Initial(count), actions);
             forall t: Tid :: !CanAdvance(s.mon, t) && !At(s.mon, t).Inside?
    ensures var s := Run(Initial(count), actions);
            Sleepers(s.mon, COND) != {} ==> |s.downs| < count
  {
    RunKeepsInv(Initial(count), actions);
    QuietMeansAsleep(Run(Initial(count), actions).mon);
  }
}
