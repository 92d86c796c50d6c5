// The bounded blocking queue as a state machine over the instructions of put and get.
module BoundedQueue {
  import opened Common
  import opened Monitor
  import opened Histories
  import opened Runs

  // m_full, where producers wait, and m_empty, where consumers wait.
  const FULL := 0
  const EMPTY := 1

  // What a thread has left to do of the call it is in. Test is the loop test of the wait.
  datatype Work<T> =
    | Idle
    | PutTest(value: T)
    | PutPush(value: T)
    | PutNotify
    | GetTest
    | GetPop
    | GetNotify(result: T)
    | Leave

  datatype State<T> = State(
    mon: Mon,
    work: map<Tid, Work<T>>,
    capacity: nat,
    queue: seq<T>,
    accepted: seq<(Tid, T)>,
    delivered: seq<(Tid, T)>)

  function Initial<T>(capacity: nat): State<T> {
    State(INITIAL, map[], capacity, [], [], [])
  }

  function WorkOf<T>(s: State<T>, t: Tid): Work<T> {
    if t in s.work then s.work[t] else Idle
  }

  datatype Action<T> =
    | CallPut(t: Tid, value: T)
    | CallGet(t: Tid)
    | Instruction(t: Tid)           // the next mutex instruction of t
    | Wakeup(t: Tid)                // a spurious wakeup of t
    | Turn(t: Tid, woken: set<Tid>) // the next statement of t inside the critical section

  // circular_buffer::push_back: a full buffer loses its front.
  function PushBack<T>(queue: seq<T>, capacity: nat, value: T): seq<T> {
    if |queue| < capacity then queue + [value]
    else if capacity == 0 then []
    else queue[1..] + [value]
  }

  function SetWork<T>(s: State<T>, t: Tid, w: Work<T>): State<T> {
    s.(work := s.work[t := w])
  }

  function Statement<T>(s: State<T>, t: Tid, woken: set<Tid>): State<T>
    requires At(s.mon, t).Inside?
  {
    match WorkOf(s, t)
    case PutTest(value) =>
      if |s.queue| == s.capacity then s.(mon := BeginWait(s.mon, t, FULL)) else SetWork(s, t, PutPush(value))
    case PutPush(value) =>
      SetWork(s, t, PutNotify).(queue := PushBack(s.queue, s.capacity, value), accepted := s.accepted + [(t, value)])
    case PutNotify =>
      if Wakes(s.mon, EMPTY, woken) then SetWork(s, t, Leave).(mon := WakeAll(s.mon, EMPTY, woken)) else s
    case GetTest =>
      if s.queue == [] then s.(mon := BeginWait(s.mon, t, EMPTY)) else SetWork(s, t, GetPop)
    case GetPop =>
      if s.queue == [] then s
      else SetWork(s, t, GetNotify(s.queue[0])).(queue := s.queue[1..], delivered := s.delivered + [(t, s.queue[0])])
    case GetNotify(_) =>
      if Wakes(s.mon, FULL, woken) then SetWork(s, t, Leave).(mon := WakeAll(s.mon, FULL, woken)) else s
    case Leave => SetWork(s, t, Idle).(mon := BeginUnlock(s.mon, t))
    case Idle => s
  }

  // An action that is not enabled changes nothing.
  function Apply<T>(s: State<T>, a: Action<T>): State<T> {
    match a
    case CallPut(t, value) =>
      if At(s.mon, t).Outside? then SetWork(s, t, PutTest(value)).(mon := BeginLock(s.mon, t)) else s
    case CallGet(t) =>
      if At(s.mon, t).Outside? then SetWork(s, t, GetTest).(mon := BeginLock(s.mon, t)) else s
    case Instruction(t) => if CanAdvance(s.mon, t) then s.(mon := Advance(s.mon, t)) else s
    case Wakeup(t) =>
      if At(s.mon, t).Waiting? then s.(mon := WakeAll(s.mon, At(s.mon, t).c, {t})) else s
    case Turn(t, woken) => if At(s.mon, t).Inside? then Statement(s, t, woken) else s
  }

  function Run<T>(s: State<T>, actions: seq<Action<T>>): State<T> {
    After(Apply, s, actions)
  }

  // The two sides: consumers wait for items, producers for free slots.
  function Units<T>(s: State<T>, c: nat): int {
    if c == EMPTY then |s.queue| else s.capacity - |s.queue|
  }

  predicate TestOf<T>(w: Work<T>, c: nat) {
    if c == EMPTY then w.GetTest? else c == FULL && w.PutTest?
  }

  // The threads that will still look at the units of side c, or are about to signal that side.
  predicate Due<T>(p: Pos, w: Work<T>, c: nat) {
    || p == Woken(c) || p == Retaken(c)
    || (p.Inside? && (TestOf(w, c) || (if c == EMPTY then w.GetPop? || w.PutNotify? else w.PutPush? || w.GetNotify?)))
  }

  function DueThreads<T>(s: State<T>, c: nat): (ts: set<Tid>)
    ensures forall t :: t in ts <==> Due(At(s.mon, t), WorkOf(s, t), c)
  {
    set t | t in s.mon.pos && Due(s.mon.pos[t], WorkOf(s, t), c)
  }

  // The position of a thread fits its work.
  predicate Fits<T>(s: State<T>, p: Pos, w: Work<T>) {
    match p
    case Outside => w.Idle?
    case Locking => w.PutTest? || w.GetTest?
    case Locked => w.PutTest? || w.GetTest?
    case Inside => !w.Idle? && (w.PutPush? ==> |s.queue| < s.capacity) && (w.GetPop? ==> s.queue != [])
    case Unlocking => w.Idle?
    case Parking(c) => TestOf(w, c) && Units(s, c) == 0
    case Waiting(c) => TestOf(w, c)
    case Woken(c) => TestOf(w, c)
    case Retaken(c) => TestOf(w, c)
  }

  // No lost wakeup on side c: while a thread sleeps there, every unit has a thread that is due.
  ghost predicate NoLostWakeup<T>(s: State<T>, c: nat) {
    Sleepers(s.mon, c) != {} ==> Units(s, c) <= |DueThreads(s, c)|
  }

  ghost predicate Inv<T>(s: State<T>) {
    && Sound(s.mon)
    && |s.queue| <= s.capacity
    && (forall t: Tid :: Fits(s, At(s.mon, t), WorkOf(s, t)))
    && Values(s.delivered) + s.queue == Values(s.accepted)
    && NoLostWakeup(s, EMPTY) && NoLostWakeup(s, FULL)
  }

  // A step of one thread.
  ghost predicate MovesOnly<T>(s: State<T>, s': State<T>, t: Tid) {
    && s'.capacity == s.capacity
    && (forall u: Tid :: u != t ==> At(s'.mon, u) == At(s.mon, u) && WorkOf(s', u) == WorkOf(s, u))
  }

  // The units a step adds come with due threads, or none is left and the step may go to sleep.
  predicate Balanced<T>(s: State<T>, s': State<T>, t: Tid, c: nat) {
    var before, after := Due(At(s.mon, t), WorkOf(s, t), c), Due(At(s'.mon, t), WorkOf(s', t), c);
    || Units(s', c) <= 0
    || (At(s'.mon, t) != Waiting(c) &&
        Units(s', c) - Units(s, c) <= (if after then 1 else 0) - (if before then 1 else 0))
  }

  lemma DueAfterMove<T>(s: State<T>, s': State<T>, t: Tid, c: nat)
    requires MovesOnly(s, s', t)
    ensures
      var before, after := Due(At(s.mon, t), WorkOf(s, t), c), Due(At(s'.mon, t), WorkOf(s', t), c);
      |DueThreads(s', c)| == |DueThreads(s, c)| + (if after then 1 else 0) - (if before then 1 else 0)
  {
    hide Due, At, WorkOf;
    SizeAfterMove(DueThreads(s, c), DueThreads(s', c), t);
  }

  lemma MoveKeepsWakeups<T>(s: State<T>, s': State<T>, t: Tid, c: nat)
    requires MovesOnly(s, s', t) && NoLostWakeup(s, c) && Balanced(s, s', t, c)
    ensures NoLostWakeup(s', c)
  {
    hide Due, At, WorkOf, Units;
    DueAfterMove(s, s', t, c);
    if Units(s', c) > 0 && Sleepers(s'.mon, c) != {} {
      var u :| u in Sleepers(s'.mon, c);
      assert u in Sleepers(s.mon, c);
    }
  }

  // While one thread is in the critical section, no other thread's fit depends on the queue.
  lemma OthersFit<T>(s: State<T>, s': State<T>, t: Tid, u: Tid)
    requires Sound(s.mon) && MovesOnly(s, s', t) && u != t && Fits(s, At(s.mon, u), WorkOf(s, u))
    requires s'.queue == s.queue || At(s.mon, t).Inside?
    ensures Fits(s', At(s'.mon, u), WorkOf(s', u))
  {
    assert At(s.mon, t).Inside? ==> Owning(At(s.mon, t)) && !Owning(At(s.mon, u));
  }

  // A move of one thread keeps the invariant when the pieces it touches keep it.
  lemma MoveKeepsInv<T>(s: State<T>, s': State<T>, t: Tid)
    requires Inv(s) && Sound(s'.mon) && |s'.queue| <= s'.capacity && MovesOnly(s, s', t)
    requires s'.queue == s.queue || At(s.mon, t).Inside?
    requires Fits(s', At(s'.mon, t), WorkOf(s', t))
    requires Values(s'.delivered) + s'.queue == Values(s'.accepted)
    requires Balanced(s, s', t, EMPTY) && Balanced(s, s', t, FULL)
    ensures Inv(s')
  {
    hide Fits, Balanced, NoLostWakeup, Sound, At, WorkOf, Values;
    forall u: Tid
      ensures Fits(s', At(s'.mon, u), WorkOf(s', u))
    {
      if u != t {
        assert Fits(s, At(s.mon, u), WorkOf(s, u));
        OthersFit(s, s', t, u);
      }
    }
    MoveKeepsWakeups(s, s', t, EMPTY);
    MoveKeepsWakeups(s, s', t, FULL);
  }

  // A signal by t on side c.
  ghost predicate Signals<T>(s: State<T>, t: Tid, c: nat, woken: set<Tid>) {
    && Inv(s) && At(s.mon, t).Inside? && Wakes(s.mon, c, woken)
    && ((c == EMPTY && WorkOf(s, t).PutNotify?) || (c == FULL && WorkOf(s, t).GetNotify?))
  }

  function Signalled<T>(s: State<T>, t: Tid, c: nat, woken: set<Tid>): State<T>
    requires woken <= Sleepers(s.mon, c)
  {
    SetWork(s, t, Leave).(mon := WakeAll(s.mon, c, woken))
  }

  lemma SignalFits<T>(s: State<T>, t: Tid, c: nat, woken: set<Tid>, u: Tid)
    requires Signals(s, t, c, woken)
    ensures Fits(Signalled(s, t, c, woken), At(Signalled(s, t, c, woken).mon, u), WorkOf(Signalled(s, t, c, woken), u))
  {
    hide NoLostWakeup, Sound, Values;
    assert Fits(s, At(s.mon, u), WorkOf(s, u));
    assert t !in woken;
  }

  lemma SignalDue<T>(s: State<T>, t: Tid, c: nat, woken: set<Tid>, side: nat, u: Tid)
    requires Signals(s, t, c, woken) && (side == EMPTY || side == FULL)
    ensures
      var s' := Signalled(s, t, c, woken);
      Due(At(s'.mon, u), WorkOf(s', u), side) <==>
        if side == c then u in woken || (u != t && u in DueThreads(s, c)) else u in DueThreads(s, side)
  {
    hide NoLostWakeup, Sound, Values, Fits;
    assert t !in woken;
  }

  lemma SignalWakesUp<T>(s: State<T>, t: Tid, c: nat, woken: set<Tid>)
    requires Signals(s, t, c, woken)
    ensures NoLostWakeup(Signalled(s, t, c, woken), c)
  {
    hide Due, Fits, Values, Sound;
    var s' := Signalled(s, t, c, woken);
    var d, d' := DueThreads(s, c), DueThreads(s', c);
    forall u: Tid { SignalDue(s, t, c, woken, c, u); }
    assert t in d by { SignallerIsDue(s, t, c, woken); }
    assert woken !! d by { SleepersAreNotDue(s, c); }
    SizeAfterSignal(d, d', t, woken);
    assert Sleepers(s'.mon, c) <= Sleepers(s.mon, c);
  }

  lemma SignallerIsDue<T>(s: State<T>, t: Tid, c: nat, woken: set<Tid>)
    requires Signals(s, t, c, woken)
    ensures t in DueThreads(s, c)
  {
    hide Fits, Inv;
  }

  lemma SleepersAreNotDue<T>(s: State<T>, c: nat)
    ensures Sleepers(s.mon, c) !! DueThreads(s, c)
  {
  }

  lemma SignalKeepsInv<T>(s: State<T>, t: Tid, c: nat, woken: set<Tid>)
    requires Signals(s, t, c, woken)
    ensures Inv(Signalled(s, t, c, woken))
  {
    hide Due, Fits, Values, Sound;
    var s' := Signalled(s, t, c, woken);
    SectionSound(s.mon, t, c);
    forall u: Tid { SignalFits(s, t, c, woken, u); }
    SignalWakesUp(s, t, c, woken);
    var other := if c == EMPTY then FULL else EMPTY;
    assert DueThreads(s', other) == DueThreads(s, other) by {
      forall u: Tid { SignalDue(s, t, c, woken, other, u); }
    }
    assert Sleepers(s'.mon, other) == Sleepers(s.mon, other);
  }

  lemma StatementKeepsInv<T>(s: State<T>, t: Tid, woken: set<Tid>)
    requires Inv(s) && At(s.mon, t).Inside?
    ensures Inv(Statement(s, t, woken))
  {
    hide NoLostWakeup, Sound, Sleepers, WakeAll;
    var s' := Statement(s, t, woken);
    SectionSound(s.mon, t, FULL);
    SectionSound(s.mon, t, EMPTY);
    assert Fits(s, At(s.mon, t), WorkOf(s, t));
    match WorkOf(s, t)
    case PutNotify => if Wakes(s.mon, EMPTY, woken) { SignalKeepsInv(s, t, EMPTY, woken); }
    case GetNotify(_) => if Wakes(s.mon, FULL, woken) { SignalKeepsInv(s, t, FULL, woken); }
    case PutPush(_) => PushKeepsInv(s, t, woken);
    case GetPop => PopKeepsInv(s, t, woken);
    case _ => MoveKeepsInv(s, s', t);
  }

  // The assert before push_back holds, so nothing is overwritten.
  lemma PushKeepsInv<T>(s: State<T>, t: Tid, woken: set<Tid>)
    requires Inv(s) && At(s.mon, t).Inside? && WorkOf(s, t).PutPush?
    ensures |s.queue| < s.capacity
    ensures var s' := Statement(s, t, woken); s'.queue[..|s.queue|] == s.queue && |s'.queue| == |s.queue| + 1
    ensures Inv(Statement(s, t, woken))
  {
    hide NoLostWakeup, Sound;
    var s' := Statement(s, t, woken);
    assert Fits(s, At(s.mon, t), WorkOf(s, t));
    assert Values(s'.accepted) == Values(s.accepted) + [WorkOf(s, t).value];
    assert s'.queue == s.queue + [WorkOf(s, t).value];
    MoveKeepsInv(s, s', t);
  }

  lemma PopKeepsInv<T>(s: State<T>, t: Tid, woken: set<Tid>)
    requires Inv(s) && At(s.mon, t).Inside? && WorkOf(s, t).GetPop?
    ensures Inv(Statement(s, t, woken))
  {
    hide NoLostWakeup, Sound;
    var s' := Statement(s, t, woken);
    assert Fits(s, At(s.mon, t), WorkOf(s, t));
    assert Values(s'.delivered) == Values(s.delivered) + [s.queue[0]];
    assert s.queue == [s.queue[0]] + s'.queue;
    MoveKeepsInv(s, s', t);
  }

  lemma CallKeepsInv<T>(s: State<T>, t: Tid, w: Work<T>)
    requires Inv(s) && At(s.mon, t).Outside? && (w.PutTest? || w.GetTest?)
    ensures Inv(SetWork(s, t, w).(mon := BeginLock(s.mon, t)))
  {
    hide NoLostWakeup, Sound, Values;
    SectionSound(s.mon, t, 0);
    MoveKeepsInv(s, SetWork(s, t, w).(mon := BeginLock(s.mon, t)), t);
  }

  lemma AdvanceKeepsInv<T>(s: State<T>, t: Tid)
    requires Inv(s) && CanAdvance(s.mon, t)
    ensures Inv(s.(mon := Advance(s.mon, t)))
  {
    hide NoLostWakeup, Sound, Values;
    assert Fits(s, At(s.mon, t), WorkOf(s, t));
    AdvanceSound(s.mon, t);
    MoveKeepsInv(s, s.(mon := Advance(s.mon, t)), t);
  }

  lemma WakeupKeepsInv<T>(s: State<T>, t: Tid)
    requires Inv(s) && At(s.mon, t).Waiting?
    ensures Inv(s.(mon := WakeAll(s.mon, At(s.mon, t).c, {t})))
  {
    hide NoLostWakeup, Sound, Values;
    assert Fits(s, At(s.mon, t), WorkOf(s, t));
    SectionSound(s.mon, t, At(s.mon, t).c);
    MoveKeepsInv(s, s.(mon := WakeAll(s.mon, At(s.mon, t).c, {t})), t);
  }

  lemma StepKeepsInv<T>(s: State<T>, a: Action<T>)
    requires Inv(s)
    ensures Inv(Apply(s, a))
  {
    hide Inv;
    match a
    case CallPut(t, value) => if At(s.mon, t).Outside? { CallKeepsInv(s, t, PutTest(value)); }
    case CallGet(t) => if At(s.mon, t).Outside? { CallKeepsInv(s, t, GetTest); }
    case Instruction(t) => if CanAdvance(s.mon, t) { AdvanceKeepsInv(s, t); }
    case Wakeup(t) => if At(s.mon, t).Waiting? { WakeupKeepsInv(s, t); }
    case Turn(t, woken) => if At(s.mon, t).Inside? { StatementKeepsInv(s, t, woken); }
  }

  // In every run of any number of threads, from the empty queue of any capacity.
  lemma {:induction false} RunKeepsInv<T>(s: State<T>, actions: seq<Action<T>>)
    requires Inv(s)
    ensures Inv(Run(s, actions))
    decreases actions
  {
    if actions != [] {
      StepKeepsInv(s, actions[0]);
      RunKeepsInv(Apply(s, actions[0]), actions[1..]);
    }
  }

  lemma Reachable<T>(capacity: nat, actions: seq<Action<T>>)
    ensures Inv(Run(Initial(capacity), actions))
  {
    RunKeepsInv(Initial(capacity), actions);
  }

  // First in, first out and exactly once: what the getters received, in order, and then the
  // queue, is what the putters handed over, in order, and nothing is ever overwritten.
  lemma Fifo<T>(capacity: nat, actions: seq<Action<T>>)
    ensures var s := Run(Initial(capacity), actions);
            Values(s.delivered) + s.queue == Values(s.accepted) && |s.queue| <= capacity
  {
    Reachable(capacity, actions);
    CapacityIsFixed(Initial<T>(capacity), actions);
  }

  lemma {:induction false} CapacityIsFixed<T>(s: State<T>, actions: seq<Action<T>>)
    ensures Run(s, actions).capacity == s.capacity
    decreases actions
  {
    if actions != [] { CapacityIsFixed(Apply(s, actions[0]), actions[1..]); }
  }

  // Whenever the mutex is free: if a consumer sleeps unsignalled there are no more items than
  // woken consumers, and if a producer sleeps unsignalled no more free slots than woken producers.
  lemma NoLostWakeups<T>(capacity: nat, actions: seq<Action<T>>)
    ensures
      var s := Run(Initial(capacity), actions);
      s.mon.owner == None ==>
        && (Sleepers(s.mon, EMPTY) != {} ==> |s.queue| <= |Signallees(s.mon, EMPTY)|)
        && (Sleepers(s.mon, FULL) != {} ==> s.capacity - |s.queue| <= |Signallees(s.mon, FULL)|)
  {
    var s := Run(Initial(capacity), actions);
    Reachable(capacity, actions);
    if s.mon.owner == None {
      assert forall t :: !Owning(At(s.mon, t));
      assert DueThreads(s, EMPTY) == Signallees(s.mon, EMPTY);
      assert DueThreads(s, FULL) == Signallees(s.mon, FULL);
    }
  }

  // Nobody can execute anything: not a mutex instruction and not a statement.
  ghost predicate Quiet<T>(s: State<T>) {
    forall t: Tid :: !CanAdvance(s.mon, t) && !At(s.mon, t).Inside?
  }

  // A thread inside the critical section always has a next statement.
  lemma InsideProceeds<T>(s: State<T>, t: Tid)
    requires Inv(s) && At(s.mon, t).Inside?
    ensures exists woken :: Statement(s, t, woken) != s
  {
    assert Fits(s, At(s.mon, t), WorkOf(s, t));
    var all := if WorkOf(s, t).PutNotify? then Sleepers(s.mon, EMPTY) else Sleepers(s.mon, FULL);
    var s' := Statement(s, t, all);
    assert At(s'.mon, t) != At(s.mon, t) || WorkOf(s', t) != WorkOf(s, t);
  }

  // No deadlock: when nothing can move, every sleeping consumer faces an empty queue and every
  // sleeping producer a full one, so with a capacity both kinds never sleep together.
  lemma NoDeadlock<T>(capacity: nat, actions: seq<Action<T>>)
    requires Quiet(Run(Initial(capacity), actions))
    ensures
      var s := Run(Initial(capacity), actions);
      && (Sleepers(s.mon, EMPTY) != {} ==> s.queue == [])
      && (Sleepers(s.mon, FULL) != {} ==> |s.queue| == capacity)
      && (capacity > 0 ==> Sleepers(s.mon, EMPTY) == {} || Sleepers(s.mon, FULL) == {})
      && (forall t: Tid :: At(s.mon, t).Outside? || At(s.mon, t) == Waiting(EMPTY) || At(s.mon, t) == Waiting(FULL))
  {
    var s := Run(Initial(capacity), actions);
    Reachable(capacity, actions);
    CapacityIsFixed(Initial<T>(capacity), actions);
    QuietMeansAsleep(s.mon);
    assert DueThreads(s, EMPTY) == {};
    assert DueThreads(s, FULL) == {};
    forall t: Tid
      ensures At(s.mon, t).Outside? || At(s.mon, t) == Waiting(EMPTY) || At(s.mon, t) == Waiting(FULL)
    {
      assert Fits(s, At(s.mon, t), WorkOf(s, t));
    }
  }
}
