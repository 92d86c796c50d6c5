// The mutex and its conditions at the granularity of single instructions. Any number of
// threads interleave; a wakeup may be spurious, and a woken thread competes for the mutex
// with every other thread (barging).
module Monitor {
  import opened Common

  // A thread id as gettid gives it; zero is what m_holder holds for nobody.
  type Tid = t: int | t > 0 witness 1

  // Where a thread stands between two instructions. The number names a condition.
  datatype Pos =
    | Outside
    | Locking          // about to execute pthread_mutex_lock
    | Locked           // the mutex is taken, m_holder not yet assigned
    | Inside           // in the critical section
    | Unlocking        // m_holder cleared, the mutex not yet given back
    | Parking(c: nat)  // m_holder cleared, about to enter pthread_cond_wait
    | Waiting(c: nat)  // asleep, without a signal
    | Woken(c: nat)    // signalled or woken spuriously, still without the mutex
    | Retaken(c: nat)  // back from pthread_cond_wait with the mutex, m_holder not yet assigned

  datatype Mon = Mon(owner: Option<Tid>, holder: nat, pos: map<Tid, Pos>)

  const INITIAL := Mon(None, 0, map[])

  function At(m: Mon, t: Tid): Pos {
    if t in m.pos then m.pos[t] else Outside
  }

  predicate Owning(p: Pos) {
    p.Locked? || p.Inside? || p.Unlocking? || p.Parking? || p.Retaken?
  }

  // The instructions of lock(), unlock() and wait(), each for a thread that stands before it.
  function BeginLock(m: Mon, t: Tid): Mon
    requires At(m, t).Outside?
  {
    m.(pos := m.pos[t := Locking])
  }

  // lock() calls assign() once it has the mutex.
  function Assign(m: Mon, t: Tid, p: Pos): Mon {
    m.(holder := t, pos := m.pos[t := p])
  }

  function BeginUnlock(m: Mon, t: Tid): Mon
    requires At(m, t).Inside?
  {
    m.(holder := 0, pos := m.pos[t := Unlocking])
  }

  function BeginWait(m: Mon, t: Tid, c: nat): Mon
    requires At(m, t).Inside?
  {
    m.(holder := 0, pos := m.pos[t := Parking(c)])
  }

  // pthread_cond_signal, pthread_cond_broadcast and spurious wakeups move sleepers.
  function WakeAll(m: Mon, c: nat, ts: set<Tid>): (w: Mon)
    requires ts <= Sleepers(m, c)
    ensures w.pos.Keys == m.pos.Keys && w.owner == m.owner && w.holder == m.holder
    ensures forall t :: At(w, t) == if t in ts then Woken(c) else At(m, t)
  {
    m.(pos := map t | t in m.pos :: if t in ts then Woken(c) else m.pos[t])
  }

  function Sleepers(m: Mon, c: nat): (ts: set<Tid>)
    ensures forall t :: t in ts <==> At(m, t) == Waiting(c)
  {
    set t | t in m.pos && m.pos[t] == Waiting(c)
  }

  // The threads that were signalled or woken spuriously and have not retaken the mutex.
  function Signallees(m: Mon, c: nat): (ts: set<Tid>)
    ensures forall t :: t in ts <==> At(m, t) == Woken(c)
  {
    set t | t in m.pos && m.pos[t] == Woken(c)
  }

  // A signal wakes at least one sleeper if there is any.
  predicate Wakes(m: Mon, c: nat, woken: set<Tid>) {
    woken <= Sleepers(m, c) && (Sleepers(m, c) != {} ==> woken != {})
  }

  // A thread can execute its next mutex instruction.
  predicate CanAdvance(m: Mon, t: Tid) {
    var p := At(m, t);
    p.Locked? || p.Unlocking? || p.Parking? || p.Retaken? || ((p.Locking? || p.Woken?) && m.owner == None)
  }

  // The next instruction of a thread inside lock(), unlock() or wait().
  function Advance(m: Mon, t: Tid): Mon
    requires CanAdvance(m, t)
  {
    match At(m, t)
    case Locking => m.(owner := Some(t), pos := m.pos[t := Locked])
    case Locked => Assign(m, t, Inside)
    case Unlocking => m.(owner := None, pos := m.pos[t := Outside])
    case Parking(c) => m.(owner := None, pos := m.pos[t := Waiting(c)])
    case Woken(c) => m.(owner := Some(t), pos := m.pos[t := Retaken(c)])
    case Retaken(c) => Assign(m, t, Inside)
  }

  // Exactly the owner is at a position that owns the mutex, and m_holder names it exactly
  // while it is inside.
  ghost predicate Sound(m: Mon) {
    && (forall t: Tid :: Owning(At(m, t)) <==> m.owner == Some(t))
    && m.holder == (if m.owner.Some? && At(m, m.owner.value).Inside? then m.owner.value else 0)
  }

  lemma AdvanceSound(m: Mon, t: Tid)
    requires Sound(m) && CanAdvance(m, t)
    ensures Sound(Advance(m, t))
    ensures forall u :: u != t ==> At(Advance(m, t), u) == At(m, u)
  {
  }

  lemma SectionSound(m: Mon, t: Tid, c: nat)
    requires Sound(m)
    ensures At(m, t).Outside? ==> Sound(BeginLock(m, t))
    ensures At(m, t).Inside? ==> Sound(BeginUnlock(m, t)) && Sound(BeginWait(m, t, c))
    ensures forall ts :: ts <= Sleepers(m, c) ==> Sound(WakeAll(m, c, ts))
  {
  }

  // Whoever is inside is alone, and m_holder says who it is.
  lemma MutualExclusion(m: Mon, t: Tid, u: Tid)
    requires Sound(m)
    ensures At(m, t).Inside? && At(m, u).Inside? ==> t == u
    ensures m.holder == t ==> m.owner == Some(t) && At(m, t).Inside?
    ensures At(m, t).Inside? ==> m.holder == t
    ensures (forall v :: !Owning(At(m, v))) ==> m.holder == 0
  {
    if m.owner.Some? { assert Owning(At(m, m.owner.value)); }
  }

  // Counting threads: one thread moves, or one thread signals others.
  lemma SizeAfterMove(d: set<Tid>, d': set<Tid>, t: Tid)
    requires forall u: Tid :: u != t ==> (u in d' <==> u in d)
    ensures |d'| == |d| + (if t in d' then 1 else 0) - (if t in d then 1 else 0)
  {
    assert d - {t} == d' - {t};
    SizeWithout(d, t);
    SizeWithout(d', t);
  }

  lemma SizeWithout(d: set<Tid>, t: Tid)
    ensures |d| == |d - {t}| + if t in d then 1 else 0
  {
    if t !in d {
      assert d - {t} == d;
    }
  }

  lemma SizeAfterSignal(d: set<Tid>, d': set<Tid>, t: Tid, woken: set<Tid>)
    requires t in d && t !in woken && woken !! d
    requires forall u: Tid :: u in d' <==> u in woken || (u != t && u in d)
    ensures |d'| == |d| - 1 + |woken|
  {
    assert d' == d - {t} + woken;
    SizeWithout(d, t);
  }

  // When nobody can execute an instruction, the mutex is free and everyone inside an
  // operation is asleep.
  lemma QuietMeansAsleep(m: Mon)
    requires Sound(m) && forall t :: !CanAdvance(m, t) && !At(m, t).Inside?
    ensures m.owner == None
    ensures forall t :: At(m, t).Outside? || At(m, t).Waiting?
  {
    assert m.owner.Some? ==> Owning(At(m, m.owner.value));
  }
}

// What threads put into a queue or took out of it, call by call.
module Histories {
  import opened Monitor

  function Values<T>(history: seq<(Tid, T)>): (vs: seq<T>)
    ensures |vs| == |history| && forall i :: 0 <= i < |history| ==> vs[i] == history[i].1
  {
    seq(|history|, i requires 0 <= i < |history| => history[i].1)
  }

  // The values of one thread.
  function Mine<T>(history: seq<(Tid, T)>, t: Tid): seq<T> {
    if history == [] then []
    else Mine(history[..|history| - 1], t) + if history[|history| - 1].0 == t then [history[|history| - 1].1] else []
  }

  lemma MineOfOneMore<T>(history: seq<(Tid, T)>, u: Tid, value: T, t: Tid)
    ensures Mine(history + [(u, value)], t) == Mine(history, t) + if u == t then [value] else []
  {
    assert (history + [(u, value)])[..|history|] == history;
  }
}

// The mutex on its own, in any run.
module MutexRuns {
  import opened Common
  import opened Monitor
  import opened Runs

  // The mutex on its own: threads that lock, unlock, wait and signal in any order.
  datatype Action =
    | Lock(t: Tid)
    | Unlock(t: Tid)
    | Wait(t: Tid, c: nat)
    | Signal(c: nat, woken: set<Tid>)
    | Step(t: Tid)

  // An action that is not enabled changes nothing.
  function Apply(m: Mon, a: Action): Mon {
    match a
    case Lock(t) => if At(m, t).Outside? then BeginLock(m, t) else m
    case Unlock(t) => if At(m, t).Inside? then BeginUnlock(m, t) else m
    case Wait(t, c) => if At(m, t).Inside? then BeginWait(m, t, c) else m
    case Signal(c, woken) => if woken <= Sleepers(m, c) then WakeAll(m, c, woken) else m
    case Step(t) => if CanAdvance(m, t) then Advance(m, t) else m
  }

  function Run(m: Mon, actions: seq<Action>): Mon {
    After(Apply, m, actions)
  }

  // In every run a non-zero m_holder names the thread that owns the mutex, no two threads
  // are inside, and m_holder is zero, as the destructor asserts, whenever nobody owns it.
  lemma {:induction false} HolderIsOwner(m: Mon, actions: seq<Action>)
    requires Sound(m)
    ensures Sound(Run(m, actions))
    decreases actions
  {
    if actions != [] {
      match actions[0] {
        case Lock(t) => SectionSound(m, t, 0);
        case Unlock(t) => SectionSound(m, t, 0);
        case Wait(t, c) => SectionSound(m, t, c);
        case Signal(c, _) => SectionSound(m, 1, c);
        case Step(t) => if CanAdvance(m, t) { AdvanceSound(m, t); }
      }
      HolderIsOwner(Apply(m, actions[0]), actions[1..]);
    }
  }

  lemma EveryRunFromInitial(actions: seq<Action>, t: Tid, u: Tid)
    ensures var m := Run(INITIAL, actions);
            (m.holder == t ==> m.owner == Some(t)) && (At(m, t).Inside? && At(m, u).Inside? ==> t == u)
  {
    HolderIsOwner(INITIAL, actions);
    MutualExclusion(Run(INITIAL, actions), t, u);
  }
}
