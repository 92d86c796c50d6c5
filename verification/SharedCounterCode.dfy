// The parent and the child of the benchmark as the processes run them, with any other processes in
// between.
module SharedCounterCode {
  import opened Common
  import opened SharedCounter
  import opened Runs

  // What the others can and cannot do to a child and, while it holds the mutex, to the counter.
  ghost predicate ChildLeftAlone(s: State, s': State, k: nat) {
    && k < |s.children| <= |s'.children| && s'.children[k] == s.children[k]
    && (InSection(s.children[k]) ==> s'.counter == s.counter && s'.owner == s.owner)
  }

  ghost predicate ParentLeftAlone(s: State, s': State) {
    && s'.parent == s.parent && |s'.children| == |s.children|
    && (s.owner == Parent ==> s'.counter == s.counter && s'.owner == Parent)
  }

  lemma ChildrenLeaveChildAlone(s: State, a: Action, k: nat)
    requires Inv(s) && k < |s.children| && a != RunChild(k)
    ensures ChildLeftAlone(s, Apply(s, a), k)
  {
    hide Total, Exits;
    assert ChildInv(s, k);
    if a.RunChild? && a.k < |s.children| {
      assert ChildInv(s, a.k);
    }
  }

  lemma ChildrenLeaveParentAlone(s: State, k: nat)
    requires Inv(s)
    ensures ParentLeftAlone(s, Apply(s, RunChild(k)))
  {
    hide Total, Exits;
    if k < |s.children| {
      assert ChildInv(s, k);
    }
  }

  // What the invariant says about one child.
  lemma ChildNow(s: State, k: nat)
    requires Inv(s) && k < |s.children|
    ensures ChildInv(s, k) && FitsInt(s.numIter)
    ensures s.children[k].pc.Write? ==> s.counter + 1 < WORD
  {
    if s.children[k].pc.Write? { CounterFits(s, k); }
  }

  lemma InitialInv(numChild: int, numIter: int)
    requires FitsInt(numChild) && FitsInt(numIter)
    ensures Inv(Initial(numChild, numIter))
  {
  }

  class Processes {
    const num_child: int
    const num_iter: int
    // The shared memory, the mutex and the program counters.
    var shared_counter: nat
    var owner: Owner
    var parent: ParentPc
    var children: seq<Child>
    // What the scheduler lets the other processes do between two steps of the running one.
    var schedule: seq<seq<Action>>
    ghost var trace: seq<Action>

    function S(): State
      reads this
    {
      State(num_child, num_iter, shared_counter, owner, parent, children)
    }

    // Every state is the state after a run of the machine.
    ghost predicate Valid()
      reads this
    {
      && FitsInt(num_child) && FitsInt(num_iter)
      && Inv(S()) && S() == Run(Initial(num_child, num_iter), trace)
    }

    // The parent has the mutex and no children yet.
    constructor (num_child: int, num_iter: int, schedule: seq<seq<Action>>)
      requires FitsInt(num_child) && FitsInt(num_iter)
      ensures Valid() && S() == Initial(num_child, num_iter)
      ensures this.num_child == num_child && this.num_iter == num_iter && this.schedule == schedule
    {
      this.num_child, this.num_iter, this.schedule := num_child, num_iter, schedule;
      shared_counter, owner, parent, children, trace := 0, Parent, Forking, [], [];
      new;
      InitialInv(num_child, num_iter);
    }

    method Perform(a: Action)
      requires Valid()
      modifies this
      ensures Valid() && S() == Apply(old(S()), a) && schedule == old(schedule)
    {
      hide Inv, Apply;
      StepKeepsInv(S(), a);
      AfterOneMore(Apply, Initial(num_child, num_iter), trace, a);
      var n := Apply(S(), a);
      shared_counter, owner, parent, children := n.counter, n.owner, n.parent, n.children;
      trace := trace + [a];
    }

    // The assignments before were a step of the running process.
    ghost method Did(s: State, a: Action)
      requires FitsInt(num_child) && FitsInt(num_iter)
      requires Inv(s) && s == Run(Initial(num_child, num_iter), trace) && S() == Apply(s, a)
      modifies this`trace
      ensures Valid()
    {
      hide Inv, Apply;
      StepKeepsInv(s, a);
      AfterOneMore(Apply, Initial(num_child, num_iter), trace, a);
      trace := trace + [a];
    }

    method SetPc(k: nat, pc: ChildPc)
      requires k < |children|
      modifies this`children
      ensures children == old(children)[k := old(children)[k].(pc := pc)]
    {
      children := children[k := children[k].(pc := pc)];
    }

    // The loop test of a child, and its exit.
    method TestIterations(k: nat)
      requires Valid() && k < |children| && children[k].pc.Loop?
      modifies this
      ensures Valid() && S() == Apply(old(S()), RunChild(k)) && schedule == old(schedule)
    {
      hide Inv;
      ghost var s := S();
      SetPc(k, if children[k].i < num_iter then ChildPc.Lock else Exited);
      Did(s, RunChild(k));
    }

    method TakeMutex(k: nat)
      requires Valid() && k < |children| && children[k].pc.Lock? && owner == Nobody
      modifies this
      ensures Valid() && S() == Apply(old(S()), RunChild(k)) && schedule == old(schedule)
    {
      hide Inv;
      ghost var s := S();
      owner := ChildAt(k);
      SetPc(k, Read);
      Did(s, RunChild(k));
    }

    // tmp = *shared_counter.
    method ReadCounter(k: nat) returns (tmp: nat)
      requires Valid() && k < |children| && children[k].pc.Read?
      modifies this
      ensures Valid() && S() == Apply(old(S()), RunChild(k)) && schedule == old(schedule)
      ensures tmp == shared_counter == old(shared_counter)
    {
      hide Inv;
      ghost var s := S();
      tmp := shared_counter;
      children := children[k := children[k].(pc := Yield, tmp := tmp)];
      Did(s, RunChild(k));
    }

    // *shared_counter = tmp + 1.
    method WriteCounter(k: nat, tmp: nat)
      requires Valid() && k < |children| && children[k].pc.Write? && tmp == children[k].tmp
      modifies this
      ensures Valid() && S() == Apply(old(S()), RunChild(k)) && schedule == old(schedule)
    {
      hide Inv;
      ghost var s := S();
      shared_counter := (tmp + 1) % WORD;
      SetPc(k, ChildPc.Unlock);
      Did(s, RunChild(k));
    }

    method DoYield(k: nat)
      requires Valid() && k < |children| && children[k].pc.Yield?
      modifies this
      ensures Valid() && S() == Apply(old(S()), RunChild(k)) && schedule == old(schedule)
    {
      hide Inv;
      ghost var s := S();
      SetPc(k, Write);
      Did(s, RunChild(k));
    }

    method GiveMutex(k: nat)
      requires Valid() && k < |children| && children[k].pc.Unlock?
      modifies this
      ensures Valid() && S() == Apply(old(S()), RunChild(k)) && schedule == old(schedule)
    {
      hide Inv;
      ghost var s := S();
      owner := Nobody;
      children := children[k := children[k].(pc := Loop, i := children[k].i + 1)];
      Did(s, RunChild(k));
    }

    method ForkOne()
      requires Valid() && parent.Forking? && |children| < num_child
      modifies this
      ensures Valid() && S() == Apply(old(S()), RunParent) && schedule == old(schedule)
      ensures |children| == |old(children)| + 1
    {
      hide Inv;
      ghost var s := S();
      children := children + [Child(Loop, 0, 0)];
      Did(s, RunParent);
    }

    // accept_mutex_off in the parent.
    method Launch()
      requires Valid() && parent.Releasing?
      modifies this
      ensures Valid() && S() == Apply(old(S()), RunParent) && schedule == old(schedule)
    {
      hide Inv;
      ghost var s := S();
      owner, parent := Nobody, ParentPc.Waiting(0);
      Did(s, RunParent);
    }

    // What the others do before the next step of a child.
    method OthersThanChild(k: nat)
      requires Valid() && k < |children|
      modifies this
      ensures Valid() && ChildLeftAlone(old(S()), S(), k)
      ensures schedule == if old(schedule) == [] then [] else old(schedule)[1..]
    {
      hide Inv, Apply;
      if schedule != [] {
        var chunk := schedule[0];
        schedule := schedule[1..];
        for i := 0 to |chunk|
          invariant Valid() && ChildLeftAlone(old(S()), S(), k) && schedule == old(schedule)[1..]
        {
          if chunk[i] != RunChild(k) {
            ChildrenLeaveChildAlone(S(), chunk[i], k);
            Perform(chunk[i]);
          }
        }
      }
    }

    // What the children do before the next step of the parent.
    method OthersThanParent()
      requires Valid()
      modifies this
      ensures Valid() && ParentLeftAlone(old(S()), S())
      ensures schedule == if old(schedule) == [] then [] else old(schedule)[1..]
    {
      hide Inv, Apply;
      if schedule != [] {
        var chunk := schedule[0];
        schedule := schedule[1..];
        for i := 0 to |chunk|
          invariant Valid() && ParentLeftAlone(old(S()), S()) && schedule == old(schedule)[1..]
        {
          if chunk[i].RunChild? {
            ChildrenLeaveParentAlone(S(), chunk[i].k);
            Perform(chunk[i]);
          }
        }
      }
    }

    // accept_mutex_on in a child; false when the schedule ends with the mutex still taken.
    method LockInChild(k: nat) returns (ok: bool)
      requires Valid() && k < |children| && children[k].pc.Lock?
      modifies this
      ensures Valid() && k < |children|
      ensures ok ==> children[k] == old(children[k]).(pc := Read)
    {
      hide Inv, Apply;
      while owner != Nobody
        invariant Valid() && k < |children| && children[k] == old(children[k])
        decreases |schedule|
      {
        if schedule == [] {
          return false;
        }
        OthersThanChild(k);
      }
      Locks(S(), k);
      TakeMutex(k);
      OthersThanChild(k);
      ok := true;
    }

    // The loop of a child. What it writes is one more than the counter holds at that moment,
    // whatever the others did since it read the counter.
    method RunChildLoop(k: nat) returns (exited: bool)
      requires Valid() && k < |children| && children[k] == Child(Loop, 0, 0)
      modifies this
      ensures Valid() && k < |children|
      ensures exited ==> children[k].pc.Exited? && children[k].i == AtLeastZero(num_iter)
    {
      hide Inv;
      var i := 0;
      while i < num_iter
        invariant Valid() && k < |children| && children[k].pc.Loop? && children[k].i == i
        invariant 0 <= i <= AtLeastZero(num_iter)
        decreases num_iter - i
      {
        TestIterations(k);
        OthersThanChild(k);
        var ok := LockInChild(k);
        if !ok {
          return false;
        }
        Increment(k);
        GiveMutex(k);
        OthersThanChild(k);
        i := i + 1;
      }
      TestIterations(k);
      exited := true;
    }

    // The critical section of a child.
    method Increment(k: nat)
      requires Valid() && k < |children| && children[k].pc.Read?
      modifies this
      ensures Valid() && k < |children| && shared_counter == old(shared_counter) + 1
      ensures children[k].pc.Unlock? && children[k].i == old(children[k].i)
    {
      hide Inv;
      var tmp := ReadCounter(k);
      OthersThanChild(k);
      DoYield(k);
      OthersThanChild(k);
      ChildNow(S(), k);
      assert shared_counter == tmp;
      WriteCounter(k, tmp);
      assert shared_counter == tmp + 1;
      OthersThanChild(k);
    }

    // The fork loop of the parent.
    method Fork()
      requires Valid() && parent.Forking? && children == []
      modifies this
      ensures Valid() && parent.Checking? && |children| == AtLeastZero(num_child) && owner == Parent
    {
      hide Inv;
      var i := 0;
      ParentNow(S());
      while i < num_child
        invariant Valid() && parent.Forking? && |children| == i && 0 <= i <= AtLeastZero(num_child) && owner == Parent
        decreases num_child - i
      {
        ForkOne();
        OthersThanParent();
        i := i + 1;
      }
      Perform(RunParent); // the loop test, now false
      OthersThanParent();
    }

    // The parent after accept_mutex_on. The first check is silent; the second is so exactly when the
    // product fits an int and no argument is negative or one is zero.
    method RunParentLoop() returns (done: bool, verdict: Verdict)
      requires Valid() && parent.Forking? && children == []
      modifies this
      ensures Valid()
      ensures done ==> shared_counter == AtLeastZero(num_child) * AtLeastZero(num_iter)
      ensures done ==> (verdict.Silent? <==> FitsInt(num_child * num_iter) && Countable(num_child, num_iter))
      ensures done ==> (verdict.Undefined? <==> !FitsInt(num_child * num_iter))
      ensures !done ==> verdict.Silent? && schedule == []
    {
      hide Inv, Run;
      Fork();
      ParentNow(S());
      assert shared_counter == 0;
      Perform(RunParent); // the first check
      OthersThanParent();
      Launch();
      OthersThanParent();
      var i := 0;
      while i < num_child
        invariant Valid() && parent == ParentPc.Waiting(i) && 0 <= i <= AtLeastZero(num_child)
        decreases num_child - i, |schedule|
      {
        if Exits(children) > i {
          i := i + 1;
          Perform(RunParent); // wait has reaped a child
        } else if schedule == [] {
          return false, Silent;
        }
        OthersThanParent();
      }
      Perform(RunParent); // the loop test, now false
      NoLostUpdates(num_child, num_iter, trace);
      FinalCheckExactly(num_child, num_iter, trace);
      done := true;
      if !FitsInt(num_child * num_iter) {
        verdict := Undefined;
      } else if shared_counter != num_child * num_iter % WORD {
        verdict := Complaint;
      } else {
        verdict := Silent;
      }
    }
  }

  lemma Locks(s: State, k: nat)
    requires k < |s.children| && s.children[k].pc.Lock? && s.owner.Nobody?
    ensures Apply(s, RunChild(k)).children == s.children[k := s.children[k].(pc := Read)]
  {
  }

  lemma ParentNow(s: State)
    requires Inv(s)
    ensures s.parent.Forking? || s.parent.Checking? ==> s.owner == Parent
    ensures s.owner == Parent ==> s.counter == 0
  {
    hide Exits, Total;
    if s.owner == Parent { NothingDone(s); }
  }
}
