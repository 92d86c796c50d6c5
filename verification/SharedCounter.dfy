// The locking benchmark: a parent holds a mutex while it forks its children, then every child
// increments a shared counter num_iter times under the mutex, reading and writing it in
// separate steps with a yield between.
module SharedCounter {
  import opened Common
  import opened Runs

  // The counter is an unsigned long of 64 bits.
  const WORD := 0x1_0000_0000_0000_0000

  datatype ChildPc = Loop | Lock | Read | Yield | Write | Unlock | Exited
  datatype Child = Child(pc: ChildPc, i: nat, tmp: nat)

  // Forking stands at the loop test of fork number |children|; Waiting(n) has reaped n children.
  datatype ParentPc = Forking | Checking | Releasing | Waiting(reaped: nat) | Done | Wtf
  datatype Owner = Parent | Nobody | ChildAt(k: nat)

  datatype State = State(numChild: int, numIter: int, counter: nat, owner: Owner, parent: ParentPc, children: seq<Child>)

  // After accept_mutex_on() in the parent.
  function Initial(numChild: int, numIter: int): State {
    State(numChild, numIter, 0, Parent, Forking, [])
  }

  function Exits(children: seq<Child>): (n: nat)
    ensures n <= |children|
  {
    if children == [] then 0
    else Exits(children[..|children| - 1]) + if children[|children| - 1].pc.Exited? then 1 else 0
  }

  function ParentStep(s: State): State {
    match s.parent
    case Forking =>
      if |s.children| < s.numChild then s.(children := s.children + [Child(Loop, 0, 0)]) else s.(parent := Checking)
    case Checking => s.(parent := if s.counter != 0 then Wtf else Releasing)
    case Releasing => s.(owner := Nobody, parent := Waiting(0))
    case Waiting(n) =>
      if n >= s.numChild then s.(parent := Done)
      else if Exits(s.children) > n then s.(parent := Waiting(n + 1))
      else s
    case Done => s
    case Wtf => s
  }

  function ChildStep(s: State, k: nat): State
    requires k < |s.children|
  {
    var c := s.children[k];
    match c.pc
    case Loop => s.(children := s.children[k := c.(pc := if c.i < s.numIter then Lock else Exited)])
    case Lock => if s.owner.Nobody? then s.(owner := ChildAt(k), children := s.children[k := c.(pc := Read)]) else s
    case Read => s.(children := s.children[k := c.(pc := Yield, tmp := s.counter)])
    case Yield => s.(children := s.children[k := c.(pc := Write)])
    case Write => s.(counter := (c.tmp + 1) % WORD, children := s.children[k := c.(pc := Unlock)])
    case Unlock => s.(owner := Nobody, children := s.children[k := c.(pc := Loop, i := c.i + 1)])
    case Exited => s
  }

  // One scheduling decision: the parent, or a child if it has been forked.
  datatype Action = RunParent | RunChild(k: nat)

  function Apply(s: State, a: Action): State {
    match a
    case RunParent => ParentStep(s)
    case RunChild(k) => if k < |s.children| then ChildStep(s, k) else s
  }

  function Run(s: State, schedule: seq<Action>): State {
    After(Apply, s, schedule)
  }

  // Increments that a child has completed.
  function Completed(c: Child): nat {
    c.i + if c.pc.Unlock? then 1 else 0
  }

  function Total(children: seq<Child>): nat {
    if children == [] then 0 else Total(children[..|children| - 1]) + Completed(children[|children| - 1])
  }

  lemma {:induction false} TotalAfterUpdate(children: seq<Child>, k: nat, c: Child)
    requires k < |children|
    ensures Total(children[k := c]) == Total(children) - Completed(children[k]) + Completed(c)
  {
    var last := |children| - 1;
    if k < last {
      TotalAfterUpdate(children[..last], k, c);
      assert children[k := c][..last] == children[..last][k := c];
    } else {
      assert children[k := c][..last] == children[..last];
    }
  }

  lemma {:induction false} TotalOfEqual(children: seq<Child>, each: nat)
    requires forall k :: 0 <= k < |children| ==> Completed(children[k]) == each
    ensures Total(children) == |children| * each
  {
    if children != [] {
      TotalOfEqual(children[..|children| - 1], each);
    }
  }

  lemma {:induction false} TotalBound(children: seq<Child>, each: nat)
    requires forall k :: 0 <= k < |children| ==> Completed(children[k]) <= each
    ensures Total(children) <= |children| * each
  {
    if children != [] {
      var n := |children| - 1;
      TotalBound(children[..n], each);
      assert (n + 1) * each == n * each + each;
    }
  }

  lemma {:induction false} AllExited(children: seq<Child>, k: nat)
    requires Exits(children) == |children| && k < |children|
    ensures children[k].pc.Exited?
  {
    if k < |children| - 1 {
      AllExited(children[..|children| - 1], k);
    }
  }

  function AtLeastZero(n: int): nat {
    if n < 0 then 0 else n
  }

  predicate InSection(c: Child) {
    c.pc.Read? || c.pc.Yield? || c.pc.Write? || c.pc.Unlock?
  }

  ghost predicate ChildInv(s: State, k: nat)
    requires k < |s.children|
  {
    var c := s.children[k];
    && (InSection(c) <==> s.owner == ChildAt(k))
    && (c.pc.Yield? || c.pc.Write? ==> c.tmp == s.counter)
    && c.i <= AtLeastZero(s.numIter)
    && (c.pc.Lock? || InSection(c) ==> c.i < s.numIter)
    && (c.pc.Exited? ==> c.i == AtLeastZero(s.numIter))
    && (s.owner == Parent ==> c.i == 0)
  }

  ghost predicate ParentInv(s: State) {
    && (s.owner == Parent <==> s.parent.Forking? || s.parent.Checking? || s.parent.Releasing?)
    && !s.parent.Wtf?
    && |s.children| <= AtLeastZero(s.numChild)
    && (!s.parent.Forking? ==> |s.children| == AtLeastZero(s.numChild))
    && (s.parent.Waiting? ==> s.parent.reaped <= Exits(s.children))
    && (s.parent.Done? ==> Exits(s.children) == |s.children|)
    && (s.owner.ChildAt? ==> s.owner.k < |s.children|)
  }

  ghost predicate Inv(s: State) {
    && FitsInt(s.numChild) && FitsInt(s.numIter)
    && ParentInv(s)
    && (forall k :: 0 <= k < |s.children| ==> ChildInv(s, k))
    && s.counter == Total(s.children)
  }

  // With int arguments the counter cannot wrap.
  lemma CounterFits(s: State, k: nat)
    requires Inv(s) && k < |s.children| && s.children[k].pc.Write?
    ensures s.counter + 1 < WORD
  {
    var each := AtLeastZero(s.numIter);
    forall j | 0 <= j < |s.children|
      ensures Completed(s.children[j]) <= each
    {
      assert ChildInv(s, j);
    }
    TotalBound(s.children, each);
    ProductFits(|s.children|, each);
  }

  lemma ProductFits(n: nat, each: nat)
    requires n <= INT_MAX && each <= INT_MAX
    ensures n * each + 1 < WORD
  {
    ProductBound(n, each);
  }

  lemma ProductBound(n: nat, each: nat)
    requires n <= INT_MAX && each <= INT_MAX
    ensures n * each <= INT_MAX * INT_MAX
  {
    Monotone(n, INT_MAX, each);
    Monotone(each, INT_MAX, INT_MAX);
  }

  lemma Monotone(a: nat, b: nat, c: nat)
    requires a <= b
    ensures a * c <= b * c
  {
  }

  lemma {:induction false} ExitsAfterUpdate(children: seq<Child>, k: nat, c: Child)
    requires k < |children| && (children[k].pc.Exited? ==> c.pc.Exited?)
    ensures Exits(children) <= Exits(children[k := c])
  {
    var last := |children| - 1;
    if k < last {
      ExitsAfterUpdate(children[..last], k, c);
      assert children[k := c][..last] == children[..last][k := c];
    } else {
      assert children[k := c][..last] == children[..last];
    }
  }

  lemma NothingDone(s: State)
    requires Inv(s) && s.owner == Parent
    ensures s.counter == 0
  {
    forall k | 0 <= k < |s.children|
      ensures Completed(s.children[k]) == 0
    {
      assert ChildInv(s, k);
    }
    TotalOfEqual(s.children, 0);
  }

  lemma ParentStepKeepsInv(s: State)
    requires Inv(s)
    ensures Inv(ParentStep(s))
  {
    var s' := ParentStep(s);
    if s.parent.Forking? && |s.children| < s.numChild {
      assert s'.children[..|s.children|] == s.children;
    }
    if s.parent.Checking? { NothingDone(s); }
    forall j | 0 <= j < |s'.children|
      ensures ChildInv(s', j)
    {
      if j < |s.children| { assert ChildInv(s, j); }
    }
  }

  lemma OwnChildKeeps(s: State, k: nat)
    requires k < |s.children| && ChildInv(s, k)
    ensures ChildInv(ChildStep(s, k), k)
  {
  }

  lemma OtherChildKeeps(s: State, k: nat, j: nat)
    requires k < |s.children| && j < |s.children| && j != k && ChildInv(s, k) && ChildInv(s, j)
    ensures ChildInv(ChildStep(s, k), j)
  {
  }

  lemma CounterKeeps(s: State, k: nat)
    requires Inv(s) && k < |s.children|
    ensures ChildStep(s, k).counter == Total(ChildStep(s, k).children)
  {
    hide Total, ParentInv;
    var s' := ChildStep(s, k);
    assert ChildInv(s, k);
    TotalAfterUpdate(s.children, k, s'.children[k]);
    if s.children[k].pc.Write? { CounterFits(s, k); }
    assert s'.children == s.children[k := s'.children[k]];
  }

  lemma ParentInvKeeps(s: State, k: nat)
    requires ParentInv(s) && k < |s.children| && ChildInv(s, k)
    ensures ParentInv(ChildStep(s, k))
  {
    hide Exits;
    var s' := ChildStep(s, k);
    assert s'.children == s.children[k := s'.children[k]];
    ExitsAfterUpdate(s.children, k, s'.children[k]);
  }

  lemma ChildStepKeepsInv(s: State, k: nat)
    requires Inv(s) && k < |s.children|
    ensures Inv(ChildStep(s, k))
  {
    hide ChildInv, ChildStep, Total, ParentInv;
    var s' := ChildStep(s, k);
    assert ChildInv(s, k);
    CounterKeeps(s, k);
    ParentInvKeeps(s, k);
    ChildStepSize(s, k);
    forall j | 0 <= j < |s'.children|
      ensures ChildInv(s', j)
    {
      assert ChildInv(s, j);
      if j == k {
        OwnChildKeeps(s, k);
      } else {
        OtherChildKeeps(s, k, j);
      }
    }
  }

  lemma ChildStepSize(s: State, k: nat)
    requires k < |s.children|
    ensures var s' := ChildStep(s, k);
            |s'.children| == |s.children| && s'.numChild == s.numChild && s'.numIter == s.numIter
  {
  }

  lemma StepKeepsInv(s: State, a: Action)
    requires Inv(s)
    ensures Inv(Apply(s, a)) && Apply(s, a).numChild == s.numChild && Apply(s, a).numIter == s.numIter
  {
    hide Inv;
    match a
    case RunParent => ParentStepKeepsInv(s);
    case RunChild(k) => if k < |s.children| { ChildStepKeepsInv(s, k); }
  }

  lemma {:induction false} RunKeepsInv(s: State, schedule: seq<Action>)
    requires Inv(s)
    ensures Inv(Run(s, schedule))
    ensures Run(s, schedule).numChild == s.numChild && Run(s, schedule).numIter == s.numIter
    decreases schedule
  {
    hide Inv, Apply;
    if schedule != [] {
      StepKeepsInv(s, schedule[0]);
      RunKeepsInv(Apply(s, schedule[0]), schedule[1..]);
    }
  }

  // No lost updates: under every schedule the counter is zero while the parent holds the mutex,
  // the parent's first check never fails, and when every child has been waited for the counter
  // is the number of children times the number of iterations.
  lemma NoLostUpdates(numChild: int, numIter: int, schedule: seq<Action>)
    requires FitsInt(numChild) && FitsInt(numIter)
    ensures
      var s := Run(Initial(numChild, numIter), schedule);
      && !s.parent.Wtf?
      && (s.owner == Parent ==> s.counter == 0)
      && (s.parent.Done? ==> s.counter == AtLeastZero(numChild) * AtLeastZero(numIter))
  {
    var s := Run(Initial(numChild, numIter), schedule);
    RunKeepsInv(Initial(numChild, numIter), schedule);
    if s.owner == Parent { NothingDone(s); }
    if s.parent.Done? {
      forall k | 0 <= k < |s.children|
        ensures Completed(s.children[k]) == AtLeastZero(numIter)
      {
        AllExited(s.children, k);
        assert ChildInv(s, k);
      }
      TotalOfEqual(s.children, AtLeastZero(numIter));
    }
  }

  // The last comparison: an int product that does not fit is undefined, and one that fits is
  // taken for an unsigned long.
  datatype Verdict = Silent | Complaint | Undefined

  function FinalCheck(counter: nat, numChild: int, numIter: int): Verdict {
    if !FitsInt(numChild * numIter) then Undefined
    else if counter != numChild * numIter % WORD then Complaint
    else Silent
  }

  // Both counts can be reached, or there is nothing to count.
  predicate Countable(numChild: int, numIter: int) {
    (numChild >= 0 && numIter >= 0) || numChild == 0 || numIter == 0
  }

  // For all arguments and every schedule, the last comparison is right exactly when the product
  // fits an int and no argument is negative or one is zero. Of the other arguments, it is
  // undefined for those whose product does not fit and complains for the rest.
  lemma FinalCheckExactly(numChild: int, numIter: int, schedule: seq<Action>)
    requires FitsInt(numChild) && FitsInt(numIter)
    requires Run(Initial(numChild, numIter), schedule).parent.Done?
    ensures
      var verdict := FinalCheck(Run(Initial(numChild, numIter), schedule).counter, numChild, numIter);
      && (verdict.Silent? <==> FitsInt(numChild * numIter) && Countable(numChild, numIter))
      && (verdict.Undefined? <==> !FitsInt(numChild * numIter))
  {
    NoLostUpdates(numChild, numIter, schedule);
    ProductSign(numChild, numIter);
  }

  lemma ProductSign(a: int, b: int)
    requires FitsInt(a) && FitsInt(b)
    ensures
      && (a < 0 < b || b < 0 < a ==> a * b < 0)
      && ((a < 0 && b < 0) || (a > 0 && b > 0) ==> a * b > 0)
      && (a == 0 || b == 0 ==> a * b == 0)
    ensures FitsInt(a * b) ==> (AtLeastZero(a) * AtLeastZero(b) == a * b % WORD <==> Countable(a, b))
  {
    if a == 0 || b == 0 {
    } else if a > 0 && b > 0 {
      assert 0 < a * b;
    } else if a < 0 && b < 0 {
      assert 0 < a * b;
    } else {
      assert a * b < 0;
    }
  }

  // An int that wraps around at 32 bits, as most compilers have it.
  function Wrapped(x: int): int {
    (x - INT_MIN) % 0x1_0000_0000 + INT_MIN
  }

  // If the product wraps around, the comparison is right exactly for two counts that fit, and by
  // chance for a negative argument whose product is a multiple of 2 to the power of 32.
  lemma WrappedCheckExactly(numChild: int, numIter: int, schedule: seq<Action>)
    requires FitsInt(numChild) && FitsInt(numIter)
    requires Run(Initial(numChild, numIter), schedule).parent.Done?
    ensures Run(Initial(numChild, numIter), schedule).counter == Wrapped(numChild * numIter) % WORD
      <==> if numChild >= 0 && numIter >= 0 then FitsInt(numChild * numIter) else numChild * numIter % 0x1_0000_0000 == 0
  {
    hide Run, Wrapped;
    NoLostUpdates(numChild, numIter, schedule);
    WrappedProduct(numChild, numIter);
  }

  lemma WrappedProduct(a: int, b: int)
    requires FitsInt(a) && FitsInt(b)
    ensures AtLeastZero(a) * AtLeastZero(b) == Wrapped(a * b) % WORD
      <==> if a >= 0 && b >= 0 then FitsInt(a * b) else a * b % 0x1_0000_0000 == 0
  {
    hide Wrapped;
    if a >= 0 && b >= 0 {
      ProductBound(a, b);
      CountWraps(a * b);
    } else {
      NothingToCount(a, b);
      WrapsToZero(a * b);
    }
  }

  lemma NothingToCount(a: int, b: int)
    requires a < 0 || b < 0
    ensures AtLeastZero(a) * AtLeastZero(b) == 0
  {
  }

  lemma CountWraps(product: nat)
    requires product <= INT_MAX * INT_MAX
    ensures product == Wrapped(product) % WORD <==> FitsInt(product)
  {
    if !FitsInt(product) && Wrapped(product) < 0 {
      assert Wrapped(product) % WORD == Wrapped(product) + WORD;
    }
  }

  lemma WrapsToZero(product: int)
    ensures Wrapped(product) % WORD == 0 <==> product % 0x1_0000_0000 == 0
  {
    var low := product % 0x1_0000_0000;
    assert Wrapped(product) == if low <= INT_MAX then low else low - 0x1_0000_0000;
  }

  // One child that is to iterate -1 times draws the complaint ...
  lemma ComplaintForOneNegative()
    ensures
      var s := Run(Initial(1, -1), [RunParent, RunParent, RunParent, RunParent, RunChild(0), RunParent, RunParent]);
      s.parent.Done? && FinalCheck(s.counter, 1, -1).Complaint?
  {
  }

  // ... and so do two negative arguments ...
  lemma ComplaintForTwoNegatives()
    ensures
      var s := Run(Initial(-2, -3), [RunParent, RunParent, RunParent, RunParent]);
      s.parent.Done? && FinalCheck(s.counter, -2, -3).Complaint?
  {
  }

  // ... while three children with a thousand million iterations count right, and the product to
  // compare with is undefined or wraps around to something else.
  lemma OverflowForThreeChildren(schedule: seq<Action>)
    requires Run(Initial(3, 1_000_000_000), schedule).parent.Done?
    ensures
      var s := Run(Initial(3, 1_000_000_000), schedule);
      && s.counter == 3_000_000_000
      && FinalCheck(s.counter, 3, 1_000_000_000).Undefined?
      && s.counter != Wrapped(3 * 1_000_000_000) % WORD
  {
    NoLostUpdates(3, 1_000_000_000, schedule);
  }

  // No deadlock: until the parent is done, somebody can move.
  lemma SomebodyMoves(s: State)
    requires Inv(s) && !s.parent.Done?
    ensures exists a :: Apply(s, a) != s
  {
    if ParentStep(s) != s {
      assert Apply(s, RunParent) != s;
    } else {
      assert s.parent.Waiting? && Exits(s.children) <= s.parent.reaped < |s.children|;
      var k := SomeChildLeft(s.children);
      assert ChildInv(s, k);
      if s.owner.ChildAt? {
        assert ChildInv(s, s.owner.k);
        assert Apply(s, RunChild(s.owner.k)).children[s.owner.k] != s.children[s.owner.k];
      } else {
        assert Apply(s, RunChild(k)).children[k] != s.children[k];
      }
    }
  }

  lemma {:induction false} SomeChildLeft(children: seq<Child>) returns (k: nat)
    requires Exits(children) < |children|
    ensures k < |children| && !children[k].pc.Exited?
  {
    var last := |children| - 1;
    if children[last].pc.Exited? {
      k := SomeChildLeft(children[..last]);
    } else {
      k := last;
    }
  }
}
