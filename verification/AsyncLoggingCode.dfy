// append and ThreadFunc as the threads run them, with any other threads in between.
module AsyncLoggingCode {
  import opened Common
  import opened Protocol = AsyncLogging
  import Output = LogOutput
  import Rolling
  import M = Monitor

  lemma RunOneMore(s: State, events: seq<Event>, e: Event)
    ensures Run(s, events + [e]) == Apply(Run(s, events), e)
  {
    assert (events + [e])[..|events|] == events;
  }

  // A step of a run, taken by code that reaches the same state.
  lemma Follow(variant: Variant, size: nat, events: seq<Event>, s: State, e: Event)
    requires s == Run(Initial(variant, size), events) && !Dead(s)
    ensures Apply(s, e) == Run(Initial(variant, size), events + [e]) && Inv(Apply(s, e))
    ensures variant.AsMeant? ==> !Dead(Apply(s, e))
  {
    hide Inv, Apply, Run, Dead;
    RunOneMore(Initial(variant, size), events, e);
    Reachable(variant, size, events + [e]);
    if variant.AsMeant? {
      AsMeantNeverCrashes(size, events + [e]);
      Alive(Apply(s, e));
    }
  }

  lemma TextsOfNone()
    ensures Texts([]) == []
  {
  }

  lemma ReportedBetween(b: Back)
    requires Reported(b) && !InBatch(b.pc)
    ensures b.log == Reports(b.batches)
  {
    hide Reports;
  }

  // Where the back end stands says which buffers it has.
  lemma PlacedNow(s: State)
    requires Inv(s)
    ensures FrontPlaced(s.front) && BackPlaced(s.back) && Reported(s.back) && Conserved(s)
  {
    hide Conserved, Reported, Owned;
  }

  class AsyncLogging {
    const variant: Variant
    const size: nat
    var m_running: bool
    var m_curbuff: Option<Buf>
    var m_nextbuff: Option<Buf>
    var m_buffs: seq<Buf>
    // The locals of ThreadFunc.
    var firstBuffer: Option<Buf>
    var secondBuffer: Option<Buf>
    var buffsToWrite: seq<Buf>
    // What was logged, the identity of the next new buffer, and whether a null pointer was used.
    var log: seq<Entry>
    var nextId: nat
    var crashed: bool
    // What the scheduler lets the other threads do between two statements of ThreadFunc.
    var schedule: seq<seq<Event>>
    // The log file, and whether a call of its append has hung.
    const logout: Output.LogOutput
    var hung: bool
    // The statement that ThreadFunc has reached, the batches it took and the lines accepted.
    var pc: Pc
    var batches: seq<seq<Buf>>
    var accepted: seq<string>
    ghost var trace: seq<Event>

    function F(): Front
      reads this`m_curbuff, this`m_nextbuff, this`m_buffs, this`nextId, this`accepted, this`crashed
    {
      Front(variant, size, m_curbuff, m_nextbuff, m_buffs, nextId, accepted, crashed)
    }

    function B(): Back
      reads this`pc, this`firstBuffer, this`secondBuffer, this`buffsToWrite, this`batches, this`log, this`hung
    {
      Back(pc, firstBuffer, secondBuffer, buffsToWrite, batches, log, hung, false)
    }

    function S(): State
      reads this
    {
      State(m_running, F(), B())
    }

    // Every state of the object is the state after a run.
    ghost predicate Valid()
      reads this
    {
      Inv(S()) && S() == Run(Initial(variant, size), trace) && (variant.AsMeant? ==> !Dead(S()))
    }

    // ThreadFunc can go on.
    ghost predicate Ready()
      reads this, logout, logout.file, logout.file.m_scpFile
    {
      Valid() && variant.AsMeant? && !hung && logout.Agrees(log, hung)
    }

    // ThreadFunc can go on exactly when ok; otherwise a call of append has hung.
    ghost predicate ReadyOrHung(ok: bool)
      reads this, logout, logout.file, logout.file.m_scpFile
    {
      Valid() && variant.AsMeant? && hung == !ok && logout.Agrees(log, hung)
    }

    // The thread me is the back end; the log file is opened with the given settings.
    constructor (variant: Variant, size: nat, schedule: seq<seq<Event>>,
                 me: M.Tid, rollSize: nat, flushInterval: int, opens: bool, now: int, reopens: bool, world: seq<Output.World>)
      ensures logout.Agrees(log, false) && fresh(logout.Repr()) && logout.me == me
      ensures Valid() && S() == Initial(variant, size) && trace == []
      ensures m_running && !hung && log == [] && m_buffs == [] && m_curbuff.Some? && m_nextbuff.Some?
      ensures this.variant == variant && this.size == size && this.schedule == schedule
    {
      this.variant, this.size, this.schedule := variant, size, schedule;
      logout := new Output.LogOutput(me, rollSize, flushInterval, opens, now, reopens, world);
      m_running, m_curbuff, m_nextbuff, m_buffs := true, Some(Buf(0, [])), Some(Buf(1, [])), [];
      firstBuffer, secondBuffer, buffsToWrite := Some(Buf(2, [])), Some(Buf(3, [])), [];
      log, nextId, crashed, hung := [], 4, false, false;
      pc, batches, accepted, trace := LoopTest, [], [], [];
      new;
      InitialInv(variant, size);
    }

    method Append(line: string)
      requires Valid() && !Dead(S())
      modifies this
      ensures Valid() && S() == Apply(old(S()), Produce(line)) && B() == old(B()) && schedule == old(schedule)
      ensures trace == old(trace) + [Produce(line)]
    {
      hide Inv, Run, Protocol.Append;
      Follow(variant, size, trace, S(), Produce(line));
      AppendLocked(line);
      trace := trace + [Produce(line)];
    }

    // append, in the critical section.
    method AppendLocked(line: string)
      requires m_curbuff.Some?
      modifies this`m_curbuff, this`m_nextbuff, this`m_buffs, this`nextId, this`crashed, this`accepted
      ensures F() == Protocol.Append(old(F()), line)
    {
      hide Length;
      if size > Length(m_curbuff.value.lines) + |line| {
        AddToCurrent(line);
      } else {
        m_buffs := m_buffs + [m_curbuff.value];
        m_curbuff := None;
        if m_nextbuff.Some? {
          m_curbuff, m_nextbuff := m_nextbuff, None;
        } else if variant.AsWritten? {
          crashed := true;
          return;
        } else {
          m_curbuff, nextId := Some(Buf(nextId, [])), nextId + 1;
        }
        AddToCurrent(line);
      }
    }

    // FixedBuffer::append.
    method AddToCurrent(line: string)
      requires m_curbuff.Some?
      modifies this`m_curbuff, this`accepted
      ensures F() == AcceptLine(old(F()), old(m_curbuff).value, line)
    {
      var b := m_curbuff.value;
      if size - Length(b.lines) >= |line| {
        m_curbuff := Some(b.(lines := b.lines + [line]));
        accepted := accepted + [line];
      }
    }

    method Stop()
      requires Valid() && !Dead(S())
      modifies this
      ensures Valid() && S() == Apply(old(S()), Event.Stop) && B() == old(B()) && schedule == old(schedule)
      ensures trace == old(trace) + [Event.Stop] && !m_running
    {
      hide Inv, Run, Output.LogOutput.Agrees;
      Follow(variant, size, trace, S(), Event.Stop);
      trace := trace + [Event.Stop];
      m_running := false;
    }

    // What the other threads do before the next statement of ThreadFunc.
    method Others()
      requires Valid() && variant.AsMeant?
      modifies this
      ensures Valid() && B() == old(B()) && old(trace) <= trace && (old(!m_running) ==> !m_running)
      ensures schedule == if old(schedule) == [] then [] else old(schedule)[1..]
    {
      hide Inv, Run, Protocol.Append;
      if schedule != [] {
        var chunk := schedule[0];
        schedule := schedule[1..];
        for i := 0 to |chunk|
          invariant Valid() && B() == old(B()) && old(trace) <= trace && (old(!m_running) ==> !m_running)
          invariant schedule == old(schedule)[1..]
        {
          match chunk[i]
          case Produce(line) => Append(line);
          case Stop => Stop();
          case _ =>
        }
      }
    }

    // The statement before was a step of the back end.
    ghost method Stepped(s: State, e: Event)
      requires s == Run(Initial(variant, size), trace) && !Dead(s) && S() == Apply(s, e) && variant.AsMeant?
      modifies this`trace
      ensures Valid() && trace == old(trace) + [e]
    {
      hide Inv, Run, Apply;
      Follow(variant, size, trace, s, e);
      trace := trace + [e];
    }

    // logout.append.
    method LogAppend(e: Entry) returns (ok: bool)
      requires logout.Agrees(log, false)
      modifies this`log, this`hung, logout.Repr()
      ensures log == old(log) + [e] && hung == !ok && logout.Agrees(log, hung)
      ensures fresh(logout.Repr() - old(logout.Repr()))
    {
      ok := logout.Append(e, log);
      log := log + [e];
      hung := !ok;
    }

    // The loop test.
    method Test() returns (running: bool)
      requires Ready() && pc.LoopTest?
      modifies this
      ensures Ready() && old(trace) <= trace && log == old(log) && batches == old(batches)
      ensures pc == (if running then Section else Finished) && (!running ==> !m_running)
      ensures |schedule| <= |old(schedule)|
    {
      hide Inv, Run, Output.LogOutput.Agrees;
      Others();
      ghost var s := S();
      running := m_running;
      pc := if running then Section else Finished;
      Stepped(s, BackStep);
    }

    // The critical section, lines 77 to 96.
    method TakeBatch()
      requires Ready() && pc.Section?
      modifies this
      ensures Ready() && old(trace) <= trace && pc.Swapped? && log == old(log)
      ensures batches == old(batches) + [buffsToWrite] && buffsToWrite != []
      ensures if old(schedule) == [] then schedule == [] else |schedule| < |old(schedule)|
    {
      hide Inv, Run, Output.LogOutput.Agrees;
      Others();
      if m_buffs == [] {
        AwaitBuffer();
      }
      ExchangeBuffers();
    }

    // waitForSeconds, which may return with or without a full buffer.
    method AwaitBuffer()
      requires Ready() && pc.Section? && m_buffs == []
      modifies this
      ensures Ready() && old(trace) <= trace && pc.Waiting? && log == old(log) && batches == old(batches)
      ensures |schedule| <= |old(schedule)|
    {
      hide Inv, Run, Output.LogOutput.Agrees;
      ghost var s := S();
      pc := Waiting;
      Stepped(s, BackStep);
      Others();
    }

    // Lines 85 to 95.
    method ExchangeBuffers()
      requires Ready() && (pc.Waiting? || (pc.Section? && m_buffs != []))
      modifies this
      ensures Ready() && old(trace) <= trace && pc.Swapped? && log == old(log) && schedule == old(schedule)
      ensures batches == old(batches) + [buffsToWrite] && buffsToWrite != []
    {
      hide Inv, Run, Output.LogOutput.Agrees;
      ghost var s := S();
      ExchangeLocked();
      Stepped(s, BackStep);
    }

    method ExchangeLocked()
      requires m_curbuff.Some?
      modifies this`m_curbuff, this`m_nextbuff, this`m_buffs
      modifies this`firstBuffer, this`secondBuffer, this`buffsToWrite, this`pc, this`batches
      ensures m_curbuff == old(firstBuffer) && m_buffs == old(buffsToWrite) && firstBuffer == None
      ensures buffsToWrite == old(m_buffs) + [old(m_curbuff).value]
      ensures m_nextbuff == if old(m_nextbuff).None? then old(secondBuffer) else old(m_nextbuff)
      ensures secondBuffer == if old(m_nextbuff).None? then None else old(secondBuffer)
      ensures pc.Swapped? && batches == old(batches) + [buffsToWrite]
    {
      m_buffs := m_buffs + [m_curbuff.value];
      m_curbuff, firstBuffer := firstBuffer, None;
      buffsToWrite, m_buffs := m_buffs, buffsToWrite;
      if m_nextbuff.None? {
        m_nextbuff, secondBuffer := secondBuffer, None;
      }
      pc, batches := Swapped, batches + [buffsToWrite];
    }

    // Lines 97 to 107.
    method DropTooMany() returns (ok: bool)
      requires Ready() && pc.Swapped? && buffsToWrite != []
      modifies this, logout.Repr()
      ensures ReadyOrHung(ok) && old(trace) <= trace && batches == old(batches) && |schedule| <= |old(schedule)|
      ensures log == old(log) + if |old(buffsToWrite)| > 25 then [Notice(|old(buffsToWrite)| - 2)] else []
      ensures ok ==> pc == Writing(0)
      ensures ok ==> buffsToWrite == if |old(buffsToWrite)| > 25 then old(buffsToWrite)[..2] else old(buffsToWrite)
      ensures fresh(logout.Repr() - old(logout.Repr()))
    {
      hide Inv, Run, Output.LogOutput.Agrees;
      Others();
      ghost var s := S();
      assert |buffsToWrite| > 0;
      if |buffsToWrite| > MOST {
        ok := Announce();
        if ok { Erase(); }
      } else {
        pc, ok := Writing(0), true;
        Stepped(s, BackStep);
      }
    }

    // Lines 102 to 105.
    method Announce() returns (ok: bool)
      requires Ready() && pc.Swapped? && |buffsToWrite| > MOST
      modifies this, logout.Repr()
      ensures ReadyOrHung(ok) && old(trace) <= trace && pc.Erasing? && batches == old(batches)
      ensures log == old(log) + [Notice(|buffsToWrite| - 2)] && buffsToWrite == old(buffsToWrite) && schedule == old(schedule)
      ensures fresh(logout.Repr() - old(logout.Repr()))
    {
      hide Inv, Run, Output.LogOutput.Agrees;
      ghost var s := S();
      pc := Pc.Erasing;
      ok := LogAppend(Notice(|buffsToWrite| - 2));
      Stepped(s, if ok then BackStep else BackHangs);
    }

    // Line 106.
    method Erase()
      requires Ready() && pc.Erasing? && |buffsToWrite| > MOST
      modifies this
      ensures Ready() && old(trace) <= trace && pc == Writing(0) && batches == old(batches) && log == old(log)
      ensures buffsToWrite == old(buffsToWrite)[..2] && |schedule| <= |old(schedule)|
    {
      hide Inv, Run, Output.LogOutput.Agrees;
      Others();
      ghost var s := S();
      buffsToWrite := buffsToWrite[..2];
      pc := Writing(0);
      Stepped(s, BackStep);
    }

    // Lines 109 to 112.
    method WriteBatch() returns (ok: bool)
      requires Ready() && pc == Writing(0)
      modifies this, logout.Repr()
      ensures ReadyOrHung(ok) && old(trace) <= trace && batches == old(batches)
      ensures buffsToWrite == old(buffsToWrite) && |schedule| <= |old(schedule)|
      ensures ok ==> pc.Resizing? && log == old(log) + Texts(buffsToWrite)
      ensures !ok ==> pc.Writing? && 0 < pc.i <= |buffsToWrite| && log == old(log) + Texts(buffsToWrite[..pc.i])
      ensures fresh(logout.Repr() - old(logout.Repr()))
    {
      hide Inv, Run, Texts, Output.LogOutput.Agrees;
      var i := 0;
      ok := true;
      TextsOfNone();
      while i < |buffsToWrite|
        invariant Ready() && old(trace) <= trace && 0 <= i <= |buffsToWrite| && pc == Writing(i)
        invariant buffsToWrite == old(buffsToWrite) && batches == old(batches) && ok
        invariant log == old(log) + Texts(buffsToWrite[..i])
        invariant |schedule| <= |old(schedule)| && fresh(logout.Repr() - old(logout.Repr()))
        decreases |buffsToWrite| - i
      {
        TextsOfOneMore(buffsToWrite, i);
        ok := WriteBuffer(i);
        i := i + 1;
        if !ok {
          return;
        }
      }
      ghost var s := S();
      pc := Resizing;
      Stepped(s, BackStep);
      assert buffsToWrite[..i] == buffsToWrite;
    }

    // Line 111.
    method WriteBuffer(i: nat) returns (ok: bool)
      requires Ready() && pc == Writing(i) && i < |buffsToWrite|
      modifies this, logout.Repr()
      ensures ReadyOrHung(ok) && old(trace) <= trace && batches == old(batches) && pc == Writing(i + 1)
      ensures buffsToWrite == old(buffsToWrite) && |schedule| <= |old(schedule)|
      ensures log == old(log) + [Text(buffsToWrite[i].lines)]
      ensures fresh(logout.Repr() - old(logout.Repr()))
    {
      hide Inv, Run, Output.LogOutput.Agrees;
      Others();
      ghost var s := S();
      pc := Writing(i + 1);
      ok := LogAppend(Text(buffsToWrite[i].lines));
      Stepped(s, if ok then BackStep else BackHangs);
    }

    // Lines 114 to 139. Both spares are there afterwards, and empty: the first two buffers of the
    // batch, of which the second is the first spare and the first the second spare, or the last of
    // these two alone if only one spare was missing.
    method Recycle()
      requires Ready() && pc.Resizing?
      modifies this, logout.file`m_mutexLock
      ensures Ready() && old(trace) <= trace && pc.LoopTest? && log == old(log) && batches == old(batches)
      ensures var n := Min(2, |old(buffsToWrite)|); n > 0 && firstBuffer == Some(Buf(old(buffsToWrite)[n - 1].id, []))
      ensures if old(secondBuffer).Some? then secondBuffer == old(secondBuffer)
              else |old(buffsToWrite)| > 1 && secondBuffer == Some(Buf(old(buffsToWrite)[0].id, []))
      ensures secondBuffer.Some? && secondBuffer.value.lines == []
      ensures buffsToWrite == [] && |schedule| <= |old(schedule)|
      ensures logout.Repr() == old(logout.Repr())
    {
      hide Inv, Run, Output.LogOutput.Agrees;
      PlacedNow(S());
      Resize();
      RefillFirst();
      RefillSecond();
      Clear();
    }

    method Resize()
      requires Ready() && pc.Resizing?
      modifies this
      ensures Ready() && old(trace) <= trace && pc.RefillFirst? && log == old(log) && batches == old(batches)
      ensures buffsToWrite == old(buffsToWrite)[..Min(2, |old(buffsToWrite)|)]
      ensures firstBuffer == old(firstBuffer) && secondBuffer == old(secondBuffer)
      ensures |schedule| <= |old(schedule)|
    {
      hide Inv, Run, Output.LogOutput.Agrees;
      Others();
      ghost var s := S();
      if |buffsToWrite| > 2 {
        buffsToWrite := buffsToWrite[..2];
      }
      pc := Pc.RefillFirst;
      Stepped(s, BackStep);
    }

    method Clear()
      requires Ready() && pc.Clearing?
      modifies this, logout.file`m_mutexLock
      ensures Ready() && old(trace) <= trace && pc.LoopTest? && log == old(log) && batches == old(batches)
      ensures firstBuffer == old(firstBuffer) && secondBuffer == old(secondBuffer)
      ensures firstBuffer.Some? && firstBuffer.value.lines == [] && secondBuffer.Some? && secondBuffer.value.lines == []
      ensures buffsToWrite == [] && |schedule| <= |old(schedule)|
      ensures logout.Repr() == old(logout.Repr())
    {
      hide Inv, Run, Output.LogOutput.Agrees;
      Others();
      ghost var s := S();
      buffsToWrite := [];
      pc := LoopTest;
      Stepped(s, BackStep);
      logout.Flush(log);
      PlacedNow(S());
    }

    // pop_back into a spare, and its reset.
    method PopBack() returns (spare: Option<Buf>)
      requires buffsToWrite != []
      modifies this`buffsToWrite
      ensures spare == Some(Buf(old(buffsToWrite)[|old(buffsToWrite)| - 1].id, []))
      ensures spare == Emptied(old(buffsToWrite)) && buffsToWrite == old(buffsToWrite)[..|old(buffsToWrite)| - 1]
    {
      var n := |buffsToWrite| - 1;
      var b := buffsToWrite[n];
      buffsToWrite := buffsToWrite[..n];
      spare := Some(b.(lines := []));
    }

    method RefillFirst()
      requires Ready() && pc.RefillFirst?
      modifies this
      ensures Ready() && old(trace) <= trace && pc.RefillSecond? && log == old(log) && batches == old(batches)
      ensures firstBuffer.Some? && |schedule| <= |old(schedule)| && secondBuffer == old(secondBuffer)
      ensures old(firstBuffer).None? ==>
        old(buffsToWrite) != [] && firstBuffer == Some(old(buffsToWrite)[|old(buffsToWrite)| - 1].(lines := []))
        && buffsToWrite == old(buffsToWrite)[..|old(buffsToWrite)| - 1]
    {
      hide Inv, Run, Output.LogOutput.Agrees, Emptied, Swap, Protocol.Append, Protocol.Announce, WriteNext, KeepTwo, TakeSecond, FrontPlaced, Reported, Conserved;
      Others();
      ghost var s := S();
      PlacedNow(s);
      if firstBuffer.None? {
        assert buffsToWrite != [];
        firstBuffer := PopBack();
      }
      pc := Pc.RefillSecond;
      Stepped(s, BackStep);
    }

    method RefillSecond()
      requires Ready() && pc.RefillSecond?
      modifies this
      ensures Ready() && old(trace) <= trace && pc.Clearing? && log == old(log) && batches == old(batches)
      ensures secondBuffer.Some? && |schedule| <= |old(schedule)| && firstBuffer == old(firstBuffer)
      ensures if old(secondBuffer).Some? then secondBuffer == old(secondBuffer)
              else old(buffsToWrite) != [] && secondBuffer == Some(old(buffsToWrite)[|old(buffsToWrite)| - 1].(lines := []))
    {
      hide Inv, Run, Output.LogOutput.Agrees, Emptied, Swap, Protocol.Append, Protocol.Announce, WriteNext, KeepTwo, TakeFirst, FrontPlaced, Reported, Conserved;
      Others();
      ghost var s := S();
      PlacedNow(s);
      if secondBuffer.None? {
        assert buffsToWrite != [];
        secondBuffer := PopBack();
      }
      pc := Clearing;
      Stepped(s, BackStep);
    }

    // ThreadFunc, until it returns, hangs in a call of logout.append, or the schedule ends. It
    // returns only after stop. Unless it hangs, the log is then the report of the batches it took.
    method ThreadFunc() returns (end: End)
      requires Ready() && pc.LoopTest?
      modifies this, logout.Repr()
      ensures ReadyOrHung(!end.Hanging?) && old(trace) <= trace && old(batches) <= batches
      ensures end.Returned? ==> pc.Finished? && !m_running && log == Reports(batches)
      ensures end.Scheduled? ==> pc.LoopTest? && schedule == [] && log == Reports(batches)
      ensures fresh(logout.Repr() - old(logout.Repr()))
    {
      hide Inv, Run, Reports, Output.LogOutput.Agrees;
      var running := Test();
      while running
        invariant Ready() && old(trace) <= trace && old(batches) <= batches
        invariant fresh(logout.Repr() - old(logout.Repr()))
        invariant pc == (if running then Section else Finished) && (!running ==> !m_running)
        decreases |schedule|
      {
        var ok := WriteOne();
        if !ok {
          return Hanging;
        }
        Recycle();
        if schedule == [] {
          PlacedNow(S());
          ReportedBetween(B());
          return Scheduled;
        }
        running := Test();
      }
      logout.Flush(log);
      end := Returned;
      PlacedNow(S());
      ReportedBetween(B());
    }

    // Takes one batch and writes it.
    method WriteOne() returns (ok: bool)
      requires Ready() && pc.Section?
      modifies this, logout.Repr()
      ensures ReadyOrHung(ok) && old(trace) <= trace && old(batches) <= batches && (ok ==> pc.Resizing?)
      ensures if old(schedule) == [] then schedule == [] else |schedule| < |old(schedule)|
      ensures fresh(logout.Repr() - old(logout.Repr()))
    {
      hide Inv, Run, Output.LogOutput.Agrees;
      TakeBatch();
      ok := DropTooMany();
      if ok { ok := WriteBatch(); }
    }

    // One event of any thread.
    method Perform(e: Event)
      requires Valid() && variant.AsMeant?
      modifies this
      ensures Valid() && S() == Apply(old(S()), e) && trace == old(trace) + [e] && schedule == old(schedule)
    {
      hide Inv, Run, Apply;
      Follow(variant, size, trace, S(), e);
      SettingOfStep(S(), e);
      PlacedNow(Apply(S(), e));
      Become(Apply(S(), e));
      trace := trace + [e];
    }

    method Become(n: State)
      requires n.front.variant == variant && n.front.size == size && !n.back.failed
      modifies this`m_running, this`m_curbuff, this`m_nextbuff, this`m_buffs, this`nextId, this`accepted, this`crashed
      modifies this`firstBuffer, this`secondBuffer, this`buffsToWrite, this`pc, this`batches, this`log, this`hung
      ensures S() == n
    {
      m_running := n.running;
      BecomeFront(n.front);
      BecomeBack(n.back);
    }

    method BecomeFront(f: Front)
      requires f.variant == variant && f.size == size
      modifies this`m_curbuff, this`m_nextbuff, this`m_buffs, this`nextId, this`accepted, this`crashed
      ensures F() == f
    {
      m_curbuff, m_nextbuff, m_buffs, nextId := f.curbuff, f.nextbuff, f.buffs, f.nextId;
      accepted, crashed := f.accepted, f.crashed;
    }

    method BecomeBack(b: Back)
      requires !b.failed
      modifies this`firstBuffer, this`secondBuffer, this`buffsToWrite, this`pc, this`batches, this`log, this`hung
      ensures B() == b
    {
      firstBuffer, secondBuffer, buffsToWrite := b.first, b.second, b.toWrite;
      pc, batches, log, hung := b.pc, b.batches, b.log, b.hung;
    }

    // stop, called by a thread that then waits in join while the others, the back end among them,
    // go on. When join returns, the back end has left its loop with everything it took written,
    // and what was accepted later is still in the buffers.
    method StopAndJoin() returns (joined: bool)
      requires Valid() && variant.AsMeant?
      modifies this
      ensures Valid() && !m_running && old(trace) <= trace
      ensures if joined then pc.Finished? && log == Reports(batches) else schedule == []
      ensures accepted == AllLines(batches) + LinesOf(m_buffs) + OptLines(m_curbuff)
    {
      hide Inv, Run, Apply, Reports, AllLines, LinesOf, OptLines;
      Stop();
      joined := true;
      while pc != Finished
        invariant Valid() && !m_running && old(trace) <= trace
        decreases |schedule|
      {
        if schedule == [] {
          joined := false;
          break;
        }
        var chunk := schedule[0];
        schedule := schedule[1..];
        ghost var left := schedule;
        for i := 0 to |chunk|
          invariant Valid() && !m_running && old(trace) <= trace && schedule == left
        {
          StaysStopped(S(), chunk[i]);
          Perform(chunk[i]);
        }
      }
      PlacedNow(S());
      if joined { ReportedBetween(B()); }
    }
  }

  // From append to the disk: while no batch of more than 25 buffers was taken and no write failed,
  // the log files, the rest of the batch being written, the full buffers and the current one hold
  // the bytes of the lines accepted, each once and in order, however often the file has rolled.
  lemma EveryByteIsSomewhere(a: AsyncLogging)
    requires a.ReadyOrHung(!a.hung) && NoneDropped(a.batches)
    requires a.logout.start.valid && Rolling.NoErrors(a.logout.calls)
    ensures
      a.logout.file.Everything() + Rolling.Concat(LinesOf(Pending(a.B()))) + Rolling.Concat(LinesOf(a.m_buffs))
          + Rolling.Concat(OptLines(a.m_curbuff))
        == Rolling.Concat(a.accepted)
  {
    hide Output.LogOutput.Agrees, Rolling.Concat, Rolling.NoErrors, NoneDropped, Protocol.Output, LinesOf, OptLines, Pending, Run, Reported, Inv;
    PlacedNow(a.S());
    NoNoticeWithoutDrop(a.B());
    Output.FilesHoldLog(a.logout, a.log, a.hung);
    NothingLostWithoutDrop(a.variant, a.size, a.trace);
    var x, y, z, w := Protocol.Output(a.log), LinesOf(Pending(a.B())), LinesOf(a.m_buffs), OptLines(a.m_curbuff);
    Output.ConcatJoin(x, y);
    Output.ConcatJoin(x + y, z);
    Output.ConcatJoin(x + y + z, w);
  }

  datatype End = Returned | Hanging | Scheduled

  lemma SettingOfStep(s: State, e: Event)
    ensures Apply(s, e).front.variant == s.front.variant && Apply(s, e).front.size == s.front.size
  {
    StepKeepsSetting(s, e);
  }

  lemma StaysStopped(s: State, e: Event)
    requires !s.running
    ensures !Apply(s, e).running
  {
  }
}
