// The log file of the asynchronous logger: entries of the log go to a thread-safe log file.
module LogOutput {
  import opened Common
  import opened Monitor
  import opened FileUtil
  import opened Rolling
  import opened Protocol = AsyncLogging
  import LF = LogFile

  // The notice is the whole array temp, whatever snprintf leaves in it.
  const NOTICE_SIZE := 256
  type Temp = s: string | |s| == NOTICE_SIZE witness seq(NOTICE_SIZE, _ => '\0')

  // What the world does during an append, and what temp holds if it is one of a notice.
  datatype World = World(results: seq<WriteResult>, now: int, later: int, opens: bool, temp: Temp)

  const QUIET_WORLD := World([], 0, 0, true, seq(NOTICE_SIZE, _ => '\0'))

  function CallOf(e: Entry, w: World): Call {
    Call(if e.Text? then Concat(e.lines) else w.temp, w.results, w.now, w.later, w.opens)
  }

  // The calls of append that the entries of a log lead to: the bytes of a buffer, or a notice.
  ghost predicate Matches(log: seq<Entry>, calls: seq<Call>) {
    && |calls| == |log|
    && forall i :: 0 <= i < |log| ==>
         if log[i].Text? then calls[i].line == Concat(log[i].lines) else |calls[i].line| == 256
  }

  class LogOutput {
    const file: LF.LogFile
    const me: Tid // the back end
    ghost const start: File
    // What the world does during the next calls.
    var world: seq<World>
    ghost var calls: seq<Call>

    ghost function Repr(): set<object>
      reads this, file
    {
      {this, file, file.m_scpFile}
    }

    // The file is what the calls for the entries of the log make of it, and the back end hangs
    // exactly when the last of them found a flush due.
    ghost predicate Agrees(log: seq<Entry>, hung: bool)
      reads this, file, file.m_scpFile
    {
      && file.Valid() && file.m_threadSafe && Matches(log, calls)
      && start.everything == "" && start.startPeriod == PeriodStart(start.lastRoll)
      && file.View() == AfterAll(start, calls)
      && (forall i :: 0 <= i < |calls| - 1 ==> !DueAt(start, calls, i))
      && (hung <==> calls != [] && DueAt(start, calls, |calls| - 1))
      && if hung then file.HeldBy(me) else file.Unowned() && file.InNoCall(me)
    }

    // LogFile logout(true, m_rollSize, m_basename, m_flushInterval), with checkEveryN by default.
    constructor (me: Tid, rollSize: nat, flushInterval: int, opens: bool, now: int, reopens: bool, world: seq<World>)
      ensures Agrees([], false) && fresh(Repr()) && this.me == me
      ensures start == Rolled(File(rollSize, flushInterval, 1024, opens, 0, 0, 0, 0, 0, ""), now, reopens)
    {
      this.me, this.world := me, world;
      file := new LF.LogFile(true, rollSize, flushInterval, 1024, opens, now, reopens);
      start := Rolled(File(rollSize, flushInterval, 1024, opens, 0, 0, 0, 0, 0, ""), now, reopens);
      calls := [];
    }

    // logout.append.
    method Append(e: Entry, ghost log: seq<Entry>) returns (ok: bool)
      requires Agrees(log, false)
      modifies Repr()
      ensures Agrees(log + [e], !ok) && fresh(Repr() - old(Repr()))
    {
      hide AfterAppend, AfterAll, FlushDue, RollDue, PeriodStart, Concat;
      var c := CallOf(e, if world == [] then QUIET_WORLD else world[0]);
      world := if world == [] then [] else world[1..];
      OneAppendMore(start, calls, c);
      DueOneMore(start, calls, c);
      ok := file.Append(me, c);
      calls := calls + [c];
    }

    // logout.flush, while the back end has not the mutex.
    method Flush(ghost log: seq<Entry>)
      requires Agrees(log, false)
      modifies file`m_mutexLock
      ensures Agrees(log, false) && Repr() == old(Repr())
    {
      hide AfterAll, FlushDue, PeriodStart, Concat, Matches;
      var _ := file.Flush(me);
    }
  }

  lemma DueOneMore(f: File, calls: seq<Call>, c: Call)
    ensures DueAt(f, calls + [c], |calls|) == FlushDue(AfterAll(f, calls), c)
    ensures forall i :: 0 <= i < |calls| ==> DueAt(f, calls + [c], i) == DueAt(f, calls, i)
  {
    hide AfterAll, FlushDue;
    assert (calls + [c])[..|calls|] == calls;
    forall i | 0 <= i < |calls|
      ensures DueAt(f, calls + [c], i) == DueAt(f, calls, i)
    {
      assert (calls + [c])[..i] == calls[..i];
    }
  }

  // With files that open and writes that do not fail, the log files hold the bytes of the entries,
  // in order, in whatever parts they were written and however often the file rolled.
  lemma FilesHoldLog(out: LogOutput, log: seq<Entry>, hung: bool)
    requires out.Agrees(log, hung) && out.start.valid && NoErrors(out.calls)
    ensures out.file.Everything() == Concat(Lines(out.calls))
    ensures OnlyTexts(log) ==> out.file.Everything() == Concat(Output(log))
  {
    hide AfterAll, FlushDue, PeriodStart, Concat;
    AllLinesLand(out.start, out.calls);
    if OnlyTexts(log) { BytesOfOutput(log, out.calls); }
  }

  // A log without notices has the bytes of its lines.
  lemma {:induction false} BytesOfOutput(log: seq<Entry>, calls: seq<Call>)
    requires Matches(log, calls) && OnlyTexts(log)
    ensures Concat(Lines(calls)) == Concat(Output(log))
  {
    if log != [] {
      hide Concat;
      var n := |log| - 1;
      assert log[n] in log;
      assert forall e <- log[..n] :: e in log;
      BytesOfOutput(log[..n], calls[..n]);
      assert Lines(calls) == Lines(calls[..n]) + [calls[n].line];
      ConcatOneMore(Lines(calls[..n]), calls[n].line);
      ConcatJoin(Output(log[..n]), log[n].lines);
    } else {
      assert Lines(calls) == [];
    }
  }

  lemma {:induction false} ConcatJoin(a: seq<string>, b: seq<string>)
    ensures Concat(a + b) == Concat(a) + Concat(b)
  {
    if b == [] {
      assert a + b == a;
    } else {
      var n := |b| - 1;
      ConcatJoin(a, b[..n]);
      assert (a + b)[..|a + b| - 1] == a + b[..n];
    }
  }
}
