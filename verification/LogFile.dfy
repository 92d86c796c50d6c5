// Writing a line to a stdio file that may take it in parts.
module FileUtil {
  import opened Common

  // What one fwrite call does: some bytes go through, or none and the error flag is set.
  datatype WriteResult = Wrote(n: nat) | Failed

  // How many of the remaining bytes reach the file, given what the calls of fwrite do. Calls
  // beyond those listed take everything.
  function Landed(remain: nat, results: seq<WriteResult>): (n: nat)
    ensures n <= remain
    decreases results
  {
    if results == [] then remain
    else if results[0].Failed? then 0
    else
      var ret := Min(results[0].n, remain);
      if ret == remain then remain else ret + Landed(remain - ret, results[1..])
  }

  // How many bytes the calls take if each is offered enough.
  function Progress(results: seq<WriteResult>): nat {
    if results == [] then 0
    else (if results[0].Wrote? then results[0].n else 0) + Progress(results[1..])
  }

  // A call fails before the calls ahead of it have taken the whole line.
  ghost predicate FailsEarly(remain: nat, results: seq<WriteResult>) {
    exists k :: 0 <= k < |results| && results[k].Failed? && Progress(results[..k]) < remain
  }

  lemma FailsEarlyLater(remain: nat, results: seq<WriteResult>)
    requires results != [] && results[0].Wrote?
    ensures FailsEarly(remain, results) <==> results[0].n < remain && FailsEarly(remain - results[0].n, results[1..])
  {
    var rest := results[1..];
    forall k | 0 <= k < |rest|
      ensures rest[k] == results[k + 1] && Progress(results[..k + 1]) == results[0].n + Progress(rest[..k])
    {
      assert results[..k + 1][1..] == rest[..k];
    }
    if results[0].n < remain && FailsEarly(remain - results[0].n, rest) {
      var k :| 0 <= k < |rest| && rest[k].Failed? && Progress(rest[..k]) < remain - results[0].n;
      assert results[k + 1].Failed?;
    }
    if FailsEarly(remain, results) {
      var k :| 0 <= k < |results| && results[k].Failed? && Progress(results[..k]) < remain;
      assert rest[k - 1].Failed? && Progress(results[..k - 1 + 1]) == results[0].n + Progress(rest[..k - 1]);
    }
  }

  // The whole line lands exactly when no call fails early, however the calls split it.
  lemma {:induction false} LandsInFullExactly(remain: nat, results: seq<WriteResult>)
    ensures Landed(remain, results) == remain <==> !FailsEarly(remain, results)
    decreases results
  {
    if results == [] {
    } else if results[0].Failed? {
      assert results[..0] == [];
      assert Progress(results[..0]) == 0;
      if remain > 0 { assert FailsEarly(remain, results); }
    } else {
      FailsEarlyLater(remain, results);
      if results[0].n < remain {
        LandsInFullExactly(remain - results[0].n, results[1..]);
      }
    }
  }

  // When a call fails, what has landed is what the calls before it took.
  lemma {:induction false} LandedBeforeFailure(remain: nat, results: seq<WriteResult>, k: nat)
    requires k < |results| && results[k].Failed? && forall i :: 0 <= i < k ==> results[i].Wrote?
    ensures Landed(remain, results) == Min(remain, Progress(results[..k]))
    decreases results
  {
    if k > 0 {
      assert results[..k][1..] == results[1..][..k - 1];
      if results[0].n < remain { LandedBeforeFailure(remain - results[0].n, results[1..], k - 1); }
    }
  }

  lemma PartialWritesLandInFull(remain: nat, results: seq<WriteResult>)
    requires forall r <- results :: r.Wrote?
    ensures Landed(remain, results) == remain
  {
    assert forall k :: 0 <= k < |results| ==> results[k] in results;
    LandsInFullExactly(remain, results);
  }

  class WriteFile {
    var content: seq<char> // what has reached the stream
    var m_nBytesWritten: nat
    const m_valid: bool

    // opens says whether fopen succeeds.
    constructor (opens: bool)
      ensures content == "" && m_nBytesWritten == 0 && m_valid == opens
    {
      content, m_nBytesWritten, m_valid := "", 0, opens;
    }

    // The count grows by the whole line, even when an error cuts the line short.
    method WriteLine(line: string, results: seq<WriteResult>) returns (n: nat)
      modifies this
      ensures m_valid ==> n == |line| && m_nBytesWritten == old(m_nBytesWritten) + |line|
      ensures m_valid ==> content == old(content) + line[..Landed(|line|, results)]
      ensures m_valid ==> (|content| == |old(content)| + n <==> !FailsEarly(|line|, results))
      ensures !m_valid ==> n == 0 && m_nBytesWritten == old(m_nBytesWritten) && content == old(content)
    {
      hide FailsEarly;
      if !m_valid {
        return 0;
      }
      LandsInFullExactly(|line|, results);
      var remain, startPos, calls, more := |line|, 0, 0, true;
      while more
        invariant 0 <= remain && 0 <= startPos && remain + startPos == |line| && 0 <= calls <= |results|
        invariant content == old(content) + line[..startPos] && m_nBytesWritten == old(m_nBytesWritten)
        invariant more ==> startPos + Landed(remain, results[calls..]) == Landed(|line|, results)
        invariant !more ==> startPos == Landed(|line|, results)
        decreases more, |results| - calls
      {
        var ret, error := remain, false;
        if calls < |results| {
          error := results[calls].Failed?;
          ret := if error then 0 else Min(results[calls].n, remain);
          assert results[calls..][1..] == results[calls + 1..];
          calls := calls + 1;
        }
        if ret == 0 && error {
          assert startPos == Landed(|line|, results);
          break;
        }
        content := content + line[startPos..startPos + ret];
        assert line[..startPos] + line[startPos..startPos + ret] == line[..startPos + ret];
        remain := remain - ret;
        startPos := startPos + ret;
        more := remain > 0;
      }
      m_nBytesWritten := m_nBytesWritten + |line|;
      n := |line|;
    }
  }
}

// What is lost is counted and returned all the same.
module LostLine {
  import opened FileUtil

  method CountsWhatIsLost() returns (f: WriteFile, n: nat)
    ensures n == 2 && f.m_nBytesWritten == 2 && f.content == ""
  {
    f := new WriteFile(true);
    n := f.WriteLine("ab", [Failed]);
  }
}

// What a log file holds and counts, and what one append does to it.
module Rolling {
  import opened Common
  import opened FileUtil

  const ROLL_PERIOD := 24 * 60 * 60

  function PeriodStart(now: int): int {
    CDiv(now, ROLL_PERIOD) * ROLL_PERIOD
  }

  // The last midnight for a time from 1970 on, and the next one for an earlier time.
  lemma PeriodStartIs(now: int)
    ensures PeriodStart(now) % 86400 == 0
    ensures now >= 0 ==> PeriodStart(now) <= now < PeriodStart(now) + 86400
    ensures now <= 0 ==> PeriodStart(now) - 86400 < now <= PeriodStart(now)
  {
  }

  // Two times have the same midnight exactly when they are on the same day.
  lemma SameDay(a: nat, b: nat)
    ensures PeriodStart(a) == PeriodStart(b) <==> a / 86400 == b / 86400
  {
  }

  // A call of append with what the world does during it: the writes, the clock read for the
  // period and later for the name of a new file, and whether that file opens.
  datatype Call = Call(line: string, results: seq<WriteResult>, now: int, later: int, opens: bool)

  datatype File = File(
    rollSize: nat,
    flushInterval: int,
    checkEveryN: int,
    valid: bool,         // the open file
    written: nat,        // its count of bytes
    startPeriod: int,
    lastFlush: int,
    lastRoll: int,
    appendCount: int,
    everything: string)  // all bytes in all files, in roll order

  function WrittenAfter(f: File, c: Call): nat {
    f.written + if f.valid then |c.line| else 0
  }

  // The guards inside append. The file is full after the line.
  predicate Full(f: File, c: Call) {
    WrittenAfter(f, c) >= f.rollSize
  }

  // A new file is due: the old one is full, or the count is reached on another day.
  predicate RollDue(f: File, c: Call) {
    Full(f, c) || (f.appendCount + 1 >= f.checkEveryN && PeriodStart(c.now) != f.startPeriod)
  }

  // A flush is due: the file is not full, and the count is reached on the day of the file, with
  // the flush interval over.
  predicate FlushDue(f: File, c: Call) {
    && !Full(f, c) && f.appendCount + 1 >= f.checkEveryN
    && PeriodStart(c.now) == f.startPeriod && c.now - f.lastFlush >= f.flushInterval
  }

  // The same, in numbers, for a clock from 1970 on.
  lemma GuardsInNumbers(f: File, c: Call)
    requires f.startPeriod == PeriodStart(f.lastRoll) && f.lastRoll >= 0 && c.now >= 0
    ensures
      var bytes := f.written + if f.valid then |c.line| else 0;
      var checks, sameDay := f.appendCount + 1 >= f.checkEveryN, c.now / 86400 == f.lastRoll / 86400;
      && (RollDue(f, c) <==> bytes >= f.rollSize || (checks && !sameDay))
      && (FlushDue(f, c) <==> bytes < f.rollSize && checks && sameDay && c.now - f.lastFlush >= f.flushInterval)
  {
    hide PeriodStart;
    SameDay(c.now, f.lastRoll);
  }

  function Rolled(f: File, later: int, opens: bool): File {
    if later > f.lastRoll
    then f.(lastRoll := later, lastFlush := later, startPeriod := PeriodStart(later), valid := opens, written := 0)
    else f
  }

  function Landing(f: File, c: Call): string {
    if f.valid then c.line[..Landed(|c.line|, c.results)] else ""
  }

  // append_unlocked.
  function AfterAppend(f: File, c: Call): File {
    var g := f.(written := WrittenAfter(f, c), everything := f.everything + Landing(f, c));
    if g.written >= g.rollSize then Rolled(g, c.later, c.opens)
    else if g.appendCount + 1 < g.checkEveryN then g.(appendCount := g.appendCount + 1)
    else
      var k := g.(appendCount := 0);
      if PeriodStart(c.now) != k.startPeriod then Rolled(k, c.later, c.opens)
      else if c.now - k.lastFlush >= k.flushInterval then k.(lastFlush := c.now)
      else k
  }

  // What lands of the line comes after everything written before; a file rolls, is flushed and
  // counts exactly when that is due; m_startPeriod stays m_lastRoll rounded down to a day; and in a
  // later second than the last roll the open file is left below a positive roll size.
  lemma AppendFacts(f: File, c: Call)
    requires f.startPeriod == PeriodStart(f.lastRoll)
    ensures
      var g, rolls := AfterAppend(f, c), c.later > f.lastRoll && RollDue(f, c);
      && g.everything == f.everything + Landing(f, c)
      && (c.later > f.lastRoll && f.rollSize > 0 ==> g.written < f.rollSize)
      && g.startPeriod == PeriodStart(g.lastRoll) && g.lastRoll >= f.lastRoll
      && (rolls ==> g.lastRoll == g.lastFlush == c.later && g.written == 0 && g.valid == c.opens)
      && (!rolls ==> g.lastRoll == f.lastRoll && g.valid == f.valid && g.written == WrittenAfter(f, c))
      && (!rolls ==> g.lastFlush == if FlushDue(f, c) then c.now else f.lastFlush)
      && !(RollDue(f, c) && FlushDue(f, c))
      && g.appendCount ==
           if Full(f, c) then f.appendCount
           else if f.appendCount + 1 >= f.checkEveryN then 0 else f.appendCount + 1
  {
    hide Landed, PeriodStart;
  }

  function AfterAll(f: File, calls: seq<Call>): File {
    if calls == [] then f else AfterAppend(AfterAll(f, calls[..|calls| - 1]), calls[|calls| - 1])
  }

  lemma OneAppendMore(f: File, calls: seq<Call>, c: Call)
    ensures AfterAll(f, calls + [c]) == AfterAppend(AfterAll(f, calls), c)
  {
    assert (calls + [c])[..|calls|] == calls;
  }

  // The call at position i of a history finds a flush due.
  predicate DueAt(f: File, calls: seq<Call>, i: nat)
    requires i < |calls|
  {
    FlushDue(AfterAll(f, calls[..i]), calls[i])
  }

  function Concat(parts: seq<string>): string {
    if parts == [] then "" else Concat(parts[..|parts| - 1]) + parts[|parts| - 1]
  }

  function Lines(calls: seq<Call>): (lines: seq<string>)
    ensures |lines| == |calls| && forall i :: 0 <= i < |calls| ==> lines[i] == calls[i].line
  {
    seq(|calls|, i requires 0 <= i < |calls| => calls[i].line)
  }

  predicate NoErrors(calls: seq<Call>) {
    forall i :: 0 <= i < |calls| ==> calls[i].opens && forall r <- calls[i].results :: r.Wrote?
  }

  lemma NoErrorsInPart(calls: seq<Call>, n: nat)
    requires n <= |calls| && NoErrors(calls)
    ensures NoErrors(calls[..n])
  {
  }

  lemma AfterNone(f: File)
    ensures AfterAll(f, []) == f
  {
  }

  lemma ConcatOneMore(parts: seq<string>, part: string)
    ensures Concat(parts + [part]) == Concat(parts) + part
  {
    assert (parts + [part])[..|parts|] == parts;
  }

  // With files that open and writes that may be partial but do not fail, the files in roll order
  // hold everything appended, whenever and however often they roll, and whatever the clock does.
  lemma {:induction false} AllLinesLand(f: File, calls: seq<Call>)
    requires f.valid && f.startPeriod == PeriodStart(f.lastRoll) && NoErrors(calls)
    ensures
      var g := AfterAll(f, calls);
      && g.everything == f.everything + Concat(Lines(calls))
      && g.valid && g.startPeriod == PeriodStart(g.lastRoll)
  {
    if calls != [] {
      hide AfterAppend, Concat, Landed, PeriodStart;
      var n := |calls| - 1;
      var c := calls[n];
      AllLinesLand(f, calls[..n]);
      AppendFacts(AfterAll(f, calls[..n]), c);
      PartialWritesLandInFull(|c.line|, c.results);
      assert c.line[..|c.line|] == c.line;
      assert Lines(calls) == Lines(calls[..n]) + [c.line];
      ConcatOneMore(Lines(calls[..n]), c.line);
    } else {
      assert Lines(calls) == [];
    }
  }
}

// The log file that rolls over by size and by day.
module LogFile {
  import opened Common
  import opened FileUtil
  import opened Monitor
  import opened Rolling

  class LogFile {
    const m_threadSafe: bool
    const m_rollSize: nat
    const m_flushInterval: int
    const m_checkEveryN: int
    var m_mutexLock: Option<Mon> // only in a thread-safe file
    var m_scpFile: WriteFile
    var m_startPeriod: int
    var m_lastFlush: int
    var m_lastRoll: int
    var m_appendCount: int
    // The contents of the files rolled over, in order, and the times their successors were opened.
    ghost var closed: seq<string>
    ghost var rollTimes: seq<int>

    // The file names carry the second of the roll, so strictly ascending times mean distinct files.
    ghost predicate Valid()
      reads this`m_mutexLock, this`m_startPeriod, this`m_lastRoll, this`closed, this`rollTimes
    {
      && m_mutexLock.Some? == m_threadSafe
      && (m_mutexLock.Some? ==> Sound(m_mutexLock.value))
      && m_startPeriod == PeriodStart(m_lastRoll) && m_lastRoll >= 0
      && |rollTimes| == |closed|
      && (forall i, j :: 0 <= i < j < |rollTimes| ==> rollTimes[i] < rollTimes[j])
      && m_lastRoll == (if rollTimes == [] then 0 else rollTimes[|rollTimes| - 1])
    }

    // Where a thread stands with the mutex: in no call, or in the section.
    predicate InNoCall(me: Tid)
      reads this`m_mutexLock
    {
      m_mutexLock.Some? ==> At(m_mutexLock.value, me).Outside?
    }

    predicate HeldBy(me: Tid)
      reads this`m_mutexLock
    {
      m_mutexLock.Some? && m_mutexLock.value.owner == Some(me) && At(m_mutexLock.value, me).Inside?
    }

    // There is no mutex, or nobody has it.
    predicate Unowned()
      reads this`m_mutexLock
    {
      m_mutexLock.Some? ==> m_mutexLock.value.owner == None
    }

    // All bytes in all files, in roll order.
    ghost function Everything(): string
      reads this`closed, this`m_scpFile, m_scpFile
    {
      Concat(closed) + m_scpFile.content
    }

    // The file as a value.
    ghost function View(): File
      reads this`m_startPeriod, this`m_lastFlush, this`m_lastRoll, this`m_appendCount
      reads this`closed, this`m_scpFile, m_scpFile
    {
      File(m_rollSize, m_flushInterval, m_checkEveryN, m_scpFile.m_valid, m_scpFile.m_nBytesWritten,
           m_startPeriod, m_lastFlush, m_lastRoll, m_appendCount, Everything())
    }

    // The fields that the source leaves uninitialised start at zero.
    constructor (threadSafe: bool, rollSize: nat, flushInterval: int, checkEveryN: int, opens: bool, now: int, reopens: bool)
      ensures Valid() && Unowned() && (forall t :: InNoCall(t)) && fresh(m_scpFile)
      ensures m_threadSafe == threadSafe && Everything() == ""
      ensures View() == Rolled(File(rollSize, flushInterval, checkEveryN, opens, 0, 0, 0, 0, 0, ""), now, reopens)
    {
      m_scpFile := new WriteFile(opens);
      m_mutexLock := if threadSafe then Some(INITIAL) else None;
      m_threadSafe, m_rollSize, m_flushInterval, m_checkEveryN := threadSafe, rollSize, flushInterval, checkEveryN;
      m_startPeriod, m_lastFlush, m_lastRoll, m_appendCount := 0, 0, 0, 0;
      closed, rollTimes := [], [];
      new;
      assert Everything() == "";
      var _ := RollFile(now, reopens);
    }

    // Opens a new file unless the last one was opened in the same second or later.
    method RollFile(now: int, opens: bool) returns (rolled: bool)
      requires Valid()
      modifies this
      ensures Valid() && View() == Rolled(old(View()), now, opens) && m_mutexLock == old(m_mutexLock)
      ensures Everything() == old(Everything())
      ensures rolled <==> now > old(m_lastRoll)
      ensures rolled ==> fresh(m_scpFile) && m_scpFile.content == "" && closed == old(closed) + [old(m_scpFile.content)]
      ensures rolled ==> m_lastRoll == m_lastFlush == now && m_startPeriod == PeriodStart(now)
      ensures rolled ==> m_scpFile.m_nBytesWritten == 0 && m_scpFile.m_valid == opens
      ensures !rolled ==> m_lastRoll == old(m_lastRoll) && m_lastFlush == old(m_lastFlush) && m_startPeriod == old(m_startPeriod)
      ensures m_appendCount == old(m_appendCount)
      ensures !rolled ==> m_scpFile == old(m_scpFile) && closed == old(closed)
    {
      var start := PeriodStart(now);
      if now > m_lastRoll {
        closed, rollTimes := closed + [m_scpFile.content], rollTimes + [now];
        assert closed[..|closed| - 1] == old(closed);
        m_lastRoll, m_lastFlush, m_startPeriod := now, now, start;
        m_scpFile := new WriteFile(opens);
        return true;
      }
      rolled := false;
    }

    // The guard's constructor: pthread_mutex_lock, which returns only when nobody has the mutex,
    // and assign(). Otherwise the caller waits for the thread that has it, if need be for itself.
    method Lock(me: Tid) returns (ok: bool)
      requires Valid() && m_mutexLock.Some? && (InNoCall(me) || HeldBy(me))
      modifies this`m_mutexLock
      ensures Valid() && ok == old(Unowned())
      ensures if ok then HeldBy(me) else m_mutexLock == old(m_mutexLock)
    {
      var m := m_mutexLock.value;
      ok := m.owner == None;
      if ok {
        SectionSound(m, me, 0);
        m := BeginLock(m, me);
        AdvanceSound(m, me);
        m := Advance(m, me);
        AdvanceSound(m, me);
        m_mutexLock := Some(Advance(m, me));
      }
    }

    method Unlock(me: Tid)
      requires Valid() && HeldBy(me)
      modifies this`m_mutexLock
      ensures Valid() && Unowned() && InNoCall(me)
    {
      var m := m_mutexLock.value;
      SectionSound(m, me, 0);
      m := BeginUnlock(m, me);
      AdvanceSound(m, me);
      m_mutexLock := Some(Advance(m, me));
    }

    // flush locks the mutex whoever calls it and whoever has it. What it does to the stream adds
    // no bytes. It gets on at once exactly when there is no mutex or nobody has it.
    method Flush(me: Tid) returns (returned: bool)
      requires Valid() && (InNoCall(me) || HeldBy(me))
      modifies this`m_mutexLock
      ensures Valid() && returned == old(Unowned())
      ensures if returned then Unowned() && InNoCall(me) else m_mutexLock == old(m_mutexLock)
    {
      returned := true;
      if m_mutexLock.Some? {
        returned := Lock(me);
        if returned { Unlock(me); }
      }
    }

    // A call that calls flush with the mutex taken never returns. In numbers, for a clock from 1970
    // on: a new file is opened in a later second than the last when the bytes reach the roll size,
    // or the count is reached on another day than that of the last roll; and the call hangs when,
    // with room left, the count is reached on the same day and the flush interval is over.
    method Append(me: Tid, c: Call) returns (returned: bool)
      requires Valid() && Unowned() && InNoCall(me)
      modifies this, m_scpFile
      ensures Valid() && View() == AfterAppend(old(View()), c)
      ensures c.now >= 0 ==>
        var bytes := old(m_scpFile.m_nBytesWritten) + if old(m_scpFile.m_valid) then |c.line| else 0;
        var checks, sameDay := old(m_appendCount) + 1 >= m_checkEveryN, c.now / 86400 == old(m_lastRoll) / 86400;
        && (m_scpFile != old(m_scpFile) <==> c.later > old(m_lastRoll) && (bytes >= m_rollSize || (checks && !sameDay)))
        && (returned <==>
              !(m_threadSafe && bytes < m_rollSize && checks && sameDay && c.now - old(m_lastFlush) >= m_flushInterval))
        && m_appendCount == if bytes >= m_rollSize then old(m_appendCount) else if checks then 0 else old(m_appendCount) + 1
      ensures returned <==> !(m_threadSafe && FlushDue(old(View()), c))
      ensures if returned then Unowned() && InNoCall(me) else HeldBy(me)
      ensures if c.later > old(m_lastRoll) && RollDue(old(View()), c) then fresh(m_scpFile) && m_scpFile.content == ""
              else m_scpFile == old(m_scpFile)
    {
      hide AfterAppend, FlushDue, RollDue, PeriodStart;
      ghost var f := View();
      AppendFacts(f, c);
      if c.now >= 0 { GuardsInNumbers(f, c); }
      if m_mutexLock.Some? {
        var _ := Lock(me);
        returned := AppendUnlocked(me, c);
        if returned { Unlock(me); }
      } else {
        returned := AppendUnlocked(me, c);
      }
    }

    lemma LockState(me: Tid)
      requires Valid()
      ensures m_mutexLock.Some? == m_threadSafe && !(Unowned() && HeldBy(me)) && (!m_threadSafe ==> Unowned() && InNoCall(me))
    {
    }

    method AppendUnlocked(me: Tid, c: Call) returns (returned: bool)
      requires Valid() && (m_threadSafe ==> HeldBy(me))
      modifies this, m_scpFile
      ensures Valid() && View() == AfterAppend(old(View()), c) && m_mutexLock == old(m_mutexLock)
      ensures returned <==> !(m_threadSafe && FlushDue(old(View()), c))
      ensures if c.later > old(m_lastRoll) && RollDue(old(View()), c) then fresh(m_scpFile) && m_scpFile.content == ""
              else m_scpFile == old(m_scpFile)
    {
      hide Concat, Landed, PeriodStart, FailsEarly, Sound, Valid, Unowned, InNoCall, HeldBy;
      LockState(me);
      returned := true;
      var _ := m_scpFile.WriteLine(c.line, c.results);
      assert Everything() == old(Everything()) + Landing(old(View()), c);
      if m_scpFile.m_nBytesWritten >= m_rollSize {
        var _ := RollFile(c.later, c.opens);
      } else {
        m_appendCount := m_appendCount + 1;
        if m_appendCount >= m_checkEveryN {
          m_appendCount := 0;
          var thisPeriod := PeriodStart(c.now);
          if thisPeriod != m_startPeriod {
            var _ := RollFile(c.later, c.opens);
          } else if c.now - m_lastFlush >= m_flushInterval {
            m_lastFlush := c.now;
            returned := Flush(me);
          }
        }
      }
    }
  }

  // Calls one after the other, up to the first that hangs, if one does: the files then hold every
  // line of the calls that returned and the line of the call that hangs.
  method AppendAll(f: LogFile, me: Tid, calls: seq<Call>) returns (done: nat, hung: bool)
    requires f.Valid() && f.Unowned() && f.InNoCall(me) && f.m_scpFile.m_valid && NoErrors(calls)
    modifies f, f.m_scpFile
    ensures f.Valid() && done <= |calls| && (hung <==> done < |calls|) && (hung ==> f.m_threadSafe)
    ensures f.Everything() == old(f.Everything()) + Concat(Lines(calls[..if hung then done + 1 else done]))
    ensures forall i :: 0 <= i < done && f.m_threadSafe ==> !DueAt(old(f.View()), calls, i)
    ensures hung ==> DueAt(old(f.View()), calls, done) && f.HeldBy(me)
    ensures !hung ==> f.Unowned() && f.InNoCall(me)
  {
    hide AfterAppend, AfterAll, FlushDue, RollDue, Concat, Landed, Sound, PeriodStart, NoErrors, Lines;
    ghost var start := f.View();
    done, hung := 0, false;
    assert AfterAll(start, calls[..0]) == start by { AfterNone(start); }
    while done < |calls| && !hung
      invariant 0 <= done <= |calls| && f.Valid() && (hung ==> f.m_threadSafe && done < |calls|)
      invariant if hung then f.HeldBy(me) && DueAt(start, calls, done) else f.Unowned() && f.InNoCall(me)
      invariant f.m_scpFile == old(f.m_scpFile) || fresh(f.m_scpFile)
      invariant f.View() == AfterAll(start, calls[..if hung then done + 1 else done])
      invariant forall i :: 0 <= i < done && f.m_threadSafe ==> !DueAt(start, calls, i)
      decreases |calls| - done, !hung
    {
      var returned := f.Append(me, calls[done]);
      OneAppendMore(start, calls[..done], calls[done]);
      assert calls[..done] + [calls[done]] == calls[..done + 1];
      done, hung := if returned then done + 1 else done, !returned;
    }
    NoErrorsInPart(calls, if hung then done + 1 else done);
    AllLinesLand(start, calls[..if hung then done + 1 else done]);
  }

  // A thread-safe log file whose count and interval are reached hangs on its own mutex.
  method HangsOnItsOwnMutex(me: Tid) returns (f: LogFile, returned: bool)
    ensures !returned && f.HeldBy(me)
  {
    hide AfterAppend, RollDue, Concat;
    f := new LogFile(true, 1000, 0, 1, true, 5, true);
    returned := f.Append(me, Call("line", [], 6, 6, true));
  }
}

// A thread-safe log file among any number of threads: append holds its mutex, and calls flush,
// which locks it again, when a flush is due.
module LogFileLock {
  import opened Common
  import opened Monitor
  import opened Rolling
  import opened Runs

  datatype Work = Idle | Appending(c: Call) | LockAgain | Flushing

  // calls are those of append in the order in which they got the mutex.
  datatype State = State(mon: Mon, work: map<Tid, Work>, file: File, calls: seq<Call>)

  function Initial(f: File): State {
    State(INITIAL, map[], f, [])
  }

  function WorkOf(s: State, t: Tid): Work {
    if t in s.work then s.work[t] else Idle
  }

  datatype Action =
    | CallAppend(t: Tid, c: Call)
    | CallFlush(t: Tid)
    | Instruction(t: Tid)
    | Turn(t: Tid)

  function Leave(s: State, t: Tid): State
    requires At(s.mon, t).Inside?
  {
    s.(mon := BeginUnlock(s.mon, t), work := s.work[t := Idle])
  }

  // append_unlocked up to its flush, if it calls that; the flush is pthread_mutex_lock by a thread
  // in the section, which goes on only once nobody has the mutex.
  function Statement(s: State, t: Tid): State
    requires At(s.mon, t).Inside?
  {
    match WorkOf(s, t)
    case Appending(c) =>
      var r := s.(file := AfterAppend(s.file, c), calls := s.calls + [c]);
      if FlushDue(s.file, c) then r.(work := s.work[t := LockAgain]) else Leave(r, t)
    case LockAgain => if s.mon.owner == None then s.(work := s.work[t := Flushing]) else s
    case Flushing => Leave(s, t)
    case Idle => s
  }

  function Apply(s: State, a: Action): State {
    match a
    case CallAppend(t, c) =>
      if At(s.mon, t).Outside? then s.(mon := BeginLock(s.mon, t), work := s.work[t := Appending(c)]) else s
    case CallFlush(t) =>
      if At(s.mon, t).Outside? then s.(mon := BeginLock(s.mon, t), work := s.work[t := Flushing]) else s
    case Instruction(t) => if CanAdvance(s.mon, t) then s.(mon := Advance(s.mon, t)) else s
    case Turn(t) => if At(s.mon, t).Inside? then Statement(s, t) else s
  }

  function Run(s: State, actions: seq<Action>): State {
    After(Apply, s, actions)
  }

  predicate Stuck(s: State, t: Tid) {
    At(s.mon, t).Inside? && WorkOf(s, t).LockAgain?
  }

  predicate Placed(s: State, t: Tid) {
    match At(s.mon, t)
    case Outside => WorkOf(s, t).Idle?
    case Locking => WorkOf(s, t).Appending? || WorkOf(s, t).Flushing?
    case Locked => WorkOf(s, t).Appending? || WorkOf(s, t).Flushing?
    case Inside => !WorkOf(s, t).Idle?
    case Unlocking => WorkOf(s, t).Idle?
    case _ => false
  }

  ghost predicate Inv(s: State) {
    Sound(s.mon) && forall t: Tid :: Placed(s, t)
  }

  lemma StepPlaces(s: State, a: Action, t: Tid)
    requires Placed(s, t)
    ensures Placed(Apply(s, a), t)
  {
    hide AfterAppend, FlushDue;
  }

  lemma StepKeepsInv(s: State, a: Action)
    requires Inv(s)
    ensures Inv(Apply(s, a))
  {
    hide Sound, Placed, AfterAppend, FlushDue;
    SectionSound(s.mon, a.t, 0);
    if CanAdvance(s.mon, a.t) { AdvanceSound(s.mon, a.t); }
    forall t: Tid { StepPlaces(s, a, t); }
  }

  lemma StuckStays(s: State, a: Action, t: Tid)
    requires Inv(s) && Stuck(s, t)
    ensures Stuck(Apply(s, a), t) && Apply(s, a).mon.owner == s.mon.owner == Some(t)
    ensures Apply(s, a).calls == s.calls && Apply(s, a).file == s.file
  {
    hide AfterAppend, FlushDue;
    assert Owning(At(s.mon, t));
    assert a.t != t ==> !Owning(At(s.mon, a.t));
  }

  // A thread that locks the mutex again while it has it hangs for good, and with it every call of
  // every thread: whatever anybody does, nobody else ever gets into the section and nothing more
  // is written.
  lemma {:induction false} HangsForGood(s: State, actions: seq<Action>, t: Tid, u: Tid)
    requires Inv(s) && Stuck(s, t)
    ensures Stuck(Run(s, actions), t) && (At(Run(s, actions).mon, u).Inside? ==> u == t)
    ensures Run(s, actions).file == s.file
    decreases actions
  {
    if actions == [] {
      assert Owning(At(s.mon, t));
      assert At(s.mon, u).Inside? ==> Owning(At(s.mon, u));
    } else {
      hide Inv, Apply;
      StuckStays(s, actions[0], t);
      StepKeepsInv(s, actions[0]);
      HangsForGood(Apply(s, actions[0]), actions[1..], t, u);
    }
  }

  // The file is what the calls make of it one after the other, all of them but the last found no
  // flush due, and the last did exactly if a thread is stuck.
  ghost predicate Told(f: File, s: State) {
    && s.file == AfterAll(f, s.calls)
    && (forall i :: 0 <= i < |s.calls| - 1 ==> !DueAt(f, s.calls, i))
    && (s.calls != [] && DueAt(f, s.calls, |s.calls| - 1) <==> exists t :: Stuck(s, t))
  }

  lemma WriteTells(f: File, s: State, t: Tid)
    requires Inv(s) && Told(f, s) && At(s.mon, t).Inside? && WorkOf(s, t).Appending?
    ensures Told(f, Statement(s, t))
  {
    hide AfterAppend, FlushDue, AfterAll, Placed;
    var s' := Statement(s, t);
    var c, n := WorkOf(s, t).c, |s.calls|;
    NobodyElseInside(s, t);
    assert s'.calls[..n] == s.calls;
    OneAppendMore(f, s.calls, c);
    forall i | 0 <= i < n
      ensures DueAt(f, s'.calls, i) == DueAt(f, s.calls, i)
    {
      assert s'.calls[..i] == s.calls[..i];
    }
    assert DueAt(f, s'.calls, n) == FlushDue(s.file, c);
    assert forall u :: !Stuck(s, u);
    assert forall u: Tid :: u != t ==> At(s'.mon, u) == At(s.mon, u);
    assert Stuck(s', t) <==> FlushDue(s.file, c);
  }

  lemma NobodyElseInside(s: State, t: Tid)
    requires Inv(s) && At(s.mon, t).Inside?
    ensures forall u: Tid :: At(s.mon, u).Inside? ==> u == t
  {
    hide Placed;
    assert Owning(At(s.mon, t));
    assert forall u: Tid :: At(s.mon, u).Inside? ==> Owning(At(s.mon, u));
  }

  lemma StepTells(f: File, s: State, a: Action)
    requires Inv(s) && Told(f, s)
    ensures Told(f, Apply(s, a))
  {
    hide AfterAppend, FlushDue, AfterAll, Placed, Sound;
    if a.Turn? && At(s.mon, a.t).Inside? && WorkOf(s, a.t).Appending? {
      WriteTells(f, s, a.t);
    } else {
      OtherStepsTellNothing(s, a);
      assert forall t :: Stuck(Apply(s, a), t) <==> Stuck(s, t);
    }
  }

  lemma OtherStepsTellNothing(s: State, a: Action)
    requires Inv(s) && !(a.Turn? && At(s.mon, a.t).Inside? && WorkOf(s, a.t).Appending?)
    ensures Apply(s, a).file == s.file && Apply(s, a).calls == s.calls
    ensures forall t :: Stuck(Apply(s, a), t) <==> Stuck(s, t)
  {
    hide Sound, FlushDue, AfterAppend;
    assert Placed(s, a.t);
    if a.Turn? && At(s.mon, a.t).Inside? && WorkOf(s, a.t).LockAgain? {
      StuckStays(s, a, a.t);
    }
    forall t
      ensures Stuck(Apply(s, a), t) <==> Stuck(s, t)
    {
      assert Placed(s, t);
    }
  }

  lemma {:induction false} RunTells(f: File, s: State, actions: seq<Action>)
    requires Inv(s) && Told(f, s)
    ensures Inv(Run(s, actions)) && Told(f, Run(s, actions))
    decreases actions
  {
    hide Inv, Apply, Told;
    if actions != [] {
      StepKeepsInv(s, actions[0]);
      StepTells(f, s, actions[0]);
      RunTells(f, Apply(s, actions[0]), actions[1..]);
    }
  }

  lemma FromInitial(f: File, actions: seq<Action>)
    ensures var s := Run(Initial(f), actions); Inv(s) && Told(f, s)
  {
    RunTells(f, Initial(f), actions);
  }

  // In every run of any number of threads, the file is what the appends make of it one after the
  // other in the order in which they got the mutex, and a thread hangs exactly when the last of
  // them found a flush due; none before it did.
  lemma HangsExactly(f: File, actions: seq<Action>)
    ensures
      var s := Run(Initial(f), actions);
      && s.file == AfterAll(f, s.calls)
      && ((exists t :: Stuck(s, t)) <==> s.calls != [] && DueAt(f, s.calls, |s.calls| - 1))
      && ((exists t :: Stuck(s, t)) <==> exists i :: 0 <= i < |s.calls| && DueAt(f, s.calls, i))
  {
    hide AfterAll, DueAt, Stuck;
    FromInitial(f, actions);
  }

  // Without errors the files hold the lines whole and in that order, in every run.
  lemma EveryLineLands(f: File, actions: seq<Action>)
    requires f.valid && f.startPeriod == PeriodStart(f.lastRoll) && NoErrors(Run(Initial(f), actions).calls)
    ensures var s := Run(Initial(f), actions); s.file.everything == f.everything + Concat(Lines(s.calls))
  {
    hide AfterAll, AfterAppend, PeriodStart, Concat;
    FromInitial(f, actions);
    AllLinesLand(f, Run(Initial(f), actions).calls);
  }

  // While nobody is stuck, the owner of the mutex can go on, and if there is none every thread in a
  // call can.
  lemma OthersGoOn(f: File, actions: seq<Action>, t: Tid)
    requires var s := Run(Initial(f), actions); !At(s.mon, t).Outside? && forall u :: !Stuck(s, u)
    ensures
      var s := Run(Initial(f), actions);
      var mover := if s.mon.owner.Some? then s.mon.owner.value else t;
      Apply(s, Turn(mover)) != s || Apply(s, Instruction(mover)) != s
  {
    hide Told, Statement;
    var s := Run(Initial(f), actions);
    FromInitial(f, actions);
    var mover := if s.mon.owner.Some? then s.mon.owner.value else t;
    if s.mon.owner.Some? { assert Owning(At(s.mon, mover)); }
    Moves(s, mover);
  }

  lemma Moves(s: State, t: Tid)
    requires Inv(s) && !Stuck(s, t) && !At(s.mon, t).Outside? && (s.mon.owner == None || s.mon.owner == Some(t))
    ensures Apply(s, Turn(t)) != s || Apply(s, Instruction(t)) != s
  {
    hide AfterAppend, FlushDue;
    assert Placed(s, t);
    assert At(s.mon, t).Inside? ==> At(Apply(s, Turn(t)).mon, t) != At(s.mon, t) || WorkOf(Apply(s, Turn(t)), t) != WorkOf(s, t);
    assert CanAdvance(s.mon, t) ==> At(Apply(s, Instruction(t)).mon, t) != At(s.mon, t);
  }
}
