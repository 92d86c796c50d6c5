// The asynchronous logger: producers append lines to a pair of buffers under a mutex, and one
// back-end thread swaps full buffers out, writes them and hands two of them back.
module AsyncLogging {
  import opened Common

  // A buffer with its identity. It holds whole lines, whose bytes lie one after the other.
  datatype Buf = Buf(id: nat, lines: seq<string>)

  function Length(lines: seq<string>): nat {
    if lines == [] then 0 else Length(lines[..|lines| - 1]) + |lines[|lines| - 1]|
  }

  // As written, line 59 uses m_curbuff after it was released; as meant, it installs a new buffer.
  datatype Variant = AsWritten | AsMeant

  // What the mutex protects, and what was appended so far.
  datatype Front = Front(
    variant: Variant,
    size: nat,                 // kLargeBuffer
    curbuff: Option<Buf>,
    nextbuff: Option<Buf>,
    buffs: seq<Buf>,
    nextId: nat,
    accepted: seq<string>,
    crashed: bool)             // a null pointer was used

  // What reaches the log file: the lines of a buffer, or the notice that buffers were dropped.
  datatype Entry = Text(lines: seq<string>) | Notice(count: nat)

  // The statement of ThreadFunc that the back end is about to execute.
  datatype Pc =
    | LoopTest
    | Section       // takes the mutex; waits if there is no full buffer
    | Waiting       // in waitForSeconds, which may return at any moment
    | Swapped       // outside the section, with a batch
    | Erasing       // the drop notice is logged
    | Writing(i: nat)
    | Resizing
    | RefillFirst
    | RefillSecond
    | Clearing
    | Finished

  // The locals of ThreadFunc, the log and the batches taken so far.
  datatype Back = Back(
    pc: Pc,
    first: Option<Buf>,
    second: Option<Buf>,
    toWrite: seq<Buf>,
    batches: seq<seq<Buf>>,
    log: seq<Entry>,
    hung: bool,                // a call of logout.append never returns
    failed: bool)              // an assert did not hold

  datatype State = State(running: bool, front: Front, back: Back)

  function Initial(variant: Variant, size: nat): State {
    State(true,
          Front(variant, size, Some(Buf(0, [])), Some(Buf(1, [])), [], 4, [], false),
          Back(LoopTest, Some(Buf(2, [])), Some(Buf(3, [])), [], [], [], false, false))
  }

  // FixedBuffer::append: the whole line or nothing.
  function AddLine(size: nat, b: Buf, line: string): Buf {
    if Length(b.lines) + |line| <= size then b.(lines := b.lines + [line]) else b
  }

  function AcceptLine(f: Front, b: Buf, line: string): Front {
    f.(curbuff := Some(AddLine(f.size, b, line)),
       accepted := if Length(b.lines) + |line| <= f.size then f.accepted + [line] else f.accepted)
  }

  // append(), one critical section.
  function Append(f: Front, line: string): Front
    requires f.curbuff.Some?
  {
    var cur := f.curbuff.value;
    if f.size > Length(cur.lines) + |line| then AcceptLine(f, cur, line)
    else if f.nextbuff.Some? then
      AcceptLine(f.(buffs := f.buffs + [cur], nextbuff := None), f.nextbuff.value, line)
    else if f.variant.AsMeant? then
      AcceptLine(f.(buffs := f.buffs + [cur], nextId := f.nextId + 1), Buf(f.nextId, []), line)
    else f.(buffs := f.buffs + [cur], curbuff := None, crashed := true)
  }

  // The part of the back end's critical section after the wait.
  function Swap(s: State): State
    requires s.front.curbuff.Some?
  {
    var f, b := s.front, s.back;
    var batch := f.buffs + [f.curbuff.value];
    State(s.running,
          f.(curbuff := b.first, buffs := b.toWrite, nextbuff := if f.nextbuff.None? then b.second else f.nextbuff),
          b.(pc := Swapped, first := None, second := if f.nextbuff.None? then None else b.second,
             toWrite := batch, batches := b.batches + [batch]))
  }

  const MOST := 25

  // What is written of a batch.
  function Kept(batch: seq<Buf>): seq<Buf> {
    if |batch| > MOST then batch[..2] else batch
  }

  function Heading(batch: seq<Buf>): seq<Entry> {
    if |batch| > MOST then [Notice(|batch| - 2)] else []
  }

  // Lines 97-105.
  function Announce(b: Back): Back {
    if |b.toWrite| == 0 then b.(failed := true)
    else if |b.toWrite| > MOST then b.(pc := Erasing, log := b.log + [Notice(|b.toWrite| - 2)])
    else b.(pc := Writing(0))
  }

  // Line 106.
  function Erase(b: Back): Back {
    b.(pc := Writing(0), toWrite := if |b.toWrite| > 2 then b.toWrite[..2] else b.toWrite)
  }

  // One round of the loop at line 109.
  function WriteNext(b: Back, i: nat): Back {
    if i < |b.toWrite| then b.(pc := Writing(i + 1), log := b.log + [Text(b.toWrite[i].lines)])
    else b.(pc := Resizing)
  }

  // Lines 115-118.
  function KeepTwo(b: Back): Back {
    b.(pc := RefillFirst, toWrite := if |b.toWrite| > 2 then b.toWrite[..2] else b.toWrite)
  }

  // pop_back, and reset().
  function Emptied(bs: seq<Buf>): Option<Buf>
    requires bs != []
  {
    Some(bs[|bs| - 1].(lines := []))
  }

  // Lines 120-126.
  function TakeFirst(b: Back): Back {
    if b.first.Some? then b.(pc := RefillSecond)
    else if b.toWrite == [] then b.(failed := true)
    else b.(pc := RefillSecond, first := Emptied(b.toWrite), toWrite := b.toWrite[..|b.toWrite| - 1])
  }

  // Lines 128-135.
  function TakeSecond(b: Back): Back {
    if b.second.Some? then b.(pc := Clearing)
    else if b.toWrite == [] then b.(failed := true)
    else b.(pc := Clearing, second := Emptied(b.toWrite), toWrite := b.toWrite[..|b.toWrite| - 1])
  }

  // A statement of the back end outside the critical section.
  function Local(b: Back, running: bool): Back {
    match b.pc
    case LoopTest => b.(pc := if running then Section else Finished)
    case Swapped => Announce(b)
    case Erasing => Erase(b)
    case Writing(i) => WriteNext(b, i)
    case Resizing => KeepTwo(b)
    case RefillFirst => TakeFirst(b)
    case RefillSecond => TakeSecond(b)
    case Clearing => b.(pc := LoopTest, toWrite := [])
    case _ => b
  }

  function BackEnd(s: State): State
    requires s.front.curbuff.Some?
  {
    if s.back.hung then s
    else match s.back.pc
    case Section => if s.front.buffs == [] then s.(back := s.back.(pc := Waiting)) else Swap(s)
    case Waiting => Swap(s)
    case _ => s.(back := Local(s.back, s.running))
  }

  // The next statement calls logout.append, which may hang when the log file is thread-safe.
  predicate LogsNext(b: Back) {
    (b.pc.Swapped? && |b.toWrite| > MOST) || (b.pc.Writing? && b.pc.i < |b.toWrite|)
  }

  datatype Event = Produce(line: string) | BackStep | BackHangs | Stop

  predicate Dead(s: State) {
    s.front.crashed || s.back.failed || s.front.curbuff.None?
  }

  // Nothing happens after a crash or a failed assert.
  function Apply(s: State, e: Event): State {
    if Dead(s) then s
    else match e
      case Produce(line) => s.(front := Append(s.front, line))
      case BackStep => BackEnd(s)
      case BackHangs =>
        if LogsNext(s.back) && !s.back.hung then s.(back := Local(s.back, s.running).(hung := true)) else s
      case Stop => s.(running := false)
  }

  function Run(s: State, events: seq<Event>): State {
    if events == [] then s else Apply(Run(s, events[..|events| - 1]), events[|events| - 1])
  }

  // The lines in a row of buffers, and in a row of batches.
  function LinesOf(bs: seq<Buf>): seq<string> {
    if bs == [] then [] else LinesOf(bs[..|bs| - 1]) + bs[|bs| - 1].lines
  }

  function AllLines(batches: seq<seq<Buf>>): seq<string> {
    if batches == [] then [] else AllLines(batches[..|batches| - 1]) + LinesOf(batches[|batches| - 1])
  }

  function OptLines(b: Option<Buf>): seq<string> {
    if b.Some? then b.value.lines else []
  }

  // The log that a row of batches leaves: each in order, and of one with more than MOST buffers a
  // notice and the first two.
  function Texts(bs: seq<Buf>): seq<Entry> {
    if bs == [] then [] else Texts(bs[..|bs| - 1]) + [Text(bs[|bs| - 1].lines)]
  }

  function Reports(batches: seq<seq<Buf>>): seq<Entry> {
    if batches == [] then []
    else
      var batch := batches[|batches| - 1];
      Reports(batches[..|batches| - 1]) + Heading(batch) + Texts(Kept(batch))
  }

  // The lines that reach the log file.
  function Output(log: seq<Entry>): seq<string> {
    if log == [] then []
    else Output(log[..|log| - 1]) + if log[|log| - 1].Text? then log[|log| - 1].lines else []
  }

  // Conservation and order: what was appended is what the back end has taken in batches, then the
  // full buffers, then the current one.
  ghost predicate Conserved(s: State) {
    s.front.accepted == AllLines(s.back.batches) + LinesOf(s.front.buffs) + OptLines(s.front.curbuff)
  }

  predicate InBatch(pc: Pc) {
    pc.Swapped? || pc.Erasing? || pc.Writing?
  }

  // The log is that of the batches before the current one, and as much of this one as was written.
  ghost predicate Reported(b: Back) {
    if InBatch(b.pc) then
      && b.batches != []
      && var n := |b.batches| - 1;
         var batch := b.batches[n];
         match b.pc
         case Swapped => b.toWrite == batch && b.log == Reports(b.batches[..n])
         case Erasing => b.toWrite == batch && |batch| > MOST && b.log == Reports(b.batches[..n]) + Heading(batch)
         case Writing(i) =>
           && b.toWrite == Kept(batch) && i <= |b.toWrite|
           && b.log == Reports(b.batches[..n]) + Heading(batch) + Texts(b.toWrite[..i])
    else b.log == Reports(b.batches)
  }

  // Ownership: how many places hold the buffer with an identity.
  function Places(bs: seq<Buf>, id: nat): nat {
    if bs == [] then 0 else Places(bs[..|bs| - 1], id) + if bs[|bs| - 1].id == id then 1 else 0
  }

  function Place(b: Option<Buf>, id: nat): nat {
    if b.Some? && b.value.id == id then 1 else 0
  }

  function FrontHolds(f: Front, id: nat): nat {
    Place(f.curbuff, id) + Place(f.nextbuff, id) + Places(f.buffs, id)
  }

  function BackHolds(b: Back, id: nat): nat {
    Place(b.first, id) + Place(b.second, id) + Places(b.toWrite, id)
  }

  function Holders(s: State, id: nat): nat {
    FrontHolds(s.front, id) + BackHolds(s.back, id)
  }

  // No buffer is at two places, and none at any before it is made.
  ghost predicate Owned(s: State) {
    forall id: nat :: Holders(s, id) <= (if id < s.front.nextId then 1 else 0)
  }

  predicate EmptySpare(b: Option<Buf>) {
    b.Some? ==> b.value.lines == []
  }

  predicate FrontPlaced(f: Front) {
    (f.curbuff.Some? <==> !f.crashed) && EmptySpare(f.nextbuff) && (f.nextbuff.None? ==> f.buffs != [])
  }

  // Where the back end's buffers are at each statement.
  predicate BackPlaced(b: Back) {
    && !b.failed && EmptySpare(b.first) && EmptySpare(b.second)
    && var missing := if b.second.None? then 2 else 1;
       match b.pc
       case Swapped => b.first.None? && |b.toWrite| >= missing
       case Erasing => b.first.None? && |b.toWrite| >= missing
       case Writing(i) => b.first.None? && |b.toWrite| >= missing
       case Resizing => b.first.None? && |b.toWrite| >= missing
       case RefillFirst => b.first.None? && |b.toWrite| >= missing
       case RefillSecond => b.first.Some? && |b.toWrite| >= missing - 1
       case Clearing => b.first.Some? && b.second.Some?
       case _ => b.first.Some? && b.second.Some? && b.toWrite == []
  }

  ghost predicate Inv(s: State) {
    FrontPlaced(s.front) && BackPlaced(s.back) && Conserved(s) && Reported(s.back) && Owned(s)
  }

  // Rows of buffers, batches and entries.
  lemma LinesOfOneMore(bs: seq<Buf>, b: Buf)
    ensures LinesOf(bs + [b]) == LinesOf(bs) + b.lines
  {
    assert (bs + [b])[..|bs|] == bs;
  }

  lemma PlacesOfOneMore(bs: seq<Buf>, b: Buf, id: nat)
    ensures Places(bs + [b], id) == Places(bs, id) + if b.id == id then 1 else 0
  {
    assert (bs + [b])[..|bs|] == bs;
  }

  // A cut-off row holds no more than the whole.
  lemma {:induction false} PlacesOfPrefix(bs: seq<Buf>, n: nat, id: nat)
    requires n <= |bs|
    ensures Places(bs[..n], id) <= Places(bs, id)
  {
    var k := |bs| - 1;
    if n <= k {
      PlacesOfPrefix(bs[..k], n, id);
      assert bs[..k][..n] == bs[..n];
    } else {
      assert bs[..n] == bs;
    }
  }

  lemma AllLinesOfOneMore(batches: seq<seq<Buf>>, batch: seq<Buf>)
    ensures AllLines(batches + [batch]) == AllLines(batches) + LinesOf(batch)
  {
    assert (batches + [batch])[..|batches|] == batches;
  }

  lemma TextsOfOneMore(bs: seq<Buf>, i: nat)
    requires i < |bs|
    ensures Texts(bs[..i + 1]) == Texts(bs[..i]) + [Text(bs[i].lines)]
  {
    assert bs[..i + 1][..i] == bs[..i];
  }

  // append() keeps the invariant.
  lemma AppendAdds(f: Front, line: string) returns (added: seq<string>)
    requires f.curbuff.Some? && EmptySpare(f.nextbuff)
    ensures
      var f' := Append(f, line);
      && f'.accepted == f.accepted + added
      && LinesOf(f'.buffs) + OptLines(f'.curbuff) == LinesOf(f.buffs) + OptLines(f.curbuff) + added
  {
    hide Length, LinesOf;
    var cur := f.curbuff.value;
    LinesOfOneMore(f.buffs, cur);
    added := if Append(f, line).accepted == f.accepted then [] else [line];
    assert LinesOf(f.buffs) + (cur.lines + [line]) == (LinesOf(f.buffs) + cur.lines) + [line];
  }

  lemma AppendConserves(s: State, line: string)
    requires s.front.curbuff.Some? && EmptySpare(s.front.nextbuff) && Conserved(s)
    ensures Conserved(s.(front := Append(s.front, line)))
  {
    hide Append, LinesOf, AllLines, OptLines, Length;
    var f := s.front;
    var f' := Append(f, line);
    var before := AllLines(s.back.batches);
    var added := AppendAdds(f, line);
    assert before + LinesOf(f'.buffs) + OptLines(f'.curbuff) == before + (LinesOf(f'.buffs) + OptLines(f'.curbuff));
    assert before + (LinesOf(f.buffs) + OptLines(f.curbuff) + added) == f.accepted + added;
  }

  lemma AppendHolds(f: Front, line: string, id: nat)
    requires f.curbuff.Some?
    ensures
      var f' := Append(f, line);
      FrontHolds(f', id) == FrontHolds(f, id) + if f.nextId <= id < f'.nextId then 1 else 0
  {
    hide Length, Places;
    PlacesOfOneMore(f.buffs, f.curbuff.value, id);
  }

  lemma AppendOwns(s: State, line: string)
    requires s.front.curbuff.Some? && Owned(s)
    ensures Owned(s.(front := Append(s.front, line)))
  {
    hide FrontHolds, BackHolds, Append;
    var s' := s.(front := Append(s.front, line));
    AppendMakesMore(s.front, line);
    forall id: nat
      ensures Holders(s', id) <= (if id < s'.front.nextId then 1 else 0)
    {
      assert Holders(s, id) <= (if id < s.front.nextId then 1 else 0);
      AppendHolds(s.front, line, id);
    }
  }

  lemma AppendMakesMore(f: Front, line: string)
    requires f.curbuff.Some?
    ensures Append(f, line).nextId >= f.nextId
  {
    hide Length;
  }

  lemma AppendPlaced(f: Front, line: string)
    requires f.curbuff.Some? && FrontPlaced(f)
    ensures FrontPlaced(Append(f, line))
  {
    hide Length;
  }

  // The critical section of the back end keeps the invariant.
  lemma SwapConserves(s: State)
    requires BackPlaced(s.back) && Conserved(s) && s.front.curbuff.Some? && !Outside(s.back.pc)
    ensures Conserved(Swap(s))
  {
    hide LinesOf, AllLines;
    var cur := s.front.curbuff.value;
    LinesOfOneMore(s.front.buffs, cur);
    AllLinesOfOneMore(s.back.batches, s.front.buffs + [cur]);
    NoLines();
  }

  lemma NoLines()
    ensures LinesOf([]) == [] && Texts([]) == [] && AllLines([]) == [] && forall id: nat :: Places([], id) == 0
  {
  }

  lemma SwapReports(s: State)
    requires Reported(s.back) && s.front.curbuff.Some? && !Outside(s.back.pc)
    ensures Reported(Swap(s).back)
  {
    hide Reports;
    var b := Swap(s).back;
    assert b.batches[..|b.batches| - 1] == s.back.batches;
  }

  lemma SwapHolds(s: State, id: nat)
    requires s.front.curbuff.Some? && s.back.toWrite == []
    ensures Holders(Swap(s), id) == Holders(s, id)
  {
    hide Places;
    PlacesOfOneMore(s.front.buffs, s.front.curbuff.value, id);
    NoLines();
  }

  lemma SwapOwns(s: State)
    requires Owned(s) && s.front.curbuff.Some? && s.back.toWrite == []
    ensures Owned(Swap(s))
  {
    hide Holders;
    forall id: nat
      ensures Holders(Swap(s), id) <= (if id < s.front.nextId then 1 else 0)
    {
      assert Holders(s, id) <= (if id < s.front.nextId then 1 else 0);
      SwapHolds(s, id);
    }
  }

  lemma SwapKeepsInv(s: State)
    requires Inv(s) && !s.front.crashed && !Outside(s.back.pc)
    ensures Inv(Swap(s))
  {
    hide Conserved, Owned, Reported;
    SwapConserves(s);
    SwapOwns(s);
    SwapReports(s);
  }

  // The back end's statements outside the section keep the invariant.
  predicate Outside(pc: Pc) {
    !pc.Section? && !pc.Waiting?
  }

  lemma LocalReports(b: Back, running: bool)
    requires Reported(b) && BackPlaced(b)
    ensures Reported(Local(b, running)) && Local(b, running).batches == b.batches
  {
    hide Reports, Texts, Kept, Heading;
    match b.pc
    case Swapped =>
      NoLines();
      if |b.toWrite| <= MOST { KeptOfFew(b.toWrite); } else { HeadingOfMany(b.toWrite); }
    case Erasing =>
      NoLines();
      assert Kept(b.toWrite) == b.toWrite[..2] by { HeadingOfMany(b.toWrite); }
    case Writing(i) =>
      if i < |b.toWrite| {
        TextsOfOneMore(b.toWrite, i);
      } else {
        assert b.toWrite[..i] == b.toWrite;
        ReportsOfLast(b.batches);
      }
    case _ =>
  }

  lemma ReportsOfLast(batches: seq<seq<Buf>>)
    requires batches != []
    ensures
      var n := |batches| - 1;
      Reports(batches) == Reports(batches[..n]) + Heading(batches[n]) + Texts(Kept(batches[n]))
  {
  }

  lemma LocalPlaced(b: Back, running: bool)
    requires BackPlaced(b) && Outside(b.pc)
    ensures BackPlaced(Local(b, running))
  {
  }

  lemma RowHolds(bs: seq<Buf>, id: nat)
    ensures Place(None, id) == 0 && Places([], id) == 0
    ensures |bs| > 2 ==> Places(bs[..2], id) <= Places(bs, id)
    ensures bs != [] ==> Places(bs, id) == Places(bs[..|bs| - 1], id) + Place(Emptied(bs), id)
  {
    if |bs| > 2 { PlacesOfPrefix(bs, 2, id); }
  }

  // The back end only gives buffers up.
  lemma LocalHolds(b: Back, running: bool, id: nat)
    ensures BackHolds(Local(b, running), id) <= BackHolds(b, id)
  {
    hide Places, Place, Emptied;
    RowHolds(b.toWrite, id);
  }

  lemma LocalOwns(s: State)
    requires Owned(s)
    ensures Owned(s.(back := Local(s.back, s.running)))
  {
    hide FrontHolds, BackHolds, Local;
    var s' := s.(back := Local(s.back, s.running));
    forall id: nat
      ensures Holders(s', id) <= (if id < s'.front.nextId then 1 else 0)
    {
      assert Holders(s, id) <= (if id < s.front.nextId then 1 else 0);
      LocalHolds(s.back, s.running, id);
    }
  }

  lemma LocalKeepsInv(s: State)
    requires Inv(s) && Outside(s.back.pc)
    ensures Inv(s.(back := Local(s.back, s.running)))
  {
    hide FrontPlaced, BackPlaced, Reported, Owned, Local, LinesOf, AllLines, OptLines;
    LocalReports(s.back, s.running);
    LocalPlaced(s.back, s.running);
    LocalOwns(s);
  }

  lemma WaitKeepsInv(s: State)
    requires Inv(s) && s.back.pc.Section?
    ensures Inv(s.(back := s.back.(pc := Waiting)))
  {
    hide Reports, LinesOf, AllLines, Places;
    var s' := s.(back := s.back.(pc := Waiting));
    assert forall id: nat :: Holders(s', id) == Holders(s, id);
  }

  lemma StopKeepsInv(s: State)
    requires Inv(s)
    ensures Inv(s.(running := false))
  {
    hide Reports, LinesOf, AllLines, Places;
    assert forall id: nat :: Holders(s.(running := false), id) == Holders(s, id);
  }

  lemma StepKeepsInv(s: State, e: Event)
    requires Inv(s)
    ensures Inv(Apply(s, e))
  {
    hide Append, Local, Swap, Conserved, Owned, Reported, BackPlaced;
    if !Dead(s) {
      match e
      case Produce(line) =>
        AppendConserves(s, line);
        AppendOwns(s, line);
        AppendPlaced(s.front, line);
      case BackStep =>
        if s.back.hung {
        } else if Outside(s.back.pc) {
          LocalKeepsInv(s);
        } else if s.back.pc.Section? && s.front.buffs == [] {
          WaitKeepsInv(s);
        } else {
          SwapKeepsInv(s);
        }
      case BackHangs =>
        if LogsNext(s.back) && !s.back.hung {
          LocalKeepsInv(s);
          HungKeepsInv(s.(back := Local(s.back, s.running)));
        }
      case Stop => StopKeepsInv(s);
    }
  }

  lemma HungKeepsInv(s: State)
    requires Inv(s)
    ensures Inv(s.(back := s.back.(hung := true)))
  {
    hide Reports, LinesOf, AllLines, Places;
    assert forall id: nat :: Holders(s.(back := s.back.(hung := true)), id) == Holders(s, id);
  }

  lemma InitialInv(variant: Variant, size: nat)
    ensures Inv(Initial(variant, size))
  {
  }

  lemma {:induction false} Reachable(variant: Variant, size: nat, events: seq<Event>)
    ensures Inv(Run(Initial(variant, size), events))
    ensures Run(Initial(variant, size), events).front.variant == variant
    ensures Run(Initial(variant, size), events).front.size == size
  {
    hide Inv, Apply;
    if events == [] {
      InitialInv(variant, size);
    } else {
      var n := |events| - 1;
      Reachable(variant, size, events[..n]);
      var s := Run(Initial(variant, size), events[..n]);
      StepKeepsInv(s, events[n]);
      StepKeepsSetting(s, events[n]);
    }
  }

  lemma StepKeepsSetting(s: State, e: Event)
    ensures Apply(s, e).front.variant == s.front.variant && Apply(s, e).front.size == s.front.size
  {
    hide Length, Local;
  }

  // The buffers of the current batch that are still to be written.
  function Pending(b: Back): seq<Buf> {
    match b.pc
    case Swapped => Kept(b.toWrite)
    case Erasing => Kept(b.toWrite)
    case Writing(i) => if i <= |b.toWrite| then b.toWrite[i..] else []
    case _ => []
  }

  // All lines of the batches except those of the buffers after the first two of a batch with
  // more than 25.
  function KeptLines(batches: seq<seq<Buf>>): seq<string> {
    if batches == [] then []
    else
      var batch := batches[|batches| - 1];
      KeptLines(batches[..|batches| - 1]) + if |batch| > 25 then batch[0].lines + batch[1].lines else LinesOf(batch)
  }

  // Every interleaving conserves lines and their order. The lines appended are, in order, those
  // of the batches taken, those of the full buffers and those of the current one. At every
  // statement, also after drops and when a call of the log file hangs, the lines in the log file
  // and then those still to be written are the lines of the batches taken, with no other gap than
  // the buffers after the first two of a batch with more than 25. Between batches the log is the
  // report of exactly these batches.
  lemma LinesAreConserved(variant: Variant, size: nat, events: seq<Event>)
    ensures
      var s := Run(Initial(variant, size), events);
      && s.front.accepted == AllLines(s.back.batches) + LinesOf(s.front.buffs) + OptLines(s.front.curbuff)
      && Output(s.back.log) + LinesOf(Pending(s.back)) == KeptLines(s.back.batches)
      && (!InBatch(s.back.pc) ==> s.back.log == Reports(s.back.batches))
  {
    hide AllLines, LinesOf, Reports, OptLines, Run, Output, KeptLines, Pending;
    Reachable(variant, size, events);
    OutputSoFar(Run(Initial(variant, size), events).back);
  }

  lemma OutputSoFar(b: Back)
    requires Reported(b)
    ensures Output(b.log) + LinesOf(Pending(b)) == KeptLines(b.batches)
  {
    hide Output, LinesOf, Reports, Texts, Heading, Kept, KeptLines;
    NoLines();
    OutputOfReports(b.batches);
    if InBatch(b.pc) {
      var n := |b.batches| - 1;
      var batch, before := b.batches[n], Reports(b.batches[..n]);
      OutputOfReports(b.batches[..n]);
      KeptLinesOfLast(b.batches);
      OutputOfHeading(before, batch);
      if b.pc.Writing? {
        OutputOfTexts(before + Heading(batch), b.toWrite[..b.pc.i]);
        LinesOfSplit(b.toWrite, b.pc.i);
      }
    }
  }

  lemma OutputOfHeading(log: seq<Entry>, batch: seq<Buf>)
    ensures Output(log + Heading(batch)) == Output(log)
  {
    if |batch| > MOST {
      OutputOfOneMore(log, Notice(|batch| - 2));
    } else {
      assert log + [] == log;
    }
  }

  lemma KeptLinesOfLast(batches: seq<seq<Buf>>)
    requires batches != []
    ensures
      var n := |batches| - 1;
      KeptLines(batches) == KeptLines(batches[..n]) + LinesOf(Kept(batches[n]))
  {
    hide LinesOf, Kept;
    var batch := batches[|batches| - 1];
    if |batch| <= MOST { KeptOfFew(batch); } else { KeptOfMany(batch); }
  }

  predicate NoneDropped(batches: seq<seq<Buf>>) {
    forall batch <- batches :: |batch| <= 25
  }

  // Unless a batch of more than 25 buffers is taken, nothing is lost, doubled or reordered:
  // what was appended is what the log file holds, then the rest of the batch being written, then
  // the full buffers, then the current one.
  lemma NothingLostWithoutDrop(variant: Variant, size: nat, events: seq<Event>)
    requires NoneDropped(Run(Initial(variant, size), events).back.batches)
    ensures
      var s := Run(Initial(variant, size), events);
      s.front.accepted ==
        Output(s.back.log) + LinesOf(Pending(s.back)) + LinesOf(s.front.buffs) + OptLines(s.front.curbuff)
  {
    hide Output, AllLines, LinesOf, OptLines, Run, Pending, KeptLines;
    LinesAreConserved(variant, size, events);
    NoneDroppedKeepsAll(Run(Initial(variant, size), events).back.batches);
  }

  predicate OnlyTexts(log: seq<Entry>) {
    forall e <- log :: e.Text?
  }

  lemma {:induction false} TextsAreTexts(bs: seq<Buf>)
    ensures OnlyTexts(Texts(bs))
  {
    if bs != [] { TextsAreTexts(bs[..|bs| - 1]); }
  }

  lemma {:induction false} ReportsAreTexts(batches: seq<seq<Buf>>)
    requires NoneDropped(batches)
    ensures OnlyTexts(Reports(batches))
  {
    if batches != [] {
      hide Texts;
      var n := |batches| - 1;
      assert batches[n] in batches;
      assert forall batch <- batches[..n] :: batch in batches;
      ReportsAreTexts(batches[..n]);
      TextsAreTexts(Kept(batches[n]));
    }
  }

  // There is no notice in the log before a batch is dropped.
  lemma NoNoticeWithoutDrop(b: Back)
    requires Reported(b) && NoneDropped(b.batches)
    ensures OnlyTexts(b.log)
  {
    hide Texts, Reports;
    if InBatch(b.pc) {
      var n := |b.batches| - 1;
      assert b.batches[n] in b.batches;
      assert forall batch <- b.batches[..n] :: batch in b.batches;
      ReportsAreTexts(b.batches[..n]);
      if b.pc.Writing? { TextsAreTexts(b.toWrite[..b.pc.i]); }
    } else {
      ReportsAreTexts(b.batches);
    }
  }

  lemma {:induction false} NoneDroppedKeepsAll(batches: seq<seq<Buf>>)
    requires NoneDropped(batches)
    ensures KeptLines(batches) == AllLines(batches)
  {
    if batches != [] {
      hide LinesOf;
      var n := |batches| - 1;
      assert batches[n] in batches;
      assert forall batch <- batches[..n] :: batch in batches;
      NoneDroppedKeepsAll(batches[..n]);
    }
  }

  lemma {:induction false} LinesOfSplit(bs: seq<Buf>, i: nat)
    requires i <= |bs|
    ensures LinesOf(bs) == LinesOf(bs[..i]) + LinesOf(bs[i..])
  {
    var k := |bs| - 1;
    if i <= k {
      LinesOfSplit(bs[..k], i);
      assert bs[..k][..i] == bs[..i] && bs[i..][..k - i] == bs[..k][i..];
    } else {
      assert bs[..i] == bs;
    }
  }

  lemma OutputOfOneMore(log: seq<Entry>, e: Entry)
    ensures Output(log + [e]) == Output(log) + if e.Text? then e.lines else []
  {
    assert (log + [e])[..|log|] == log;
  }

  lemma {:induction false} OutputOfTexts(log: seq<Entry>, bs: seq<Buf>)
    ensures Output(log + Texts(bs)) == Output(log) + LinesOf(bs)
  {
    hide Output;
    if bs == [] {
      assert log + Texts(bs) == log;
    } else {
      var k := |bs| - 1;
      OutputOfTexts(log, bs[..k]);
      OutputOfOneMore(log + Texts(bs[..k]), Text(bs[k].lines));
      assert log + Texts(bs) == (log + Texts(bs[..k])) + [Text(bs[k].lines)];
    }
  }

  // The log of a row of batches holds their lines, except those of the buffers after the first
  // two of a batch with more than 25.
  lemma {:induction false} OutputOfReports(batches: seq<seq<Buf>>)
    ensures Output(Reports(batches)) == KeptLines(batches)
  {
    if batches != [] {
      hide Texts, LinesOf, Output, Kept, Heading;
      var n := |batches| - 1;
      var before := Reports(batches[..n]);
      OutputOfReports(batches[..n]);
      KeptLinesOfLast(batches);
      OutputOfHeading(before, batches[n]);
      OutputOfTexts(before + Heading(batches[n]), Kept(batches[n]));
    }
  }

  lemma KeptOfFew(batch: seq<Buf>)
    requires |batch| <= MOST
    ensures Kept(batch) == batch && Heading(batch) == []
  {
  }

  lemma HeadingOfMany(batch: seq<Buf>)
    requires |batch| > MOST
    ensures Kept(batch) == batch[..2] && Heading(batch) == [Notice(|batch| - 2)]
  {
  }

  lemma KeptOfMany(batch: seq<Buf>)
    requires |batch| > MOST
    ensures LinesOf(Kept(batch)) == batch[0].lines + batch[1].lines
  {
    assert batch[..2] == [] + [batch[0]] + [batch[1]];
    LinesOfOneMore([], batch[0]);
    LinesOfOneMore([] + [batch[0]], batch[1]);
  }

  // The buffers that a log accounts for: one for each text, and the dropped ones of each notice.
  function Accounted(log: seq<Entry>): nat {
    if log == [] then 0
    else Accounted(log[..|log| - 1]) + if log[|log| - 1].Text? then 1 else log[|log| - 1].count
  }

  function BufferCount(batches: seq<seq<Buf>>): nat {
    if batches == [] then 0 else BufferCount(batches[..|batches| - 1]) + |batches[|batches| - 1]|
  }

  lemma AccountedOneMore(log: seq<Entry>, e: Entry)
    ensures Accounted(log + [e]) == Accounted(log) + if e.Text? then 1 else e.count
  {
    assert (log + [e])[..|log|] == log;
  }

  lemma {:induction false} AccountedTexts(log: seq<Entry>, bs: seq<Buf>)
    ensures Accounted(log + Texts(bs)) == Accounted(log) + |bs|
  {
    hide Accounted;
    if bs == [] {
      assert log + Texts(bs) == log;
    } else {
      var k := |bs| - 1;
      AccountedTexts(log, bs[..k]);
      AccountedOneMore(log + Texts(bs[..k]), Text(bs[k].lines));
      assert log + Texts(bs) == (log + Texts(bs[..k])) + [Text(bs[k].lines)];
    }
  }

  // No buffer is dropped in silence: texts and the numbers in the notices add up to the buffers taken.
  lemma {:induction false} NoticesCountDropped(batches: seq<seq<Buf>>)
    ensures Accounted(Reports(batches)) == BufferCount(batches)
  {
    if batches != [] {
      hide Accounted, Texts;
      var n := |batches| - 1;
      var before := Reports(batches[..n]);
      NoticesCountDropped(batches[..n]);
      if |batches[n]| > MOST {
        AccountedOneMore(before, Notice(|batches[n]| - 2));
      } else {
        assert before + [] == before;
      }
      AccountedTexts(before + Heading(batches[n]), Kept(batches[n]));
    }
  }

  // Ownership over all runs: no buffer is at two places, spares are empty, a missing m_nextbuff
  // means a full buffer is queued, both back-end spares are there at every loop head, and none
  // of the three asserts ever fails.
  lemma BuffersAreOwned(variant: Variant, size: nat, events: seq<Event>)
    ensures
      var s := Run(Initial(variant, size), events);
      && !s.back.failed
      && (s.back.pc.Swapped? ==> s.back.toWrite != [])
      && (s.back.pc.RefillFirst? && s.back.first.None? ==> s.back.toWrite != [])
      && (s.back.pc.RefillSecond? && s.back.second.None? ==> s.back.toWrite != [])
      && (forall id: nat :: Holders(s, id) <= 1)
      && EmptySpare(s.front.nextbuff) && EmptySpare(s.back.first) && EmptySpare(s.back.second)
      && (s.front.nextbuff.None? ==> s.front.buffs != [])
      && (s.back.pc.LoopTest? ==> s.back.first.Some? && s.back.second.Some? && s.back.toWrite == [])
  {
    hide Run, Holders, Reported, Conserved;
    Reachable(variant, size, events);
  }

  // A back end that hangs writes no more, whatever the producers do.
  lemma {:induction false} HungForGood(s: State, events: seq<Event>)
    requires s.back.hung
    ensures Run(s, events).back == s.back
  {
    if events != [] {
      hide Append, Local, Swap;
      HungForGood(s, events[..|events| - 1]);
    }
  }

  // As meant, no run crashes.
  lemma AsMeantNeverCrashes(size: nat, events: seq<Event>)
    ensures !Run(Initial(AsMeant, size), events).front.crashed
  {
    if events != [] {
      hide Length, Local;
      var n := |events| - 1;
      AsMeantNeverCrashes(size, events[..n]);
      Reachable(AsMeant, size, events[..n]);
    }
  }

  // A line stays in the current buffer exactly while it leaves room there, and then nothing but
  // that buffer changes. Otherwise the buffer joins the full ones, and the spare one takes its
  // place, or a new one only if there is no spare.
  lemma AppendMovesExactly(s: State, line: string)
    requires Inv(s) && !s.front.crashed && !Apply(s, Produce(line)).front.crashed
    ensures
      var f, g := s.front, Apply(s, Produce(line)).front;
      var cur := f.curbuff.value;
      && g.curbuff.Some?
      && (g.buffs == f.buffs <==> Length(cur.lines) + |line| < f.size)
      && (g.buffs == f.buffs ==>
            g.nextbuff == f.nextbuff && g.nextId == f.nextId && g.curbuff.value == Buf(cur.id, cur.lines + [line]))
      && (g.buffs != f.buffs ==> g.buffs == f.buffs + [cur] && g.nextbuff == None)
      && (g.buffs != f.buffs ==> g.curbuff.value.lines == if |line| <= f.size then [line] else [])
      && (g.buffs != f.buffs && f.nextbuff.Some? ==> g.curbuff.value.id == f.nextbuff.value.id && g.nextId == f.nextId)
      && (g.buffs != f.buffs && f.nextbuff.None? ==> g.curbuff.value.id == f.nextId && g.nextId == f.nextId + 1)
  {
    hide Holders, Reported, Conserved;
    LengthOfNone();
    assert |s.front.buffs + [s.front.curbuff.value]| == |s.front.buffs| + 1;
  }

  // What the back end does at its loop test and in its critical section: it leaves only when the
  // flag is false, and waits only while there is no full buffer. Then it takes all full buffers and
  // the current one, and leaves its first spare as the current one and its second as the next one
  // if that is missing.
  lemma SectionExactly(s: State)
    requires Inv(s) && !Dead(s) && !s.back.hung
    ensures s.back.pc.LoopTest? ==> Apply(s, BackStep).back.pc == if s.running then Section else Finished
    ensures s.back.pc.Section? ==> Apply(s, BackStep).back.pc == if s.front.buffs == [] then Waiting else Swapped
    ensures
      var t := Apply(s, BackStep);
      t.back.pc.Swapped? && !s.back.pc.Swapped? ==>
        && t.back.toWrite == s.front.buffs + [s.front.curbuff.value] && t.front.buffs == []
        && t.front.curbuff == s.back.first && t.back.first == None
        && (if s.front.nextbuff.Some? then t.front.nextbuff == s.front.nextbuff && t.back.second == s.back.second
            else t.front.nextbuff == s.back.second && t.back.second == None)
  {
    hide Holders, Reported, Conserved;
  }

  // How full a row of buffers is.
  function Characters(bs: seq<Buf>): nat {
    if bs == [] then 0 else Characters(bs[..|bs| - 1]) + Length(bs[|bs| - 1].lines)
  }

  // Of two neighbours, the second was begun because its first line did not fit behind the first.
  ghost predicate Packed(size: nat, bs: seq<Buf>) {
    forall i :: 0 <= i < |bs| - 1 ==> Length(bs[i].lines) + Length(bs[i + 1].lines) >= size
  }

  ghost predicate AllPacked(s: State) {
    && (s.front.curbuff.Some? ==> Packed(s.front.size, s.front.buffs + [s.front.curbuff.value]))
    && forall batch <- s.back.batches :: Packed(s.front.size, batch)
  }

  lemma AppendKeepsPacked(s: State, line: string)
    requires Inv(s) && !Dead(s) && AllPacked(s) && |line| <= s.front.size
    ensures AllPacked(Apply(s, Produce(line)))
  {
    hide Inv, Append;
    var f, t := s.front, Apply(s, Produce(line));
    var g := t.front;
    assert t.back == s.back && g.size == f.size by { StepKeepsSetting(s, Produce(line)); }
    if !g.crashed {
      AppendMovesExactly(s, line) by { Living(s); }
      var cur, now := f.curbuff.value, g.curbuff.value;
      LengthOfOneMore(cur.lines, line);
      LengthOfOneMore([], line);
      assert [] + [line] == [line];
      if g.buffs == f.buffs {
        PackedWithLonger(f.size, f.buffs, cur, now);
      } else {
        PackedOneMore(f.size, f.buffs, cur, now);
      }
    } else {
      CrashedHasNone(s, line);
    }
  }

  lemma Living(s: State)
    requires !Dead(s)
    ensures !s.front.crashed && s.front.curbuff.Some?
  {
  }

  lemma CrashedHasNone(s: State, line: string)
    requires Inv(s) && Apply(s, Produce(line)).front.crashed && !Dead(s)
    ensures Apply(s, Produce(line)).front.curbuff == None
  {
    hide Holders, Reported, Conserved, Length;
  }

  lemma LengthOfOneMore(lines: seq<string>, line: string)
    ensures Length(lines + [line]) == Length(lines) + |line|
  {
    assert (lines + [line])[..|lines|] == lines;
  }

  lemma PackedWithLonger(size: nat, bs: seq<Buf>, cur: Buf, now: Buf)
    requires Packed(size, bs + [cur]) && Length(now.lines) >= Length(cur.lines)
    ensures Packed(size, bs + [now])
  {
    forall i | 0 <= i < |bs|
      ensures Length((bs + [now])[i].lines) + Length((bs + [now])[i + 1].lines) >= size
    {
      assert Length((bs + [cur])[i].lines) + Length((bs + [cur])[i + 1].lines) >= size;
    }
  }

  lemma PackedOneMore(size: nat, bs: seq<Buf>, cur: Buf, now: Buf)
    requires Packed(size, bs + [cur]) && Length(cur.lines) + Length(now.lines) >= size
    ensures Packed(size, bs + [cur] + [now])
  {
    forall i | 0 <= i < |bs| + 1
      ensures Length((bs + [cur] + [now])[i].lines) + Length((bs + [cur] + [now])[i + 1].lines) >= size
    {
      if i < |bs| { assert Length((bs + [cur])[i].lines) + Length((bs + [cur])[i + 1].lines) >= size; }
    }
  }

  lemma StepKeepsPacked(s: State, e: Event)
    requires Inv(s) && AllPacked(s) && (e.Produce? ==> |e.line| <= s.front.size)
    ensures AllPacked(Apply(s, e))
  {
    if !Dead(s) {
      match e
      case Produce(line) => AppendKeepsPacked(s, line);
      case BackStep => BackStepKeepsPacked(s);
      case BackHangs => BackHangsKeepsPacked(s);
      case Stop =>
    }
  }

  lemma BackHangsKeepsPacked(s: State)
    requires Inv(s) && AllPacked(s) && !Dead(s)
    ensures AllPacked(Apply(s, BackHangs))
  {
    hide Length, Packed, Reports, LinesOf, AllLines, Places;
  }

  lemma BackStepKeepsPacked(s: State)
    requires Inv(s) && AllPacked(s) && !Dead(s)
    ensures AllPacked(Apply(s, BackStep))
  {
    hide Length, Packed, Conserved, Owned, Reported;
    var t := Apply(s, BackStep);
    if t.back.batches != s.back.batches {
      SinglePacked(s.front.size, t.front.curbuff.value);
      assert t.front.buffs + [t.front.curbuff.value] == [t.front.curbuff.value];
    }
  }

  lemma SinglePacked(size: nat, b: Buf)
    ensures Packed(size, [b])
  {
  }

  predicate AllFit(size: nat, events: seq<Event>) {
    forall e <- events :: e.Produce? ==> |e.line| <= size
  }

  lemma {:induction false} RunKeepsPacked(variant: Variant, size: nat, events: seq<Event>)
    requires AllFit(size, events)
    ensures AllPacked(Run(Initial(variant, size), events))
  {
    if events != [] {
      hide Inv, Apply, AllPacked;
      var n := |events| - 1;
      assert events[n] in events;
      assert forall e <- events[..n] :: e in events;
      RunKeepsPacked(variant, size, events[..n]);
      Reachable(variant, size, events[..n]);
      StepKeepsPacked(Run(Initial(variant, size), events[..n]), events[n]);
    }
  }

  lemma {:induction false} PackedHolds(size: nat, bs: seq<Buf>)
    requires Packed(size, bs)
    ensures Characters(bs) >= |bs| / 2 * size
  {
    hide Length;
    if |bs| >= 2 {
      var n := |bs| - 2;
      PackedHolds(size, bs[..n]);
      assert bs[..n + 1][..n] == bs[..n];
      assert Characters(bs) == Characters(bs[..n]) + Length(bs[n].lines) + Length(bs[n + 1].lines);
      assert |bs| / 2 * size == (n / 2 + 1) * size == n / 2 * size + size;
    }
  }

  // No buffer is wasted: in every run of lines that fit, a batch holds at least half of what its
  // buffers could, so it takes thirteen buffers full of lines between two swaps to lose a line.
  lemma DropsOnlyUnderLoad(variant: Variant, size: nat, events: seq<Event>, batch: seq<Buf>)
    requires AllFit(size, events) && batch in Run(Initial(variant, size), events).back.batches
    ensures Characters(batch) >= |batch| / 2 * size
    ensures Kept(batch) != batch ==> Characters(batch) >= 13 * size
  {
    hide Run, Packed, Characters;
    RunKeepsPacked(variant, size, events);
    Reachable(variant, size, events);
    PackedHolds(size, batch);
    if |batch| > 25 { HalfOfMany(|batch|, size); }
  }

  lemma HalfOfMany(n: nat, size: nat)
    requires n > 25
    ensures n / 2 * size >= 13 * size
  {
  }

  // As written, an append uses a null pointer exactly when the line needs a new buffer and the
  // spare one is gone.
  lemma CrashExactly(s: State, line: string)
    requires Inv(s) && !s.front.crashed && s.front.variant.AsWritten?
    ensures Apply(s, Produce(line)).front.crashed <==>
      s.front.nextbuff.None? && s.front.size <= Length(s.front.curbuff.value.lines) + |line|
  {
    hide Length, Holders, Reported, Conserved;
  }

  // Two lines as long as a buffer are enough, if the back end does not get to run in between.
  lemma CrashExample(size: nat, line: string)
    requires |line| == size
    ensures Run(Initial(AsWritten, size), [Produce(line), Produce(line)]).front.crashed
  {
    var s0 := Initial(AsWritten, size);
    var s1 := Apply(s0, Produce(line));
    assert s1.front.nextbuff.None? && Length(s1.front.curbuff.value.lines) + |line| >= size;
    assert [Produce(line), Produce(line)][..1] == [Produce(line)];
    assert Run(s0, [Produce(line)][..0]) == s0;
    assert Run(s0, [Produce(line)]) == s1;
  }

  // A line is accepted exactly when it fits into an empty buffer, and accepted lines are never
  // split between buffers.
  lemma AcceptedExactly(s: State, line: string)
    requires Inv(s) && !s.front.crashed && !Apply(s, Produce(line)).front.crashed
    ensures Apply(s, Produce(line)).front.accepted == s.front.accepted + if |line| <= s.front.size then [line] else []
  {
    hide Holders, Reported, Conserved;
    LengthOfNone();
  }

  // The lines handed to append that fit into an empty buffer.
  function Appended(size: nat, events: seq<Event>): seq<string> {
    if events == [] then []
    else
      var e := events[|events| - 1];
      Appended(size, events[..|events| - 1]) + if e.Produce? && |e.line| <= size then [e.line] else []
  }

  // As meant, every line that fits is accepted, in the order of the calls, for all sizes and runs.
  lemma {:induction false} FittingLinesAreAccepted(size: nat, events: seq<Event>)
    ensures Run(Initial(AsMeant, size), events).front.accepted == Appended(size, events)
  {
    if events != [] {
      hide Inv, Append, Local, Swap;
      var n := |events| - 1;
      var s := Run(Initial(AsMeant, size), events[..n]);
      FittingLinesAreAccepted(size, events[..n]);
      Reachable(AsMeant, size, events[..n]);
      AsMeantNeverCrashes(size, events[..n]);
      AsMeantNeverCrashes(size, events);
      Alive(s);
      if events[n].Produce? {
        AcceptedExactly(s, events[n].line);
      } else {
        OnlyAppendAccepts(s, events[n]);
      }
    }
  }

  lemma Alive(s: State)
    requires Inv(s) && !s.front.crashed
    ensures !Dead(s)
  {
    hide Holders, Reported, Conserved;
  }

  lemma OnlyAppendAccepts(s: State, e: Event)
    requires !e.Produce?
    ensures Apply(s, e).front.accepted == s.front.accepted
  {
    hide Local;
  }

  lemma LengthOfNone()
    ensures Length([]) == 0
  {
  }
}
