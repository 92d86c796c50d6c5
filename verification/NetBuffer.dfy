// The geometry of the network buffer: how its storage size and its two indexes move.
// The contents do not matter here, which makes runs of operations easy to bound.
module BufferShape {
  import opened Common

  const CHEAP_PREPEND := 8
  const INITIAL_SIZE := 1024
  const EXTRA_BUFFER := 65536

  datatype Shape = Shape(size: nat, reader: nat, writer: nat) {

    predicate Valid() {
      reader <= writer <= size && CHEAP_PREPEND <= size
    }

    function Readable(): int {
      writer - reader
    }

    function Writable(): int {
      size - writer
    }
  }

  // One operation with its sizes. ReadFd(n) is a read that delivered n bytes.
  datatype Op =
    | Append(n: nat)
    | Prepend(n: nat)
    | Retrieve(n: nat)
    | Unwrite(n: nat)
    | EnsureWritable(n: nat)
    | Shrink(n: nat)
    | ReadFd(n: nat)

  function ReadLimit(s: Shape): int {
    if s.Writable() < EXTRA_BUFFER then s.Writable() + EXTRA_BUFFER else s.Writable()
  }

  // What the asserts of each operation, and readv for ReadFd, demand.
  predicate Allowed(s: Shape, op: Op) {
    match op
    case Append(_) => true
    case Prepend(n) => n <= s.reader
    case Retrieve(n) => n <= s.Readable()
    case Unwrite(n) => n <= s.Readable()
    case EnsureWritable(_) => true
    case Shrink(_) => true
    case ReadFd(n) => n <= ReadLimit(s)
  }

  function MakeSpace(s: Shape, n: nat): Shape
    requires s.Valid()
  {
    if s.Writable() + s.reader < n + CHEAP_PREPEND
    then s.(size := s.writer + n)
    else s.(reader := CHEAP_PREPEND, writer := CHEAP_PREPEND + s.Readable())
  }

  function Ensure(s: Shape, n: nat): (t: Shape)
    requires s.Valid()
    ensures t.Valid() && t.Writable() >= n && t.Readable() == s.Readable()
  {
    if s.Writable() < n then MakeSpace(s, n) else s
  }

  function Appended(s: Shape, n: nat): (t: Shape)
    requires s.Valid()
    ensures t.Valid() && t.Readable() == s.Readable() + n
  {
    var e := Ensure(s, n);
    e.(writer := e.writer + n)
  }

  function Fresh(initialSize: nat): Shape {
    Shape(CHEAP_PREPEND + initialSize, CHEAP_PREPEND, CHEAP_PREPEND)
  }

  function After(s: Shape, op: Op): (t: Shape)
    requires s.Valid() && Allowed(s, op)
    ensures t.Valid()
  {
    match op
    case Append(n) => Appended(s, n)
    case Prepend(n) => s.(reader := s.reader - n)
    case Retrieve(n) =>
      if n < s.Readable() then s.(reader := s.reader + n) else s.(reader := CHEAP_PREPEND, writer := CHEAP_PREPEND)
    case Unwrite(n) => s.(writer := s.writer - n)
    case EnsureWritable(n) => Ensure(s, n)
    case Shrink(n) => Appended(Ensure(Fresh(INITIAL_SIZE), s.Readable() + n), s.Readable())
    case ReadFd(n) =>
      if n <= s.Writable() then s.(writer := s.writer + n) else Appended(s.(writer := s.size), n - s.Writable())
  }

  // Two buffers: a step is an operation on one of them, or their swap.
  datatype Pair = Pair(first: Shape, second: Shape) {

    predicate Valid() {
      first.Valid() && second.Valid()
    }

    function At(inFirst: bool): Shape {
      if inFirst then first else second
    }

    function Put(inFirst: bool, s: Shape): Pair {
      if inFirst then this.(first := s) else this.(second := s)
    }
  }

  datatype Step = On(inFirst: bool, op: Op) | Swap

  predicate AllowedStep(p: Pair, step: Step) {
    step.On? ==> Allowed(p.At(step.inFirst), step.op)
  }

  function AfterStep(p: Pair, step: Step): (q: Pair)
    requires p.Valid() && AllowedStep(p, step)
    ensures q.Valid()
  {
    match step
    case On(inFirst, op) => p.Put(inFirst, After(p.At(inFirst), op))
    case Swap => Pair(p.second, p.first)
  }

  predicate AllowedRun(p: Pair, steps: seq<Step>)
    requires p.Valid()
    decreases steps
  {
    steps == [] || (AllowedStep(p, steps[0]) && AllowedRun(AfterStep(p, steps[0]), steps[1..]))
  }

  function Run(p: Pair, steps: seq<Step>): (q: Pair)
    requires p.Valid() && AllowedRun(p, steps)
    ensures q.Valid()
    decreases steps
  {
    if steps == [] then p else Run(AfterStep(p, steps[0]), steps[1..])
  }

  // A swap takes a storage from one buffer to the other. Where the storage of a buffer ends up,
  // and the operations of the run that work on it.
  function Next(inFirst: bool, step: Step): bool {
    if step.Swap? then !inFirst else inFirst
  }

  function EndOf(inFirst: bool, steps: seq<Step>): bool
    decreases steps
  {
    if steps == [] then inFirst else EndOf(Next(inFirst, steps[0]), steps[1..])
  }

  function OpsOn(inFirst: bool, steps: seq<Step>): seq<Op>
    decreases steps
  {
    if steps == [] then []
    else
      (if steps[0].On? && steps[0].inFirst == inFirst then [steps[0].op] else [])
        + OpsOn(Next(inFirst, steps[0]), steps[1..])
  }

  // The readable bytes an operation asks room for.
  function Demand(s: Shape, op: Op): int {
    match op
    case EnsureWritable(n) => s.Readable() + n
    case Shrink(n) => s.Readable() + n
    case Append(n) => s.Readable() + n
    case ReadFd(n) => s.Readable() + n
    case Prepend(n) => s.Readable() + n
    case _ => s.Readable()
  }

  // The peaks over a run on one storage.
  predicate AllowedOps(s: Shape, ops: seq<Op>)
    requires s.Valid()
    decreases ops
  {
    ops == [] || (Allowed(s, ops[0]) && AllowedOps(After(s, ops[0]), ops[1..]))
  }

  function AfterOps(s: Shape, ops: seq<Op>): (t: Shape)
    requires s.Valid() && AllowedOps(s, ops)
    ensures t.Valid()
    decreases ops
  {
    if ops == [] then s else AfterOps(After(s, ops[0]), ops[1..])
  }

  function PeakDemand(s: Shape, ops: seq<Op>): int
    requires s.Valid() && AllowedOps(s, ops)
    decreases ops
  {
    if ops == [] then s.Readable() else Max(Demand(s, ops[0]), PeakDemand(After(s, ops[0]), ops[1..]))
  }

  function PeakReadable(s: Shape, ops: seq<Op>): int
    requires s.Valid() && AllowedOps(s, ops)
    decreases ops
  {
    if ops == [] then s.Readable() else Max(s.Readable(), PeakReadable(After(s, ops[0]), ops[1..]))
  }

  // shrink starts over from a buffer of the default size.
  function FloorSize(s: Shape, ops: seq<Op>): int {
    if exists op <- ops :: op.Shrink? then Max(s.size, 8 + 1024) else s.size
  }

  lemma EnsureSize(s: Shape, n: nat)
    requires s.Valid()
    ensures Ensure(s, n).size <= Max(s.size, 2 * (s.Readable() + n) + CHEAP_PREPEND)
  {
  }

  lemma StepSize(s: Shape, op: Op)
    requires s.Valid() && Allowed(s, op)
    ensures After(s, op).size <= Max(if op.Shrink? then CHEAP_PREPEND + INITIAL_SIZE else s.size, 2 * Demand(s, op) + CHEAP_PREPEND)
    ensures op.Append? || op.Prepend? || op.ReadFd? ==> After(s, op).Readable() == Demand(s, op)
  {
    match op
    case Append(n) => EnsureSize(s, n);
    case EnsureWritable(n) => EnsureSize(s, n);
    case ReadFd(n) => if n > s.Writable() { EnsureSize(s.(writer := s.size), n - s.Writable()); }
    case _ =>
  }

  // A run on two buffers is, for each storage, the run of the operations that work on it.
  lemma {:induction false} RunOfStorage(p: Pair, steps: seq<Step>, inFirst: bool)
    requires p.Valid() && AllowedRun(p, steps)
    ensures AllowedOps(p.At(inFirst), OpsOn(inFirst, steps))
    ensures Run(p, steps).At(EndOf(inFirst, steps)) == AfterOps(p.At(inFirst), OpsOn(inFirst, steps))
    decreases steps
  {
    hide After, Allowed;
    if steps != [] {
      var q, next := AfterStep(p, steps[0]), Next(inFirst, steps[0]);
      RunOfStorage(q, steps[1..], next);
      var ops := OpsOn(next, steps[1..]);
      if steps[0].On? && steps[0].inFirst == inFirst {
        assert ([steps[0].op] + ops)[1..] == ops;
        assert OpsOn(inFirst, steps) == [steps[0].op] + ops;
      } else {
        assert OpsOn(inFirst, steps) == ops;
      }
    }
  }

  lemma {:induction false} OpsSpaceBound(s: Shape, ops: seq<Op>)
    requires s.Valid() && AllowedOps(s, ops)
    ensures AfterOps(s, ops).size <= Max(FloorSize(s, ops), 2 * PeakDemand(s, ops) + 8)
    decreases ops
  {
    hide After, Demand;
    if ops != [] {
      StepSize(s, ops[0]);
      OpsSpaceBound(After(s, ops[0]), ops[1..]);
      assert forall op <- ops[1..] :: op in ops;
      assert ops[0] in ops;
    }
  }

  // Over every run of two buffers and their swaps, no storage ever exceeds the larger of its
  // starting size and twice the peak demand on it plus the prepend area.
  lemma SpaceBound(p: Pair, steps: seq<Step>, inFirst: bool)
    requires p.Valid() && AllowedRun(p, steps)
    ensures
      var s, ops := p.At(inFirst), OpsOn(inFirst, steps);
      && AllowedOps(s, ops)
      && Run(p, steps).At(EndOf(inFirst, steps)).size <= Max(FloorSize(s, ops), 2 * PeakDemand(s, ops) + 8)
  {
    hide AllowedRun, Run, AllowedOps, AfterOps, OpsOn, EndOf, PeakDemand, FloorSize, Max;
    RunOfStorage(p, steps, inFirst);
    OpsSpaceBound(p.At(inFirst), OpsOn(inFirst, steps));
  }

  predicate PlainTraffic(op: Op) {
    op.Append? || op.Prepend? || op.Retrieve? || op.ReadFd?
  }

  // With appends, reads, retrievals and prepends only, demand is nothing but readable bytes,
  // and so the bound is the peak number of readable bytes.
  lemma {:induction false} OpsSpaceBoundByPeak(s: Shape, ops: seq<Op>)
    requires s.Valid() && AllowedOps(s, ops)
    requires forall op <- ops :: PlainTraffic(op)
    ensures AfterOps(s, ops).size <= Max(s.size, 2 * PeakReadable(s, ops) + 8)
    decreases ops
  {
    hide After;
    if ops != [] {
      var t := After(s, ops[0]);
      StepSize(s, ops[0]);
      assert forall op <- ops[1..] :: op in ops;
      OpsSpaceBoundByPeak(t, ops[1..]);
      assert ops[0] in ops;
      assert PeakReadable(t, ops[1..]) >= t.Readable();
    }
  }

  lemma SpaceBoundByPeak(p: Pair, steps: seq<Step>, inFirst: bool)
    requires p.Valid() && AllowedRun(p, steps)
    requires forall op <- OpsOn(inFirst, steps) :: PlainTraffic(op)
    ensures
      var s, ops := p.At(inFirst), OpsOn(inFirst, steps);
      && AllowedOps(s, ops)
      && Run(p, steps).At(EndOf(inFirst, steps)).size <= Max(s.size, 2 * PeakReadable(s, ops) + 8)
  {
    hide AllowedRun, Run, AllowedOps, AfterOps, OpsOn, EndOf, PeakReadable, PlainTraffic, Max;
    RunOfStorage(p, steps, inFirst);
    OpsSpaceBoundByPeak(p.At(inFirst), OpsOn(inFirst, steps));
  }

  lemma {:induction false} OpsHeaderRoom(s: Shape, ops: seq<Op>)
    requires s.Valid() && AllowedOps(s, ops) && s.reader >= 8
    requires forall op <- ops :: !op.Prepend?
    ensures AfterOps(s, ops).reader >= 8
    decreases ops
  {
    if ops != [] {
      assert ops[0] in ops;
      assert forall op <- ops[1..] :: op in ops;
      OpsHeaderRoom(After(s, ops[0]), ops[1..]);
    }
  }

  // Without prepend there is always room for an eight-byte header.
  lemma HeaderRoom(p: Pair, steps: seq<Step>, inFirst: bool)
    requires p.Valid() && AllowedRun(p, steps) && p.At(inFirst).reader >= 8
    requires forall op <- OpsOn(inFirst, steps) :: !op.Prepend?
    ensures Run(p, steps).At(EndOf(inFirst, steps)).reader >= 8
  {
    hide AllowedRun, Run, AllowedOps, AfterOps, OpsOn, EndOf;
    RunOfStorage(p, steps, inFirst);
    OpsHeaderRoom(p.At(inFirst), OpsOn(inFirst, steps));
  }
}

// The buffer itself: a byte vector with a reader and a writer index, used as a plain byte queue.
module NetBuffer {
  import opened Common
  import opened Endian
  import S = BufferShape

  const CR: byte := 13
  const LF: byte := 10

  // The bytes with those from position at on overwritten by data.
  function Overwrite(s: seq<byte>, at: nat, data: seq<byte>): (r: seq<byte>)
    requires at + |data| <= |s|
    ensures |r| == |s| && r[at..at + |data|] == data && r[..at] == s[..at] && r[at + |data|..] == s[at + |data|..]
  {
    s[..at] + data + s[at + |data|..]
  }

  // A carriage return and a line feed.
  predicate CrlfAt(s: seq<byte>, i: int) {
    0 <= i < |s| - 1 && s[i] == 13 && s[i + 1] == 10
  }

  class Buffer {
    var buffer: seq<byte>
    var readerIndex: nat
    var writerIndex: nat

    ghost predicate Valid()
      reads this
    {
      Geometry().Valid()
    }

    ghost function Geometry(): S.Shape
      reads this
    {
      S.Shape(|buffer|, readerIndex, writerIndex)
    }

    // The plain byte sequence that the buffer refines.
    function Readable(): (content: seq<byte>)
      requires Valid()
      reads this
      ensures |content| == writerIndex - readerIndex
    {
      buffer[readerIndex..writerIndex]
    }

    constructor (initialSize: nat)
      ensures Valid() && Readable() == [] && Geometry() == S.Fresh(initialSize)
      ensures readerIndex == writerIndex == 8 && |buffer| == 8 + initialSize
    {
      buffer := seq(S.CHEAP_PREPEND + initialSize, _ => 0);
      readerIndex, writerIndex := S.CHEAP_PREPEND, S.CHEAP_PREPEND;
    }

    method Swap(rhs: Buffer)
      requires Valid() && rhs.Valid()
      modifies this, rhs
      ensures Valid() && rhs.Valid()
      ensures Readable() == old(rhs.Readable()) && rhs.Readable() == old(Readable())
      ensures Geometry() == old(rhs.Geometry()) && rhs.Geometry() == old(Geometry())
    {
      buffer, rhs.buffer := rhs.buffer, buffer;
      readerIndex, rhs.readerIndex := rhs.readerIndex, readerIndex;
      writerIndex, rhs.writerIndex := rhs.writerIndex, writerIndex;
    }

    function ReadableBytes(): nat
      requires Valid()
      reads this
    {
      writerIndex - readerIndex
    }

    function WritableBytes(): nat
      requires Valid()
      reads this
    {
      |buffer| - writerIndex
    }

    // std::search over the bytes from start on; the position is relative to peek().
    method FindCRLF(start: nat) returns (found: Option<nat>)
      requires Valid() && start <= |Readable()|
      ensures found.Some? ==> start <= found.value && CrlfAt(Readable(), found.value)
      ensures found.Some? ==> forall i :: start <= i < found.value ==> !CrlfAt(Readable(), i)
      ensures found.None? ==> forall i :: start <= i ==> !CrlfAt(Readable(), i)
    {
      var i := start;
      while i + 1 < ReadableBytes()
        invariant start <= i <= |Readable()|
        invariant forall k :: start <= k < i ==> !CrlfAt(Readable(), k)
      {
        if buffer[readerIndex + i] == CR && buffer[readerIndex + i + 1] == LF {
          return Some(i);
        }
        i := i + 1;
      }
      found := None;
    }

    // memchr for a line feed.
    method FindEOL(start: nat) returns (found: Option<nat>)
      requires Valid() && start <= |Readable()|
      ensures found.Some? ==> start <= found.value < |Readable()| && Readable()[found.value] == 10
      ensures found.Some? ==> 10 !in Readable()[start..found.value]
      ensures found.None? ==> 10 !in Readable()[start..]
    {
      var i := start;
      while i < ReadableBytes()
        invariant start <= i <= |Readable()|
        invariant LF !in Readable()[start..i]
      {
        if buffer[readerIndex + i] == LF {
          return Some(i);
        }
        i := i + 1;
      }
      found := None;
    }

    method Retrieve(len: nat)
      requires Valid() && len <= |Readable()|
      modifies this
      ensures Valid() && Readable() == old(Readable())[len..]
      ensures Geometry() == S.After(old(Geometry()), S.Retrieve(len))
      ensures if len == |old(Readable())| then readerIndex == writerIndex == 8
              else readerIndex == old(readerIndex) + len && writerIndex == old(writerIndex)
      ensures |buffer| == |old(buffer)|
    {
      if len < ReadableBytes() {
        readerIndex := readerIndex + len;
      } else {
        RetrieveAll();
      }
    }

    method RetrieveAll()
      requires Valid()
      modifies this
      ensures Valid() && Readable() == []
      ensures Geometry() == old(Geometry()).(reader := S.CHEAP_PREPEND, writer := S.CHEAP_PREPEND)
      ensures readerIndex == writerIndex == 8 && |buffer| == |old(buffer)|
    {
      readerIndex := S.CHEAP_PREPEND;
      writerIndex := S.CHEAP_PREPEND;
    }

    method RetrieveAsString(len: nat) returns (result: seq<byte>)
      requires Valid() && len <= |Readable()|
      modifies this
      ensures Valid() && result == old(Readable())[..len] && Readable() == old(Readable())[len..]
      ensures Geometry() == S.After(old(Geometry()), S.Retrieve(len))
    {
      result := buffer[readerIndex..readerIndex + len];
      Retrieve(len);
    }

    // Takes the bytes of one line, terminator included, when a complete line is there.
    method RetrieveLine() returns (line: Option<seq<byte>>)
      requires Valid()
      modifies this
      ensures Valid()
      ensures line.Some? ==>
        var s := line.value;
        old(Readable()) == s + Readable() && CrlfAt(s, |s| - 2) && forall i :: i < |s| - 2 ==> !CrlfAt(s, i)
      ensures line.None? ==> Readable() == old(Readable()) && forall i :: !CrlfAt(Readable(), i)
    {
      var crlf := FindCRLF(0);
      if crlf.Some? {
        ghost var content := Readable();
        var s := RetrieveAsString(crlf.value + 2);
        assert forall i :: CrlfAt(s, i) ==> CrlfAt(content, i);
        line := Some(s);
      } else {
        assert forall i :: CrlfAt(Readable(), i) ==> 0 <= i;
        line := None;
      }
    }

    // Content that is a line, its end and more gives the line with its end, and leaves the rest.
    method RetrieveLineOf(ghost text: seq<byte>, ghost rest: seq<byte>) returns (line: seq<byte>)
      requires Valid() && Readable() == text + [13, 10] + rest
      requires forall i :: 0 <= i < |text| ==> !((text + [13])[i] == 13 && (text + [13])[i + 1] == 10)
      modifies this
      ensures Valid() && line == text + [13, 10] && Readable() == rest
    {
      ghost var content := Readable();
      assert CrlfAt(content, |text|);
      forall i | 0 <= i < |text|
        ensures !CrlfAt(content, i)
      {
        assert content[i] == (text + [13])[i] && content[i + 1] == (text + [13])[i + 1];
      }
      var found := RetrieveLine();
      line := found.value;
      assert content == line + Readable();
      assert CrlfAt(content, |line| - 2);
      assert |line| == |text| + 2 by {
        if |line| - 2 > |text| { assert CrlfAt(line, |text|); }
      }
      assert line == content[..|text| + 2] && Readable() == content[|text| + 2..];
    }

    // std::copy towards the front, one byte at a time: the ranges may overlap,
    // and the copy is right because the destination comes first.
    method CopyForward(from: nat, to: nat, len: nat)
      requires to <= from && from + len <= |buffer|
      modifies this`buffer
      ensures buffer == Overwrite(old(buffer), to, old(buffer)[from..from + len])
    {
      ghost var was := buffer;
      var i := 0;
      while i < len
        invariant 0 <= i <= len && |buffer| == |was|
        invariant forall k :: to <= k < to + i ==> buffer[k] == was[k - to + from]
        invariant forall k :: 0 <= k < |was| && !(to <= k < to + i) ==> buffer[k] == was[k]
      {
        assert buffer[from + i] == was[from + i];
        buffer := buffer[to + i := buffer[from + i]];
        i := i + 1;
      }
      assert buffer[to..to + len] == was[from..from + len];
      assert buffer == Overwrite(was, to, was[from..from + len]);
    }

    method MakeSpace(len: nat)
      requires Valid() && WritableBytes() < len
      modifies this
      ensures Valid() && Readable() == old(Readable())
      ensures Geometry() == S.MakeSpace(old(Geometry()), len)
      ensures if |old(buffer)| - |old(Readable())| < len + 8
              then readerIndex == old(readerIndex) && |buffer| == old(writerIndex) + len
              else readerIndex == 8 && |buffer| == |old(buffer)|
    {
      if WritableBytes() + readerIndex < len + S.CHEAP_PREPEND {
        buffer := buffer + seq(writerIndex + len - |buffer|, _ => 0);
      } else {
        assert S.CHEAP_PREPEND < readerIndex;
        var readable := ReadableBytes();
        CopyForward(readerIndex, S.CHEAP_PREPEND, readable);
        readerIndex := S.CHEAP_PREPEND;
        writerIndex := readerIndex + readable;
      }
    }

    method EnsureWritableBytes(len: nat)
      requires Valid()
      modifies this
      ensures Valid() && Readable() == old(Readable()) && WritableBytes() >= len
      ensures Geometry() == S.After(old(Geometry()), S.EnsureWritable(len))
      ensures if len <= old(WritableBytes()) then Geometry() == old(Geometry())
              else if |old(buffer)| - |old(Readable())| < len + 8
              then readerIndex == old(readerIndex) && |buffer| == old(writerIndex) + len
              else readerIndex == 8 && |buffer| == |old(buffer)|
    {
      if WritableBytes() < len {
        MakeSpace(len);
      }
    }

    method Append(data: seq<byte>)
      requires Valid()
      modifies this
      ensures Valid() && Readable() == old(Readable()) + data
      ensures Geometry() == S.After(old(Geometry()), S.Append(|data|))
    {
      EnsureWritableBytes(|data|);
      ghost var content := Readable();
      buffer := Overwrite(buffer, writerIndex, data);
      assert buffer[readerIndex..writerIndex] == content by {
        assert buffer[..writerIndex][readerIndex..] == content;
      }
      HasWritten(|data|);
      assert Readable() == buffer[readerIndex..writerIndex - |data|] + buffer[writerIndex - |data|..writerIndex];
    }

    method HasWritten(len: nat)
      requires Valid() && len <= WritableBytes()
      modifies this`writerIndex
      ensures Valid() && writerIndex == old(writerIndex) + len
      ensures Readable() == old(Readable()) + old(buffer[writerIndex..writerIndex + len])
    {
      writerIndex := writerIndex + len;
      assert buffer[readerIndex..writerIndex]
          == buffer[readerIndex..writerIndex - len] + buffer[writerIndex - len..writerIndex];
    }

    method Unwrite(len: nat)
      requires Valid() && len <= |Readable()|
      modifies this
      ensures Valid() && Readable() == old(Readable())[..|old(Readable())| - len]
      ensures Geometry() == S.After(old(Geometry()), S.Unwrite(len))
    {
      writerIndex := writerIndex - len;
    }

    method Prepend(data: seq<byte>)
      requires Valid() && |data| <= readerIndex
      modifies this
      ensures Valid() && Readable() == data + old(Readable())
      ensures Geometry() == S.After(old(Geometry()), S.Prepend(|data|))
      ensures readerIndex == old(readerIndex) - |data| && writerIndex == old(writerIndex) && |buffer| == |old(buffer)|
    {
      ghost var content := Readable();
      readerIndex := readerIndex - |data|;
      buffer := Overwrite(buffer, readerIndex, data);
      assert buffer[readerIndex + |data|..][..|content|] == content;
      assert Readable() == buffer[readerIndex..readerIndex + |data|] + buffer[readerIndex + |data|..writerIndex];
    }

    method Shrink(reserve: nat)
      requires Valid()
      modifies this
      ensures Valid() && Readable() == old(Readable()) && WritableBytes() >= reserve
      ensures Geometry() == S.After(old(Geometry()), S.Shrink(reserve))
      ensures readerIndex == 8 && |buffer| == 8 + Max(1024, |Readable()| + reserve)
    {
      var other := new Buffer(S.INITIAL_SIZE);
      other.EnsureWritableBytes(ReadableBytes() + reserve);
      other.Append(Readable());
      Swap(other);
    }

    // The part of a scatter read that goes behind the readable bytes.
    method Fill(head: seq<byte>)
      requires Valid() && |head| <= WritableBytes()
      modifies this`buffer
      ensures Valid() && |buffer| == |old(buffer)| && Readable() == old(Readable())
      ensures buffer[readerIndex..writerIndex + |head|] == Readable() + head
    {
      ghost var content := Readable();
      buffer := Overwrite(buffer, writerIndex, head);
      assert buffer[..writerIndex][readerIndex..] == content;
      assert buffer[readerIndex..writerIndex + |head|] == buffer[readerIndex..writerIndex] + buffer[writerIndex..writerIndex + |head|];
    }

    // A scatter read: the bytes that arrived fill the writable tail first and then the extra
    // area, whose share is appended. None stands for an error, which changes nothing.
    method ReadFd(arrived: Option<seq<byte>>) returns (n: int)
      requires Valid()
      requires arrived.Some? ==>
        |arrived.value| <= if WritableBytes() < 65536 then WritableBytes() + 65536 else WritableBytes()
      modifies this
      ensures Valid()
      ensures arrived.None? ==> n == -1 && Readable() == old(Readable()) && Geometry() == old(Geometry())
      ensures arrived.Some? ==> n == |arrived.value| && Readable() == old(Readable()) + arrived.value
      ensures arrived.Some? ==> Geometry() == S.After(old(Geometry()), S.ReadFd(n))
    {
      hide Overwrite;
      if arrived.None? {
        return -1;
      }
      var data := arrived.value;
      n := |data|;
      var writable := WritableBytes();
      var head := if n <= writable then data else data[..writable];
      var extrabuf := data[|head|..];
      Fill(head);
      if n <= writable {
        writerIndex := writerIndex + n;
      } else {
        writerIndex := |buffer|;
        Append(extrabuf);
        assert data == head + extrabuf;
      }
    }

    // appendIntN, prependIntN, peekIntN and readIntN for the widths of n = 1, 2, 4 and 8 bytes.
    method AppendInt(host: Host, n: nat, x: int)
      requires Valid() && n in {1, 2, 4, 8} && FitsSigned(n, x)
      modifies this
      ensures Valid() && Readable() == old(Readable()) + BigEndian(n, ToUnsigned(n, x))
      ensures Geometry() == S.After(old(Geometry()), S.Append(n))
    {
      Append(Wire(host, n, x));
    }

    method PrependInt(host: Host, n: nat, x: int)
      requires Valid() && n in {1, 2, 4, 8} && FitsSigned(n, x) && n <= readerIndex
      modifies this
      ensures Valid() && Readable() == BigEndian(n, ToUnsigned(n, x)) + old(Readable())
      ensures Geometry() == S.After(old(Geometry()), S.Prepend(n))
    {
      Prepend(Wire(host, n, x));
    }

    method PeekInt(host: Host, n: nat) returns (x: int)
      requires Valid() && n in {1, 2, 4, 8} && n <= |Readable()|
      ensures x == ToSigned(n, FromBigEndian(Readable()[..n]))
    {
      var bytes := buffer[readerIndex..readerIndex + n];
      assert bytes == buffer[readerIndex..writerIndex][..n];
      UnwireOnAnyHost(host, bytes);
      x := Unwire(host, bytes);
    }

    method ReadInt(host: Host, n: nat) returns (x: int)
      requires Valid() && n in {1, 2, 4, 8} && n <= |Readable()|
      modifies this
      ensures Valid() && x == ToSigned(n, FromBigEndian(old(Readable())[..n])) && Readable() == old(Readable())[n..]
      ensures Geometry() == S.After(old(Geometry()), S.Retrieve(n))
    {
      x := PeekInt(host, n);
      Retrieve(n);
    }
  }
}
