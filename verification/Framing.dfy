// Runs of buffer operations: any run refines the same run on plain byte sequences.
module BufferRuns {
  import opened Common
  import opened Endian
  import S = BufferShape
  import opened NetBuffer

  datatype Command =
    | Append(data: seq<byte>)
    | Prepend(data: seq<byte>)
    | Retrieve(n: nat)
    | RetrieveAsString(n: nat)
    | Unwrite(n: nat)
    | EnsureWritable(n: nat)
    | Shrink(n: nat)
    | ReadFd(data: seq<byte>)
    | AppendInt(width: nat, x: int)
    | PrependInt(width: nat, x: int)
    | ReadInt(width: nat)

  // A command on one of two buffers, or their swap.
  datatype Order = On(inFirst: bool, c: Command) | Swap

  // What a command hands back.
  datatype Output = Nothing | Bytes(bytes: seq<byte>) | Number(x: int)

  function Sizes(c: Command): S.Op {
    match c
    case Append(data) => S.Append(|data|)
    case Prepend(data) => S.Prepend(|data|)
    case Retrieve(n) => S.Retrieve(n)
    case RetrieveAsString(n) => S.Retrieve(n)
    case Unwrite(n) => S.Unwrite(n)
    case EnsureWritable(n) => S.EnsureWritable(n)
    case Shrink(n) => S.Shrink(n)
    case ReadFd(data) => S.ReadFd(|data|)
    case AppendInt(width, _) => S.Append(width)
    case PrependInt(width, _) => S.Prepend(width)
    case ReadInt(width) => S.Retrieve(width)
  }

  function StepOf(order: Order): S.Step {
    if order.On? then S.On(order.inFirst, Sizes(order.c)) else S.Swap
  }

  function Steps(orders: seq<Order>): (steps: seq<S.Step>)
    ensures |steps| == |orders| && forall i :: 0 <= i < |orders| ==> steps[i] == StepOf(orders[i])
  {
    seq(|orders|, i requires 0 <= i < |orders| => StepOf(orders[i]))
  }

  // The integer commands exist for four widths and take values of their width.
  predicate Typed(c: Command) {
    match c
    case AppendInt(width, x) => width in {1, 2, 4, 8} && FitsSigned(width, x)
    case PrependInt(width, x) => width in {1, 2, 4, 8} && FitsSigned(width, x)
    case ReadInt(width) => width in {1, 2, 4, 8}
    case _ => true
  }

  predicate AllTyped(orders: seq<Order>) {
    forall i :: 0 <= i < |orders| && orders[i].On? ==> Typed(orders[i].c)
  }

  // The same command on a plain byte sequence.
  predicate Fits(content: seq<byte>, c: Command) {
    match c
    case Retrieve(n) => n <= |content|
    case RetrieveAsString(n) => n <= |content|
    case Unwrite(n) => n <= |content|
    case ReadInt(width) => width <= |content|
    case _ => true
  }

  function Plain(content: seq<byte>, c: Command): seq<byte>
    requires Typed(c) && Fits(content, c)
  {
    match c
    case Append(data) => content + data
    case Prepend(data) => data + content
    case Retrieve(n) => content[n..]
    case RetrieveAsString(n) => content[n..]
    case Unwrite(n) => content[..|content| - n]
    case ReadFd(data) => content + data
    case AppendInt(width, x) => content + BigEndian(width, ToUnsigned(width, x))
    case PrependInt(width, x) => BigEndian(width, ToUnsigned(width, x)) + content
    case ReadInt(width) => content[width..]
    case _ => content
  }

  function PlainOutput(content: seq<byte>, c: Command): Output
    requires Fits(content, c)
  {
    match c
    case RetrieveAsString(n) => Bytes(content[..n])
    case ReadInt(width) => Number(ToSigned(width, FromBigEndian(content[..width])))
    case _ => Nothing
  }

  // Two plain byte sequences.
  datatype Contents = Contents(first: seq<byte>, second: seq<byte>) {

    function At(inFirst: bool): seq<byte> {
      if inFirst then first else second
    }
  }

  predicate OrderFits(p: Contents, order: Order) {
    order.On? ==> Fits(p.At(order.inFirst), order.c)
  }

  function PlainStep(p: Contents, order: Order): Contents
    requires OrderFits(p, order) && (order.On? ==> Typed(order.c))
  {
    match order
    case On(true, c) => p.(first := Plain(p.first, c))
    case On(false, c) => p.(second := Plain(p.second, c))
    case Swap => Contents(p.second, p.first)
  }

  function StepOutput(p: Contents, order: Order): Output
    requires OrderFits(p, order)
  {
    if order.On? then PlainOutput(p.At(order.inFirst), order.c) else Nothing
  }

  predicate PlainFits(p: Contents, orders: seq<Order>)
    requires AllTyped(orders)
    decreases orders
  {
    orders == [] || (OrderFits(p, orders[0]) && PlainFits(PlainStep(p, orders[0]), orders[1..]))
  }

  function PlainRun(p: Contents, orders: seq<Order>): Contents
    requires AllTyped(orders) && PlainFits(p, orders)
    decreases orders
  {
    if orders == [] then p else PlainRun(PlainStep(p, orders[0]), orders[1..])
  }

  function PlainOutputs(p: Contents, orders: seq<Order>): seq<Output>
    requires AllTyped(orders) && PlainFits(p, orders)
    decreases orders
  {
    if orders == [] then []
    else [StepOutput(p, orders[0])] + PlainOutputs(PlainStep(p, orders[0]), orders[1..])
  }

  ghost predicate SameLengths(s: S.Pair, p: Contents) {
    s.first.Readable() == |p.first| && s.second.Readable() == |p.second|
  }

  lemma StepLengths(s: S.Pair, p: Contents, order: Order)
    requires s.Valid() && SameLengths(s, p) && S.AllowedStep(s, StepOf(order)) && (order.On? ==> Typed(order.c))
    ensures OrderFits(p, order) && SameLengths(S.AfterStep(s, StepOf(order)), PlainStep(p, order))
  {
    hide FitsSigned, ToUnsigned, BigEndian, Plain, Fits, S.After, S.Allowed, Typed, Sizes;
    if order.On? {
      CommandLengths(s.At(order.inFirst), p.At(order.inFirst), order.c);
    }
  }

  lemma CommandLengths(s: S.Shape, content: seq<byte>, c: Command)
    requires s.Valid() && s.Readable() == |content| && Typed(c) && S.Allowed(s, Sizes(c))
    ensures Fits(content, c) && S.After(s, Sizes(c)).Readable() == |Plain(content, c)|
  {
    hide FitsSigned, ToUnsigned, BigEndian;
  }

  // A run that the asserts allow is one on the plain sequences.
  lemma {:induction false} AllowedRunFits(s: S.Pair, p: Contents, orders: seq<Order>)
    requires s.Valid() && SameLengths(s, p) && AllTyped(orders) && S.AllowedRun(s, Steps(orders))
    ensures PlainFits(p, orders)
    decreases orders
  {
    hide S.AfterStep, S.AllowedStep, PlainStep, OrderFits, SameLengths;
    if orders != [] {
      StepLengths(s, p, orders[0]);
      assert Steps(orders)[1..] == Steps(orders[1..]);
      AllowedRunFits(S.AfterStep(s, StepOf(orders[0])), PlainStep(p, orders[0]), orders[1..]);
    }
  }

  // What the asserts and readv allow, seen from the plain sequence: all that fits there, a prepend
  // within the room in front, and a read within the tail and, if that is below 65536, as much more.
  lemma AllowedExactly(s: S.Shape, content: seq<byte>, c: Command)
    requires s.Valid() && s.Readable() == |content|
    ensures S.Allowed(s, Sizes(c)) <==>
      && Fits(content, c)
      && (c.Prepend? ==> |c.data| <= s.reader) && (c.PrependInt? ==> c.width <= s.reader)
      && (c.ReadFd? ==> |c.data| <= if s.size - s.writer < 65536 then s.size - s.writer + 65536 else s.size - s.writer)
  {
  }

  // The integer commands in numbers: 8, 16, 32 and 64 bits.
  lemma TypedExactly(c: Command)
    ensures Typed(c) <==>
      match c
      case AppendInt(width, x) => InWidth(width, x)
      case PrependInt(width, x) => InWidth(width, x)
      case ReadInt(width) => InWidth(width, 0)
      case _ => true
  {
    hide FitsSigned;
    if c.AppendInt? || c.PrependInt? { SignedRanges(c.x); }
  }

  predicate InWidth(width: nat, x: int) {
    || (width == 1 && -0x80 <= x < 0x80)
    || (width == 2 && -0x8000 <= x < 0x8000)
    || (width == 4 && -0x8000_0000 <= x < 0x8000_0000)
    || (width == 8 && -0x8000_0000_0000_0000 <= x < 0x8000_0000_0000_0000)
  }

  method Execute(host: Host, b: Buffer, c: Command) returns (output: Output)
    requires b.Valid() && Typed(c) && S.Allowed(b.Geometry(), Sizes(c))
    modifies b
    ensures b.Valid() && Fits(old(b.Readable()), c) && b.Readable() == Plain(old(b.Readable()), c)
    ensures output == PlainOutput(old(b.Readable()), c)
    ensures b.Geometry() == S.After(old(b.Geometry()), Sizes(c))
  {
    hide S.After, FitsSigned, ToUnsigned, BigEndian, ToSigned, FromBigEndian;
    output := Nothing;
    match c
    case Append(data) => b.Append(data);
    case Prepend(data) => b.Prepend(data);
    case Retrieve(n) => b.Retrieve(n);
    case RetrieveAsString(n) => var bytes := b.RetrieveAsString(n); output := Bytes(bytes);
    case Unwrite(n) => b.Unwrite(n);
    case EnsureWritable(n) => b.EnsureWritableBytes(n);
    case Shrink(n) => b.Shrink(n);
    case ReadFd(data) => var _ := b.ReadFd(Some(data));
    case AppendInt(width, x) => b.AppendInt(host, width, x);
    case PrependInt(width, x) => b.PrependInt(host, width, x);
    case ReadInt(width) => var x := b.ReadInt(host, width); output := Number(x);
  }

  ghost function Shapes(a: Buffer, b: Buffer): S.Pair
    reads a, b
  {
    S.Pair(a.Geometry(), b.Geometry())
  }

  function Both(a: Buffer, b: Buffer): Contents
    requires a.Valid() && b.Valid()
    reads a, b
  {
    Contents(a.Readable(), b.Readable())
  }

  method ExecuteOrder(host: Host, a: Buffer, b: Buffer, order: Order) returns (output: Output)
    requires a != b && a.Valid() && b.Valid() && (order.On? ==> Typed(order.c))
    requires S.AllowedStep(Shapes(a, b), StepOf(order))
    modifies a, b
    ensures a.Valid() && b.Valid() && OrderFits(old(Both(a, b)), order)
    ensures Both(a, b) == PlainStep(old(Both(a, b)), order) && output == StepOutput(old(Both(a, b)), order)
    ensures Shapes(a, b) == S.AfterStep(old(Shapes(a, b)), StepOf(order))
  {
    hide S.After, S.Allowed, Plain, PlainOutput, Fits, Typed, Sizes;
    match order
    case On(true, c) => output := Execute(host, a, c);
    case On(false, c) => output := Execute(host, b, c);
    case Swap => a.Swap(b); output := Nothing;
  }

  // Any allowed run of two buffers leaves what the run on the plain sequences leaves and hands
  // back what it hands back, on either host, and each storage stays within the bound that its own
  // operations demand.
  method ExecuteAll(host: Host, a: Buffer, b: Buffer, orders: seq<Order>) returns (outputs: seq<Output>)
    requires a != b && a.Valid() && b.Valid() && AllTyped(orders)
    requires S.AllowedRun(Shapes(a, b), Steps(orders))
    modifies a, b
    ensures a.Valid() && b.Valid() && PlainFits(old(Both(a, b)), orders)
    ensures Both(a, b) == PlainRun(old(Both(a, b)), orders)
    ensures outputs == PlainOutputs(old(Both(a, b)), orders)
    ensures Shapes(a, b) == S.Run(old(Shapes(a, b)), Steps(orders))
    ensures forall inFirst ::
      var s, ops := old(Shapes(a, b)).At(inFirst), S.OpsOn(inFirst, Steps(orders));
      && S.AllowedOps(s, ops)
      && Shapes(a, b).At(S.EndOf(inFirst, Steps(orders))).size
          <= Max(S.FloorSize(s, ops), 2 * S.PeakDemand(s, ops) + 8)
  {
    hide S.AfterStep, S.AllowedStep, PlainStep, OrderFits, StepOutput, SameLengths, Typed, StepOf;
    ghost var s, p := Shapes(a, b), Both(a, b);
    assert SameLengths(s, p) by { LengthsOfBuffers(a, b); }
    AllowedRunFits(s, p, orders);
    var i := 0;
    outputs := [];
    while i < |orders|
      invariant 0 <= i <= |orders| && a.Valid() && b.Valid()
      invariant S.AllowedRun(Shapes(a, b), Steps(orders[i..]))
      invariant S.Run(Shapes(a, b), Steps(orders[i..])) == S.Run(s, Steps(orders))
      invariant PlainFits(Both(a, b), orders[i..])
      invariant PlainRun(Both(a, b), orders[i..]) == PlainRun(p, orders)
      invariant outputs + PlainOutputs(Both(a, b), orders[i..]) == PlainOutputs(p, orders)
    {
      assert Steps(orders[i..])[1..] == Steps(orders[i + 1..]) && orders[i..][1..] == orders[i + 1..];
      var output := ExecuteOrder(host, a, b, orders[i]);
      outputs := outputs + [output];
      i := i + 1;
    }
    assert orders[i..] == [] && Steps(orders[i..]) == [];
    forall inFirst { S.SpaceBound(s, Steps(orders), inFirst); }
  }

  lemma LengthsOfBuffers(a: Buffer, b: Buffer)
    requires a.Valid() && b.Valid()
    ensures SameLengths(Shapes(a, b), Both(a, b))
  {
  }
}

// Length-prefixed messages and mixed integers, sent through a buffer on one host and read
// from a buffer on another.
module Framing {
  import opened Common
  import opened Endian
  import S = BufferShape
  import opened NetBuffer

  const HEADER := 4

  predicate Sendable(payload: seq<byte>) {
    FitsSigned(4, |payload|)
  }

  function Frame(payload: seq<byte>): seq<byte>
    requires Sendable(payload)
  {
    BigEndian(4, ToUnsigned(4, |payload|)) + payload
  }

  function Frames(payloads: seq<seq<byte>>): seq<byte>
    requires AllSendable(payloads)
  {
    if payloads == [] then [] else Frame(payloads[0]) + Frames(payloads[1..])
  }

  // The sender appends the payload and prepends its length in the room kept for a header.
  method Send(host: Host, payload: seq<byte>) returns (wire: seq<byte>)
    requires Sendable(payload)
    ensures wire == Frame(payload)
  {
    var b := new Buffer(S.INITIAL_SIZE);
    b.Append(payload);
    b.PrependInt(host, HEADER, |payload|);
    wire := b.Readable();
  }

  // One read of the receiver, which returns what the cut says: an error when it is negative,
  // otherwise that many bytes as far as the wire and the two read areas go.
  method ReadOnce(b: Buffer, wire: seq<byte>, sent: nat, cut: int) returns (got: nat)
    requires b.Valid() && sent <= |wire|
    modifies b
    ensures b.Valid() && got <= |wire| - sent && b.Readable() == old(b.Readable()) + wire[sent..sent + got]
    ensures cut > 0 && sent < |wire| ==> got > 0
  {
    hide S.After;
    if cut < 0 {
      var _ := b.ReadFd(None);
      return 0;
    }
    var writable := b.WritableBytes();
    var limit := if writable < S.EXTRA_BUFFER then writable + S.EXTRA_BUFFER else writable;
    got := Min(cut, Min(limit, |wire| - sent));
    var _ := b.ReadFd(Some(wire[sent..sent + got]));
  }

  // However the wire is cut, all of it arrives. After the cuts the rest comes as fast as the read
  // areas allow.
  method Deliver(b: Buffer, wire: seq<byte>, cuts: seq<int>)
    requires b.Valid()
    modifies b
    ensures b.Valid() && b.Readable() == old(b.Readable()) + wire
  {
    var sent, i := 0, 0;
    while sent < |wire|
      invariant 0 <= sent <= |wire| && 0 <= i <= |cuts| && b.Valid()
      invariant b.Readable() == old(b.Readable()) + wire[..sent]
      decreases |cuts| - i, |wire| - sent
    {
      var got := ReadOnce(b, wire, sent, if i < |cuts| then cuts[i] else |wire|);
      i := if i < |cuts| then i + 1 else i;
      assert wire[..sent] + wire[sent..sent + got] == wire[..sent + got];
      sent := sent + got;
    }
    assert wire[..sent] == wire;
  }

  // The receiver takes one message: the length, then that many bytes.
  method Receive(host: Host, b: Buffer, ghost payload: seq<byte>, ghost rest: seq<byte>) returns (message: seq<byte>)
    requires b.Valid() && Sendable(payload) && b.Readable() == Frame(payload) + rest
    modifies b
    ensures b.Valid() && message == payload && b.Readable() == rest
  {
    ghost var header := BigEndian(HEADER, ToUnsigned(HEADER, |payload|));
    assert b.Readable() == header + (payload + rest);
    LengthInHeader(b.Readable(), payload);
    var length := b.ReadInt(host, HEADER);
    assert (header + (payload + rest))[HEADER..] == payload + rest;
    message := b.RetrieveAsString(length);
  }

  lemma LengthInHeader(stream: seq<byte>, payload: seq<byte>)
    requires Sendable(payload) && HEADER <= |stream|
    requires stream[..HEADER] == BigEndian(HEADER, ToUnsigned(HEADER, |payload|))
    ensures ToSigned(HEADER, FromBigEndian(stream[..HEADER])) == |payload|
  {
    BytesOfValue(HEADER, ToUnsigned(HEADER, |payload|));
    SignedRoundTrip(HEADER, |payload|);
  }

  predicate AllSendable(payloads: seq<seq<byte>>) {
    forall p <- payloads :: Sendable(p)
  }

  // A stream of which a part has arrived starts with the header of the next message, and holds
  // the message when its length has arrived.
  lemma ArrivedPart(arrived: seq<byte>, missing: seq<byte>, payloads: seq<seq<byte>>)
    requires AllSendable(payloads) && arrived + missing == Frames(payloads) && |arrived| >= HEADER
    ensures payloads != [] && Sendable(payloads[0])
    ensures arrived[..HEADER] == BigEndian(HEADER, ToUnsigned(HEADER, |payloads[0]|))
    ensures |arrived| >= HEADER + |payloads[0]| ==>
      arrived == Frame(payloads[0]) + arrived[HEADER + |payloads[0]|..] &&
      arrived[HEADER + |payloads[0]|..] + missing == Frames(payloads[1..])
  {
    assert |arrived + missing| >= HEADER;
    assert payloads[0] in payloads;
    var frame, rest := Frame(payloads[0]), Frames(payloads[1..]);
    assert arrived + missing == frame + rest;
    assert arrived[..HEADER] == (arrived + missing)[..HEADER] == (frame + rest)[..HEADER] == frame[..HEADER];
    if |arrived| >= |frame| {
      assert arrived[..|frame|] == (arrived + missing)[..|frame|] == (frame + rest)[..|frame|] == frame;
      assert arrived[|frame|..] + missing == (arrived + missing)[|frame|..] == (frame + rest)[|frame|..] == rest;
    }
  }

  // The receiver takes the messages that have arrived whole, and no other.
  method TakeComplete(host: Host, b: Buffer, ghost missing: seq<byte>, ghost payloads: seq<seq<byte>>)
    returns (messages: seq<seq<byte>>)
    requires b.Valid() && AllSendable(payloads) && b.Readable() + missing == Frames(payloads)
    modifies b
    ensures b.Valid() && |messages| <= |payloads| && messages == payloads[..|messages|]
    ensures b.Readable() + missing == Frames(payloads[|messages|..])
    ensures |messages| < |payloads| ==> |b.Readable()| < HEADER + |payloads[|messages|]|
  {
    hide Frame, Frames;
    messages := [];
    assert payloads[0..] == payloads;
    while b.ReadableBytes() >= HEADER
      invariant b.Valid() && |messages| <= |payloads| && messages == payloads[..|messages|]
      invariant b.Readable() + missing == Frames(payloads[|messages|..])
      decreases |payloads| - |messages|
    {
      ghost var left := payloads[|messages|..];
      ArrivedPart(b.Readable(), missing, left);
      LengthInHeader(b.Readable(), left[0]);
      var length := b.PeekInt(host, HEADER);
      if b.ReadableBytes() < HEADER + length {
        return;
      }
      var message := Receive(host, b, left[0], b.Readable()[HEADER + |left[0]|..]);
      assert left[1..] == payloads[|messages| + 1..];
      messages := messages + [message];
    }
  }

  // What is left of the stream after some messages, of which the first is not complete.
  ghost predicate Left(arrived: seq<byte>, missing: seq<byte>, payloads: seq<seq<byte>>)
    requires AllSendable(payloads)
  {
    arrived + missing == Frames(payloads) && (payloads != [] ==> |arrived| < HEADER + |payloads[0]|)
  }

  // One read, and then the messages that it has completed.
  method ReadAndTake(host: Host, b: Buffer, wire: seq<byte>, start: nat, ghost payloads: seq<seq<byte>>, cut: int)
    returns (messages: seq<seq<byte>>, sent: nat)
    requires b.Valid() && AllSendable(payloads) && start <= |wire|
    requires b.Readable() + wire[start..] == Frames(payloads)
    modifies b
    ensures b.Valid() && start <= sent <= |wire|
    ensures |messages| <= |payloads| && messages == payloads[..|messages|]
    ensures Left(b.Readable(), wire[sent..], payloads[|messages|..])
    ensures cut > 0 && start < |wire| ==> sent > start
  {
    hide Frame, Frames;
    var got := ReadOnce(b, wire, start, cut);
    sent := start + got;
    assert wire[start..] == wire[start..sent] + wire[sent..];
    messages := TakeComplete(host, b, wire[sent..], payloads);
  }

  // Reads that deliver parts of the wire, and in between the receiver takes what is complete:
  // what it has taken is always the first of the messages sent, and every message of which the
  // last byte has arrived is among them.
  method Exchange(host: Host, b: Buffer, wire: seq<byte>, ghost payloads: seq<seq<byte>>, cuts: seq<int>)
    returns (messages: seq<seq<byte>>, sent: nat)
    requires b.Valid() && AllSendable(payloads) && b.Readable() == [] && wire == Frames(payloads)
    modifies b
    ensures b.Valid() && sent <= |wire| && |messages| <= |payloads| && messages == payloads[..|messages|]
    ensures Left(b.Readable(), wire[sent..], payloads[|messages|..])
  {
    hide Frame, Frames;
    messages, sent := [], 0;
    assert [] + wire[0..] == Frames(payloads[0..]);
    for i := 0 to |cuts|
      invariant b.Valid() && sent <= |wire| && |messages| <= |payloads| && messages == payloads[..|messages|]
      invariant Left(b.Readable(), wire[sent..], payloads[|messages|..])
    {
      messages, sent := TakeMore(host, b, wire, sent, payloads, messages, cuts[i]);
    }
  }

  // One more round, after some messages.
  method TakeMore(host: Host, b: Buffer, wire: seq<byte>, start: nat, ghost payloads: seq<seq<byte>>,
                  before: seq<seq<byte>>, cut: int)
    returns (messages: seq<seq<byte>>, sent: nat)
    requires b.Valid() && AllSendable(payloads) && start <= |wire|
    requires |before| <= |payloads| && before == payloads[..|before|]
    requires Left(b.Readable(), wire[start..], payloads[|before|..])
    modifies b
    ensures b.Valid() && start <= sent <= |wire|
    ensures |before| <= |messages| <= |payloads| && messages == payloads[..|messages|]
    ensures Left(b.Readable(), wire[sent..], payloads[|messages|..])
    ensures cut > 0 && start < |wire| ==> sent > start
  {
    hide Frame, Frames;
    ghost var left := payloads[|before|..];
    var more;
    more, sent := ReadAndTake(host, b, wire, start, left, cut);
    assert left[|more|..] == payloads[|before| + |more|..];
    messages := before + more;
  }

  lemma FirstIsWhole(payloads: seq<seq<byte>>)
    requires AllSendable(payloads) && payloads != []
    ensures |Frames(payloads)| >= HEADER + |payloads[0]|
  {
    assert payloads[0] in payloads;
  }

  // Framing survives fragmentation: messages sent by any host, in any cuts, are recovered
  // exactly and in order.
  method Converse(sender: Host, receiver: Host, payloads: seq<seq<byte>>, cuts: seq<int>)
    returns (messages: seq<seq<byte>>)
    requires AllSendable(payloads)
    ensures messages == payloads
  {
    hide Frame, Frames;
    var wire := SendAll(sender, payloads);
    var b := new Buffer(S.INITIAL_SIZE);
    var sent;
    messages, sent := Exchange(receiver, b, wire, payloads, cuts);
    while sent < |wire|
      invariant b.Valid() && sent <= |wire| && |messages| <= |payloads| && messages == payloads[..|messages|]
      invariant Left(b.Readable(), wire[sent..], payloads[|messages|..])
      decreases |wire| - sent
    {
      messages, sent := TakeMore(receiver, b, wire, sent, payloads, messages, |wire|);
    }
    assert b.Readable() + [] == b.Readable();
    if |messages| < |payloads| { FirstIsWhole(payloads[|messages|..]); }
  }

  method SendAll(host: Host, payloads: seq<seq<byte>>) returns (wire: seq<byte>)
    requires AllSendable(payloads)
    ensures wire == Frames(payloads)
  {
    wire := [];
    for i := 0 to |payloads|
      invariant wire == Frames(payloads[..i])
    {
      var frame := Send(host, payloads[i]);
      FramesAppend(payloads[..i], payloads[i]);
      assert payloads[..i] + [payloads[i]] == payloads[..i + 1];
      wire := wire + frame;
    }
    assert payloads[..|payloads|] == payloads;
  }

  lemma {:induction false} FramesAppend(ps: seq<seq<byte>>, p: seq<byte>)
    requires Sendable(p) && AllSendable(ps)
    ensures Frames(ps + [p]) == Frames(ps) + Frame(p)
  {
    if ps == [] {
      assert Frames([p]) == Frame(p) + Frames([]);
    } else {
      assert (ps + [p])[1..] == ps[1..] + [p];
      FramesAppend(ps[1..], p);
    }
  }

  // A frame can be cut out of a stream in one way only.
  lemma FrameUnique(p: seq<byte>, q: seq<byte>, afterP: seq<byte>, afterQ: seq<byte>)
    requires Sendable(p) && Sendable(q) && Frame(p) + afterP == Frame(q) + afterQ
    ensures p == q && afterP == afterQ
  {
    var stream := Frame(p) + afterP;
    assert stream[..HEADER] == BigEndian(HEADER, |p|) == BigEndian(HEADER, |q|);
    BytesOfValue(HEADER, |p|);
    BytesOfValue(HEADER, |q|);
    assert stream[HEADER..HEADER + |p|] == p && stream[HEADER..HEADER + |q|] == q;
    assert stream[HEADER + |p|..] == afterP && stream[HEADER + |q|..] == afterQ;
  }

  // A field of mixed width: 1, 2, 4 or 8 bytes holding a signed value that fits.
  datatype Field = Field(width: nat, value: int)

  predicate WellFormed(f: Field) {
    f.width in {1, 2, 4, 8} && FitsSigned(f.width, f.value)
  }

  predicate AllWellFormed(fields: seq<Field>) {
    forall i :: 0 <= i < |fields| ==> WellFormed(fields[i])
  }

  function Image(f: Field): seq<byte>
    requires WellFormed(f)
  {
    BigEndian(f.width, ToUnsigned(f.width, f.value))
  }

  function Encoded(fields: seq<Field>): seq<byte>
    requires AllWellFormed(fields)
  {
    if fields == [] then []
    else Image(fields[0]) + Encoded(fields[1..])
  }

  lemma AppendKeepsRoom(s: S.Shape, n: nat)
    requires s.Valid() && s.reader >= S.CHEAP_PREPEND
    ensures S.After(s, S.Append(n)).reader >= S.CHEAP_PREPEND
  {
  }

  method WriteFields(host: Host, b: Buffer, fields: seq<Field>)
    requires b.Valid() && AllWellFormed(fields)
    modifies b
    ensures b.Valid() && b.Readable() == old(b.Readable()) + Encoded(fields)
    ensures old(b.readerIndex) >= S.CHEAP_PREPEND ==> b.readerIndex >= S.CHEAP_PREPEND
  {
    hide S.After, BigEndian, ToUnsigned, FitsSigned;
    var i := 0;
    while i < |fields|
      invariant 0 <= i <= |fields| && b.Valid()
      invariant old(b.readerIndex) >= S.CHEAP_PREPEND ==> b.readerIndex >= S.CHEAP_PREPEND
      invariant b.Readable() + Encoded(fields[i..]) == old(b.Readable()) + Encoded(fields)
    {
      ghost var before := b.Readable();
      assert fields[i..][1..] == fields[i + 1..];
      if b.readerIndex >= S.CHEAP_PREPEND { AppendKeepsRoom(b.Geometry(), fields[i].width); }
      b.AppendInt(host, fields[i].width, fields[i].value);
      assert b.Readable() + Encoded(fields[i + 1..]) == before + Encoded(fields[i..]);
      i := i + 1;
    }
  }

  // A message of mixed integers: the fields, and then their length in front.
  method SendFields(host: Host, fields: seq<Field>) returns (wire: seq<byte>)
    requires AllWellFormed(fields) && Sendable(Encoded(fields))
    ensures wire == Frame(Encoded(fields))
  {
    var b := new Buffer(S.INITIAL_SIZE);
    WriteFields(host, b, fields);
    b.PrependInt(host, HEADER, b.ReadableBytes());
    wire := b.Readable();
  }

  method ReadField(host: Host, b: Buffer, width: nat, ghost f: Field, ghost rest: seq<byte>) returns (value: int)
    requires WellFormed(f) && width == f.width
    requires b.Valid() && b.Readable() == Image(f) + rest
    modifies b
    ensures b.Valid() && value == f.value && b.Readable() == rest
  {
    ghost var content := b.Readable();
    assert content[..width] == Image(f);
    BytesOfValue(width, ToUnsigned(width, f.value));
    SignedRoundTrip(width, f.value);
    value := b.ReadInt(host, width);
  }

  // Mixed integers written on one host are read back in order on any other.
  method ReadFields(host: Host, b: Buffer, widths: seq<nat>, ghost fields: seq<Field>, ghost rest: seq<byte>)
    returns (values: seq<int>)
    requires |widths| == |fields| && forall i :: 0 <= i < |fields| ==> fields[i].width == widths[i]
    requires AllWellFormed(fields)
    requires b.Valid() && b.Readable() == Encoded(fields) + rest
    modifies b
    ensures b.Valid() && b.Readable() == rest
    ensures |values| == |fields| && forall i :: 0 <= i < |fields| ==> values[i] == fields[i].value
  {
    values := [];
    var i := 0;
    while i < |widths|
      invariant 0 <= i == |values| <= |fields| && b.Valid()
      invariant b.Readable() == Encoded(fields[i..]) + rest
      invariant forall k :: 0 <= k < i ==> values[k] == fields[k].value
    {
      assert fields[i..][1..] == fields[i + 1..];
      assert b.Readable() == Image(fields[i]) + (Encoded(fields[i + 1..]) + rest);
      var x := ReadField(host, b, widths[i], fields[i], Encoded(fields[i + 1..]) + rest);
      values := values + [x];
      i := i + 1;
    }
  }
}
