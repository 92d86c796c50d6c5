// Zone data: local time types and the transitions between them.
module ZoneData {

  datatype LocalTime = LocalTime(gmtOffset: int, isDst: bool, arrbInx: int)
  datatype Transition = Transition(gmtime: int, localtime: int, localtimeIdx: int)
  datatype Data = Data(transitions: seq<Transition>, localtimes: seq<LocalTime>, abbreviation: seq<int>)

  // What indexing into the tables takes for granted.
  predicate Indexed(data: Data) {
    && data.localtimes != []
    && forall i :: 0 <= i < |data.transitions| ==> 0 <= data.transitions[i].localtimeIdx < |data.localtimes|
  }

  // The type in force after transition k, with the first type before all transitions.
  function TypeAfter(data: Data, k: int): LocalTime
    requires Indexed(data) && -1 <= k < |data.transitions|
  {
    if k == -1 then data.localtimes[0] else data.localtimes[data.transitions[k].localtimeIdx]
  }
}

// Reading a version 1 data block of a TZif file (sections 3.1 and 3.2 of RFC 8536).
module ZoneFile {
  import opened Common
  import opened Endian
  import opened ZoneData

  const MAGIC: seq<byte> := [0x54, 0x5A, 0x69, 0x66] // "TZif"
  const HEADER_SIZE := 44

  // How a read ends: false is returned, data is loaded, reserve throws, or an index or an
  // array size is undefined behaviour.
  datatype Outcome = Refused | Loaded(data: Data) | Thrown | Undefined

  // Random access, with what a short read leaves: zeros beyond the end of the file.
  function ByteAt(content: seq<byte>, at: nat): byte {
    if at < |content| then content[at] else 0
  }

  function BytesAt(content: seq<byte>, at: nat, n: nat): (bytes: seq<byte>)
    ensures |bytes| == n && forall i :: 0 <= i < n ==> bytes[i] == ByteAt(content, at + i)
  {
    seq<byte>(n, i requires 0 <= i < n => ByteAt(content, at + i))
  }

  function Int32At(content: seq<byte>, at: nat): int {
    ToSigned(4, FromBigEndian(BytesAt(content, at, 4)))
  }

  function Slice(content: seq<byte>, at: nat, n: nat): seq<byte> {
    content[Min(at, |content|)..Min(at + n, |content|)]
  }

  function TypeAt(content: seq<byte>, at: nat): LocalTime {
    LocalTime(Int32At(content, at), ByteAt(content, at + 4) != 0, ByteAt(content, at + 5))
  }

  // The layout of the block, as positions in the file.
  function TimesAt(content: seq<byte>, n: nat): (times: seq<int>)
    ensures |times| == n
  {
    seq(n, i requires 0 <= i < n => Int32At(content, HEADER_SIZE + 4 * i))
  }

  function IndexesAt(content: seq<byte>, n: nat): (indexes: seq<byte>)
    ensures |indexes| == n
  {
    seq<byte>(n, i requires 0 <= i < n => ByteAt(content, HEADER_SIZE + 4 * n + i))
  }

  function TypesAt(content: seq<byte>, n: nat, m: nat): (types: seq<LocalTime>)
    ensures |types| == m
  {
    seq(m, j requires 0 <= j < m => TypeAt(content, HEADER_SIZE + 5 * n + 6 * j))
  }

  // Each transition in UTC, and in the local time that it starts.
  function Combine(times: seq<int>, indexes: seq<byte>, types: seq<LocalTime>): (ts: seq<Transition>)
    requires |times| == |indexes| && forall i :: 0 <= i < |indexes| ==> indexes[i] < |types|
    ensures |ts| == |times|
  {
    seq(|times|, i requires 0 <= i < |times| =>
      Transition(times[i], times[i] + types[indexes[i]].gmtOffset, indexes[i]))
  }

  function Parse(file: Option<seq<byte>>): Outcome {
    if file.None? then Loaded(Data([], [], []))
    else
      var content := file.value;
      var n, m, chars := Int32At(content, 32), Max(0, Int32At(content, 36)), Int32At(content, 40);
      if Slice(content, 0, 4) != MAGIC then Refused
      else if n < 0 then Thrown
      else
        var types := TypesAt(content, n, m);
        var indexes := IndexesAt(content, n);
        if exists i :: 0 <= i < |indexes| && indexes[i] >= m then Undefined
        else if chars < 0 then Undefined
        else Loaded(Data(Combine(TimesAt(content, n), indexes, types), types,
                         Slice(content, HEADER_SIZE + 5 * n + 6 * m, chars)))
  }

  // A stdio stream that delivers what is left when asked for more.
  class File {
    const content: seq<byte>
    var pos: nat

    ghost predicate At(logical: nat)
      reads this
    {
      pos == Min(logical, |content|)
    }

    constructor (content: seq<byte>)
      ensures this.content == content && At(0)
    {
      this.content := content;
      pos := 0;
    }

    method Fread(n: nat) returns (bytes: seq<byte>)
      requires pos <= |content|
      modifies this
      ensures pos == Min(old(pos) + n, |content|) && bytes == content[old(pos)..pos]
    {
      var got := Min(n, |content| - pos);
      bytes := content[pos..pos + got];
      pos := pos + got;
    }

    method ReadBytes(n: nat, ghost logical: nat) returns (bytes: seq<byte>)
      requires At(logical)
      modifies this
      ensures At(logical + n) && bytes == Slice(content, logical, n)
    {
      bytes := Fread(n);
    }

    // The bytes read overwrite the front of a zero integer, which is then taken as big-endian.
    method ReadInt32(ghost logical: nat) returns (x: int)
      requires At(logical)
      modifies this
      ensures At(logical + 4) && x == Int32At(content, logical)
    {
      var bytes := Fread(4);
      var image: seq<byte> := bytes + seq(4 - |bytes|, _ => 0);
      assert image == BytesAt(content, logical, 4);
      x := ToSigned(4, FromBigEndian(image));
    }

    method ReadUint8(ghost logical: nat) returns (x: byte)
      requires At(logical)
      modifies this
      ensures At(logical + 1) && x == ByteAt(content, logical)
    {
      var bytes := Fread(1);
      x := if bytes == [] then 0 else bytes[0];
    }
  }

  method ReadHeader(f: File) returns (ok: bool, timecnt: int, typecnt: int, charcnt: int)
    requires f.At(0)
    modifies f
    ensures ok <==> Slice(f.content, 0, 4) == MAGIC
    ensures ok <==> |f.content| >= 4 && f.content[..4] == [0x54, 0x5A, 0x69, 0x66]
    ensures ok ==> f.At(HEADER_SIZE) && timecnt == Int32At(f.content, 32)
    ensures ok ==> typecnt == Int32At(f.content, 36) && charcnt == Int32At(f.content, 40)
  {
    timecnt, typecnt, charcnt := 0, 0, 0;
    var head := f.ReadBytes(4, 0);
    if head != MAGIC {
      return false, 0, 0, 0;
    }
    var version := f.ReadBytes(1, 4);
    var reserved := f.ReadBytes(15, 5);
    var isgmtcnt := f.ReadInt32(20);
    var isstdcnt := f.ReadInt32(24);
    var leapcnt := f.ReadInt32(28);
    timecnt := f.ReadInt32(32);
    typecnt := f.ReadInt32(36);
    charcnt := f.ReadInt32(40);
    ok := true;
  }

  method ReadTimes(f: File, n: nat) returns (times: seq<int>)
    requires f.At(HEADER_SIZE)
    modifies f
    ensures times == TimesAt(f.content, n) && f.At(HEADER_SIZE + 4 * n)
  {
    times := [];
    for i := 0 to n
      invariant f.At(HEADER_SIZE + 4 * i) && |times| == i
      invariant forall k :: 0 <= k < i ==> times[k] == Int32At(f.content, HEADER_SIZE + 4 * k)
    {
      var time := f.ReadInt32(HEADER_SIZE + 4 * i);
      times := times + [time];
    }
  }

  method ReadIndexes(f: File, n: nat) returns (indexes: seq<byte>)
    requires f.At(HEADER_SIZE + 4 * n)
    modifies f
    ensures indexes == IndexesAt(f.content, n) && f.At(HEADER_SIZE + 5 * n)
  {
    indexes := [];
    for i := 0 to n
      invariant f.At(HEADER_SIZE + 4 * n + i) && |indexes| == i
      invariant forall k :: 0 <= k < i ==> indexes[k] == ByteAt(f.content, HEADER_SIZE + 4 * n + k)
    {
      var local := f.ReadUint8(HEADER_SIZE + 4 * n + i);
      indexes := indexes + [local];
    }
  }

  method ReadTypes(f: File, n: nat, m: nat) returns (types: seq<LocalTime>)
    requires f.At(HEADER_SIZE + 5 * n)
    modifies f
    ensures types == TypesAt(f.content, n, m) && f.At(HEADER_SIZE + 5 * n + 6 * m)
  {
    types := [];
    for j := 0 to m
      invariant f.At(HEADER_SIZE + 5 * n + 6 * j) && |types| == j
      invariant forall k :: 0 <= k < j ==> types[k] == TypeAt(f.content, HEADER_SIZE + 5 * n + 6 * k)
    {
      ghost var at := HEADER_SIZE + 5 * n + 6 * j;
      var gmtoff := f.ReadInt32(at);
      var isdst := f.ReadUint8(at + 4);
      var abbrind := f.ReadUint8(at + 5);
      types := types + [LocalTime(gmtoff, isdst != 0, abbrind)];
    }
  }

  // None when an index leaves the type table.
  method BuildTransitions(times: seq<int>, indexes: seq<byte>, types: seq<LocalTime>) returns (ts: Option<seq<Transition>>)
    requires |times| == |indexes|
    ensures ts.None? <==> exists i :: 0 <= i < |indexes| && indexes[i] >= |types|
    ensures ts.Some? ==> ts.value == Combine(times, indexes, types)
  {
    var list: seq<Transition> := [];
    for i := 0 to |times|
      invariant |list| == i
      invariant forall k :: 0 <= k < i ==> indexes[k] < |types|
      invariant forall k :: 0 <= k < i ==> list[k] == Transition(times[k], times[k] + types[indexes[k]].gmtOffset, indexes[k])
    {
      if indexes[i] >= |types| {
        return None;
      }
      list := list + [Transition(times[i], times[i] + types[indexes[i]].gmtOffset, indexes[i])];
    }
    ts := Some(list);
  }

  // readTimeZoneFile; None stands for a file that cannot be opened, which the code takes
  // for a successful read of nothing.
  method ReadTimeZoneFile(file: Option<seq<byte>>) returns (outcome: Outcome)
    ensures outcome == Parse(file)
    ensures outcome.Refused? <==>
      file.Some? && (|file.value| < 4 || file.value[..4] != [0x54, 0x5A, 0x69, 0x66])
  {
    hide Int32At, TypeAt, Slice;
    if file.None? {
      return Loaded(Data([], [], []));
    }
    var f := new File(file.value);
    var ok, timecnt, typecnt, charcnt := ReadHeader(f);
    if !ok {
      return Refused;
    }
    if timecnt < 0 {
      return Thrown;
    }
    var m := Max(0, typecnt);
    var times := ReadTimes(f, timecnt);
    var indexes := ReadIndexes(f, timecnt);
    var types := ReadTypes(f, timecnt, m);
    var ts := BuildTransitions(times, indexes, types);
    if ts.None? || charcnt < 0 {
      return Undefined;
    }
    var abbreviation := f.ReadBytes(charcnt, HEADER_SIZE + 5 * timecnt + 6 * m);
    outcome := Loaded(Data(ts.value, types, abbreviation));
  }

  // A well-formed block and its encoding.
  datatype Block = Block(skipped: seq<byte>, times: seq<int>, indexes: seq<byte>, types: seq<LocalTime>, chars: seq<byte>)

  predicate WellFormed(b: Block) {
    && |b.skipped| == 28 // version, reserved bytes and the three counts that the reader ignores
    && |b.times| == |b.indexes|
    && FitsSigned(4, |b.times|) && FitsSigned(4, |b.types|) && FitsSigned(4, |b.chars|)
    && (forall i :: 0 <= i < |b.times| ==> FitsSigned(4, b.times[i]) && b.indexes[i] < |b.types|)
    && (forall j :: 0 <= j < |b.types| ==> FitsSigned(4, b.types[j].gmtOffset) && 0 <= b.types[j].arrbInx < 256)
  }

  function Int32(x: int): (bytes: seq<byte>)
    requires FitsSigned(4, x)
    ensures |bytes| == 4
  {
    BigEndian(4, ToUnsigned(4, x))
  }

  function EncodeTimes(times: seq<int>): (bytes: seq<byte>)
    requires forall i :: 0 <= i < |times| ==> FitsSigned(4, times[i])
    ensures |bytes| == 4 * |times|
  {
    if times == [] then [] else EncodeTimes(times[..|times| - 1]) + Int32(times[|times| - 1])
  }

  function EncodeType(t: LocalTime): (bytes: seq<byte>)
    requires FitsSigned(4, t.gmtOffset) && 0 <= t.arrbInx < 256
    ensures |bytes| == 6
  {
    Int32(t.gmtOffset) + [if t.isDst then 1 else 0, t.arrbInx]
  }

  function EncodeTypes(types: seq<LocalTime>): (bytes: seq<byte>)
    requires forall j :: 0 <= j < |types| ==> FitsSigned(4, types[j].gmtOffset) && 0 <= types[j].arrbInx < 256
    ensures |bytes| == 6 * |types|
  {
    if types == [] then [] else EncodeTypes(types[..|types| - 1]) + EncodeType(types[|types| - 1])
  }

  function Encode(b: Block): seq<byte>
    requires WellFormed(b)
  {
    MAGIC + b.skipped + Int32(|b.times|) + Int32(|b.types|) + Int32(|b.chars|)
      + EncodeTimes(b.times) + b.indexes + EncodeTypes(b.types) + b.chars
  }

  // A part of the file found at its position reads back.
  lemma Int32ReadsBack(content: seq<byte>, at: nat, x: int)
    requires FitsSigned(4, x) && at + 4 <= |content| && content[at..at + 4] == Int32(x)
    ensures Int32At(content, at) == x
  {
    assert BytesAt(content, at, 4) == content[at..at + 4];
    BytesOfValue(4, ToUnsigned(4, x));
    SignedRoundTrip(4, x);
  }

  lemma IndexesReadBack(content: seq<byte>, n: nat, indexes: seq<byte>)
    requires n == |indexes| && HEADER_SIZE + 5 * n <= |content|
    requires content[HEADER_SIZE + 4 * n..HEADER_SIZE + 5 * n] == indexes
    ensures IndexesAt(content, n) == indexes
  {
    var read := IndexesAt(content, n);
    forall i | 0 <= i < n
      ensures read[i] == indexes[i]
    {
      assert read[i] == ByteAt(content, HEADER_SIZE + 4 * n + i);
      var at := HEADER_SIZE + 4 * n;
      assert at + n == HEADER_SIZE + 5 * n;
      assert indexes[i] == content[at..at + n][i] == content[at + i];
    }
  }

  lemma SliceOfSlice(content: seq<byte>, at: nat, n: nat, from: nat, to: nat)
    requires from <= to <= n && at + n <= |content|
    ensures content[at..at + n][from..to] == content[at + from..at + to]
  {
    var left, right := content[at..at + n][from..to], content[at + from..at + to];
    forall i | 0 <= i < |left|
      ensures left[i] == right[i]
    {
      assert content[at..at + n][from + i] == content[at + (from + i)];
    }
  }

  lemma {:induction false} TimesReadBack(content: seq<byte>, times: seq<int>)
    requires forall i :: 0 <= i < |times| ==> FitsSigned(4, times[i])
    requires HEADER_SIZE + 4 * |times| <= |content|
    requires content[HEADER_SIZE..HEADER_SIZE + 4 * |times|] == EncodeTimes(times)
    ensures TimesAt(content, |times|) == times
  {
    hide Int32, Int32At;
    if times != [] {
      var n := |times| - 1;
      var bytes := EncodeTimes(times);
      assert bytes[..4 * n] == EncodeTimes(times[..n]);
      SliceOfSlice(content, HEADER_SIZE, 4 * n + 4, 0, 4 * n);
      TimesReadBack(content, times[..n]);
      SliceOfSlice(content, HEADER_SIZE, 4 * n + 4, 4 * n, 4 * n + 4);
      assert bytes[4 * n..4 * n + 4] == Int32(times[n]);
      Int32ReadsBack(content, HEADER_SIZE + 4 * n, times[n]);
      assert TimesAt(content, n + 1) == TimesAt(content, n) + [times[n]];
    }
  }

  lemma TypeReadsBack(content: seq<byte>, at: nat, t: LocalTime)
    requires FitsSigned(4, t.gmtOffset) && 0 <= t.arrbInx < 256
    requires at + 6 <= |content| && content[at..at + 6] == EncodeType(t)
    ensures TypeAt(content, at) == t
  {
    assert content[at..at + 4] == content[at..at + 6][..4];
    Int32ReadsBack(content, at, t.gmtOffset);
    assert content[at + 4] == content[at..at + 6][4] && content[at + 5] == content[at..at + 6][5];
  }

  lemma EncodedTypesEnd(types: seq<LocalTime>)
    requires types != []
    requires forall j :: 0 <= j < |types| ==> FitsSigned(4, types[j].gmtOffset) && 0 <= types[j].arrbInx < 256
    ensures EncodeTypes(types) == EncodeTypes(types[..|types| - 1]) + EncodeType(types[|types| - 1])
  {
    hide EncodeType, FitsSigned;
  }

  // A join found at its position is found in its two parts.
  lemma PartsOfJoin(content: seq<byte>, at: nat, a: seq<byte>, b: seq<byte>)
    requires at + |a| + |b| <= |content| && content[at..at + |a| + |b|] == a + b
    ensures content[at..at + |a|] == a && content[at + |a|..at + |a| + |b|] == b
  {
    SliceOfSlice(content, at, |a| + |b|, 0, |a|);
    SliceOfSlice(content, at, |a| + |b|, |a|, |a| + |b|);
  }

  lemma TypesAtOneMore(content: seq<byte>, n: nat, m: nat)
    ensures TypesAt(content, n, m + 1) == TypesAt(content, n, m) + [TypeAt(content, HEADER_SIZE + 5 * n + 6 * m)]
  {
    hide TypeAt;
  }

  lemma {:induction false} TypesReadBack(content: seq<byte>, n: nat, types: seq<LocalTime>)
    requires forall j :: 0 <= j < |types| ==> FitsSigned(4, types[j].gmtOffset) && 0 <= types[j].arrbInx < 256
    requires HEADER_SIZE + 5 * n + 6 * |types| <= |content|
    requires content[HEADER_SIZE + 5 * n..HEADER_SIZE + 5 * n + 6 * |types|] == EncodeTypes(types)
    ensures TypesAt(content, n, |types|) == types
  {
    if types != [] {
      hide EncodeType, TypeAt, TypesAt, EncodeTypes, FitsSigned;
      var start, m := HEADER_SIZE + 5 * n, |types| - 1;
      EncodedTypesEnd(types);
      PartsOfJoin(content, start, EncodeTypes(types[..m]), EncodeType(types[m]));
      TypesReadBack(content, n, types[..m]);
      TypeReadsBack(content, start + 6 * m, types[m]);
      TypesAtOneMore(content, n, m);
      assert types == types[..m] + [types[m]];
    }
  }

  // Where each part of an encoded block ends up in the file.
  lemma PartsInPlace(b: Block, tail: seq<byte>)
    requires WellFormed(b)
    ensures
      var content, n, m := Encode(b) + tail, |b.times|, |b.types|;
      && |content| >= HEADER_SIZE + 5 * n + 6 * m + |b.chars|
      && content[..4] == MAGIC && content[32..36] == Int32(n) && content[36..40] == Int32(m)
      && content[40..44] == Int32(|b.chars|)
      && content[HEADER_SIZE..HEADER_SIZE + 4 * n] == EncodeTimes(b.times)
      && content[HEADER_SIZE + 4 * n..HEADER_SIZE + 5 * n] == b.indexes
      && content[HEADER_SIZE + 5 * n..HEADER_SIZE + 5 * n + 6 * m] == EncodeTypes(b.types)
      && content[HEADER_SIZE + 5 * n + 6 * m..HEADER_SIZE + 5 * n + 6 * m + |b.chars|] == b.chars
  {
    hide Int32, EncodeTimes, EncodeTypes, FitsSigned;
  }

  // Reading an encoded well-formed block, whatever follows it, reproduces its type table
  // and gives each transition the local time that its own type computes.
  lemma StartsWithMagic(b: Block)
    requires WellFormed(b)
    ensures |Encode(b)| >= 4 && Encode(b)[..4] == [0x54, 0x5A, 0x69, 0x66]
  {
    hide Int32, EncodeTimes, EncodeTypes, FitsSigned;
  }

  lemma ReadEncoded(b: Block, tail: seq<byte>)
    requires WellFormed(b)
    ensures Parse(Some(Encode(b) + tail)) == Loaded(Data(Combine(b.times, b.indexes, b.types), b.types, b.chars))
    ensures |Encode(b)| >= 4 && Encode(b)[..4] == [0x54, 0x5A, 0x69, 0x66]
  {
    hide Int32, EncodeTimes, EncodeTypes, Int32At, TypeAt, Encode, FitsSigned;
    var content, n, m := Encode(b) + tail, |b.times|, |b.types|;
    StartsWithMagic(b);
    PartsInPlace(b, tail);
    Int32ReadsBack(content, 32, n);
    Int32ReadsBack(content, 36, m);
    Int32ReadsBack(content, 40, |b.chars|);
    TimesReadBack(content, b.times);
    TypesReadBack(content, n, b.types);
    IndexesReadBack(content, n, b.indexes);
  }

  // A header with the given counts of transitions, types and characters.
  function Header(n: int, m: int, chars: int): (bytes: seq<byte>)
    requires FitsSigned(4, n) && FitsSigned(4, m) && FitsSigned(4, chars)
    ensures |bytes| == HEADER_SIZE
  {
    MAGIC + seq<byte>(28, i => 0) + Int32(n) + Int32(m) + Int32(chars)
  }

  // Which counts end badly, whatever follows the header: a negative count of transitions throws;
  // transitions without types, or a negative count of characters, are undefined behaviour.
  lemma BadHeader(n: int, m: int, chars: int, tail: seq<byte>)
    requires FitsSigned(4, n) && FitsSigned(4, m) && FitsSigned(4, chars)
    ensures
      var outcome := Parse(Some(Header(n, m, chars) + tail));
      && (outcome.Thrown? <==> n < 0)
      && (n > 0 && m <= 0 ==> outcome.Undefined?)
      && (n >= 0 && chars < 0 ==> outcome.Undefined?)
      && (n == 0 ==> (outcome.Undefined? <==> chars < 0))
  {
    hide FitsSigned, ToSigned, FromBigEndian, Int32, Int32At, TypeAt;
    var content := Header(n, m, chars) + tail;
    HeaderCounts(n, m, chars, tail);
    if n > 0 && m <= 0 {
      assert IndexesAt(content, n)[0] >= 0;
    }
  }

  lemma HeaderCounts(n: int, m: int, chars: int, tail: seq<byte>)
    requires FitsSigned(4, n) && FitsSigned(4, m) && FitsSigned(4, chars)
    ensures
      var content := Header(n, m, chars) + tail;
      Slice(content, 0, 4) == MAGIC && Int32At(content, 32) == n && Int32At(content, 36) == m && Int32At(content, 40) == chars
  {
    hide FitsSigned, Int32, Int32At;
    var content := Header(n, m, chars) + tail;
    assert content[..4] == MAGIC && content[32..36] == Int32(n) && content[36..40] == Int32(m) && content[40..44] == Int32(chars);
    Int32ReadsBack(content, 32, n);
    Int32ReadsBack(content, 36, m);
    Int32ReadsBack(content, 40, chars);
  }

  // What is loaded, by its positions in the file: after a header of 44 bytes the times, the type
  // indexes, the types of six bytes each and the characters, as the three counts at 32, 36 and 40
  // say, with zeros for what a short file lacks.
  lemma LoadedByPositions(content: seq<byte>)
    requires Parse(Some(content)).Loaded?
    ensures
      var data := Parse(Some(content)).data;
      var n, m, chars := Int32At(content, 32), Int32At(content, 36), Int32At(content, 40);
      && n == |data.transitions| && |data.localtimes| == (if m < 0 then 0 else m) && chars >= 0
      && (forall i :: 0 <= i < n ==>
            var t := data.transitions[i];
            && t.gmtime == Int32At(content, 44 + 4 * i) && t.localtimeIdx == ByteAt(content, 44 + 4 * n + i)
            && 0 <= t.localtimeIdx < |data.localtimes|
            && t.localtime == t.gmtime + data.localtimes[t.localtimeIdx].gmtOffset)
      && (forall j :: 0 <= j < |data.localtimes| ==>
            var local := data.localtimes[j];
            var at := 44 + 5 * n + 6 * j;
            && local.gmtOffset == Int32At(content, at) && (local.isDst <==> ByteAt(content, at + 4) != 0)
            && local.arrbInx == ByteAt(content, at + 5))
      && var at := 44 + 5 * n + 6 * |data.localtimes|;
         data.abbreviation == if at >= |content| then [] else if at + chars >= |content| then content[at..] else content[at..at + chars]
  {
    hide Int32At, ByteAt;
    var data := Parse(Some(content)).data;
    var n, m := Int32At(content, 32), Max(0, Int32At(content, 36));
    assert n >= 0 && Int32At(content, 40) >= 0;
    var types, indexes := TypesAt(content, n, m), IndexesAt(content, n);
    assert data.localtimes == types && data.transitions == Combine(TimesAt(content, n), indexes, types);
    assert forall i :: 0 <= i < n ==> indexes[i] < m;
  }

  // Four bytes of a file, as a signed integer with the most significant byte first.
  lemma Int32ByBytes(content: seq<byte>, at: nat)
    ensures
      var u := ByteAt(content, at) * 0x100_0000 + ByteAt(content, at + 1) * 0x1_0000 + ByteAt(content, at + 2) * 0x100 + ByteAt(content, at + 3);
      Int32At(content, at) == if u < 0x8000_0000 then u else u - 0x1_0000_0000
    ensures ByteAt(content, at) == if at < |content| then content[at] else 0
  {
    hide Pow256, FromBigEndian;
    Powers();
    var b := BytesAt(content, at, 4);
    NetworkOrder(b[0], b[1], b[2], b[3]);
    assert b == [b[0], b[1], b[2], b[3]];
  }

  // What is loaded from a file with at least one type can be indexed, and only then.
  lemma LoadedIsIndexed(file: Option<seq<byte>>)
    requires Parse(file).Loaded?
    ensures Indexed(Parse(file).data) <==> file.Some? && Int32At(file.value, 36) > 0
  {
    hide Int32At, TypeAt;
    var data := Parse(file).data;
    if file.None? {
      assert data.localtimes == [];
    } else {
      assert |data.localtimes| == Max(0, Int32At(file.value, 36));
    }
  }
}

// Finding the local time type in force at an instant, by UTC or by local time.
module ZoneLookup {
  import opened Endian
  import opened ZoneData
  import ZoneFile
  import opened Common

  datatype Comp = Comp(compareGMT: bool) {

    predicate Less(lhs: Transition, rhs: Transition) {
      if compareGMT then lhs.gmtime < rhs.gmtime else lhs.localtime < rhs.localtime
    }

    predicate Equal(lhs: Transition, rhs: Transition) {
      if compareGMT then lhs.gmtime == rhs.gmtime else lhs.localtime == rhs.localtime
    }
  }

  predicate StrictlyAscending(ts: seq<Transition>, comp: Comp) {
    forall i, j :: 0 <= i < j < |ts| ==> comp.Less(ts[i], ts[j])
  }

  // The linear definition: the last transition that is not after the sentry, or -1.
  function LastNotAfter(ts: seq<Transition>, sentry: Transition, comp: Comp): (k: int)
    ensures -1 <= k < |ts|
  {
    if ts == [] then -1
    else if !comp.Less(sentry, ts[|ts| - 1]) then |ts| - 1
    else LastNotAfter(ts[..|ts| - 1], sentry, comp)
  }

  // On an ascending table the linear definition is the boundary between the two sides.
  lemma {:induction false} LastNotAfterIsBoundary(ts: seq<Transition>, sentry: Transition, comp: Comp, k: int)
    requires StrictlyAscending(ts, comp) && -1 <= k < |ts|
    ensures k == LastNotAfter(ts, sentry, comp) <==>
      (k >= 0 ==> !comp.Less(sentry, ts[k])) && (k + 1 < |ts| ==> comp.Less(sentry, ts[k + 1]))
  {
    if ts != [] {
      var front := ts[..|ts| - 1];
      if comp.Less(sentry, ts[|ts| - 1]) && k < |front| {
        LastNotAfterIsBoundary(front, sentry, comp, k);
      }
    }
  }

  // std::lower_bound: the first transition that is not before the sentry.
  method LowerBound(ts: seq<Transition>, sentry: Transition, comp: Comp) returns (first: nat)
    requires forall i, j :: 0 <= i < j < |ts| ==> !comp.Less(ts[j], ts[i])
    ensures first <= |ts|
    ensures forall i :: 0 <= i < first ==> comp.Less(ts[i], sentry)
    ensures forall i :: first <= i < |ts| ==> !comp.Less(ts[i], sentry)
  {
    first := 0;
    var len := |ts|;
    while len > 0
      invariant 0 <= len && first + len <= |ts|
      invariant forall i :: 0 <= i < first ==> comp.Less(ts[i], sentry)
      invariant forall i :: first + len <= i < |ts| ==> !comp.Less(ts[i], sentry)
    {
      var half := len / 2;
      var mid := first + half;
      if comp.Less(ts[mid], sentry) {
        first := mid + 1;
        len := len - half - 1;
      } else {
        len := half;
      }
    }
  }

  // findLocalTime returns the type that the linear definition names; every index stays in range.
  method FindLocalTime(data: Data, sentry: Transition, comp: Comp) returns (local: LocalTime)
    requires Indexed(data) && StrictlyAscending(data.transitions, comp)
    ensures local == TypeAfter(data, LastNotAfter(data.transitions, sentry, comp))
    ensures (forall k :: 0 <= k < |data.transitions| ==> Instant(sentry, comp) < Instant(data.transitions[k], comp)) ==>
      local == data.localtimes[0]
    ensures forall k :: 0 <= k < |data.transitions| ==>
      Instant(data.transitions[k], comp) <= Instant(sentry, comp) ==>
      (forall j :: k < j < |data.transitions| ==> Instant(sentry, comp) < Instant(data.transitions[j], comp)) ==>
      local == data.localtimes[data.transitions[k].localtimeIdx]
  {
    var ts := data.transitions;
    ghost var k;
    if ts == [] || comp.Less(sentry, ts[0]) {
      local := data.localtimes[0];
      k := -1;
    } else {
      var i := LowerBound(ts, sentry, comp);
      if i < |ts| {
        if !comp.Equal(sentry, ts[i]) {
          assert i != 0;
          i := i - 1;
        }
        local := data.localtimes[ts[i].localtimeIdx];
        k := i;
      } else {
        local := data.localtimes[ts[|ts| - 1].localtimeIdx];
        k := |ts| - 1;
      }
    }
    LastNotAfterIsBoundary(ts, sentry, comp, k);
  }

  // The instant that a comparison looks at: UTC, or local time.
  function Instant(t: Transition, comp: Comp): int {
    if comp.compareGMT then t.gmtime else t.localtime
  }

  // The sentries of a UTC and of a local lookup.
  function Utc(t: int): Transition {
    Transition(t, 0, 0)
  }

  function Local(t: int): Transition {
    Transition(0, t, 0)
  }

  const BY_UTC := Comp(true)
  const BY_LOCAL := Comp(false)

  // Every transition starts its own type in local time, as the reader computes it.
  predicate Consistent(data: Data)
    requires Indexed(data)
  {
    forall i :: 0 <= i < |data.transitions| ==>
      data.transitions[i].localtime == data.transitions[i].gmtime + TypeAfter(data, i).gmtOffset
  }

  // The instants before transition k + 1, when that transition lowers the offset, by no more
  // than it lowers it: their local times are shown twice.
  predicate InOverlap(data: Data, k: int, t: int)
    requires Indexed(data) && -1 <= k < |data.transitions|
  {
    k + 1 < |data.transitions| &&
    data.transitions[k + 1].gmtime - t <= TypeAfter(data, k).gmtOffset - TypeAfter(data, k + 1).gmtOffset
  }

  // Looking up an instant by UTC and its local time by local time meets the same transition
  // exactly outside the overlaps.
  lemma LocalAgreesWithUtc(data: Data, t: int)
    requires Indexed(data) && Consistent(data)
    requires StrictlyAscending(data.transitions, BY_UTC) && StrictlyAscending(data.transitions, BY_LOCAL)
    ensures
      var k := LastNotAfter(data.transitions, Utc(t), BY_UTC);
      var local := t + TypeAfter(data, k).gmtOffset;
      LastNotAfter(data.transitions, Local(local), BY_LOCAL) == k <==> !InOverlap(data, k, t)
  {
    var k := LastNotAfter(data.transitions, Utc(t), BY_UTC);
    LastNotAfterIsBoundary(data.transitions, Utc(t), BY_UTC, k);
    LastNotAfterIsBoundary(data.transitions, Local(t + TypeAfter(data, k).gmtOffset), BY_LOCAL, k);
  }

  // An overlap needs a transition that lowers the offset, and inside one the local lookup
  // meets a later transition.
  lemma OverlapMeansLowering(data: Data, t: int)
    requires Indexed(data) && Consistent(data)
    requires StrictlyAscending(data.transitions, BY_UTC) && StrictlyAscending(data.transitions, BY_LOCAL)
    ensures
      var k := LastNotAfter(data.transitions, Utc(t), BY_UTC);
      var local := t + TypeAfter(data, k).gmtOffset;
      InOverlap(data, k, t) ==>
        TypeAfter(data, k + 1).gmtOffset < TypeAfter(data, k).gmtOffset &&
        LastNotAfter(data.transitions, Local(local), BY_LOCAL) > k
  {
    var k := LastNotAfter(data.transitions, Utc(t), BY_UTC);
    LastNotAfterIsBoundary(data.transitions, Utc(t), BY_UTC, k);
    var local := t + TypeAfter(data, k).gmtOffset;
    var j := LastNotAfter(data.transitions, Local(local), BY_LOCAL);
    LastNotAfterIsBoundary(data.transitions, Local(local), BY_LOCAL, j);
  }

  // Every transition comes later than the one before it by more than it lowers the offset.
  predicate FarApart(b: ZoneFile.Block)
    requires ZoneFile.WellFormed(b)
  {
    forall i :: 0 < i < |b.times| ==>
      b.times[i] - b.times[i - 1] > b.types[b.indexes[i - 1]].gmtOffset - b.types[b.indexes[i]].gmtOffset
  }

  // A table read from a well-formed block with a type and ascending times is fit for lookups by
  // UTC, and for lookups by local time exactly if its transitions are far enough apart.
  lemma LoadedTableIsFit(b: ZoneFile.Block, tail: seq<byte>)
    requires ZoneFile.WellFormed(b) && b.types != []
    requires forall i, j :: 0 <= i < j < |b.times| ==> b.times[i] < b.times[j]
    ensures
      var outcome := ZoneFile.Parse(Some(ZoneFile.Encode(b) + tail));
      && outcome.Loaded? && Indexed(outcome.data) && Consistent(outcome.data)
      && StrictlyAscending(outcome.data.transitions, BY_UTC)
      && (StrictlyAscending(outcome.data.transitions, BY_LOCAL) <==> FarApart(b))
  {
    hide ZoneFile.Encode, ZoneFile.Parse, FarApart;
    ZoneFile.ReadEncoded(b, tail);
    LocalOrder(b);
    hide StrictlyAscending;
    assert StrictlyAscending(ZoneFile.Combine(b.times, b.indexes, b.types), BY_UTC) by { UtcOrder(b); }
  }

  lemma UtcOrder(b: ZoneFile.Block)
    requires ZoneFile.WellFormed(b)
    requires forall i, j :: 0 <= i < j < |b.times| ==> b.times[i] < b.times[j]
    ensures StrictlyAscending(ZoneFile.Combine(b.times, b.indexes, b.types), BY_UTC)
  {
  }

  lemma LocalOrder(b: ZoneFile.Block)
    requires ZoneFile.WellFormed(b)
    ensures StrictlyAscending(ZoneFile.Combine(b.times, b.indexes, b.types), BY_LOCAL) <==> FarApart(b)
  {
    hide StrictlyAscending;
    var ts := ZoneFile.Combine(b.times, b.indexes, b.types);
    AscendingByNeighbours(ts, BY_LOCAL);
    assert forall i :: 0 < i < |ts| ==>
      (BY_LOCAL.Less(ts[i - 1], ts[i]) <==>
        b.times[i] - b.times[i - 1] > b.types[b.indexes[i - 1]].gmtOffset - b.types[b.indexes[i]].gmtOffset);
  }

  lemma AscendingByNeighbours(ts: seq<Transition>, comp: Comp)
    ensures StrictlyAscending(ts, comp) <==> forall i :: 0 < i < |ts| ==> comp.Less(ts[i - 1], ts[i])
  {
    if forall i :: 0 < i < |ts| ==> comp.Less(ts[i - 1], ts[i]) {
      forall i, j | 0 <= i < j < |ts|
        ensures comp.Less(ts[i], ts[j])
      {
        LessByNeighbours(ts, comp, i, j);
      }
    }
  }

  lemma {:induction false} LessByNeighbours(ts: seq<Transition>, comp: Comp, i: nat, j: nat)
    requires forall k :: 0 < k < |ts| ==> comp.Less(ts[k - 1], ts[k])
    requires i < j < |ts|
    ensures comp.Less(ts[i], ts[j])
  {
    if i < j - 1 { LessByNeighbours(ts, comp, i, j - 1); }
    assert comp.Less(ts[j - 1], ts[j]);
  }
}
