// Byte order. An integer of n bytes travels most significant byte first (network byte
// order, Appendix B of RFC 791), whichever way the host stores it in memory.
module Endian {
  import opened Common

  type byte = x: int | 0 <= x < 256

  function Pow256(n: nat): (p: nat)
    ensures p > 0 && (n > 0 ==> p % 2 == 0)
  {
    if n == 0 then 1 else 256 * Pow256(n - 1)
  }

  // The n low-order bytes of v, most significant first.
  function BigEndian(n: nat, v: nat): (bytes: seq<byte>)
    ensures |bytes| == n
  {
    if n == 0 then [] else BigEndian(n - 1, v / 256) + [v % 256]
  }

  function FromBigEndian(bytes: seq<byte>): nat {
    if bytes == [] then 0 else 256 * FromBigEndian(bytes[..|bytes| - 1]) + bytes[|bytes| - 1]
  }

  // The memory image of an n-byte unsigned integer, and the integer a memory image holds.
  datatype Host = LittleEndianHost | BigEndianHost

  function Store(host: Host, n: nat, v: nat): seq<byte> {
    if host.BigEndianHost? then BigEndian(n, v) else Reversed(BigEndian(n, v))
  }

  function Load(host: Host, image: seq<byte>): nat {
    if host.BigEndianHost? then FromBigEndian(image) else FromBigEndian(Reversed(image))
  }

  function SwapBytes(n: nat, v: nat): nat {
    FromBigEndian(Reversed(BigEndian(n, v)))
  }

  // htobe16, htobe32, htobe64 and their inverses: swap on a little-endian host only.
  function HostToNetwork(host: Host, n: nat, v: nat): nat {
    if host.BigEndianHost? then v else SwapBytes(n, v)
  }

  function NetworkToHost(host: Host, n: nat, v: nat): nat {
    if host.BigEndianHost? then v else SwapBytes(n, v)
  }

  // Two's complement of n bytes.
  predicate FitsSigned(n: nat, x: int) {
    0 <= 2 * x + Pow256(n) < 2 * Pow256(n)
  }

  function ToUnsigned(n: nat, x: int): (u: nat)
    requires FitsSigned(n, x)
    ensures u < Pow256(n)
  {
    if x < 0 then x + Pow256(n) else x
  }

  function ToSigned(n: nat, u: nat): int {
    if 2 * u >= Pow256(n) then u - Pow256(n) else u
  }

  lemma {:induction false} BytesOfValue(n: nat, v: nat)
    requires v < Pow256(n)
    ensures FromBigEndian(BigEndian(n, v)) == v
  {
    if n > 0 {
      BytesOfValue(n - 1, v / 256);
      assert BigEndian(n, v)[..n - 1] == BigEndian(n - 1, v / 256);
    }
  }

  lemma {:induction false} ValueOfBytes(bytes: seq<byte>)
    ensures FromBigEndian(bytes) < Pow256(|bytes|)
    ensures BigEndian(|bytes|, FromBigEndian(bytes)) == bytes
  {
    if bytes != [] {
      var front, low := bytes[..|bytes| - 1], bytes[|bytes| - 1];
      ValueOfBytes(front);
      assert FromBigEndian(bytes) / 256 == FromBigEndian(front) && FromBigEndian(bytes) % 256 == low;
      assert bytes == front + [low];
    }
  }

  lemma ReverseTwice(s: seq<byte>)
    ensures Reversed(Reversed(s)) == s
  {
  }

  // On either host the bytes handed to the network are in network order ...
  lemma WireOrder(host: Host, n: nat, v: nat)
    requires v < Pow256(n)
    ensures Store(host, n, HostToNetwork(host, n, v)) == BigEndian(n, v)
  {
    ValueOfBytes(Reversed(BigEndian(n, v)));
    ReverseTwice(BigEndian(n, v));
  }

  // ... and the bytes taken from it give the value back, so the two hosts may differ.
  lemma WireValue(host: Host, n: nat, v: nat)
    requires v < Pow256(n)
    ensures NetworkToHost(host, n, Load(host, BigEndian(n, v))) == v
  {
    BytesOfValue(n, v);
    if host.LittleEndianHost? {
      ValueOfBytes(Reversed(BigEndian(n, v)));
      ReverseTwice(BigEndian(n, v));
    }
  }

  // The integers that fit come back from their two's complement, and every image is one.
  lemma SignedRoundTrip(n: nat, x: int)
    requires FitsSigned(n, x)
    ensures ToSigned(n, ToUnsigned(n, x)) == x
  {
  }

  // What appendIntN puts on the wire and what peekIntN takes from it.
  function Wire(host: Host, n: nat, x: int): (bytes: seq<byte>)
    requires FitsSigned(n, x)
    ensures bytes == BigEndian(n, ToUnsigned(n, x))
  {
    WireOrder(host, n, ToUnsigned(n, x));
    Store(host, n, HostToNetwork(host, n, ToUnsigned(n, x)))
  }

  function Unwire(host: Host, bytes: seq<byte>): int {
    ToSigned(|bytes|, NetworkToHost(host, |bytes|, Load(host, bytes)))
  }

  // What a host takes from the wire does not depend on its byte order.
  lemma UnwireOnAnyHost(host: Host, bytes: seq<byte>)
    ensures Unwire(host, bytes) == ToSigned(|bytes|, FromBigEndian(bytes))
  {
    ValueOfBytes(bytes);
    WireValue(host, |bytes|, FromBigEndian(bytes));
  }

  // Every signed value of every width survives the trip between any two hosts.
  lemma SignedTrip(sender: Host, receiver: Host, n: nat, x: int)
    requires FitsSigned(n, x)
    ensures Unwire(receiver, Wire(sender, n, x)) == x
  {
    WireValue(receiver, n, ToUnsigned(n, x));
    SignedRoundTrip(n, x);
  }

  lemma Powers()
    ensures Pow256(1) == 0x100 && Pow256(2) == 0x1_0000 && Pow256(4) == 0x1_0000_0000
    ensures Pow256(8) == 0x1_0000_0000_0000_0000
  {
    assert Pow256(3) == 0x100_0000;
    assert Pow256(5) == 0x100_0000_0000 && Pow256(6) == 0x1_0000_0000_0000 && Pow256(7) == 0x100_0000_0000_0000;
  }

  lemma OneByteMore(bytes: seq<byte>, b: byte)
    ensures FromBigEndian(bytes + [b]) == 256 * FromBigEndian(bytes) + b
  {
    assert (bytes + [b])[..|bytes|] == bytes;
  }

  // The most significant byte comes first.
  lemma NetworkOrder(a: byte, b: byte, c: byte, d: byte)
    ensures BigEndian(1, d) == [d]
    ensures BigEndian(2, c * 0x100 + d) == [c, d]
    ensures BigEndian(4, a * 0x100_0000 + b * 0x1_0000 + c * 0x100 + d) == [a, b, c, d]
    ensures FromBigEndian([a, b, c, d]) == a * 0x100_0000 + b * 0x1_0000 + c * 0x100 + d
  {
    hide FromBigEndian, BigEndian;
    NumberOfNone();
    OneByteMore([], d);
    OneByteMore([], c);
    OneByteMore([c], d);
    OneByteMore([], a);
    OneByteMore([a], b);
    OneByteMore([a, b], c);
    OneByteMore([a, b, c], d);
    assert [] + [d] == [d] && [] + [c] == [c] && [] + [a] == [a];
    assert [c] + [d] == [c, d] && [a] + [b] == [a, b] && [a, b] + [c] == [a, b, c] && [a, b, c] + [d] == [a, b, c, d];
    ValueOfBytes([d]);
    ValueOfBytes([c, d]);
    ValueOfBytes([a, b, c, d]);
  }

  lemma NumberOfNone()
    ensures FromBigEndian([]) == 0
  {
  }

  lemma {:induction false} NumberOfJoin(high: seq<byte>, low: seq<byte>)
    ensures FromBigEndian(high + low) == FromBigEndian(high) * Pow256(|low|) + FromBigEndian(low)
  {
    if low == [] {
      assert high + low == high;
    } else {
      hide FromBigEndian;
      var n := |low| - 1;
      NumberOfJoin(high, low[..n]);
      OneByteMore(high + low[..n], low[n]);
      OneByteMore(low[..n], low[n]);
      assert high + low[..n] + [low[n]] == high + low && low[..n] + [low[n]] == low;
      Shifted(FromBigEndian(high), Pow256(n));
    }
  }

  lemma Shifted(x: nat, p: nat)
    ensures 256 * (x * p) == x * (256 * p)
  {
  }

  // The high half of eight bytes comes before the low half.
  lemma LongNetworkOrder(high: seq<byte>, low: seq<byte>)
    requires |high| == |low| == 4
    ensures BigEndian(8, FromBigEndian(high) * 0x1_0000_0000 + FromBigEndian(low)) == high + low
  {
    hide FromBigEndian, BigEndian, Pow256;
    Powers();
    NumberOfJoin(high, low);
    ValueOfBytes(high + low);
  }

  // A little-endian host has the least significant byte first in memory, a big-endian one the most
  // significant.
  lemma HostOrder(a: byte, b: byte, c: byte, d: byte)
    ensures
      var v := a * 0x100_0000 + b * 0x1_0000 + c * 0x100 + d;
      Store(LittleEndianHost, 4, v) == [d, c, b, a] && Store(BigEndianHost, 4, v) == [a, b, c, d]
  {
    hide BigEndian;
    NetworkOrder(a, b, c, d);
  }

  // Two's complement at the four widths.
  lemma SignedRanges(x: int)
    ensures FitsSigned(1, x) <==> -0x80 <= x < 0x80
    ensures FitsSigned(2, x) <==> -0x8000 <= x < 0x8000
    ensures FitsSigned(4, x) <==> -0x8000_0000 <= x < 0x8000_0000
    ensures FitsSigned(8, x) <==> -0x8000_0000_0000_0000 <= x < 0x8000_0000_0000_0000
    ensures FitsSigned(1, x) ==> ToUnsigned(1, x) == x % 0x100
    ensures FitsSigned(2, x) ==> ToUnsigned(2, x) == x % 0x1_0000
    ensures FitsSigned(4, x) ==> ToUnsigned(4, x) == x % 0x1_0000_0000
    ensures FitsSigned(8, x) ==> ToUnsigned(8, x) == x % 0x1_0000_0000_0000_0000
  {
    hide Pow256;
    Powers();
  }
}
