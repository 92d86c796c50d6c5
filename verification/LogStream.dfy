// Written numerals: the digits of a natural number in base ten or sixteen, and reading them back.
module Numerals {
  import opened Common

  const DIGITS := "0123456789ABCDEF"

  predicate Base(b: int) {
    b == 10 || b == 16
  }

  function Digits(b: nat, n: nat): (s: string)
    requires Base(b)
    ensures |s| >= 1
    decreases n
  {
    if n < b then [DIGITS[n]] else (QuotientSmaller(b, n); Digits(b, n / b)) + [DIGITS[n % b]]
  }

  // The same digits, least significant first.
  function Backwards(b: nat, n: nat): (s: string)
    requires Base(b)
    ensures |s| >= 1
    decreases n
  {
    if n < b then [DIGITS[n]] else (QuotientSmaller(b, n); [DIGITS[n % b]] + Backwards(b, n / b))
  }

  lemma QuotientSmaller(b: nat, n: nat)
    requires Base(b) && n >= b
    ensures 1 <= n / b < n
  {
  }

  lemma {:induction false} ReversedBackwards(b: nat, n: nat)
    requires Base(b)
    ensures Reversed(Backwards(b, n)) == Digits(b, n)
    decreases n
  {
    if n >= b {
      QuotientSmaller(b, n);
      ReversedBackwards(b, n / b);
      assert Backwards(b, n)[1..] == Backwards(b, n / b);
    }
  }

  function DigitValue(c: char): (d: int)
    ensures -1 <= d < 16
  {
    if '0' <= c <= '9' then c as int - '0' as int
    else if 'A' <= c <= 'F' then c as int - 'A' as int + 10
    else -1
  }

  // What a reader of the numeral takes it for: positional notation.
  function Parse(b: nat, s: string): int {
    if s == "" then 0 else b * Parse(b, s[..|s| - 1]) + DigitValue(s[|s| - 1])
  }

  lemma DigitOf(n: nat)
    requires n < 16
    ensures DigitValue(DIGITS[n]) == n && (DIGITS[n] == '0' <==> n == 0) && DIGITS[n] != '-'
  {
  }

  lemma {:induction false} ParseDigits(b: nat, n: nat)
    requires Base(b)
    ensures Parse(b, Digits(b, n)) == n
    ensures n > 0 ==> Digits(b, n)[0] != '0'
    ensures Digits(b, n)[0] != '-'
    ensures n == 0 ==> Digits(b, n) == "0"
    decreases n
  {
    DigitOf(n % b);
    if n < b {
      DigitOf(n);
      assert Parse(b, [DIGITS[n]]) == b * Parse(b, "") + DigitValue(DIGITS[n]);
    } else {
      QuotientSmaller(b, n);
      ParseDigits(b, n / b);
      assert Digits(b, n)[..|Digits(b, n)| - 1] == Digits(b, n / b);
      assert n == b * (n / b) + n % b;
    }
  }

  function Power(b: nat, k: nat): nat {
    if k == 0 then 1 else b * Power(b, k - 1)
  }

  lemma {:induction false} LengthBound(b: nat, n: nat, k: nat)
    requires Base(b) && k >= 1 && n < Power(b, k)
    ensures |Backwards(b, n)| <= k
    decreases k
  {
    if n >= b {
      assert k > 1 && n / b < Power(b, k - 1);
      QuotientSmaller(b, n);
      LengthBound(b, n / b, k - 1);
    }
  }

  // Decimal notation with a sign, and its reader.
  function Abs(v: int): nat {
    if v < 0 then -v else v
  }

  function Decimal(v: int): string {
    if v < 0 then "-" + Digits(10, -v) else Digits(10, v)
  }

  function ParseDecimal(s: string): int {
    if s != "" && s[0] == '-' then -Parse(10, s[1..]) else Parse(10, s)
  }

  predicate NoLeadingZero(s: string) {
    s == "0" || (|s| > 0 && s[0] in "123456789") || (|s| > 1 && s[0] == '-' && s[1] in "123456789")
  }

  // The value of any type that convert is instantiated with, signed or unsigned.
  const LOWEST := -0x8000_0000_0000_0000
  const HIGHEST := 0xFFFF_FFFF_FFFF_FFFF

  lemma PowerOfTen()
    ensures Power(10, 19) == 10_000_000_000_000_000_000
    ensures Power(10, 20) == 100_000_000_000_000_000_000
  {
    assert Power(10, 4) == 10_000;
    assert Power(10, 8) == 100_000_000;
    assert Power(10, 12) == 1_000_000_000_000;
    assert Power(10, 16) == 10_000_000_000_000_000;
  }

  lemma PowerOfSixteen()
    ensures Power(16, 16) == HIGHEST + 1
  {
    assert Power(16, 4) == 0x1_0000;
    assert Power(16, 8) == 0x1_0000_0000;
    assert Power(16, 12) == 0x1_0000_0000_0000;
  }

  lemma {:induction false} DecimalDigitsOnly(n: nat)
    ensures Digits(10, n)[0] in "0123456789"
    decreases n
  {
    if n >= 10 { DecimalDigitsOnly(n / 10); }
  }

  lemma DecimalLength(v: int)
    requires LOWEST <= v <= HIGHEST
    ensures |Backwards(10, Abs(v)) + if v < 0 then "-" else ""| <= 20
  {
    PowerOfTen();
    LengthBound(10, Abs(v), if v < 0 then 19 else 20);
  }

  // Decimal output reads back as the value, with no leading zero and at most twenty characters.
  lemma DecimalRoundTrip(v: int)
    requires LOWEST <= v <= HIGHEST
    ensures ParseDecimal(Decimal(v)) == v
    ensures NoLeadingZero(Decimal(v))
    ensures |Decimal(v)| <= 20
  {
    hide Digits, Backwards, Parse;
    ParseDigits(10, Abs(v));
    DecimalDigitsOnly(Abs(v));
    DecimalLength(v);
    ReversedBackwards(10, Abs(v));
    if v < 0 {
      assert Decimal(v)[1..] == Digits(10, -v);
    }
  }

  lemma WrittenOut()
    ensures Decimal(-128) == "-128" && Decimal(90) == "90" && Digits(16, 0xBE0F) == "BE0F"
  {
    assert Digits(10, 1) == "1" && Digits(10, 12) == "12" && Digits(10, 9) == "9";
    assert Digits(16, 0xB) == "B" && Digits(16, 0xBE) == "BE" && Digits(16, 0xBE0) == "BE0";
  }

  lemma HexRoundTrip(v: nat)
    requires v <= HIGHEST
    ensures Parse(16, Digits(16, v)) == v
    ensures Digits(16, v) == "0" || Digits(16, v)[0] != '0'
    ensures |Digits(16, v)| <= 16
  {
    ReversedBackwards(16, v);
    ParseDigits(16, v);
    PowerOfSixteen();
    LengthBound(16, v, 16);
  }
}

// The character buffer of fixed size shared by the log stream and the asynchronous logger.
module FixedBuffer {

  class FixedBuffer {
    const m_buff: array<char>
    var m_cur: nat

    ghost predicate Valid()
      reads this
    {
      m_cur <= m_buff.Length
    }

    ghost function Contents(): (s: string)
      requires Valid()
      reads this, m_buff
      ensures |s| == m_cur
    {
      m_buff[..m_cur]
    }

    constructor (size: nat)
      ensures Valid() && Contents() == "" && m_buff.Length == size && fresh(m_buff)
    {
      m_buff := new char[size](_ => '\0');
      m_cur := 0;
    }

    function Avail(): nat
      requires Valid()
      reads this
    {
      m_buff.Length - m_cur
    }

    // memcpy to the current position.
    method Copy(line: string)
      requires Valid() && |line| <= Avail()
      modifies this`m_cur, m_buff
      ensures Valid() && Contents() == old(Contents()) + line
    {
      forall i | 0 <= i < |line| {
        m_buff[m_cur + i] := line[i];
      }
      m_cur := m_cur + |line|;
      assert m_buff[..m_cur] == old(m_buff[..m_cur]) + line;
    }

    // The whole line or nothing.
    method Append(line: string) returns (n: nat)
      requires Valid()
      modifies this`m_cur, m_buff
      ensures Valid() && n == (if |line| <= old(Avail()) then |line| else 0)
      ensures Contents() == old(Contents()) + line[..n]
    {
      if Avail() >= |line| {
        Copy(line);
        n := |line|;
      } else {
        n := 0;
      }
    }

    // As much of the line as fits.
    method AppendPartial(line: string) returns (n: nat)
      requires Valid()
      modifies this`m_cur, m_buff
      ensures Valid() && n == (if |line| <= old(Avail()) then |line| else old(Avail()))
      ensures Contents() == old(Contents()) + line[..n]
    {
      if Avail() >= |line| {
        Copy(line);
        n := |line|;
      } else {
        n := Avail();
        Copy(line[..n]);
      }
    }

    // Takes over len characters already written at the current position.
    method Add(len: nat)
      requires Valid() && len <= Avail()
      modifies this`m_cur
      ensures Valid() && Contents() == old(Contents()) + old(m_buff[m_cur..m_cur + len])
    {
      m_cur := m_cur + len;
    }

    method Reset()
      modifies this`m_cur
      ensures Valid() && Contents() == ""
    {
      m_cur := 0;
    }
  }
}

// Integer and pointer output: digits by signed remainder, then an in-place reversal.
module LogStream {
  import opened Common
  import opened Numerals
  import FixedBuffer

  // "9876543210123456789" with the zero in the middle serves remainders of either sign.
  const MIRROR := "9876543210123456789"
  const MAX_NUMERIC_SIZE := 32

  // The sequence with the elements from position at on replaced by those of t.
  function Splice(s: string, at: nat, t: string): (r: string)
    requires at + |t| <= |s|
    ensures |r| == |s| && r[at..at + |t|] == t
  {
    s[..at] + t + s[at + |t|..]
  }

  lemma SpliceNone(s: string, at: nat)
    requires at <= |s|
    ensures Splice(s, at, "") == s
  {
  }

  lemma SpliceNext(s: string, at: nat, t: string, c: char)
    requires at + |t| < |s|
    ensures Splice(s, at, t)[at + |t| := c] == Splice(s, at, t + [c])
  {
  }

  lemma SpliceAgain(s: string, at: nat, t: string, u: string, c: char)
    requires at + |t| < |s| && |u| == |t|
    ensures Splice(s, at, t + [c])[at..at + |t|] == t
    ensures Splice(Splice(s, at, t + [c]), at, u) == Splice(s, at, u + [c])
  {
    assert Splice(s, at, t + [c])[at..at + |t|] == (t + [c])[..|t|];
  }

  lemma SpliceKeepsFront(s: string, at: nat, t: string, c: char)
    requires at + |t| < |s|
    ensures Splice(s, at, t + [c])[..at] == s[..at]
    ensures Splice(s, at, t + [c])[at..at + |t|] == t
  {
    assert Splice(s, at, t + [c])[at..at + |t|] == (t + [c])[..|t|];
  }

  // std::reverse on a[lo..hi].
  method ReverseInPlace(a: array<char>, lo: nat, hi: nat)
    requires lo <= hi <= a.Length
    modifies a
    ensures a[..] == Splice(old(a[..]), lo, Reversed(old(a[lo..hi])))
  {
    hide Reversed, Splice;
    ghost var was := a[..];
    var i, j := lo, hi;
    while i + 1 < j
      invariant lo <= i <= j <= hi && i - lo == hi - j
      invariant forall k :: lo <= k < i || j <= k < hi ==> a[k] == was[lo + hi - 1 - k]
      invariant forall k :: 0 <= k < lo || i <= k < j || hi <= k < a.Length ==> a[k] == was[k]
    {
      j := j - 1;
      a[i], a[j] := a[j], a[i];
      i := i + 1;
    }
    SpliceReversed(was, a[..], lo, hi);
  }

  lemma SpliceReversed(was: string, now: string, lo: nat, hi: nat)
    requires lo <= hi <= |was| == |now|
    requires forall k :: lo <= k < hi ==> now[k] == was[lo + hi - 1 - k]
    requires forall k :: 0 <= k < lo || hi <= k < |now| ==> now[k] == was[k]
    ensures now == Splice(was, lo, Reversed(was[lo..hi]))
  {
    assert now[lo..hi] == Reversed(was[lo..hi]);
  }

  // *p++ = c, with the text written so far as its specification.
  method Put(a: array<char>, p: nat, c: char, ghost was: string, ghost from: nat, ghost done: string)
    returns (next: nat)
    requires p < a.Length == |was| && p == from + |done| && a[..] == Splice(was, from, done)
    modifies a
    ensures next == p + 1 == from + |done + [c]| && a[..] == Splice(was, from, done + [c])
  {
    hide Splice;
    SpliceNext(was, from, done, c);
    a[p] := c;
    assert a[..] == Splice(was, from, done)[p := c];
    next := p + 1;
  }

  lemma SignedDigit(i: int)
    ensures -9 <= CMod(i, 10) <= 9 && MIRROR[9 + CMod(i, 10)] == DIGITS[Abs(i) % 10]
    ensures Abs(CDiv(i, 10)) == Abs(i) / 10
    ensures (CDiv(i, 10) == 0 <==> Abs(i) < 10) && (i >= 0 ==> CDiv(i, 10) >= 0) && (i <= 0 ==> CDiv(i, 10) <= 0)
  {
    assert Abs(CMod(i, 10)) == Abs(i) % 10;
  }

  // One turn of the loop takes the first of the backward digits.
  lemma NextDigit(i: int)
    ensures -9 <= CMod(i, 10) <= 9 && Abs(CDiv(i, 10)) <= Abs(i) && (CDiv(i, 10) != 0 ==> Abs(CDiv(i, 10)) < Abs(i))
    ensures Backwards(10, Abs(i)) ==
      [MIRROR[9 + CMod(i, 10)]] + if CDiv(i, 10) != 0 then Backwards(10, Abs(CDiv(i, 10))) else ""
  {
    SignedDigit(i);
  }

  // One turn of the loop of convert.
  method WriteDigit(a: array<char>, p: nat, i: int, ghost was: string, ghost from: nat, ghost done: string, ghost all: string)
    returns (next: nat, left: int, ghost written: string)
    requires a.Length == |was| && from + |all| <= |was| && all == done + Backwards(10, Abs(i))
    requires p == from + |done| && a[..] == Splice(was, from, done)
    modifies a
    ensures left == CDiv(i, 10) && (left != 0 ==> Abs(left) < Abs(i))
    ensures next == from + |written| && |written| <= |all| && a[..] == Splice(was, from, written)
    ensures all == written + if left != 0 then Backwards(10, Abs(left)) else ""
  {
    hide Splice, Backwards, CMod, CDiv, Abs;
    NextDigit(i);
    var lsd := CMod(i, 10);
    left := CDiv(i, 10);
    written := done + [MIRROR[9 + lsd]];
    assert all == written + if left != 0 then Backwards(10, Abs(left)) else "";
    next := Put(a, p, MIRROR[9 + lsd], was, from, done);
  }

  // The digit loop of convert: least significant digit first, whatever the sign.
  method WriteDigits(a: array<char>, from: nat, value: int) returns (p: nat)
    requires from + |Backwards(10, Abs(value))| <= a.Length
    modifies a
    ensures p == from + |Backwards(10, Abs(value))|
    ensures a[..] == Splice(old(a[..]), from, Backwards(10, Abs(value)))
  {
    hide Splice, Backwards, CMod, CDiv, Abs;
    ghost var was, all, done := a[..], Backwards(10, Abs(value)), "";
    SpliceNone(was, from);
    var i, more := value, true;
    p := from;
    while more
      invariant p == from + |done| && |done| <= |all| && a[..] == Splice(was, from, done)
      invariant all == done + if more then Backwards(10, Abs(i)) else ""
      decreases more, Abs(i)
    {
      p, i, done := WriteDigit(a, p, i, was, from, done, all);
      more := i != 0;
    }
    assert done + "" == done;
  }

  // Digits and sign as convert leaves them before the reversal.
  function Unreversed(value: int): string {
    Backwards(10, Abs(value)) + if value < 0 then "-" else ""
  }

  lemma ReversedNumeral(value: int)
    ensures Reversed(Unreversed(value)) == Decimal(value)
    ensures |Unreversed(value)| == |Decimal(value)|
  {
    hide Backwards, Digits;
    ReversedBackwards(10, Abs(value));
  }

  method WriteSigned(a: array<char>, from: nat, value: int) returns (p: nat)
    requires from + |Unreversed(value)| <= a.Length
    modifies a
    ensures p == from + |Unreversed(value)|
    ensures a[..] == Splice(old(a[..]), from, Unreversed(value))
  {
    hide Splice, Backwards;
    ghost var was, numeral := a[..], Backwards(10, Abs(value));
    p := WriteDigits(a, from, value);
    if value < 0 {
      p := Put(a, p, '-', was, from, numeral);
    } else {
      assert numeral + "" == numeral;
    }
  }

  // convert writes the value at a[from..] with a terminator and says how long it is.
  method Convert(a: array<char>, from: nat, value: int) returns (len: nat)
    requires LOWEST <= value <= HIGHEST && from + 21 <= a.Length
    modifies a
    ensures len == |Decimal(value)| <= 20
    ensures a[..] == Splice(old(a[..]), from, Decimal(value) + ['\0'])
  {
    DecimalLength(value);
    ReversedNumeral(value);
    hide Splice, Unreversed, Decimal;
    ghost var was, numeral := a[..], Unreversed(value);
    var p := WriteSigned(a, from, value);
    var _ := Put(a, p, '\0', was, from, numeral);
    SpliceAgain(was, from, numeral, Decimal(value), '\0');
    assert a[from..p] == a[..][from..p] == numeral;
    ReverseInPlace(a, from, p);
    len := p - from;
  }

  lemma NextHexDigit(i: nat)
    ensures Backwards(16, i) == [DIGITS[i % 16]] + if i / 16 != 0 then Backwards(16, i / 16) else ""
  {
  }

  // One turn of the loop of convertHex.
  method WriteHexDigit(a: array<char>, p: nat, i: nat, ghost was: string, ghost from: nat, ghost done: string, ghost all: string)
    returns (next: nat, left: nat, ghost written: string)
    requires a.Length == |was| && from + |all| <= |was| && all == done + Backwards(16, i)
    requires p == from + |done| && a[..] == Splice(was, from, done)
    modifies a
    ensures left == i / 16 && (left != 0 ==> left < i)
    ensures next == from + |written| && |written| <= |all| && a[..] == Splice(was, from, written)
    ensures all == written + if left != 0 then Backwards(16, left) else ""
  {
    hide Splice, Backwards;
    NextHexDigit(i);
    var lsd := i % 16;
    left := i / 16;
    written := done + [DIGITS[lsd]];
    assert all == written + if left != 0 then Backwards(16, left) else "";
    next := Put(a, p, DIGITS[lsd], was, from, done);
  }

  // The digit loop of convertHex.
  method WriteHexDigits(a: array<char>, from: nat, value: nat) returns (p: nat)
    requires from + |Backwards(16, value)| <= a.Length
    modifies a
    ensures p == from + |Backwards(16, value)|
    ensures a[..] == Splice(old(a[..]), from, Backwards(16, value))
  {
    hide Splice, Backwards;
    ghost var was, all, done := a[..], Backwards(16, value), "";
    SpliceNone(was, from);
    var i, more := value, true;
    p := from;
    while more
      invariant p == from + |done| && |done| <= |all| && a[..] == Splice(was, from, done)
      invariant all == done + if more then Backwards(16, i) else ""
      decreases more, i
    {
      p, i, done := WriteHexDigit(a, p, i, was, from, done, all);
      more := i != 0;
    }
    assert done + "" == done;
  }

  method ConvertHex(a: array<char>, from: nat, value: nat) returns (len: nat)
    requires value <= HIGHEST && from + 17 <= a.Length
    modifies a
    ensures len == |Digits(16, value)| <= 16
    ensures a[..] == Splice(old(a[..]), from, Digits(16, value) + ['\0'])
  {
    HexRoundTrip(value);
    ReversedBackwards(16, value);
    hide Splice, Backwards, Digits;
    ghost var was, numeral := a[..], Backwards(16, value);
    var p := WriteHexDigits(a, from, value);
    var _ := Put(a, p, '\0', was, from, numeral);
    SpliceAgain(was, from, numeral, Digits(16, value), '\0');
    assert a[from..p] == a[..][from..p] == numeral;
    ReverseInPlace(a, from, p);
    len := p - from;
  }

  // formatInteger: nothing at all unless 32 characters are free, and then the whole numeral.
  method FormatInteger(b: FixedBuffer.FixedBuffer, value: int)
    requires b.Valid() && LOWEST <= value <= HIGHEST
    modifies b`m_cur, b.m_buff
    ensures b.Valid()
    ensures b.Contents() == old(b.Contents()) + if old(b.Avail()) >= 32 then Decimal(value) else ""
  {
    if b.Avail() >= MAX_NUMERIC_SIZE {
      hide Decimal, Digits;
      ghost var was := b.m_buff[..];
      var len := Convert(b.m_buff, b.m_cur, value);
      SpliceKeepsFront(was, b.m_cur, Decimal(value), '\0');
      b.Add(len);
    }
  }

  // Pointer output: "0x" and the hexadecimal numeral, in the same 32 characters.
  method FormatPointer(b: FixedBuffer.FixedBuffer, value: nat)
    requires b.Valid() && value <= HIGHEST
    modifies b`m_cur, b.m_buff
    ensures b.Valid()
    ensures b.Contents() == old(b.Contents()) + if old(b.Avail()) >= 32 then "0x" + Digits(16, value) else ""
  {
    if b.Avail() >= MAX_NUMERIC_SIZE {
      var n := b.Append("0x");
      hide Digits;
      ghost var was := b.m_buff[..];
      var len := ConvertHex(b.m_buff, b.m_cur, value);
      SpliceKeepsFront(was, b.m_cur, Digits(16, value), '\0');
      b.Add(len);
    }
  }
}
