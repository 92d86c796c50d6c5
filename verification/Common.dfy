// Shared vocabulary: optional values and the division of C and C++.
module Common {

  datatype Option<+T> = None | Some(value: T)

  // C and C++ division truncates towards zero.
  function CDiv(a: int, b: int): int
    requires b > 0
  {
    if a >= 0 then a / b else -((-a) / b)
  }

  // The C and C++ remainder takes the sign of the dividend.
  function CMod(a: int, b: int): int
    requires b > 0
  {
    a - b * CDiv(a, b)
  }

  lemma TruncatedDivision(a: int, b: int)
    requires b > 0
    ensures a == b * CDiv(a, b) + CMod(a, b) && -b < CMod(a, b) < b
    ensures (a >= 0 ==> CMod(a, b) >= 0) && (a <= 0 ==> CMod(a, b) <= 0)
  {
  }

  const INT_MAX := 0x7FFF_FFFF
  const INT_MIN := -0x8000_0000

  predicate FitsInt(x: int) {
    INT_MIN <= x <= INT_MAX
  }

  function Min(a: int, b: int): (m: int)
    ensures a >= 0 && b >= 0 ==> m >= 0
  {
    if a <= b then a else b
  }

  function Max(a: int, b: int): int {
    if a >= b then a else b
  }

  // The sequence from its last element to its first, as std::reverse leaves it.
  function Reversed<T>(s: seq<T>): (r: seq<T>)
    ensures |r| == |s| && forall i :: 0 <= i < |s| ==> r[i] == s[|s| - 1 - i]
  {
    if s == [] then [] else Reversed(s[1..]) + [s[0]]
  }
}
