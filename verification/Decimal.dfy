/** `cerco_i32_to_str`: the decimal text a bound node shows. */
module Decimal {
  import opened Bytes

  const ZERO: byte := 48
  const MINUS: byte := 45

  /** Decimal digits of a non-negative number, most significant first. */
  function Digits(u: nat): (s: seq<byte>)
    ensures |s| > 0
  {
    if u < 10 then [ZERO + u] else Digits(u / 10) + [ZERO + u % 10]
  }

  /** The magnitude, computed in 64 bits so that the most negative value has one. */
  function Magnitude(v: i32): u32 { if v < 0 then -(v as int) else v }

  function Text(v: i32): Str
  {
    DigitsShort(Magnitude(v), 10);
    if v < 0 then [MINUS] + Digits(Magnitude(v)) else Digits(Magnitude(v))
  }

  // ---------------------------------------------------------- reading it back

  function DigitsValue(s: seq<byte>): int
  {
    if s == [] then 0 else 10 * DigitsValue(s[..|s| - 1]) + (s[|s| - 1] as int - ZERO)
  }

  function Value(s: seq<byte>): int
  {
    if s != [] && s[0] == MINUS then -DigitsValue(s[1..]) else DigitsValue(s)
  }

  function Pow10(n: nat): nat { if n == 0 then 1 else 10 * Pow10(n - 1) }

  lemma {:induction false} DigitsShort(u: nat, k: nat)
    requires k > 0 && u < Pow10(k)
    ensures |Digits(u)| <= k
  {
    if u >= 10 {
      DigitsShort(u / 10, k - 1);
    }
  }

  lemma {:induction false} DigitsReadBack(u: nat)
    ensures DigitsValue(Digits(u)) == u
    ensures forall i | 0 <= i < |Digits(u)| :: ZERO <= Digits(u)[i] <= ZERO + 9
    ensures u > 0 ==> Digits(u)[0] != ZERO
  {
    if u >= 10 {
      DigitsReadBack(u / 10);
      assert Digits(u)[..|Digits(u)| - 1] == Digits(u / 10);
    } else {
      assert Digits(u)[..0] == [];
    }
  }

  /** The text is the decimal of the value, for every 32-bit value, and with its
      terminator fits the 16-byte buffer of the bindings. */
  lemma TextReadBack(v: i32)
    ensures Value(Text(v)) == v
    ensures |Text(v)| <= 11
  {
    var u := Magnitude(v);
    DigitsReadBack(u);
    DigitsShort(u, 10);
    if v < 0 {
      assert Text(v)[1..] == Digits(u);
    }
  }

  function Reverse(s: seq<byte>): seq<byte>
  {
    if s == [] then [] else [s[|s| - 1]] + Reverse(s[..|s| - 1])
  }

  lemma ReverseSnoc(s: seq<byte>, b: byte)
    ensures Reverse(s + [b]) == [b] + Reverse(s)
  {
    assert (s + [b])[..|s|] == s;
  }

  /** The first loop: digits come out least significant first. */
  method BackwardDigits(u0: u32) returns (tmp: seq<byte>)
    ensures Reverse(tmp) == Digits(u0)
  {
    var u: nat := u0;
    tmp := [];
    if u == 0 {
      tmp := [ZERO];
    }
    while u != 0
      invariant if u == 0 then Reverse(tmp) == Digits(u0) else Digits(u0) == Digits(u) + Reverse(tmp)
    {
      ReverseSnoc(tmp, ZERO + u % 10);
      tmp := tmp + [ZERO + u % 10];
      u := u / 10;
    }
  }

  /** The second loop: the digits are copied in reverse behind the sign. */
  method CopyReversed(sign: seq<byte>, tmp: seq<byte>) returns (out: seq<byte>)
    ensures out == sign + Reverse(tmp)
  {
    var i := |tmp|;
    out := sign;
    assert tmp[..i] == tmp;
    while i != 0
      invariant 0 <= i <= |tmp|
      invariant sign + Reverse(tmp) == out + Reverse(tmp[..i])
    {
      i := i - 1;
      assert tmp[..i + 1] == tmp[..i] + [tmp[i]];
      ReverseSnoc(tmp[..i], tmp[i]);
      out := out + [tmp[i]];
    }
  }

  method I32ToStr(v: i32) returns (buf: Str)
    ensures buf == Text(v)
  {
    var tmp := BackwardDigits(Magnitude(v));
    var out := CopyReversed(if v < 0 then [MINUS] else [], tmp);
    assert out == Text(v);
    buf := out;
  }
}
