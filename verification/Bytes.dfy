/** Bytes, machine words and the little-endian layout shared by the DOM command
    stream and the server-function wire format. */
module Bytes {

  type byte = b: int | 0 <= b < 0x100
  type u32 = v: int | 0 <= v < 0x1_0000_0000
  type u64 = v: int | 0 <= v < 0x1_0000_0000_0000_0000
  type i32 = v: int | -0x8000_0000 <= v < 0x8000_0000
  type i64 = v: int | -0x8000_0000_0000_0000 <= v < 0x8000_0000_0000_0000

  /** A string or byte block that fits a 32-bit address space. */
  type Str = s: seq<byte> | |s| < 0x1_0000_0000

  datatype Option<+T> = None | Some(value: T)

  // ------------------------------------------------------- two's complement

  function ToU32(v: i32): u32 { if v < 0 then v + 0x1_0000_0000 else v }
  function ToI32(v: u32): i32 { if v >= 0x8000_0000 then v - 0x1_0000_0000 else v }

  lemma WordBack(v: u32)
    ensures ToU32(ToI32(v)) == v
  {
  }

  function ToU64(v: i64): u64 { if v < 0 then v + 0x1_0000_0000_0000_0000 else v }
  function ToI64(v: u64): i64 { if v >= 0x8000_0000_0000_0000 then v - 0x1_0000_0000_0000_0000 else v }

  // ------------------------------------------------------------------- text

  function Ascii(s: string): (b: seq<byte>)
    requires forall i | 0 <= i < |s| :: s[i] < 128 as char
    ensures |b| == |s| && forall i | 0 <= i < |s| :: b[i] == s[i] as int
  {
    seq(|s|, i requires 0 <= i < |s| => s[i] as int)
  }

  // ------------------------------------------------------------ fixed width

  /** The four shifted-and-truncated bytes of a 32-bit word. */
  function U32Bytes(v: u32): (s: seq<byte>)
    ensures |s| == 4
  {
    [v % 0x100, v / 0x100 % 0x100, v / 0x1_0000 % 0x100, v / 0x100_0000 % 0x100]
  }

  /** `p[0] | p[1] << 8 | p[2] << 16 | p[3] << 24`; the bit ranges are disjoint. */
  function GetU32(p: seq<byte>): u32
    requires |p| == 4
  {
    var b0: int, b1: int, b2: int, b3: int := p[0], p[1], p[2], p[3];
    b0 + b1 * 0x100 + b2 * 0x1_0000 + b3 * 0x100_0000
  }

  lemma U32RoundTrip(v: u32)
    ensures GetU32(U32Bytes(v)) == v
  {
    var w := v / 0x100;
    var x := w / 0x100;
    assert v / 0x1_0000 == x && v / 0x100_0000 == x / 0x100;
  }

  lemma PeelByte(b: byte, rest: nat)
    ensures (b + 0x100 * rest) % 0x100 == b && (b + 0x100 * rest) / 0x100 == rest
  {
  }

  lemma ShiftTwice(v: nat)
    ensures v / 0x1_0000 == v / 0x100 / 0x100 && v / 0x100_0000 == v / 0x100 / 0x100 / 0x100
  {
  }

  lemma U32BytesBack(p: seq<byte>)
    requires |p| == 4
    ensures U32Bytes(GetU32(p)) == p
  {
    var b0: int, b1: int, b2: int, b3: int := p[0], p[1], p[2], p[3];
    PeelByte(b0, b1 + 0x100 * (b2 + 0x100 * b3));
    PeelByte(b1, b2 + 0x100 * b3);
    PeelByte(b2, b3);
    ShiftTwice(b0 + 0x100 * (b1 + 0x100 * (b2 + 0x100 * b3)));
  }

  // --------------------------------------------------------- any byte count

  function Pow256(n: nat): (r: nat)
    ensures r > 0
  {
    if n == 0 then 1 else 0x100 * Pow256(n - 1)
  }

  /** `v >> (8 * i)`. */
  function ShiftBytes(v: nat, i: nat): nat
  {
    if i == 0 then v else ShiftBytes(v / 0x100, i - 1)
  }

  function LE(v: nat, n: nat): (s: seq<byte>)
    ensures |s| == n
  {
    if n == 0 then [] else [v % 0x100] + LE(v / 0x100, n - 1)
  }

  function FromLE(s: seq<byte>): nat
  {
    if s == [] then 0 else s[0] + 0x100 * FromLE(s[1..])
  }

  /** Byte `i` of the little-endian form is the value shifted and truncated. */
  lemma {:induction false} LEIndex(v: nat, n: nat, i: nat)
    requires i < n
    ensures LE(v, n)[i] == ShiftBytes(v, i) % 0x100
  {
    if i > 0 {
      LEIndex(v / 0x100, n - 1, i - 1);
    }
  }

  lemma {:induction false} LERoundTrip(v: nat, n: nat)
    requires v < Pow256(n)
    ensures FromLE(LE(v, n)) == v
  {
    if n > 0 {
      LERoundTrip(v / 0x100, n - 1);
      assert LE(v, n)[1..] == LE(v / 0x100, n - 1);
    }
  }

  /** Or-ing one more shifted byte into an accumulator extends what it decodes. */
  lemma {:induction false} FromLEAppend(s: seq<byte>, b: byte)
    ensures FromLE(s + [b]) == FromLE(s) + b * Pow256(|s|)
  {
    if s == [] {
      assert s + [b] == [b] && [b][1..] == [];
    } else {
      assert (s + [b])[1..] == s[1..] + [b];
      FromLEAppend(s[1..], b);
      assert 0x100 * (b * Pow256(|s| - 1)) == b * Pow256(|s|);
    }
  }

  lemma {:induction false} FromLEBound(s: seq<byte>)
    ensures FromLE(s) < Pow256(|s|)
  {
    if s != [] {
      FromLEBound(s[1..]);
    }
  }

  lemma Pow256Of8()
    ensures Pow256(8) == 0x1_0000_0000_0000_0000
  {
    assert Pow256(4) == 0x1_0000_0000;
  }

  function U64Bytes(v: u64): (s: seq<byte>)
    ensures |s| == 8
  {
    LE(v, 8)
  }

  function GetU64(p: seq<byte>): u64
    requires |p| == 8
  {
    FromLEBound(p);
    Pow256Of8();
    FromLE(p)
  }

  lemma U64RoundTrip(v: u64)
    ensures GetU64(U64Bytes(v)) == v
  {
    Pow256Of8();
    LERoundTrip(v, 8);
  }

  lemma {:induction false} LEBack(s: seq<byte>)
    ensures LE(FromLE(s), |s|) == s
  {
    if s != [] {
      LEBack(s[1..]);
      var first: int := s[0];
      var rest: int := FromLE(s[1..]);
      PeelByte(first, rest);
    }
  }

  lemma U64BytesBack(p: seq<byte>)
    requires |p| == 8
    ensures U64Bytes(GetU64(p)) == p
  {
    LEBack(p);
  }

  // ----------------------------------------------------------- byte windows

  /** `piece` occupies `b` starting at `pos`. */
  predicate Holds(b: seq<byte>, pos: nat, piece: seq<byte>)
  {
    pos + |piece| <= |b| && b[pos..pos + |piece|] == piece
  }

  lemma HoldsSplit(b: seq<byte>, pos: nat, p: seq<byte>, q: seq<byte>)
    requires Holds(b, pos, p + q)
    ensures Holds(b, pos, p) && Holds(b, pos + |p|, q)
  {
    var w := b[pos..pos + |p + q|];
    assert b[pos..pos + |p|] == w[..|p|];
    assert b[pos + |p|..pos + |p| + |q|] == w[|p|..];
  }

  // -------------------------------------------------------------- C strings

  /** The C string starting at a pointer: bytes up to the first NUL. */
  function CStr(s: seq<byte>): seq<byte>
  {
    if s == [] || s[0] == 0 then [] else [s[0]] + CStr(s[1..])
  }

  predicate NulFree(s: seq<byte>) { forall i | 0 <= i < |s| :: s[i] != 0 }

  lemma {:induction false} CStrWhole(s: seq<byte>)
    requires NulFree(s)
    ensures CStr(s) == s
  {
    if s != [] {
      CStrWhole(s[1..]);
    }
  }

  /** A terminated string is read back whatever lies behind its terminator. */
  lemma {:induction false} CStrTerminated(s: seq<byte>, rest: seq<byte>)
    requires NulFree(s)
    ensures CStr(s + [0] + rest) == s
  {
    if s == [] {
      assert (s + [0] + rest)[0] == 0;
    } else {
      assert (s + [0] + rest)[1..] == s[1..] + [0] + rest;
      CStrTerminated(s[1..], rest);
    }
  }
}
