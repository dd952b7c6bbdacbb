/** The constants of SHA-256 are what sections 4.2.2 and 5.3.3 of FIPS 180-4 say they are. */
module Sha256Constants {
  import opened Bytes
  import opened Sha256

  /** The first sixty-four primes, in rows of eight. */
  const PRIMES: seq<seq<nat>> := [
    [2, 3, 5, 7, 11, 13, 17, 19],
    [23, 29, 31, 37, 41, 43, 47, 53],
    [59, 61, 67, 71, 73, 79, 83, 89],
    [97, 101, 103, 107, 109, 113, 127, 131],
    [137, 139, 149, 151, 157, 163, 167, 173],
    [179, 181, 191, 193, 197, 199, 211, 223],
    [227, 229, 233, 239, 241, 251, 257, 263],
    [269, 271, 277, 281, 283, 293, 307, 311]]

  function PrimeAt(t: nat): nat
    requires t < 64
  {
    assert |PRIMES| == 8 && forall r | 0 <= r < 8 :: |PRIMES[r]| == 8;
    PRIMES[t / 8][t % 8]
  }

  function Cube(x: int): int { x * x * x }

  /** The integer part of the cube root. */
  function Whole(p: nat): nat
  {
    if p < 8 then 1 else if p < 27 then 2 else if p < 64 then 3 else if p < 125 then 4 else if p < 216 then 5 else 6
  }

  /** `k` is the first 32 bits of the fractional part of the cube root of `p`. */
  predicate CubeRootBits(k: int, p: nat)
  {
    var r := Whole(p) * 0x1_0000_0000 + k;
    0 <= k < 0x1_0000_0000 && Cube(r) <= p * 0x1_0000_0000_0000_0000_0000_0000 < Cube(r + 1)
  }

  lemma Roots0()
    ensures CubeRootBits(0x428a2f98, 2) && CubeRootBits(0x71374491, 3) && CubeRootBits(0xb5c0fbcf, 5) && CubeRootBits(0xe9b5dba5, 7)
    ensures CubeRootBits(0x3956c25b, 11) && CubeRootBits(0x59f111f1, 13) && CubeRootBits(0x923f82a4, 17) && CubeRootBits(0xab1c5ed5, 19)
    ensures CubeRootBits(0xd807aa98, 23) && CubeRootBits(0x12835b01, 29) && CubeRootBits(0x243185be, 31) && CubeRootBits(0x550c7dc3, 37)
    ensures CubeRootBits(0x72be5d74, 41) && CubeRootBits(0x80deb1fe, 43) && CubeRootBits(0x9bdc06a7, 47) && CubeRootBits(0xc19bf174, 53)
  {
  }

  lemma Roots1()
    ensures CubeRootBits(0xe49b69c1, 59) && CubeRootBits(0xefbe4786, 61) && CubeRootBits(0x0fc19dc6, 67) && CubeRootBits(0x240ca1cc, 71)
    ensures CubeRootBits(0x2de92c6f, 73) && CubeRootBits(0x4a7484aa, 79) && CubeRootBits(0x5cb0a9dc, 83) && CubeRootBits(0x76f988da, 89)
    ensures CubeRootBits(0x983e5152, 97) && CubeRootBits(0xa831c66d, 101) && CubeRootBits(0xb00327c8, 103) && CubeRootBits(0xbf597fc7, 107)
    ensures CubeRootBits(0xc6e00bf3, 109) && CubeRootBits(0xd5a79147, 113) && CubeRootBits(0x06ca6351, 127) && CubeRootBits(0x14292967, 131)
  {
  }

  lemma Roots2()
    ensures CubeRootBits(0x27b70a85, 137) && CubeRootBits(0x2e1b2138, 139) && CubeRootBits(0x4d2c6dfc, 149) && CubeRootBits(0x53380d13, 151)
    ensures CubeRootBits(0x650a7354, 157) && CubeRootBits(0x766a0abb, 163) && CubeRootBits(0x81c2c92e, 167) && CubeRootBits(0x92722c85, 173)
    ensures CubeRootBits(0xa2bfe8a1, 179) && CubeRootBits(0xa81a664b, 181) && CubeRootBits(0xc24b8b70, 191) && CubeRootBits(0xc76c51a3, 193)
    ensures CubeRootBits(0xd192e819, 197) && CubeRootBits(0xd6990624, 199) && CubeRootBits(0xf40e3585, 211) && CubeRootBits(0x106aa070, 223)
  {
  }

  lemma Roots3()
    ensures CubeRootBits(0x19a4c116, 227) && CubeRootBits(0x1e376c08, 229) && CubeRootBits(0x2748774c, 233) && CubeRootBits(0x34b0bcb5, 239)
    ensures CubeRootBits(0x391c0cb3, 241) && CubeRootBits(0x4ed8aa4a, 251) && CubeRootBits(0x5b9cca4f, 257) && CubeRootBits(0x682e6ff3, 263)
    ensures CubeRootBits(0x748f82ee, 269) && CubeRootBits(0x78a5636f, 271) && CubeRootBits(0x84c87814, 277) && CubeRootBits(0x8cc70208, 281)
    ensures CubeRootBits(0x90befffa, 283) && CubeRootBits(0xa4506ceb, 293) && CubeRootBits(0xbef9a3f7, 307) && CubeRootBits(0xc67178f2, 311)
  {
  }

  predicate IsRoot(t: nat)
    requires t < 64
  {
    CubeRootBits(KAt(t), PrimeAt(t))
  }

  lemma Table0()
    ensures forall t | 0 <= t < 16 :: IsRoot(t)
  {
    hide CubeRootBits;
    Roots0();
    assert IsRoot(0) && IsRoot(1) && IsRoot(2) && IsRoot(3) && IsRoot(4) && IsRoot(5) && IsRoot(6) && IsRoot(7);
    assert IsRoot(8) && IsRoot(9) && IsRoot(10) && IsRoot(11) && IsRoot(12) && IsRoot(13) && IsRoot(14) && IsRoot(15);
    hide IsRoot;
  }

  lemma Table1()
    ensures forall t | 16 <= t < 32 :: IsRoot(t)
  {
    hide CubeRootBits;
    Roots1();
    assert IsRoot(16) && IsRoot(17) && IsRoot(18) && IsRoot(19) && IsRoot(20) && IsRoot(21) && IsRoot(22) && IsRoot(23);
    assert IsRoot(24) && IsRoot(25) && IsRoot(26) && IsRoot(27) && IsRoot(28) && IsRoot(29) && IsRoot(30) && IsRoot(31);
    hide IsRoot;
  }

  lemma Table2()
    ensures forall t | 32 <= t < 48 :: IsRoot(t)
  {
    hide CubeRootBits;
    Roots2();
    assert IsRoot(32) && IsRoot(33) && IsRoot(34) && IsRoot(35) && IsRoot(36) && IsRoot(37) && IsRoot(38) && IsRoot(39);
    assert IsRoot(40) && IsRoot(41) && IsRoot(42) && IsRoot(43) && IsRoot(44) && IsRoot(45) && IsRoot(46) && IsRoot(47);
    hide IsRoot;
  }

  lemma Table3()
    ensures forall t | 48 <= t < 64 :: IsRoot(t)
  {
    hide CubeRootBits;
    Roots3();
    assert IsRoot(48) && IsRoot(49) && IsRoot(50) && IsRoot(51) && IsRoot(52) && IsRoot(53) && IsRoot(54) && IsRoot(55);
    assert IsRoot(56) && IsRoot(57) && IsRoot(58) && IsRoot(59) && IsRoot(60) && IsRoot(61) && IsRoot(62) && IsRoot(63);
    hide IsRoot;
  }

  /** The sixty-four round constants are the first 32 bits of the fractional parts of the
      cube roots of the first sixty-four primes. */
  lemma KIsRoots(t: nat)
    requires t < 64
    ensures CubeRootBits(KAt(t), PrimeAt(t))
  {
    hide CubeRootBits, KAt, PrimeAt;
    Table0();
    Table1();
    Table2();
    Table3();
    assert IsRoot(t);
  }

  /** `k` is the first 32 bits of the fractional part of the square root of `p`. */
  predicate SquareRootBits(k: int, p: nat)
  {
    var whole := if p < 4 then 1 else if p < 9 then 2 else if p < 16 then 3 else 4;
    var r := whole * 0x1_0000_0000 + k;
    0 <= k < 0x1_0000_0000 && r * r <= p * 0x1_0000_0000_0000_0000 < (r + 1) * (r + 1)
  }

  /** The initial hash value comes from the square roots of the first eight. */
  lemma IVIsRoots()
    ensures SquareRootBits(IV.a, 2) && SquareRootBits(IV.b, 3) && SquareRootBits(IV.c, 5) && SquareRootBits(IV.d, 7)
    ensures SquareRootBits(IV.e, 11) && SquareRootBits(IV.f, 13) && SquareRootBits(IV.g, 17) && SquareRootBits(IV.h, 19)
  {
    assert SquareRootBits(0x6a09e667, 2) && SquareRootBits(0xbb67ae85, 3) && SquareRootBits(0x3c6ef372, 5);
    assert SquareRootBits(0xa54ff53a, 7) && SquareRootBits(0x510e527f, 11) && SquareRootBits(0x9b05688c, 13);
    assert SquareRootBits(0x1f83d9ab, 17) && SquareRootBits(0x5be0cd19, 19);
    hide SquareRootBits;
  }

  // ---------------------------------------------------------------- byte order

  /** The length goes into the padding with its most significant byte first. */
  lemma LengthBytesBack(bits: nat)
    requires bits < TWO64
    ensures Reverse(LengthBytes(bits)) == U64Bytes(bits) && GetU64(Reverse(LengthBytes(bits))) == bits
  {
    forall i | 0 <= i < 8
      ensures Reverse(LengthBytes(bits))[i] == U64Bytes(bits)[i]
    {
      LEIndex(bits, 8, i);
    }
    hide LE;
    assert Reverse(LengthBytes(bits)) == U64Bytes(bits);
    U64RoundTrip(bits);
  }

  function Reverse(s: seq<Byte>): (r: seq<Byte>)
    ensures |r| == |s| && forall i | 0 <= i < |s| :: r[i] == s[|s| - 1 - i]
  {
    seq(|s|, i requires 0 <= i < |s| => s[|s| - 1 - i])
  }

  /** Words are read and written in big-endian order. */
  lemma WordBytesBack(w: Word, p: seq<Byte>)
    requires |p| == 4
    ensures BigEndian(p) == GetU32(Reverse(p)) && WordBytes(w) == Reverse(U32Bytes(w))
    ensures BigEndian(WordBytes(w)) == w
  {
    var r := Reverse(p);
    assert r[0] == p[3] && r[1] == p[2] && r[2] == p[1] && r[3] == p[0];
    ShiftTwice(w);
    U32RoundTrip(w);
    assert WordBytes(w) == Reverse(U32Bytes(w));
    var q := WordBytes(w);
    assert Reverse(q) == U32Bytes(w);
    assert BigEndian(q) == GetU32(Reverse(q));
  }
}
