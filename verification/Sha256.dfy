/** Streaming SHA-256 against the whole-message definition of FIPS 180-4. */
module Sha256 {

  import opened Bytes

  type Word = u32
  type Byte = byte

  // --------------------------------------- the standard: functions and constants

  // Bit operations on 32-bit words.

  function Rotr(x: Word, n: nat): Word
    requires 0 < n < 32
  {
    var v := x as bv32;
    ((v >> n) | (v << (32 - n))) as int
  }

  function Shr(x: Word, n: nat): Word
    requires n < 32
  {
    ((x as bv32) >> n) as int
  }

  function Xor(x: Word, y: Word): Word { ((x as bv32) ^ (y as bv32)) as int }
  function And(x: Word, y: Word): Word { ((x as bv32) & (y as bv32)) as int }
  function Not(x: Word): Word { (!(x as bv32)) as int }

  /** Addition modulo 2^32. */
  function Plus(x: Word, y: Word): Word { (x + y) % 0x1_0000_0000 }

  function Sum4(w: Word, x: Word, y: Word, z: Word): Word { Plus(Plus(Plus(w, x), y), z) }
  function Sum5(v: Word, w: Word, x: Word, y: Word, z: Word): Word { Plus(Plus(Plus(Plus(v, w), x), y), z) }

  function Ch(x: Word, y: Word, z: Word): Word { Xor(And(x, y), And(Not(x), z)) }
  function Maj(x: Word, y: Word, z: Word): Word { Xor(Xor(And(x, y), And(x, z)), And(y, z)) }
  function BigSigma0(x: Word): Word { Xor(Xor(Rotr(x, 2), Rotr(x, 13)), Rotr(x, 22)) }
  function BigSigma1(x: Word): Word { Xor(Xor(Rotr(x, 6), Rotr(x, 11)), Rotr(x, 25)) }
  function SmallSigma0(x: Word): Word { Xor(Xor(Rotr(x, 7), Rotr(x, 18)), Shr(x, 3)) }
  function SmallSigma1(x: Word): Word { Xor(Xor(Rotr(x, 17), Rotr(x, 19)), Shr(x, 10)) }

  /** In rows of eight. */
  const K: seq<seq<Word>> := [
    [0x428a2f98, 0x71374491, 0xb5c0fbcf, 0xe9b5dba5, 0x3956c25b, 0x59f111f1, 0x923f82a4, 0xab1c5ed5],
    [0xd807aa98, 0x12835b01, 0x243185be, 0x550c7dc3, 0x72be5d74, 0x80deb1fe, 0x9bdc06a7, 0xc19bf174],
    [0xe49b69c1, 0xefbe4786, 0x0fc19dc6, 0x240ca1cc, 0x2de92c6f, 0x4a7484aa, 0x5cb0a9dc, 0x76f988da],
    [0x983e5152, 0xa831c66d, 0xb00327c8, 0xbf597fc7, 0xc6e00bf3, 0xd5a79147, 0x06ca6351, 0x14292967],
    [0x27b70a85, 0x2e1b2138, 0x4d2c6dfc, 0x53380d13, 0x650a7354, 0x766a0abb, 0x81c2c92e, 0x92722c85],
    [0xa2bfe8a1, 0xa81a664b, 0xc24b8b70, 0xc76c51a3, 0xd192e819, 0xd6990624, 0xf40e3585, 0x106aa070],
    [0x19a4c116, 0x1e376c08, 0x2748774c, 0x34b0bcb5, 0x391c0cb3, 0x4ed8aa4a, 0x5b9cca4f, 0x682e6ff3],
    [0x748f82ee, 0x78a5636f, 0x84c87814, 0x8cc70208, 0x90befffa, 0xa4506ceb, 0xbef9a3f7, 0xc67178f2]]

  /** The eight working variables, or a hash value. */
  datatype Vars = Vars(a: Word, b: Word, c: Word, d: Word, e: Word, f: Word, g: Word, h: Word)

  const IV := Vars(0x6a09e667, 0xbb67ae85, 0x3c6ef372, 0xa54ff53a, 0x510e527f, 0x9b05688c, 0x1f83d9ab, 0x5be0cd19)

  type Block = b: seq<Byte> | |b| == 64 witness seq(64, _ => 0)

  /** `p[0] << 24 | p[1] << 16 | p[2] << 8 | p[3]`; the bit ranges are disjoint. */
  function BigEndian(p: seq<Byte>): Word
    requires |p| == 4
  {
    var b0: int, b1: int, b2: int, b3: int := p[0], p[1], p[2], p[3];
    b0 * 0x100_0000 + b1 * 0x1_0000 + b2 * 0x100 + b3
  }

  /** Step 1 of section 6.2.2: the message schedule. */
  function Schedule(b: Block, t: nat): Word
    requires t < 64
  {
    if t < 16 then BigEndian(b[4 * t..4 * t + 4])
    else Sum4(SmallSigma1(Schedule(b, t - 2)), Schedule(b, t - 7), SmallSigma0(Schedule(b, t - 15)), Schedule(b, t - 16))
  }

  function KAt(t: nat): Word
    requires t < 64
  {
    assert |K| == 8 && forall r | 0 <= r < 8 :: |K[r]| == 8;
    K[t / 8][t % 8]
  }

  /** One iteration of step 3. */
  function Round(v: Vars, k: Word, w: Word): Vars
  {
    var t1 := Sum5(v.h, BigSigma1(v.e), Ch(v.e, v.f, v.g), k, w);
    var t2 := Plus(BigSigma0(v.a), Maj(v.a, v.b, v.c));
    Vars(Plus(t1, t2), v.a, v.b, v.c, Plus(v.d, t1), v.e, v.f, v.g)
  }

  function Rounds(v: Vars, b: Block, t: nat): Vars
    requires t <= 64
  {
    if t == 0 then v else Round(Rounds(v, b, t - 1), KAt(t - 1), Schedule(b, t - 1))
  }

  /** Step 4: the intermediate hash value. */
  function Add(x: Vars, y: Vars): Vars
  {
    Vars(Plus(x.a, y.a), Plus(x.b, y.b), Plus(x.c, y.c), Plus(x.d, y.d),
         Plus(x.e, y.e), Plus(x.f, y.f), Plus(x.g, y.g), Plus(x.h, y.h))
  }

  function Compress(v: Vars, b: Block): Vars { Add(Rounds(v, b, 64), v) }

  // ------------------------------------------------ the standard: whole messages

  /** All whole blocks of `m`, in order. */
  function Fold(v: Vars, m: seq<Byte>): Vars
    decreases |m|
  {
    if |m| < 64 then v else Fold(Compress(v, m[..64]), m[64..])
  }

  /** The eight big-endian bytes of a 64-bit length. */
  function LengthBytes(bits: nat): (s: seq<Byte>)
    requires bits < 0x1_0000_0000_0000_0000
    ensures |s| == 8
  {
    seq(8, i requires 0 <= i < 8 => ShiftBytes(bits, 7 - i) % 0x100)
  }

  /** The number of zero bytes `k` of section 5.1.1: the smallest that makes the padded
      length a multiple of 64. */
  function ZeroBytes(len: nat): (k: nat)
    ensures (len + 1 + k + 8) % 64 == 0 && k < 64
  {
    (119 - len % 64) % 64
  }

  function Pad(m: seq<Byte>): seq<Byte>
    requires 8 * |m| < 0x1_0000_0000_0000_0000
  {
    m + [0x80] + Zeros(ZeroBytes(|m|)) + LengthBytes(8 * |m|)
  }

  /** All parts of a cut message, in order. */
  function Joined(parts: seq<seq<Byte>>): seq<Byte>
  {
    if parts == [] then [] else Joined(parts[..|parts| - 1]) + parts[|parts| - 1]
  }

  function WordBytes(w: Word): seq<Byte>
  {
    [w / 0x100_0000, w / 0x1_0000 % 0x100, w / 0x100 % 0x100, w % 0x100]
  }

  function Output(v: Vars): seq<Byte>
  {
    WordBytes(v.a) + WordBytes(v.b) + WordBytes(v.c) + WordBytes(v.d)
    + WordBytes(v.e) + WordBytes(v.f) + WordBytes(v.g) + WordBytes(v.h)
  }

  function Digest(m: seq<Byte>): seq<Byte>
    requires 8 * |m| < 0x1_0000_0000_0000_0000
  {
    Output(Fold(IV, Pad(m)))
  }

  // ------------------------------------------------------------ folding in parts

  lemma {:induction false} FoldSplit(v: Vars, m: seq<Byte>, n: seq<Byte>)
    requires |m| % 64 == 0
    ensures Fold(v, m + n) == Fold(Fold(v, m), n)
    decreases |m|
  {
    hide Compress;
    if |m| == 0 {
      assert m + n == n;
    } else {
      assert (m + n)[..64] == m[..64] && (m + n)[64..] == m[64..] + n;
      FoldSplit(Compress(v, m[..64]), m[64..], n);
    }
  }

  lemma FoldOne(v: Vars, b: Block)
    ensures Fold(v, b) == Compress(v, b)
  {
    hide Compress;
    assert b[..64] == b && b[64..] == [];
  }

  lemma FoldShort(v: Vars, m: seq<Byte>, n: seq<Byte>)
    requires |m| % 64 == 0 && |n| < 64
    ensures Fold(v, m + n) == Fold(v, m)
  {
    hide Compress;
    FoldSplit(v, m, n);
  }

  /** The code sums the four schedule terms in another order. */
  lemma ScheduleStep(b: Block, t: nat)
    requires 16 <= t < 64
    ensures Schedule(b, t) ==
            Sum4(Schedule(b, t - 16), SmallSigma0(Schedule(b, t - 15)), Schedule(b, t - 7), SmallSigma1(Schedule(b, t - 2)))
  {
    hide SmallSigma0, SmallSigma1, BigEndian, Sum4;
    SumOrder(Schedule(b, t - 16), SmallSigma0(Schedule(b, t - 15)), Schedule(b, t - 7), SmallSigma1(Schedule(b, t - 2)));
  }

  lemma SumOrder(w: Word, x: Word, y: Word, z: Word)
    ensures Sum4(w, x, y, z) == Sum4(z, y, x, w)
  {
    hide Plus;
    PlusCommutes(Plus(Plus(w, x), y), z);
    PlusCommutes(Plus(w, x), y);
    PlusCommutes(w, x);
    PlusAssociates(z, y, Plus(x, w));
    PlusAssociates(Plus(z, y), x, w);
  }

  lemma PlusCommutes(x: Word, y: Word)
    ensures Plus(x, y) == Plus(y, x)
  {
  }

  lemma PlusIs(x: Word, y: Word)
    ensures Plus(x, y) == if x + y < 0x1_0000_0000 then x + y else x + y - 0x1_0000_0000
  {
  }

  lemma PlusAssociates(x: Word, y: Word, z: Word)
    ensures Plus(Plus(x, y), z) == Plus(x, Plus(y, z))
  {
    hide Plus;
    PlusIs(x, y);
    PlusIs(Plus(x, y), z);
    PlusIs(y, z);
    PlusIs(x, Plus(y, z));
  }

  lemma AddCommutes(x: Vars, y: Vars)
    ensures Add(x, y) == Add(y, x)
  {
  }

  const TWO64 := 0x1_0000_0000_0000_0000

  /** `cerco_sha256_ctx`. */
  class Context {
    var state: Vars
    var bits: nat
    const block: array<Byte>
    var used: nat

    /** The context stands for the message bytes fed so far. */
    ghost predicate Represents(m: seq<Byte>)
      reads this, block
    {
      Buffered(m) && bits == 8 * |m| % TWO64
    }

    /** Everything but the bit count. */
    ghost predicate Buffered(m: seq<Byte>)
      reads this, block
    {
      && block.Length == 64 && used == |m| % 64
      && block[..used] == m[|m| - used..]
      && state == Fold(IV, m)
    }

    constructor ()
      ensures Represents([]) && fresh(block)
    {
      hide Compress;
      state, bits, used := IV, 0, 0;
      block := new Byte[64](_ => 0);
    }

    /** `sha_block`: the schedule and the rounds, computed in place. */
    method ShaBlock(p: Block)
      modifies `state
      ensures state == Compress(old(state), p)
    {
      hide Add, Rounds, Schedule;
      var w := new Word[64](_ => 0);
      LoadWords(w, p);
      ExtendWords(w, p);
      var v := WorkRounds(w, p);
      AddCommutes(state, v);
      state := Add(state, v);
    }

    method LoadWords(w: array<Word>, p: Block)
      requires w.Length == 64
      modifies w
      ensures forall t | 0 <= t < 16 :: w[t] == Schedule(p, t)
    {
      hide BigEndian, SmallSigma0, SmallSigma1;
      for i := 0 to 16
        invariant forall t | 0 <= t < i :: w[t] == Schedule(p, t)
      {
        w[i] := BigEndian(p[4 * i..4 * i + 4]);
      }
    }

    method ExtendWords(w: array<Word>, ghost p: Block)
      requires w.Length == 64 && forall t | 0 <= t < 16 :: w[t] == Schedule(p, t)
      modifies w
      ensures forall t | 0 <= t < 64 :: w[t] == Schedule(p, t)
    {
      hide BigEndian, SmallSigma0, SmallSigma1, Schedule, Sum4;
      for i := 16 to 64
        invariant forall t | 0 <= t < i :: w[t] == Schedule(p, t)
      {
        ScheduleStep(p, i);
        var s0 := SmallSigma0(w[i - 15]);
        var s1 := SmallSigma1(w[i - 2]);
        w[i] := Sum4(w[i - 16], s0, w[i - 7], s1);
      }
    }

    method WorkRounds(w: array<Word>, ghost p: Block) returns (v: Vars)
      requires w.Length == 64 && forall t | 0 <= t < 64 :: w[t] == Schedule(p, t)
      ensures v == Rounds(state, p, 64)
    {
      hide Schedule, BigSigma0, BigSigma1, Ch, Maj, KAt, Plus, Sum5;
      var a, b, c, d, e, f, g, h := state.a, state.b, state.c, state.d, state.e, state.f, state.g, state.h;
      for i := 0 to 64
        invariant Vars(a, b, c, d, e, f, g, h) == Rounds(state, p, i)
      {
        var t1 := Sum5(h, BigSigma1(e), Ch(e, f, g), KAt(i), w[i]);
        var t2 := Plus(BigSigma0(a), Maj(a, b, c));
        h := g;
        g := f;
        f := e;
        e := Plus(d, t1);
        d := c;
        c := b;
        b := a;
        a := Plus(t1, t2);
      }
      v := Vars(a, b, c, d, e, f, g, h);
    }

    /** Copies `p` into the block buffer at `at`. */
    method Fill(at: nat, p: seq<Byte>)
      requires block.Length == 64 && at + |p| <= 64
      modifies block
      ensures block[..at] == old(block[..at]) && block[at..at + |p|] == p
    {
      for i := 0 to |p|
        invariant block[..at] == old(block[..at]) && block[at..at + i] == p[..i]
      {
        block[at + i] := p[i];
      }
    }

    method Update(data: seq<Byte>, ghost m: seq<Byte>)
      requires Represents(m)
      modifies this, block
      ensures Represents(m + data)
    {
      hide Compress, Fold;
      var taken := TopUp(data, m);
      assert m + data == m + data[..taken] + data[taken..];
      Absorb(data[taken..], m + data[..taken]);
      bits := (bits + 8 * |data|) % TWO64;
      BitsAdd(|m|, |data|);
    }

    /** Completes a partly filled block with the first bytes of the data. */
    method TopUp(data: seq<Byte>, ghost m: seq<Byte>) returns (take: nat)
      requires Buffered(m)
      modifies `state, `used, block
      ensures take <= |data| && Buffered(m + data[..take]) && (take < |data| ==> used == 0)
    {
      hide Compress, Fold;
      if used == 0 {
        assert m + data[..0] == m;
        return 0;
      }
      take := if 64 - used > |data| then |data| else 64 - used;
      ghost var rest := m[..|m| - used];
      assert rest + block[..used] == m;
      Fill(used, data[..take]);
      used := used + take;
      assert block[..used] == old(block[..used]) + data[..take];
      assert rest + block[..used] == m + data[..take];
      CloseIfFull(rest, m, m + data[..take]);
    }

    /** Hashes the buffered block once it is full. */
    method CloseIfFull(ghost rest: seq<Byte>, ghost m: seq<Byte>, ghost n: seq<Byte>)
      requires block.Length == 64 && used <= 64 && state == Fold(IV, m)
      requires |rest| % 64 == 0 && |m| - |rest| < 64 && rest <= m && rest + block[..used] == n
      modifies `state, `used
      ensures Buffered(n) && used == old(used) % 64
    {
      hide Compress, Fold;
      if used == 64 {
        assert block[..64] == block[..];
        ShaBlock(block[..]);
        FoldPartial(rest, block[..], m);
        used := 0;
      } else {
        FoldPartialShort(rest, block[..used], m);
        assert n[|rest|..] == block[..used];
      }
    }

    /** Whole blocks straight from the data, then the remainder into the buffer. */
    method Absorb(data: seq<Byte>, ghost m: seq<Byte>)
      requires Buffered(m) && (data != [] ==> used == 0)
      modifies `state, `used, block
      ensures Buffered(m + data)
    {
      hide Compress, Fold;
      if data == [] {
        assert m + data == m;
        return;
      }
      var p := AbsorbBlocks(data, m);
      ghost var fed := m + data[..|data| - |p|];
      assert fed + p == m + data;
      FoldShort(IV, fed, p);
      Fill(0, p);
      used := |p|;
    }

    method AbsorbBlocks(data: seq<Byte>, ghost m: seq<Byte>) returns (p: seq<Byte>)
      requires Buffered(m) && used == 0
      modifies `state
      ensures |p| < 64 && |p| <= |data| && p == data[|data| - |p|..]
      ensures Buffered(m + data[..|data| - |p|])
    {
      hide Compress, Fold;
      var off := 0;
      assert m + data[..0] == m;
      while |data| - off >= 64
        invariant off <= |data| && (|m| + off) % 64 == 0
        invariant state == Fold(IV, m + data[..off])
      {
        ghost var next := data[off..off + 64];
        ShaBlock(data[off..off + 64]);
        FoldSplit(IV, m + data[..off], next);
        FoldOne(Fold(IV, m + data[..off]), next);
        assert m + data[..off] + next == m + data[..off + 64];
        off := off + 64;
      }
      p := data[off..];
    }

    /** A single one bit, then zero bytes one at a time until 56 bytes of a block are
        filled. */
    method PadTo56(ghost m: seq<Byte>)
      requires Represents(m)
      modifies this, block
      ensures Buffered(m + [0x80] + Zeros(ZeroBytes(|m|))) && used == 56
    {
      hide Fold, ZeroBytes, Opened;
      OpenedFirst(m);
      Update([0x80], m);
      ghost var k := 0;
      ZerosLeft(|m|, 0);
      while used != 56
        invariant k <= ZeroBytes(|m|) && Represents(Opened(m, k))
        invariant used == 56 <==> k == ZeroBytes(|m|)
        decreases ZeroBytes(|m|) - k
      {
        OpenedNext(m, k);
        Update([0], Opened(m, k));
        k := k + 1;
        ZerosLeft(|m|, k);
      }
      OpenedIs(m, k);
    }

    /** `cerco_sha256_final`: the padding, then the bit length saved before it. */
    method Final(ghost m: seq<Byte>) returns (out: seq<Byte>)
      requires Represents(m) && 8 * |m| < TWO64
      modifies this, block
      ensures out == Digest(m)
    {
      hide Fold, Compress, Output, ZeroBytes, LengthBytes, Zeros, Pad;
      PadParts(m);
      var saved := bits;
      PadTo56(m);
      ghost var fed := m + [0x80] + Zeros(ZeroBytes(|m|));
      var tail := LengthBytes(saved);
      Fill(56, tail);
      FinishBlock(fed, tail);
      out := Output(state);
    }

    method FinishBlock(ghost fed: seq<Byte>, ghost tail: seq<Byte>)
      requires block.Length == 64 && |fed| % 64 == 56 && |tail| == 8
      requires block[..56] == fed[|fed| - 56..] && block[56..] == tail && state == Fold(IV, fed)
      modifies `state, `used
      ensures state == Fold(IV, fed + tail) && used == 0
    {
      hide Fold, Compress;
      ghost var rest := fed[..|fed| - 56];
      assert block[..] == block[..56] + block[56..];
      ShaBlock(block[..]);
      FoldPartial(rest, block[..], fed);
      assert rest + block[..] == fed + tail;
      used := 0;
    }
  }

  /** The message with its closing bit and `k` zero bytes. */
  function Opened(m: seq<Byte>, k: nat): (o: seq<Byte>)
    ensures |o| == |m| + 1 + k
  {
    m + [0x80] + Zeros(k)
  }

  lemma OpenedFirst(m: seq<Byte>)
    ensures Opened(m, 0) == m + [0x80]
  {
  }

  lemma OpenedNext(m: seq<Byte>, k: nat)
    ensures Opened(m, k) + [0] == Opened(m, k + 1)
  {
  }

  lemma OpenedIs(m: seq<Byte>, k: nat)
    ensures Opened(m, k) == m + [0x80] + Zeros(k)
  {
  }

  lemma PadParts(m: seq<Byte>)
    requires 8 * |m| < TWO64
    ensures var fed := m + [0x80] + Zeros(ZeroBytes(|m|));
            |fed| % 64 == 56 && Pad(m) == fed + LengthBytes(8 * |m|)
  {
    hide LengthBytes, Zeros, ZeroBytes;
  }

  function Zeros(k: nat): (z: seq<Byte>)
    ensures |z| == k
    ensures forall i | 0 <= i < k :: z[i] == 0
  {
    seq(k, _ => 0)
  }

  /** 56 bytes of a block are filled exactly when the zero bytes are complete. */
  lemma ZerosLeft(len: nat, k: nat)
    requires k <= ZeroBytes(len)
    ensures (len + 1 + k) % 64 == 56 <==> k == ZeroBytes(len)
  {
  }

  lemma BitsAdd(a: nat, b: nat)
    ensures (8 * a % TWO64 + 8 * b) % TWO64 == 8 * (a + b) % TWO64
  {
  }

  /** A buffered remainder `tail` of `m`, completed to a block, folds in. */
  lemma FoldPartial(rest: seq<Byte>, b: Block, m: seq<Byte>)
    requires |rest| % 64 == 0 && |m| - |rest| < 64 && rest <= m
    ensures Compress(Fold(IV, m), b) == Fold(IV, rest + b)
  {
    hide Compress;
    FoldShort(IV, rest, m[|rest|..]);
    assert rest + m[|rest|..] == m;
    FoldSplit(IV, rest, b);
    FoldOne(Fold(IV, rest), b);
  }

  lemma FoldPartialShort(rest: seq<Byte>, tail: seq<Byte>, m: seq<Byte>)
    requires |rest| % 64 == 0 && |m| - |rest| < 64 && rest <= m && |tail| < 64
    ensures Fold(IV, m) == Fold(IV, rest + tail)
  {
    hide Compress;
    FoldShort(IV, rest, m[|rest|..]);
    assert rest + m[|rest|..] == m;
    FoldShort(IV, rest, tail);
  }

  /** For every message of under 2^61 bytes and every way of cutting it into update calls,
      the streaming interface gives the digest of the standard. */
  method HashParts(parts: seq<seq<Byte>>) returns (out: seq<Byte>)
    requires 8 * |Joined(parts)| < TWO64
    ensures out == Digest(Joined(parts))
  {
    hide Compress;
    var c := new Context();
    for i := 0 to |parts|
      invariant fresh(c) && fresh(c.block) && c.Represents(Joined(parts[..i]))
    {
      c.Update(parts[i], Joined(parts[..i]));
      assert parts[..i + 1][..i] == parts[..i];
    }
    assert parts[..|parts|] == parts;
    out := c.Final(Joined(parts));
  }
}
