/** The URL of a server-function call: built in the client's scratch region, one copy made
    for the host, the body behind it. */
module CallUrl {
  import opened Bytes
  import Decimal

  const SCRATCH_SIZE := 65536

  /** `/__cerco/sf/` */
  const PREFIX: seq<byte> := [0x2F, 0x5F, 0x5F, 0x63, 0x65, 0x72, 0x63, 0x6F, 0x2F, 0x73, 0x66, 0x2F]

  function Url(id: u32): (u: seq<byte>)
    ensures 13 <= |u| <= 22
  {
    DigitsLength(id);
    PREFIX + Decimal.Digits(id)
  }

  function Round8(n: nat): nat { (n + 7) / 8 * 8 }

  /** `s` written into memory at `at`. */
  function Blit(m: seq<byte>, at: nat, s: seq<byte>): (r: seq<byte>)
    requires at + |s| <= |m|
    ensures |r| == |m|
  {
    m[..at] + s + m[at + |s|..]
  }

  /** `memcpy` as the client's libc does it: upwards, one byte at a time, reading what the
      copy itself has already written. */
  function CopyUp(m: seq<byte>, src: nat, dst: nat, n: nat): (r: seq<byte>)
    requires src + n <= |m| && dst + n <= |m|
    ensures |r| == |m|
  {
    if n == 0 then m else var r := CopyUp(m, src, dst, n - 1); r[dst + n - 1 := r[src + n - 1]]
  }

  /** `strlen`; None when no NUL follows in the region. */
  function StrLen(m: seq<byte>, p: nat): (r: Option<nat>)
    requires p <= |m|
    ensures r.Some? ==> p + r.value < |m| && m[p + r.value] == 0 && forall k | p <= k < p + r.value :: m[k] != 0
    ensures r.None? ==> forall k | p <= k < |m| :: m[k] != 0
    decreases |m| - p
  {
    if p == |m| then None
    else if m[p] == 0 then Some(0)
    else
      var r := StrLen(m, p + 1);
      if r.None? then None else Some(r.value + 1)
  }

  // ------------------------------------------------------------ what is posted

  /** Scratch after the URL was built in its 16-byte block and copied into the next one. */
  function Copied(m: seq<byte>, off: nat, id: u32): (r: seq<byte>)
    requires |m| == SCRATCH_SIZE && off + 40 <= |m|
    ensures |r| == |m|
  {
    CopyUp(Blit(m, off, Url(id) + [0]), off, off + 16, |Url(id)| + 1)
  }

  /** Where the body's block would start. */
  function BodyAt(off: nat, id: u32): nat { off + 16 + Round8(|Url(id)| + 1) }

  function Posted(m: seq<byte>, off: nat, id: u32, body: seq<byte>): (r: seq<byte>)
    requires |m| == SCRATCH_SIZE && off + 40 <= |m|
    ensures |r| == |m|
  {
    var c, b := Copied(m, off, id), BodyAt(off, id);
    if body == [] || b + Round8(|body|) > SCRATCH_SIZE then c else Blit(c, b, body)
  }

  /** The host reads the copy, with the length the original has by then. */
  predicate PostsItsUrl(m: seq<byte>, off: nat, id: u32, body: seq<byte>)
    requires |m| == SCRATCH_SIZE && off + 40 <= |m|
  {
    var r := Posted(m, off, id, body);
    var len := StrLen(r, off);
    len.Some? && off + 16 + len.value <= |r| && r[off + 16..off + 16 + len.value] == Url(id)
  }

  lemma DigitsLength(id: u32)
    ensures 1 <= |Decimal.Digits(id)| <= 10
    ensures |Decimal.Digits(id)| <= 3 <==> id < 1000
  {
    TenPowers();
    Decimal.DigitsShort(id, 10);
    if id < 1000 {
      Decimal.DigitsShort(id, 3);
    } else {
      DigitsLong(id);
    }
  }

  lemma UrlFacts(id: u32)
    ensures |Url(id)| <= 15 <==> id < 1000
    ensures NulFree(Url(id))
  {
    DigitsLength(id);
    DigitsNotNul(id);
  }

  lemma TenPowers()
    ensures Decimal.Pow10(3) == 1000 && Decimal.Pow10(10) == 10_000_000_000
  {
    assert Decimal.Pow10(5) == 100_000;
  }

  lemma DigitsLong(u: nat)
    requires u >= 1000
    ensures |Decimal.Digits(u)| >= 4
  {
    assert |Decimal.Digits(u / 10)| == |Decimal.Digits(u / 100)| + 1;
    assert |Decimal.Digits(u / 100)| == |Decimal.Digits(u / 1000)| + 1;
  }

  lemma {:induction false} DigitsNotNul(u: nat)
    ensures NulFree(Decimal.Digits(u))
  {
    if u >= 10 {
      DigitsNotNul(u / 10);
    }
  }

  /** Position within a 16-byte block. */
  function Lap(k: nat): (j: nat)
    ensures j < 16 && j <= k
  {
    k % 16
  }

  lemma LapFacts()
    ensures forall k | 0 <= k < 16 :: Lap(k) == k
    ensures forall k | 16 <= k < 32 :: Lap(k) == k - 16
    ensures forall k: nat :: Lap(k + 16) == Lap(k)
  {
  }

  lemma LapNext(k: nat)
    ensures Lap(k + 16) == Lap(k)
  {
  }

  /** `r` repeats the 16-byte block of `m` at `src` over `n` bytes, and is `m` elsewhere. */
  predicate Repeats(m: seq<byte>, src: nat, n: nat, r: seq<byte>)
    requires src + 16 <= |m| && src + n <= |m| == |r|
  {
    && (forall i | src <= i < src + n :: r[i] == m[src + Lap(i - src)])
    && (forall i | 0 <= i < |m| && (i < src || src + n <= i) :: r[i] == m[i])
  }

  /** Copying sixteen bytes up repeats the first sixteen over and over. */
  lemma {:induction false} CopyRepeats(m: seq<byte>, src: nat, n: nat)
    requires src + 16 + n <= |m|
    ensures Repeats(m, src, 16 + n, CopyUp(m, src, src + 16, n))
  {
    LapFacts();
    hide Lap;
    if n > 0 {
      CopyRepeats(m, src, n - 1);
      var r, at := CopyUp(m, src, src + 16, n - 1), src + (n - 1);
      assert r[at] == m[src + Lap(at - src)];
      LapNext(at - src);
    }
  }

  lemma BlitAt(m: seq<byte>, at: nat, s: seq<byte>)
    requires at + |s| <= |m|
    ensures forall i | at <= i < at + |s| :: Blit(m, at, s)[i] == s[i - at]
    ensures forall i | 0 <= i < |m| && (i < at || at + |s| <= i) :: Blit(m, at, s)[i] == m[i]
  {
  }

  /** The first sixteen bytes of the block, over and over, as far as the copy reached. */
  lemma PostedRepeats(m: seq<byte>, off: nat, id: u32, body: seq<byte>)
    requires |m| == SCRATCH_SIZE && off + 40 <= |m|
    ensures var r, text := Posted(m, off, id, body), Url(id) + [0];
            forall i | off <= i < off + 16 + |text| && Lap(i - off) < |text| :: r[i] == text[Lap(i - off)]
  {
    hide Url, CopyUp, Blit, Lap;
    var text := Url(id) + [0];
    var built := Blit(m, off, text);
    BlitAt(m, off, text);
    CopyRepeats(built, off, |text|);
    if body != [] && BodyAt(off, id) + Round8(|body|) <= SCRATCH_SIZE {
      BlitAt(Copied(m, off, id), BodyAt(off, id), body);
    }
    forall i | off <= i < off + 16 + |text| && Lap(i - off) < |text|
      ensures Posted(m, off, id, body)[i] == text[Lap(i - off)]
    {
      var c := Copied(m, off, id);
      assert c[i] == built[off + Lap(i - off)];
    }
  }

  /** The exact condition of a right request: with room in scratch, the host is handed the
      call's URL if and only if the function's id has at most three digits. A longer id
      runs over its block, the copy overwrites the terminator, and the length counts into
      the copy. */
  lemma UrlRightIff(m: seq<byte>, off: nat, id: u32, body: seq<byte>)
    requires |m| == SCRATCH_SIZE && off + 40 <= |m|
    ensures PostsItsUrl(m, off, id, body) <==> id < 1000
  {
    LapFacts();
    hide Posted, Url, Lap;
    UrlFacts(id);
    PostedRepeats(m, off, id, body);
    var r, url := Posted(m, off, id, body), Url(id);
    var n, text := |url|, url + [0];
    if id < 1000 {
      assert forall i | off <= i <= off + n :: r[i] == text[Lap(i - off)] == text[i - off];
      assert forall i | off + 16 <= i <= off + 16 + n :: r[i] == text[Lap(i - off)] == text[i - off - 16];
      StrLenIs(r, off, Some(n));
      assert r[off + 16..off + 16 + n] == url;
    } else {
      assert forall i | off <= i < off + 32 :: r[i] == text[Lap(i - off)] == url[Lap(i - off)] != 0;
      assert StrLen(r, off).Some? ==> StrLen(r, off).value >= 32;
    }
  }

  // --------------------------------------------------------------- the region

  /** The scratch region and its offset. */
  class Scratch {
    const mem: array<byte>
    var off: nat

    ghost predicate Valid() reads this { mem.Length == SCRATCH_SIZE && off <= SCRATCH_SIZE }

    constructor ()
      ensures Valid() && fresh(mem) && off == 0
    {
      mem := new byte[SCRATCH_SIZE];
      off := 0;
    }

    method ScratchAlloc(n: nat) returns (p: Option<nat>)
      requires Valid()
      modifies `off
      ensures Valid()
      ensures if old(off) + Round8(n) > SCRATCH_SIZE then p == None && off == old(off)
              else p == Some(old(off)) && off == old(off) + Round8(n)
    {
      var size := (n + 7) / 8 * 8;
      if off + size > SCRATCH_SIZE {
        return None;
      }
      p := Some(off);
      off := off + size;
    }

    /** Bytes from elsewhere into the region. */
    method Write(at: nat, s: seq<byte>)
      requires Valid() && at + |s| <= SCRATCH_SIZE
      modifies mem
      ensures mem[..] == Blit(old(mem[..]), at, s)
    {
      ghost var before := mem[..];
      for i := 0 to |s|
        invariant mem[..] == before[..at] + s[..i] + before[at + i..]
      {
        mem[at + i] := s[i];
      }
      assert s[..|s|] == s;
    }

    /** `memcpy` within the region. */
    method MemCpy(dst: nat, src: nat, n: nat)
      requires Valid() && dst + n <= SCRATCH_SIZE && src + n <= SCRATCH_SIZE
      modifies mem
      ensures mem[..] == CopyUp(old(mem[..]), src, dst, n)
    {
      for i := 0 to n
        invariant mem[..] == CopyUp(old(mem[..]), src, dst, i)
      {
        mem[dst + i] := mem[src + i];
      }
    }

    /** `strlen` within the region. */
    method MeasureAt(p: nat) returns (len: Option<nat>)
      requires Valid() && p <= SCRATCH_SIZE
      ensures len == StrLen(mem[..], p)
    {
      var n := 0;
      while p + n < SCRATCH_SIZE && mem[p + n] != 0
        invariant p + n <= SCRATCH_SIZE && forall k | p <= k < p + n :: mem[k] != 0
        decreases SCRATCH_SIZE - n
      {
        n := n + 1;
      }
      len := if p + n < SCRATCH_SIZE then Some(n) else None;
      StrLenIs(mem[..], p, len);
    }

    /** `sf_url_for`: a block for the prefix, the digits written behind it. */
    method SfUrlFor(id: u32) returns (url: nat)
      requires Valid() && off + 40 <= SCRATCH_SIZE
      modifies `off, mem
      ensures Valid() && url == old(off) && off == url + 16
      ensures mem[..] == Blit(old(mem[..]), url, Url(id) + [0])
    {
      hide Decimal.Digits, Blit;
      ghost var before := mem[..];
      var p := ScratchAlloc(|PREFIX| + 1);
      url := p.value;
      Write(url, PREFIX + [0]);
      var tmp := Decimal.BackwardDigits(id);
      var digits := Decimal.CopyReversed([], tmp);
      assert digits == Decimal.Digits(id);
      DigitsLength(id);
      Write(url + |PREFIX|, digits);
      Write(url + |PREFIX| + |digits|, [0]);
      BuiltUp(before, url, digits);
    }

    /** `cerco_http_post` after the fetch was reserved: copy of the URL, copy of the body
        if there is room, and what the host is told. */
    method HttpPost(url: nat, body: seq<byte>, ghost id: u32, ghost before: seq<byte>) returns (u: nat, len: Option<nat>)
      requires Valid() && off == url + 16 && url + 40 <= SCRATCH_SIZE && |before| == SCRATCH_SIZE
      requires mem[..] == Blit(before, url, Url(id) + [0])
      modifies `off, mem
      ensures Valid() && u == url + 16 && mem[..] == Posted(before, url, id, body)
      ensures len == StrLen(mem[..], url)
    {
      hide CopyUp, Blit, Url, StrLen;
      BuiltLength(before, url, id);
      var n := MeasureAt(url);
      var p := ScratchAlloc(n.value + 1);
      u := p.value;
      MemCpy(u, url, n.value + 1);
      if body != [] {
        var b := ScratchAlloc(|body|);
        if b.Some? {
          Write(b.value, body);
        }
      }
      len := MeasureAt(url);
    }

    /** Both together: the host reads the right URL exactly for ids below 1000. */
    method PostCall(id: u32, body: seq<byte>) returns (u: nat, len: Option<nat>)
      requires Valid() && off + 40 <= SCRATCH_SIZE
      modifies `off, mem
      ensures Valid()
      ensures len.Some? && u + len.value <= SCRATCH_SIZE && mem[u..u + len.value] == Url(id) <==> id < 1000
    {
      ghost var before, start := mem[..], off;
      UrlRightIff(before, start, id, body);
      hide Posted, Url, Blit, StrLen;
      var url := SfUrlFor(id);
      u, len := HttpPost(url, body, id, before);
    }
  }

  /** Prefix with terminator, digits over it, terminator behind them. */
  lemma BuiltUp(m: seq<byte>, at: nat, digits: seq<byte>)
    requires at + 13 + |digits| <= |m| && digits != []
    ensures Blit(Blit(Blit(m, at, PREFIX + [0]), at + 12, digits), at + 12 + |digits|, [0]) ==
            Blit(m, at, PREFIX + digits + [0])
  {
    var a := Blit(m, at, PREFIX + [0]);
    var b := Blit(a, at + 12, digits);
    BlitAt(m, at, PREFIX + [0]);
    BlitAt(a, at + 12, digits);
    BlitAt(b, at + 12 + |digits|, [0]);
    BlitAt(m, at, PREFIX + digits + [0]);
    hide Blit;
    var x, y := Blit(b, at + 12 + |digits|, [0]), Blit(m, at, PREFIX + digits + [0]);
    forall i | 0 <= i < |m|
      ensures x[i] == y[i]
    {
    }
  }

  lemma BuiltLength(m: seq<byte>, at: nat, id: u32)
    requires at + 40 <= |m|
    ensures StrLen(Blit(m, at, Url(id) + [0]), at) == Some(|Url(id)|)
  {
    UrlFacts(id);
    BlitAt(m, at, Url(id) + [0]);
    hide Blit, Url;
    StrLenIs(Blit(m, at, Url(id) + [0]), at, Some(|Url(id)|));
  }

  lemma StrLenIs(m: seq<byte>, p: nat, r: Option<nat>)
    requires p <= |m|
    requires r.Some? ==> p + r.value < |m| && m[p + r.value] == 0 && forall k | p <= k < p + r.value :: m[k] != 0
    requires r.None? ==> forall k | p <= k < |m| :: m[k] != 0
    ensures StrLen(m, p) == r
  {
  }
}
