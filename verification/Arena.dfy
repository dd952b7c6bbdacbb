/** The server's chunked arena: bump allocation with alignment, growth by doubling under
    a soft cap, and reset to the first chunk. */
module Arena {
  import opened Bytes

  const HEADER := 24
  const CHUNK_MAX := 4 * 1024 * 1024
  const SIZE_RANGE := 0x1_0000_0000_0000_0000
  const ADDRESS_SPACE := 0x8000_0000_0000_0000

  /** Addition of two `size_t`. */
  function Plus(x: nat, y: nat): nat { if x + y < SIZE_RANGE then x + y else (x + y) % SIZE_RANGE }

  /** A chunk: its header at `addr`, then `cap` usable bytes of which `used` are taken. */
  datatype Chunk = Chunk(addr: nat, cap: nat, used: nat)

  function Base(c: Chunk): nat { c.addr + HEADER }

  /** `chunks[0]` is the head, the last chunk is the current one. */
  datatype State = State(chunks: seq<Chunk>, total: nat, hardCap: nat, oom: bool)

  /** The system allocator: an address for a chunk of the given capacity, or failure. */
  type Malloc = (seq<Chunk>, nat) -> Option<nat>

  predicate Apart(a: Chunk, b: Chunk)
  {
    a.addr + HEADER + a.cap <= b.addr || b.addr + HEADER + b.cap <= a.addr
  }

  function Capacity(cs: seq<Chunk>): nat
  {
    if cs == [] then 0 else Capacity(cs[..|cs| - 1]) + cs[|cs| - 1].cap
  }

  predicate InSpace(c: Chunk) { c.addr + HEADER + c.cap <= ADDRESS_SPACE }

  /** What the system allocator promises: 16-byte alignment, no overlap with live chunks
      and no more memory than a process has addresses. */
  ghost predicate Honest(m: Malloc)
  {
    forall cs, cap {:trigger m(cs, cap)} :: m(cs, cap).Some? ==>
      var c := Chunk(m(cs, cap).value, cap, 0);
      && c.addr % 16 == 0 && Capacity(cs) + cap <= ADDRESS_SPACE && InSpace(c)
      && forall i | 0 <= i < |cs| :: Apart(cs[i], c)
  }

  // --------------------------------------------------------------- operations

  function Init(addr: nat, first: nat, hardCap: nat): State
  {
    var cap := if first < 64 then 64 else first;
    State([Chunk(addr, cap, 0)], cap, hardCap, false)
  }

  function Current(s: State): Chunk
    requires s.chunks != []
  {
    s.chunks[|s.chunks| - 1]
  }

  /** Twice the current chunk, at least the request, at most 4 MiB. */
  function NextCap(cur: nat, need: nat): nat
  {
    var cap := if cur * 2 < need then need else cur * 2;
    if cap > CHUNK_MAX then CHUNK_MAX else cap
  }

  function Grow(s: State, need: nat, m: Malloc): (o: (State, bool))
    requires s.chunks != []
    ensures o.0.chunks != [] && (o.1 ==> |o.0.chunks| == |s.chunks| + 1 && o.0.total == s.total + NextCap(Current(s).cap, need))
    ensures !o.1 ==> o.0 == s.(oom := true)
  {
    if s.hardCap > 0 && Plus(s.total, need) > s.hardCap then (s.(oom := true), false)
    else
      var cap := NextCap(Current(s).cap, need);
      match m(s.chunks, cap)
      case None => (s.(oom := true), false)
      case Some(addr) => (s.(chunks := s.chunks + [Chunk(addr, cap, 0)], total := s.total + cap), true)
  }

  /** For a power of two this is `(x + (align - 1)) & ~(align - 1)`. */
  function AlignUp(x: nat, align: nat): nat
    requires align > 0
  {
    (x + (align - 1)) / align * align
  }

  lemma AlignUpFacts(x: nat, align: nat)
    requires align > 0
    ensures x <= AlignUp(x, align) < x + align && AlignUp(x, align) % align == 0
  {
    var y := x + (align - 1);
    assert y == y / align * align + y % align;
    ModMultiple(y / align, align);
  }

  lemma ModMultiple(q: nat, n: nat)
    requires n > 0
    ensures q * n % n == 0
  {
    var d := q * n / n - q;
    assert d * n + q * n % n == 0;
    MulAway(d, n);
  }

  lemma MulAway(d: int, n: nat)
    ensures d >= 1 ==> d * n >= n
    ensures d <= -1 ==> d * n <= -(n as int)
  {
    if d >= 1 {
      assert (d - 1) * n >= 0;
    } else if d <= -1 {
      assert (d + 1) * n <= 0;
    }
  }

  function Slot(s: State, align: nat): nat
    requires s.chunks != [] && align > 0
  {
    AlignUp(Base(Current(s)) + Current(s).used, align)
  }

  /** The request, padded to its alignment, fits the current chunk. */
  predicate FitsCurrent(s: State, size: nat, align: nat)
    requires s.chunks != [] && align > 0
  {
    var c := Current(s);
    var pad := Slot(s, align) - (Base(c) + c.used);
    Plus(pad, size) <= c.cap - c.used
  }

  function Bump(s: State, size: nat, align: nat): State
    requires s.chunks != [] && align > 0
  {
    AlignUpFacts(Base(Current(s)) + Current(s).used, align);
    var k, pad := |s.chunks| - 1, Slot(s, align) - (Base(Current(s)) + Current(s).used);
    s.(chunks := s.chunks[k := s.chunks[k].(used := s.chunks[k].used + Plus(pad, size))])
  }

  /** `cerco_arena_alloc_aligned` under an out-of-memory handler that returns. */
  function Alloc(s: State, size: nat, align: nat, m: Malloc): (o: (State, Option<nat>))
    requires s.chunks != [] && align > 0 && Inv(s) && Honest(m)
    ensures o.0.chunks != [] && Inv(o.0)
    ensures o.1.None? ==> o.0.oom
    ensures o.1.Some? ==> o.0.oom == s.oom
  {
    AllocLoop(s, if size == 0 then 1 else size, align, m)
  }

  function AllocLoop(s: State, size: nat, align: nat, m: Malloc): (o: (State, Option<nat>))
    requires s.chunks != [] && align > 0 && size > 0 && Inv(s) && Honest(m)
    ensures o.0.chunks != [] && Inv(o.0)
    ensures o.1.None? ==> o.0.oom
    ensures o.1.Some? ==> o.0.oom == s.oom
    decreases ADDRESS_SPACE - s.total
  {
    if FitsCurrent(s, size, align) then
      BumpInv(s, size, align);
      (Bump(s, size, align), Some(Slot(s, align)))
    else
      var (t, grown) := Grow(s, size, m);
      GrowInv(s, size, m);
      if grown then AllocLoop(t, size, align, m) else (t, None)
  }

  /** Frees every chunk but the head. */
  function Reset(s: State): State
    requires s.chunks != []
  {
    State([s.chunks[0].(used := 0)], s.chunks[0].cap, s.hardCap, false)
  }

  // ------------------------------------------------------------ chunk invariant

  ghost predicate Inv(s: State)
  {
    && s.chunks != [] && s.total == Capacity(s.chunks) <= ADDRESS_SPACE
    && (forall i | 0 <= i < |s.chunks| :: InSpace(s.chunks[i]))
    && (forall i | 0 <= i < |s.chunks| :: s.chunks[i].used <= s.chunks[i].cap && s.chunks[i].cap > 0)
    && (forall i, j | 0 <= i < j < |s.chunks| :: Apart(s.chunks[i], s.chunks[j]))
  }

  /** Where the system put the first chunk. */
  predicate Placed(addr: nat, first: nat) { InSpace(Chunk(addr, if first < 64 then 64 else first, 0)) }

  /** What a caller can check: no sum of the request wraps. */
  predicate SizeOk(size: nat, align: nat) { align > 0 && size + align <= ADDRESS_SPACE }

  lemma InitInv(addr: nat, first: nat, hardCap: nat)
    requires Placed(addr, first)
    ensures Inv(Init(addr, first, hardCap))
  {
    assert Init(addr, first, hardCap).chunks[..0] == [];
  }

  lemma BumpInv(s: State, size: nat, align: nat)
    requires Inv(s) && align > 0 && FitsCurrent(s, size, align)
    ensures Inv(Bump(s, size, align))
  {
    var t := Bump(s, size, align);
    AlignUpFacts(Base(Current(s)) + Current(s).used, align);
    assert t.chunks[..|t.chunks| - 1] == s.chunks[..|s.chunks| - 1];
  }

  lemma GrowInv(s: State, need: nat, m: Malloc)
    requires Inv(s) && need > 0 && Honest(m)
    ensures Inv(Grow(s, need, m).0)
    ensures Grow(s, need, m).1 ==> s.total < Grow(s, need, m).0.total <= ADDRESS_SPACE
  {
    var (t, grown) := Grow(s, need, m);
    if grown {
      assert t.chunks[..|s.chunks|] == s.chunks;
      assert Current(s).cap > 0;
    }
  }

  // ------------------------------------------------------------------- blocks

  /** A block handed out since the last reset, with the chunk it lives in. */
  datatype Block = Block(chunk: nat, start: nat, len: nat, align: nat)

  predicate Inside(b: Block, s: State)
  {
    && b.chunk < |s.chunks| && b.align > 0 && b.start % b.align == 0 && b.len > 0
    && Base(s.chunks[b.chunk]) <= b.start
    && b.start + b.len <= Base(s.chunks[b.chunk]) + s.chunks[b.chunk].used
  }

  predicate Disjoint(a: Block, b: Block) { a.start + a.len <= b.start || b.start + b.len <= a.start }

  ghost predicate BlocksInv(s: State, bs: seq<Block>)
  {
    && Inv(s)
    && (forall i | 0 <= i < |bs| :: Inside(bs[i], s))
    && (forall i, j | 0 <= i < j < |bs| :: Disjoint(bs[i], bs[j]))
  }

  datatype Op = AllocOp(size: nat, align: nat, m: Malloc) | ResetOp

  datatype Run = Run(s: State, blocks: seq<Block>)

  ghost predicate OpOk(op: Op) { op.AllocOp? ==> SizeOk(if op.size == 0 then 1 else op.size, op.align) && Honest(op.m) }

  ghost function Step(r: Run, op: Op): (t: Run)
    requires Inv(r.s) && OpOk(op)
    ensures Inv(t.s)
  {
    match op
    case ResetOp => ResetInv(r.s); Run(Reset(r.s), [])
    case AllocOp(size, align, m) =>
      var (t, p) := Alloc(r.s, size, align, m);
      if p.None? then Run(t, r.blocks)
      else Run(t, r.blocks + [Block(|t.chunks| - 1, p.value, if size == 0 then 1 else size, align)])
  }

  ghost function Execute(r: Run, ops: seq<Op>): (t: Run)
    requires Inv(r.s) && forall i | 0 <= i < |ops| :: OpOk(ops[i])
    ensures Inv(t.s)
    decreases |ops|
  {
    if |ops| == 0 then r else Execute(Step(r, ops[0]), ops[1..])
  }

  lemma ResetInv(s: State)
    requires Inv(s)
    ensures Inv(Reset(s))
  {
    assert Reset(s).chunks[..0] == [];
  }

  /** Growing only appends a chunk: what was inside a chunk still is. */
  lemma GrowKeepsBlocks(s: State, bs: seq<Block>, need: nat, m: Malloc)
    requires BlocksInv(s, bs) && need > 0 && Honest(m)
    ensures BlocksInv(Grow(s, need, m).0, bs)
  {
    GrowInv(s, need, m);
  }

  lemma BumpAddsBlock(s: State, bs: seq<Block>, size: nat, align: nat)
    requires BlocksInv(s, bs) && SizeOk(size, align) && size > 0 && FitsCurrent(s, size, align)
    ensures BlocksInv(Bump(s, size, align), bs + [Block(|s.chunks| - 1, Slot(s, align), size, align)])
  {
    var t, b := Bump(s, size, align), Block(|s.chunks| - 1, Slot(s, align), size, align);
    BumpInv(s, size, align);
    AlignUpFacts(Base(Current(s)) + Current(s).used, align);
    forall i | 0 <= i < |bs|
      ensures Inside(bs[i], t) && Disjoint(bs[i], b)
    {
      assert Inside(bs[i], s);
      if bs[i].chunk < |s.chunks| - 1 {
        assert Apart(s.chunks[bs[i].chunk], Current(s));
      }
    }
  }

  lemma {:induction false} AllocLoopBlocks(s: State, bs: seq<Block>, size: nat, align: nat, m: Malloc)
    requires BlocksInv(s, bs) && SizeOk(size, align) && size > 0 && Honest(m)
    ensures var (t, p) := AllocLoop(s, size, align, m);
            BlocksInv(t, if p.None? then bs else bs + [Block(|t.chunks| - 1, p.value, size, align)])
    decreases ADDRESS_SPACE - s.total
  {
    hide Bump, Grow, FitsCurrent, Inside, Disjoint;
    if FitsCurrent(s, size, align) {
      BumpAddsBlock(s, bs, size, align);
      BumpShape(s, size, align);
    } else {
      GrowInv(s, size, m);
      GrowKeepsBlocks(s, bs, size, m);
      var (t, grown) := Grow(s, size, m);
      if grown {
        AllocLoopBlocks(t, bs, size, align, m);
      }
    }
  }

  lemma BumpShape(s: State, size: nat, align: nat)
    requires s.chunks != [] && align > 0
    ensures |Bump(s, size, align).chunks| == |s.chunks|
  {
  }

  lemma {:induction false} ExecuteBlocks(r: Run, ops: seq<Op>)
    requires BlocksInv(r.s, r.blocks) && forall i | 0 <= i < |ops| :: OpOk(ops[i])
    ensures BlocksInv(Execute(r, ops).s, Execute(r, ops).blocks)
    decreases |ops|
  {
    hide AllocLoop, Inside, Disjoint, Inv;
    if |ops| > 0 {
      assert OpOk(ops[0]);
      match ops[0] {
        case ResetOp => ResetInv(r.s);
        case AllocOp(size, align, m) => AllocLoopBlocks(r.s, r.blocks, if size == 0 then 1 else size, align, m);
      }
      ExecuteBlocks(Step(r, ops[0]), ops[1..]);
    }
  }

  /** For every sequence of allocations and resets on a fresh arena: the blocks handed
      out since the last reset are aligned, inside one chunk each and pairwise disjoint,
      and `total` is the sum of the chunk capacities. */
  lemma BlocksNeverOverlap(addr: nat, first: nat, hardCap: nat, ops: seq<Op>)
    requires Placed(addr, first)
    requires forall i | 0 <= i < |ops| :: OpOk(ops[i])
    ensures Inv(Init(addr, first, hardCap))
    ensures var r := Execute(Run(Init(addr, first, hardCap), []), ops);
            BlocksInv(r.s, r.blocks) && r.s.total == Capacity(r.s.chunks)
  {
    InitInv(addr, first, hardCap);
    ExecuteBlocks(Run(Init(addr, first, hardCap), []), ops);
  }

  // -------------------------------------------------------------------- reset

  /** The head chunk and the cap never change, so a reset arena is, bit for bit, a fresh
      one of the head chunk's size. */
  ghost predicate SameHead(s: State, addr: nat, cap: nat, hardCap: nat)
  {
    s.chunks != [] && s.chunks[0].addr == addr && s.chunks[0].cap == cap && s.hardCap == hardCap
  }

  lemma {:induction false} AllocLoopHead(s: State, size: nat, align: nat, m: Malloc)
    requires Inv(s) && align > 0 && size > 0 && Honest(m)
    ensures SameHead(AllocLoop(s, size, align, m).0, s.chunks[0].addr, s.chunks[0].cap, s.hardCap)
    decreases ADDRESS_SPACE - s.total
  {
    hide FitsCurrent, NextCap;
    if !FitsCurrent(s, size, align) {
      GrowInv(s, size, m);
      var (t, grown) := Grow(s, size, m);
      if grown {
        AllocLoopHead(t, size, align, m);
      }
    }
  }

  lemma {:induction false} ExecuteHead(r: Run, ops: seq<Op>)
    requires Inv(r.s) && forall i | 0 <= i < |ops| :: OpOk(ops[i])
    ensures SameHead(Execute(r, ops).s, r.s.chunks[0].addr, r.s.chunks[0].cap, r.s.hardCap)
    decreases |ops|
  {
    hide AllocLoop;
    if |ops| > 0 {
      assert OpOk(ops[0]);
      match ops[0] {
        case ResetOp =>
        case AllocOp(size, align, m) => AllocLoopHead(r.s, if size == 0 then 1 else size, align, m);
      }
      ExecuteHead(Step(r, ops[0]), ops[1..]);
    }
  }

  lemma ResetIsFresh(addr: nat, first: nat, hardCap: nat, ops: seq<Op>)
    requires Placed(addr, first)
    requires forall i | 0 <= i < |ops| :: OpOk(ops[i])
    ensures Inv(Init(addr, first, hardCap))
    ensures Reset(Execute(Run(Init(addr, first, hardCap), []), ops).s) == Init(addr, first, hardCap)
  {
    InitInv(addr, first, hardCap);
    ExecuteHead(Run(Init(addr, first, hardCap), []), ops);
  }

  // ---------------------------------------------------------------- soft cap

  /** How far `total` can get: some growth must still have had room for its request. */
  function Limit(hardCap: nat): nat
    requires hardCap > 0
  {
    var most := hardCap - 1;
    if 2 * most < CHUNK_MAX then 3 * most else most + CHUNK_MAX
  }

  lemma {:induction false} CapacityLast(cs: seq<Chunk>)
    requires cs != []
    ensures cs[|cs| - 1].cap <= Capacity(cs)
  {
  }

  /** One growth: the cap is checked against the request, so what it adds can pass it, by
      less than twice what was there and by less than 4 MiB. */
  lemma GrowCapped(s: State, size: nat, m: Malloc)
    requires Inv(s) && 0 < size <= ADDRESS_SPACE && Honest(m) && s.hardCap > 0 && Grow(s, size, m).1
    ensures s.total < s.hardCap
    ensures var t := Grow(s, size, m).0;
            t.hardCap == s.hardCap && (t.total <= s.hardCap || t.total <= Limit(s.hardCap))
  {
    CapacityLast(s.chunks);
    assert s.total + size <= s.hardCap;
  }

  lemma {:induction false} AllocLoopCapped(s: State, size: nat, align: nat, m: Malloc)
    requires Inv(s) && SizeOk(size, align) && size > 0 && Honest(m)
    requires 64 <= s.hardCap && s.total <= Limit(s.hardCap)
    ensures AllocLoop(s, size, align, m).0.total <= Limit(s.hardCap)
    ensures AllocLoop(s, size, align, m).0.hardCap == s.hardCap
    decreases ADDRESS_SPACE - s.total
  {
    hide FitsCurrent, Grow;
    if !FitsCurrent(s, size, align) {
      GrowInv(s, size, m);
      var (t, grown) := Grow(s, size, m);
      if grown {
        GrowCapped(s, size, m);
        AllocLoopCapped(t, size, align, m);
      }
    }
  }

  /** Over the cap, nothing grows. */
  lemma AllocLoopFull(s: State, size: nat, align: nat, m: Malloc)
    requires Inv(s) && SizeOk(size, align) && size > 0 && Honest(m) && 0 < s.hardCap <= s.total
    ensures AllocLoop(s, size, align, m).0.total == s.total
    ensures |AllocLoop(s, size, align, m).0.chunks| == |s.chunks|
  {
    hide FitsCurrent;
  }

  lemma {:induction false} ExecuteCapped(r: Run, ops: seq<Op>, head: nat)
    requires Inv(r.s) && forall i | 0 <= i < |ops| :: OpOk(ops[i])
    requires r.s.chunks[0].cap == head <= r.s.hardCap && 64 <= r.s.hardCap && r.s.total <= Limit(r.s.hardCap)
    ensures Execute(r, ops).s.total <= Limit(r.s.hardCap)
    decreases |ops|
  {
    hide AllocLoop;
    if |ops| > 0 {
      assert OpOk(ops[0]);
      match ops[0] {
        case ResetOp =>
        case AllocOp(size, align, m) =>
          AllocLoopCapped(r.s, if size == 0 then 1 else size, align, m);
          AllocLoopHead(r.s, if size == 0 then 1 else size, align, m);
      }
      ExecuteCapped(Step(r, ops[0]), ops[1..], head);
    }
  }

  lemma {:induction false} ExecuteFull(r: Run, ops: seq<Op>)
    requires Inv(r.s) && forall i | 0 <= i < |ops| :: OpOk(ops[i])
    requires |r.s.chunks| == 1 && 0 < r.s.hardCap <= r.s.total
    ensures Execute(r, ops).s.total == r.s.total
    decreases |ops|
  {
    hide AllocLoop;
    if |ops| > 0 {
      assert OpOk(ops[0]);
      match ops[0] {
        case ResetOp => ResetInv(r.s);
        case AllocOp(size, align, m) =>
          AllocLoopFull(r.s, if size == 0 then 1 else size, align, m);
          AllocLoopHead(r.s, if size == 0 then 1 else size, align, m);
      }
      ExecuteFull(Step(r, ops[0]), ops[1..]);
    }
  }

  /** The cap check looks at the request, not at the chunk it allocates. Even so no run
      takes three times the cap, nor 4 MiB more than it; and a first chunk over the cap,
      which is not checked at all, stays alone. */
  lemma TotalStaysNearCap(addr: nat, first: nat, hardCap: nat, ops: seq<Op>)
    requires Placed(addr, first)
    requires hardCap > 0 && forall i | 0 <= i < |ops| :: OpOk(ops[i])
    ensures Inv(Init(addr, first, hardCap))
    ensures var total, head := Execute(Run(Init(addr, first, hardCap), []), ops).s.total, if first < 64 then 64 else first;
            if head <= hardCap then total <= Limit(hardCap) else total == head
  {
    hide Execute;
    var head := if first < 64 then 64 else first;
    var r := Run(Init(addr, first, hardCap), []);
    InitInv(addr, first, hardCap);
    if head <= hardCap {
      ExecuteCapped(r, ops, head);
    } else {
      ExecuteFull(r, ops);
    }
  }

  /** Where the witness runs put the first chunk. */
  const FIRST := 16

  /** Places exactly one chunk, behind the first one. */
  function OneChunk(used: Chunk, cap: nat): Malloc
  {
    (cs, c) => if cs == [used] && c == cap then Some((FIRST + HEADER + used.cap + 15) / 16 * 16) else None
  }

  lemma OneChunkHonest(used: Chunk, cap: nat)
    requires used.addr == FIRST && used.cap + cap + 128 <= ADDRESS_SPACE
    ensures Honest(OneChunk(used, cap))
  {
    var m, at := OneChunk(used, cap), (FIRST + HEADER + used.cap + 15) / 16 * 16;
    assert at % 16 == 0 && FIRST + HEADER + used.cap <= at < FIRST + HEADER + used.cap + 16;
    assert [used][..0] == [];
    assert Capacity([used]) == used.cap;
  }

  /** The limit is attained: a first chunk one byte below the cap, filled, and one more
      byte. So from 65 bytes on every cap is passed by some run. */
  lemma LimitAttained(hardCap: nat) returns (ops: seq<Op>)
    requires 65 <= hardCap && 2 * hardCap + CHUNK_MAX <= ADDRESS_SPACE
    ensures Placed(FIRST, hardCap - 1) && forall i | 0 <= i < |ops| :: OpOk(ops[i])
    ensures Inv(Init(FIRST, hardCap - 1, hardCap))
    ensures Execute(Run(Init(FIRST, hardCap - 1, hardCap), []), ops).s.total == Limit(hardCap) > hardCap
  {
    var n := hardCap - 1;
    var full := Chunk(FIRST, n, n);
    var m := OneChunk(full, NextCap(n, 1));
    InitInv(FIRST, n, hardCap);
    OneChunkHonest(full, NextCap(n, 1));
    ops := [AllocOp(n, 8, m), AllocOp(1, 8, m)];
    var r0 := Run(Init(FIRST, n, hardCap), []);
    HeadFilled(n, hardCap, m);
    OneMoreByte(n, hardCap, m);
    hide Alloc, Honest, Inv, Execute;
    ExecuteTwo(r0, ops[0], ops[1]);
    assert Step(r0, ops[0]).s == State([full], n, hardCap, false);
  }

  lemma HeadFilled(n: nat, hardCap: nat, m: Malloc)
    requires n >= 64 && Placed(FIRST, n) && Honest(m)
    ensures Inv(Init(FIRST, n, hardCap))
    ensures Alloc(Init(FIRST, n, hardCap), n, 8, m).0 == State([Chunk(FIRST, n, n)], n, hardCap, false)
  {
    InitInv(FIRST, n, hardCap);
    var s := Init(FIRST, n, hardCap);
    assert AlignUp(FIRST + HEADER, 8) == FIRST + HEADER;
    assert FitsCurrent(s, n, 8);
    AllocWhenFits(s, n, 8, m);
  }

  lemma OneMoreByte(n: nat, hardCap: nat, m: Malloc)
    requires n >= 64 && hardCap == n + 1 && Placed(FIRST, n) && Honest(m)
    requires m([Chunk(FIRST, n, n)], NextCap(n, 1)).Some?
    ensures var s := State([Chunk(FIRST, n, n)], n, hardCap, false);
            Inv(s) && Alloc(s, 1, 8, m).0.total == n + NextCap(n, 1)
  {
    var s := State([Chunk(FIRST, n, n)], n, hardCap, false);
    assert s.chunks[..0] == [];
    assert !FitsCurrent(s, 1, 8);
    GrowInv(s, 1, m);
    FreshChunkFits(s, 1, m);
    var t := Grow(s, 1, m).0;
    hide FitsCurrent, Bump;
    AllocWhenFits(t, 1, 8, m);
    BumpTotal(t, 1, 8);
    assert AllocLoop(s, 1, 8, m) == AllocLoop(t, 1, 8, m);
  }

  lemma ExecuteTwo(r: Run, a: Op, b: Op)
    requires Inv(r.s) && OpOk(a) && OpOk(b)
    ensures Execute(r, [a, b]) == Step(Step(r, a), b)
  {
    hide Step;
    assert [a, b][1..] == [b] && [b][1..] == [];
    assert Execute(Step(r, a), [b]) == Execute(Step(Step(r, a), b), []);
  }

  /** When exactly an allocation passes the cap, at the alignment every caller uses: the
      current chunk is too small, the request itself is still within the cap, and the
      chunk the system grants for it is larger than what is left. */
  lemma CapPassedIff(s: State, size: nat, m: Malloc)
    requires Inv(s) && Honest(m) && SizeOk(size, 8) && size > 0 && 0 < s.hardCap && s.total <= s.hardCap
    ensures Alloc(s, size, 8, m).0.total > s.hardCap <==>
            && !FitsCurrent(s, size, 8) && s.total + size <= s.hardCap
            && var cap := NextCap(Current(s).cap, size);
               m(s.chunks, cap).Some? && cap > s.hardCap - s.total
  {
    hide Bump, FitsCurrent;
    if !FitsCurrent(s, size, 8) {
      GrowInv(s, size, m);
      var (t, grown) := Grow(s, size, m);
      if grown {
        if size <= CHUNK_MAX {
          FreshChunkFits(s, size, m);
          AllocWhenFits(t, size, 8, m);
          BumpTotal(t, size, 8);
        } else {
          OversizeWithinCap(t, size, 8, m);
        }
      }
    } else {
      BumpTotal(s, size, 8);
    }
  }

  lemma BumpTotal(s: State, size: nat, align: nat)
    requires s.chunks != [] && align > 0
    ensures Bump(s, size, align).total == s.total
  {
  }

  /** Each chunk grown for a request over 4 MiB is smaller than the request. */
  lemma {:induction false} OversizeWithinCap(s: State, size: nat, align: nat, m: Malloc)
    requires Inv(s) && Honest(m) && SizeOk(size, align) && size > CHUNK_MAX && 0 < s.hardCap && s.total <= s.hardCap
    ensures AllocLoop(s, size, align, m).0.total <= s.hardCap
    decreases ADDRESS_SPACE - s.total
  {
    hide Bump, FitsCurrent;
    if !FitsCurrent(s, size, align) {
      GrowInv(s, size, m);
      var (t, grown) := Grow(s, size, m);
      if grown {
        OversizeWithinCap(t, size, align, m);
      }
    } else {
      BumpTotal(s, size, align);
    }
  }

  // ------------------------------------------------------------------- growth

  lemma AlreadyAligned(x: nat)
    requires x % 8 == 0
    ensures AlignUp(x, 8) == x
  {
  }

  lemma GrownChunk(s: State, size: nat, m: Malloc)
    requires s.chunks != [] && Honest(m) && Grow(s, size, m).1
    ensures var c := Current(Grow(s, size, m).0);
            c.used == 0 && c.cap == NextCap(Current(s).cap, size) && Base(c) % 8 == 0
  {
    var cap := NextCap(Current(s).cap, size);
    hide NextCap, Plus;
    BaseAligned(m(s.chunks, cap).value);
  }

  lemma BaseAligned(addr: nat)
    ensures addr % 16 == 0 ==> (addr + HEADER) % 8 == 0
  {
  }

  /** A fresh chunk sits on a 16-byte boundary, so at 8-byte alignment there is no
      padding in it and a request of up to 4 MiB fits. */
  lemma FreshChunkFits(s: State, size: nat, m: Malloc)
    requires Inv(s) && Honest(m) && 0 < size <= CHUNK_MAX && Grow(s, size, m).1
    ensures FitsCurrent(Grow(s, size, m).0, size, 8)
  {
    assert s.chunks != [];
    hide AlignUp, Inv, Honest;
    GrownChunk(s, size, m);
    AlreadyAligned(Base(Current(Grow(s, size, m).0)));
  }

  /** At the default alignment a request of up to 4 MiB grows the arena at most once. */
  lemma GrowsAtMostOnce(s: State, size: nat, m: Malloc)
    requires Inv(s) && Honest(m) && size <= CHUNK_MAX
    ensures |Alloc(s, size, 8, m).0.chunks| <= |s.chunks| + 1
  {
    hide Bump, FitsCurrent, Grow;
    var n := if size == 0 then 1 else size;
    GrowInv(s, n, m);
    var (t, grown) := Grow(s, n, m);
    if FitsCurrent(s, n, 8) {
      BumpShape(s, n, 8);
    } else if grown {
      FreshChunkFits(s, n, m);
      assert AllocLoop(s, n, 8, m) == AllocLoop(t, n, 8, m);
      AllocWhenFits(t, n, 8, m);
      BumpShape(t, n, 8);
    }
  }

  lemma AllocWhenFits(s: State, size: nat, align: nat, m: Malloc)
    requires Inv(s) && Honest(m) && align > 0 && size > 0 && FitsCurrent(s, size, align)
    ensures AllocLoop(s, size, align, m).0 == Bump(s, size, align)
  {
  }

  /** A larger request that the current chunk cannot hold never succeeds: no chunk the
      arena adds is big enough, and it grows until the cap (or the system) refuses. */
  lemma {:induction false} OversizeFails(s: State, size: nat, align: nat, m: Malloc)
    requires Inv(s) && Honest(m) && SizeOk(size, align) && size > CHUNK_MAX && !FitsCurrent(s, size, align)
    ensures AllocLoop(s, size, align, m).1 == None && AllocLoop(s, size, align, m).0.oom
    decreases ADDRESS_SPACE - s.total
  {
    GrowInv(s, size, m);
    var (t, grown) := Grow(s, size, m);
    if grown {
      AlignUpFacts(Base(Current(t)) + Current(t).used, align);
      OversizeFails(t, size, align, m);
    }
  }

  /** The next free address, rounded up, leaves `size` bytes before the chunk's end. */
  predicate Room(c: Chunk, size: nat) { AlignUp(Base(c) + c.used, 8) + size <= Base(c) + c.cap }

  lemma RoomIsFit(s: State, size: nat)
    requires Inv(s) && SizeOk(size, 8)
    ensures FitsCurrent(s, size, 8) <==> Room(Current(s), size)
  {
    AlignUpFacts(Base(Current(s)) + Current(s).used, 8);
  }

  /** At the default alignment, exactly when a request gets its block: the current chunk has
      room, or the request is at most 4 MiB, within the cap, and the system has a chunk. A
      refused one raises the flag, a granted one leaves it. */
  lemma GrantedIff(s: State, size: nat, m: Malloc)
    requires Inv(s) && Honest(m) && SizeOk(size, 8) && size > 0
    ensures var (t, p) := Alloc(s, size, 8, m);
            && (p.Some? <==> || Room(Current(s), size)
                             || (&& size <= CHUNK_MAX && (s.hardCap == 0 || s.total + size <= s.hardCap)
                                 && m(s.chunks, NextCap(Current(s).cap, size)).Some?))
            && (t.oom <==> s.oom || p.None?)
  {
    hide Bump, AlignUp;
    RoomIsFit(s, size);
    if !FitsCurrent(s, size, 8) {
      GrowInv(s, size, m);
      var (t, grown) := Grow(s, size, m);
      if size > CHUNK_MAX {
        OversizeFails(s, size, 8, m);
      } else if grown {
        FreshChunkFits(s, size, m);
        AllocWhenFits(t, size, 8, m);
      }
    }
  }

  /** With a cap, each round of the loop uses up some of what is left below it: the loop
      ends after at most `hardCap - total` growths, whatever the request. */
  lemma {:induction false} GrowthsBounded(s: State, size: nat, align: nat, m: Malloc)
    requires Inv(s) && SizeOk(size, align) && size > 0 && Honest(m) && s.hardCap > 0
    ensures |AllocLoop(s, size, align, m).0.chunks| - |s.chunks| <= if s.total < s.hardCap then s.hardCap - s.total else 0
    decreases ADDRESS_SPACE - s.total
  {
    hide FitsCurrent;
    if !FitsCurrent(s, size, align) {
      GrowInv(s, size, m);
      var (t, grown) := Grow(s, size, m);
      if grown {
        GrowthsBounded(t, size, align, m);
      }
    } else {
      BumpShape(s, size, align);
    }
  }

  // --------------------------------------------------------- requests that wrap

  /** A block that is handed out lies inside its chunk if and only if padding and size do
      not wrap together. */
  lemma InsideIff(s: State, size: nat, align: nat)
    requires Inv(s) && 0 < size < SIZE_RANGE && 0 < align <= ADDRESS_SPACE && FitsCurrent(s, size, align)
    ensures var pad := Slot(s, align) - (Base(Current(s)) + Current(s).used);
            Inside(Block(|s.chunks| - 1, Slot(s, align), size, align), Bump(s, size, align)) <==> pad + size < SIZE_RANGE
  {
    AlignUpFacts(Base(Current(s)) + Current(s).used, align);
  }

  /** Sixteen-byte alignment behind the 24-byte header pads by eight, and a request of
      eight bytes less than the range wraps to nothing: it fits every empty chunk. */
  lemma WrappedRequestFits(hardCap: nat)
    ensures var s := Init(FIRST, 64, hardCap);
            FitsCurrent(s, SIZE_RANGE - 8, 16) && Bump(s, SIZE_RANGE - 8, 16) == s
  {
    assert AlignUp(FIRST + HEADER, 16) == 48;
  }

  // --------------------------------------------------------------- the object

  /** `cerco_arena`, with its chunk list in order. */
  class Arena {
    var chunks: seq<Chunk>
    var total: nat
    const hardCap: nat
    var oom: bool

    ghost function View(): State reads this { State(chunks, total, hardCap, oom) }
    ghost predicate Valid() reads this { Inv(View()) }

    constructor (addr: nat, first: nat, cap: nat)
      requires Placed(addr, first)
      ensures Valid() && View() == Init(addr, first, cap)
    {
      var n := if first < 64 then 64 else first;
      chunks, total, hardCap, oom := [Chunk(addr, n, 0)], n, cap, false;
      new;
      InitInv(addr, first, cap);
    }

    method GrowBy(need: nat, m: Malloc) returns (ok: bool)
      requires Valid() && need > 0 && Honest(m)
      modifies this
      ensures Valid() && (View(), ok) == Grow(old(View()), need, m)
    {
      assert chunks != [];
      hide Inv, Plus, Honest;
      ghost var before := View();
      GrowInv(before, need, m);
      if hardCap != 0 && Plus(total, need) > hardCap {
        oom := true;
        return false;
      }
      var cap := chunks[|chunks| - 1].cap * 2;
      if cap < need { cap := need; }
      if cap > CHUNK_MAX { cap := CHUNK_MAX; }
      match m(chunks, cap) {
        case None =>
          oom := true;
          ok := false;
        case Some(addr) =>
          chunks := chunks + [Chunk(addr, cap, 0)];
          total := total + cap;
          ok := true;
      }
    }

    /** The current chunk's part of the allocation loop. */
    method TryCurrent(size: nat, align: nat) returns (p: Option<nat>)
      requires Valid() && align > 0
      modifies `chunks
      ensures Valid() && (p.Some? <==> FitsCurrent(old(View()), size, align))
      ensures if p.Some? then View() == Bump(old(View()), size, align) && p.value == Slot(old(View()), align)
              else View() == old(View())
    {
      hide Plus, AlignUp;
      var k := |chunks| - 1;
      var base := chunks[k].addr + HEADER + chunks[k].used;
      var aligned := AlignUp(base, align);
      AlignUpFacts(base, align);
      var pad := aligned - base;
      if Plus(pad, size) > chunks[k].cap - chunks[k].used {
        return None;
      }
      BumpInv(View(), size, align);
      chunks := chunks[k := chunks[k].(used := chunks[k].used + Plus(pad, size))];
      p := Some(aligned);
    }

    method AllocAligned(wanted: nat, align: nat, m: Malloc) returns (p: Option<nat>)
      requires Valid() && align > 0 && Honest(m)
      modifies this
      ensures Valid() && (View(), p) == Alloc(old(View()), wanted, align, m)
    {
      assert chunks != [];
      hide Grow, Inv, FitsCurrent, Bump, Slot;
      var size := if wanted == 0 then 1 else wanted;
      while true
        invariant Valid() && chunks != []
        invariant AllocLoop(View(), size, align, m) == Alloc(old(View()), wanted, align, m)
        decreases ADDRESS_SPACE - total
      {
        ghost var before := View();
        BumpShape(before, size, align);
        p := TryCurrent(size, align);
        if p.Some? {
          return;
        }
        GrowInv(before, size, m);
        var grown := GrowBy(size, m);
        if !grown {
          return None;
        }
      }
    }

    method ResetChunks()
      requires Valid()
      modifies this
      ensures Valid() && View() == Reset(old(View()))
    {
      ResetInv(View());
      chunks := [chunks[0].(used := 0)];
      total := chunks[0].cap;
      oom := false;
    }
  }
}
