/** The wasm client's bump heap: a sticky floor, rewinding, and growth by pages up to a
    fixed limit. Addresses and sizes are 32 bits wide, and their sums wrap. */
module BumpHeap {
  import opened Bytes

  const PAGE := 65536
  const MAX_PAGES := 64
  const WORD := 0x1_0000_0000

  /** `heap_ptr`, `heap_end`, `heap_sticky_floor` (zero while no sticky block exists) and
      the linker's heap base. */
  datatype Heap = Heap(ptr: u32, end: u32, floor: u32, base: u32)

  /** Addition of two machine words. */
  function Plus(x: u32, y: u32): u32 { if x + y < WORD then x + y else x + y - WORD }

  /** `(n + 15) & ~15`. */
  function Round16(n: u32): u32 { Plus(n, 15) / 16 * 16 }

  function BlockSize(n: u32): u32 { if Round16(n) == 0 then 16 else Round16(n) }

  function Init(base: u32, memory: u32): Heap { Heap(Round16(base), memory, 0, base) }

  function PagesEnd(end: u32): u32 { Plus(end, PAGE - 1) / PAGE * PAGE }

  /** Pages are added one at a time; `more` is how many the engine will still grant. The
      target is at most 64 pages, so this sum stays far from the word size. */
  function GrowPages(pagesEnd: nat, target: nat, more: nat): (r: Option<nat>)
    ensures r.Some? ==> r.value >= target && r.value >= pagesEnd
    ensures r.Some? ==> r.value < if pagesEnd < target then target + PAGE else pagesEnd + 1
    decreases more
  {
    if pagesEnd >= target then Some(pagesEnd)
    else if more == 0 then None
    else GrowPages(pagesEnd + PAGE, target, more - 1)
  }

  function Grow(h: Heap, need: u32, more: nat): (Heap, bool)
  {
    var target := Plus(h.ptr, need);
    if target > MAX_PAGES * PAGE then (h, false)
    else match GrowPages(PagesEnd(h.end), target, more)
      case None => (h, false)
      case Some(end) => (h.(end := end), true)
  }

  function Alloc(h: Heap, n: u32, more: nat): (Heap, Option<u32>)
  {
    var size := BlockSize(n);
    if Plus(h.ptr, size) > h.end then
      var (g, ok) := Grow(h, size, more);
      if ok then (g.(ptr := Plus(g.ptr, size)), Some(h.ptr)) else (h, None)
    else (h.(ptr := Plus(h.ptr, size)), Some(h.ptr))
  }

  function AllocSticky(h: Heap, n: u32, more: nat): (Heap, Option<u32>)
  {
    var (g, p) := Alloc(h, n, more);
    (if p.Some? then g.(floor := Plus(h.ptr, Round16(n))) else g, p)
  }

  function Rewind(h: Heap): Heap { h.(ptr := if h.floor != 0 then h.floor else h.base) }

  // --------------------------------------------------------------------- runs

  datatype Op = Ordinary(n: u32, more: nat) | Sticky(n: u32, more: nat) | RewindOp

  /** A block as its caller may use it: the `len` bytes that were asked for. */
  datatype Block = Block(start: nat, len: nat)

  predicate Apart(a: Block, b: Block) { a.start + a.len <= b.start || b.start + b.len <= a.start }

  /** The heap with the blocks that must stay untouched: all sticky ones ever handed out,
      and the ordinary ones since the last rewind. */
  datatype Run = Run(heap: Heap, sticky: seq<Block>, ordinary: seq<Block>)

  function Step(r: Run, op: Op): Run
  {
    match op
    case Ordinary(n, more) =>
      var (g, p) := Alloc(r.heap, n, more);
      r.(heap := g, ordinary := if p.Some? then r.ordinary + [Block(p.value, n)] else r.ordinary)
    case Sticky(n, more) =>
      var (g, p) := AllocSticky(r.heap, n, more);
      r.(heap := g, sticky := if p.Some? then r.sticky + [Block(p.value, n)] else r.sticky)
    case RewindOp => Run(Rewind(r.heap), r.sticky, [])
  }

  function Execute(r: Run, ops: seq<Op>): Run
    decreases ops
  {
    if ops == [] then r else Execute(Step(r, ops[0]), ops[1..])
  }

  /** What a caller can check before an allocation: neither the rounded size nor the new
      heap top wraps; a sticky block has at least one byte. */
  predicate SizeOk(h: Heap, op: Op)
  {
    match op
    case Ordinary(n, _) => NoWrap(h, n)
    case Sticky(n, _) => n >= 1 && NoWrap(h, n)
    case RewindOp => true
  }

  predicate NoWrap(h: Heap, n: u32) { n <= WORD - 16 && h.ptr + BlockSize(n) < WORD }

  predicate RunOk(r: Run, ops: seq<Op>)
    decreases ops
  {
    ops == [] || (SizeOk(r.heap, ops[0]) && RunOk(Step(r, ops[0]), ops[1..]))
  }

  function Bound(memory: nat): nat { if memory < MAX_PAGES * PAGE then MAX_PAGES * PAGE else memory }

  ghost predicate Inv(r: Run, memory: nat)
  {
    var h := r.heap;
    && h.floor <= h.ptr <= h.end <= Bound(memory) && h.base <= h.ptr && h.base <= h.end
    && memory % PAGE == 0 && h.end % PAGE == 0 && memory <= h.end
    && (h.floor != 0 ==> h.base <= h.floor)
    && (h.floor == 0 ==> r.sticky == [])
    && Below(r.sticky, h.floor) && Below(r.ordinary, h.ptr)
    && PairwiseApart(r.sticky) && PairwiseApart(r.ordinary) && AllApart(r.sticky, r.ordinary)
  }

  predicate Below(bs: seq<Block>, limit: nat) { forall i | 0 <= i < |bs| :: bs[i].start + bs[i].len <= limit }

  predicate PairwiseApart(bs: seq<Block>) { forall i, j | 0 <= i < j < |bs| :: Apart(bs[i], bs[j]) }

  predicate AllApart(a: seq<Block>, b: seq<Block>)
  {
    forall i, j | 0 <= i < |a| && 0 <= j < |b| :: Apart(a[i], b[j])
  }

  /** A block from `limit` on joins blocks that all end before it. */
  lemma BlockAdded(bs: seq<Block>, b: Block, limit: nat, next: nat)
    requires Below(bs, limit) && PairwiseApart(bs) && limit <= b.start && b.start + b.len <= next
    ensures Below(bs + [b], next) && PairwiseApart(bs + [b])
  {
    var cs := bs + [b];
    forall i | 0 <= i < |cs|
      ensures cs[i].start + cs[i].len <= next
    {
      assert i < |bs| ==> cs[i] == bs[i];
    }
    forall i, j | 0 <= i < j < |cs|
      ensures Apart(cs[i], cs[j])
    {
      assert cs[i] == bs[i] && (j < |bs| ==> cs[j] == bs[j]);
    }
  }

  lemma ApartFromAdded(a: seq<Block>, bs: seq<Block>, b: Block, limit: nat)
    requires AllApart(a, bs) && Below(a, limit) && limit <= b.start
    ensures AllApart(a, bs + [b])
  {
    forall i, j | 0 <= i < |a| && 0 <= j < |bs + [b]|
      ensures Apart(a[i], (bs + [b])[j])
    {
      assert j < |bs| ==> (bs + [b])[j] == bs[j];
    }
  }

  lemma AddedApart(a: seq<Block>, b: Block, bs: seq<Block>, limit: nat)
    requires AllApart(a, bs) && Below(bs, limit) && limit <= b.start
    ensures AllApart(a + [b], bs)
  {
    forall i, j | 0 <= i < |a + [b]| && 0 <= j < |bs|
      ensures Apart((a + [b])[i], bs[j])
    {
      assert i < |a| ==> (a + [b])[i] == a[i];
    }
  }

  lemma Round16Facts(n: u32)
    requires n <= WORD - 16
    ensures n <= Round16(n) < n + 16 && (n >= 1 <==> Round16(n) >= 1)
    ensures n <= BlockSize(n) <= n + 16
  {
  }

  lemma {:induction false} GrowPagesFacts(pagesEnd: nat, target: nat, more: nat, limit: nat)
    requires pagesEnd % PAGE == 0 && limit % PAGE == 0 && target <= limit
    ensures GrowPages(pagesEnd, target, more).Some? ==>
              && GrowPages(pagesEnd, target, more).value % PAGE == 0
              && GrowPages(pagesEnd, target, more).value <= if pagesEnd < limit then limit else pagesEnd
    decreases more
  {
    if pagesEnd < target && more > 0 {
      GrowPagesFacts(pagesEnd + PAGE, target, more - 1, limit);
    }
  }

  /** An allocation that does not wrap hands out the bytes from the old heap top on and
      stays within bounds. */
  lemma AllocFacts(h: Heap, n: u32, more: nat, memory: nat)
    requires NoWrap(h, n) && h.ptr <= h.end <= Bound(memory)
    requires h.end % PAGE == 0 && memory % PAGE == 0 && memory <= h.end
    ensures var (g, p) := Alloc(h, n, more);
            && g.ptr <= g.end <= Bound(memory) && g.end % PAGE == 0 && h.end <= g.end
            && g.floor == h.floor && g.base == h.base
            && (p.None? ==> g == h)
            && (p.Some? ==> p.value == h.ptr && h.ptr + n <= g.ptr == h.ptr + BlockSize(n))
  {
    Round16Facts(n);
    PagesEndOfPages(h.end);
    hide Round16, PagesEnd;
    GrowPagesFacts(h.end, if h.ptr + BlockSize(n) <= MAX_PAGES * PAGE then h.ptr + BlockSize(n) else 0, more, MAX_PAGES * PAGE);
  }

  lemma PagesEndOfPages(end: u32)
    requires end % PAGE == 0
    ensures PagesEnd(end) == end
  {
  }

  /** The block is memory of its own: it lies below the new heap top, and that within the
      memory that is mapped. */
  predicate Handed(g: Heap, p: u32, n: u32) { p + n <= g.ptr <= g.end }

  /** The exact condition of a sound allocation: a block that is handed out is memory of
      its own if and only if neither its rounded size nor the new heap top wraps. A heap top
      that wraps is never refused. */
  lemma AllocSoundIff(h: Heap, n: u32, more: nat, memory: nat)
    requires h.ptr <= h.end <= Bound(memory)
    requires h.end % PAGE == 0 && memory % PAGE == 0 && memory <= h.end
    ensures var (g, p) := Alloc(h, n, more);
            && (p.Some? ==> (Handed(g, p.value, n) <==> NoWrap(h, n)))
            && (h.ptr + BlockSize(n) >= WORD ==> p == Some(h.ptr) && g.ptr == h.ptr + BlockSize(n) - WORD)
  {
    if NoWrap(h, n) {
      AllocFacts(h, n, more, memory);
    } else if n > WORD - 16 {
      assert Round16(n) == 0;
    }
  }

  lemma OrdinaryInv(r: Run, n: u32, more: nat, memory: nat)
    requires Inv(r, memory) && SizeOk(r.heap, Ordinary(n, more))
    ensures Inv(Step(r, Ordinary(n, more)), memory)
  {
    hide Alloc, Round16, Bound, Below, PairwiseApart, AllApart;
    AllocFacts(r.heap, n, more, memory);
    if Alloc(r.heap, n, more).1.Some? {
      var b := Block(r.heap.ptr, n);
      BlockAdded(r.ordinary, b, r.heap.ptr, Alloc(r.heap, n, more).0.ptr);
      ApartFromAdded(r.sticky, r.ordinary, b, r.heap.floor);
    }
  }

  lemma StickyInv(r: Run, n: u32, more: nat, memory: nat)
    requires Inv(r, memory) && SizeOk(r.heap, Sticky(n, more))
    ensures Inv(Step(r, Sticky(n, more)), memory)
  {
    Round16Facts(n);
    hide Alloc, Round16, Bound, Below, PairwiseApart, AllApart;
    AllocFacts(r.heap, n, more, memory);
    var t := Step(r, Sticky(n, more));
    if Alloc(r.heap, n, more).1.Some? {
      var b := Block(r.heap.ptr, n);
      BlockAdded(r.sticky, b, r.heap.floor, t.heap.floor);
      AddedApart(r.sticky, b, r.ordinary, r.heap.ptr);
      BelowMore(r.ordinary, r.heap.ptr, t.heap.ptr);
    }
  }

  lemma BelowMore(bs: seq<Block>, limit: nat, next: nat)
    requires Below(bs, limit) && limit <= next
    ensures Below(bs, next)
  {
  }

  lemma StepInv(r: Run, op: Op, memory: nat)
    requires Inv(r, memory) && SizeOk(r.heap, op)
    ensures Inv(Step(r, op), memory)
  {
    match op
    case Ordinary(n, more) => OrdinaryInv(r, n, more, memory);
    case Sticky(n, more) => StickyInv(r, n, more, memory);
    case RewindOp => RewindInv(r, memory);
  }

  lemma RewindInv(r: Run, memory: nat)
    requires Inv(r, memory)
    ensures Inv(Step(r, RewindOp), memory)
  {
    hide Bound, Apart;
    assert Step(r, RewindOp).heap == Rewind(r.heap);
  }

  lemma {:induction false} ExecuteInv(r: Run, ops: seq<Op>, memory: nat)
    requires Inv(r, memory) && RunOk(r, ops)
    ensures Inv(Execute(r, ops), memory)
    decreases ops
  {
    hide Inv, Step, SizeOk;
    if ops != [] {
      StepInv(r, ops[0], memory);
      ExecuteInv(Step(r, ops[0]), ops[1..], memory);
    }
  }

  /** For every run of allocations, sticky allocations and rewinds whose sums do not wrap:
      the floor, the heap top and the end stay ordered and bounded, and no block overlaps
      a sticky block ever handed out or an ordinary one handed out since the last
      rewind. */
  lemma HeapSafe(base: u32, memory: u32, ops: seq<Op>)
    requires memory % PAGE == 0 && base + 15 <= memory
    requires RunOk(Run(Init(base, memory), [], []), ops)
    ensures var r := Execute(Run(Init(base, memory), [], []), ops);
            && r.heap.floor <= r.heap.ptr <= r.heap.end <= Bound(memory)
            && (forall i, j | 0 <= i < j < |r.sticky| :: Apart(r.sticky[i], r.sticky[j]))
            && (forall i, j | 0 <= i < j < |r.ordinary| :: Apart(r.ordinary[i], r.ordinary[j]))
            && (forall i, j | 0 <= i < |r.sticky| && 0 <= j < |r.ordinary| :: Apart(r.sticky[i], r.ordinary[j]))
  {
    assert Inv(Run(Init(base, memory), [], []), memory);
    ExecuteInv(Run(Init(base, memory), [], []), ops, memory);
  }

  /** The exact condition of stickiness: a sticky block that is handed out lies, and the
      heap top with it, at or below the new floor, where no later rewind goes - if and
      only if it has at least one byte and neither its rounded size nor the new heap top
      wraps. */
  lemma StickyProtectedIff(h: Heap, n: u32, more: nat, memory: nat)
    requires h.ptr <= h.end <= Bound(memory)
    requires h.end % PAGE == 0 && memory % PAGE == 0 && memory <= h.end
    requires AllocSticky(h, n, more).1.Some?
    ensures var (g, p) := AllocSticky(h, n, more);
            Handed(g, p.value, n) && g.ptr <= g.floor <==> SizeOk(h, Sticky(n, more))
  {
    AllocSoundIff(h, n, more, memory);
    if NoWrap(h, n) {
      AllocFacts(h, n, more, memory);
      Round16Facts(n);
    }
  }

  /** How far the engine's grants reach. */
  lemma {:induction false} GrowPagesIff(pagesEnd: nat, target: nat, more: nat)
    ensures GrowPages(pagesEnd, target, more).Some? <==> target <= pagesEnd + more * PAGE
    ensures pagesEnd < target && GrowPages(pagesEnd, target, more).Some? ==>
              GrowPages(pagesEnd, target, more).value < target + PAGE
    decreases more
  {
    if pagesEnd < target && more > 0 {
      GrowPagesIff(pagesEnd + PAGE, target, more - 1);
    }
  }

  /** Exactly when a request that does not wrap is granted: the block ends within the mapped
      memory, or within 64 pages and within what the engine adds. Only as many pages are
      added as the block needs; a refusal changes nothing. */
  lemma GrantedIff(h: Heap, n: u32, more: nat, memory: nat)
    requires NoWrap(h, n) && h.ptr <= h.end <= Bound(memory)
    requires h.end % PAGE == 0 && memory % PAGE == 0 && memory <= h.end
    ensures var (g, p) := Alloc(h, n, more);
            var top := h.ptr + BlockSize(n);
            && (p.Some? <==> top <= h.end || (top <= MAX_PAGES * PAGE && top <= h.end + more * PAGE))
            && (p.None? ==> g == h)
            && (p.Some? ==> if top <= h.end then g.end == h.end else top <= g.end < top + PAGE)
  {
    AllocFacts(h, n, more, memory);
    PagesEndOfPages(h.end);
    hide Round16, PagesEnd, BlockSize;
    var top := h.ptr + BlockSize(n);
    GrowPagesIff(h.end, top, more);
    assert Plus(h.ptr, BlockSize(n)) == top;
  }

  // ---------------------------------------------------------------- alignment

  ghost predicate Aligned(r: Run)
  {
    && r.heap.ptr % 16 == 0 && r.heap.floor % 16 == 0
    && (forall b | b in r.sticky :: b.start % 16 == 0) && (forall b | b in r.ordinary :: b.start % 16 == 0)
  }

  lemma RoundedAligned(n: u32)
    ensures Round16(n) % 16 == 0 && BlockSize(n) % 16 == 0
  {
  }

  lemma {:induction false} ExecuteAligned(r: Run, ops: seq<Op>, memory: nat)
    requires Inv(r, memory) && RunOk(r, ops) && Aligned(r) && r.heap.base % 16 == 0
    ensures Aligned(Execute(r, ops))
    decreases ops
  {
    hide Inv, Execute;
    if ops == [] {
      assert Execute(r, ops) == r by { ExecuteNone(r); }
    } else {
      StepInv(r, ops[0], memory);
      StepAligned(r, ops[0], memory);
      ExecuteFirst(r, ops);
      hide Step, Aligned, SizeOk;
      ExecuteAligned(Step(r, ops[0]), ops[1..], memory);
    }
  }

  lemma ExecuteNone(r: Run)
    ensures Execute(r, []) == r
  {
  }

  lemma ExecuteFirst(r: Run, ops: seq<Op>)
    requires ops != []
    ensures Execute(r, ops) == Execute(Step(r, ops[0]), ops[1..])
  {
  }

  lemma StepAligned(r: Run, op: Op, memory: nat)
    requires Inv(r, memory) && SizeOk(r.heap, op) && Aligned(r) && r.heap.base % 16 == 0
    ensures Aligned(Step(r, op)) && Step(r, op).heap.base == r.heap.base
  {
    hide Inv, NoWrap;
    if op.RewindOp? {
    } else {
      assert NoWrap(r.heap, op.n);
      AllocAligned(r, op.n, op.more, memory);
      hide Alloc, Round16, Plus;
    }
  }

  lemma AllocAligned(r: Run, n: u32, more: nat, memory: nat)
    requires Inv(r, memory) && NoWrap(r.heap, n) && r.heap.ptr % 16 == 0
    ensures var (g, p) := Alloc(r.heap, n, more);
            && g.ptr % 16 == 0 && g.floor == r.heap.floor && g.base == r.heap.base
            && (p.Some? ==> p.value == r.heap.ptr) && Plus(r.heap.ptr, Round16(n)) % 16 == 0
  {
    AllocFacts(r.heap, n, more, memory);
    RoundedAligned(n);
    Round16Facts(n);
    hide Alloc, Inv;
    SumAligned(r.heap.ptr, BlockSize(n));
    SumAligned(r.heap.ptr, Round16(n));
    hide Round16;
  }

  lemma SumAligned(a: nat, b: nat)
    requires a % 16 == 0 && b % 16 == 0
    ensures (a + b) % 16 == 0
  {
  }

  /** Initialisation rounds the linker's base up and a rewind does not: in every run all
      blocks are 16-byte aligned if and only if the base is. */
  lemma AlignedIff(base: u32, memory: u32)
    requires memory % PAGE == 0 && base + 64 <= memory
    ensures base % 16 == 0 <==>
            forall ops: seq<Op> | RunOk(Run(Init(base, memory), [], []), ops) ::
              Aligned(Execute(Run(Init(base, memory), [], []), ops))
  {
    var r := Run(Init(base, memory), [], []);
    assert Inv(r, memory);
    if base % 16 == 0 {
      forall ops: seq<Op> | RunOk(r, ops)
        ensures Aligned(Execute(r, ops))
      {
        ExecuteAligned(r, ops, memory);
      }
    } else {
      hide Execute;
      var ops := [RewindOp, Ordinary(1, 0)];
      assert ops[1..] == [Ordinary(1, 0)] && ops[1..][1..] == [];
      ExecuteFirst(r, ops);
      var r1 := Step(r, RewindOp);
      ExecuteFirst(r1, ops[1..]);
      var r2 := Step(r1, Ordinary(1, 0));
      ExecuteNone(r2);
      assert r2.ordinary == [Block(base, 1)];
      assert RunOk(r2, []) && RunOk(r1, ops[1..]) && RunOk(r, ops);
      assert Block(base, 1) in Execute(r, ops).ordinary;
    }
  }

  /** A zero-byte sticky allocation gets a 16-byte block that the next rewind gives away. */
  lemma EmptyStickyReused(h: Heap)
    requires 0 < h.ptr && h.ptr + 16 <= h.end
    ensures var (g, p) := AllocSticky(h, 0, 0);
            p == Some(h.ptr) && Alloc(Rewind(g), 1, 0).1 == p
  {
  }

  /** A request close to the word size is granted: the heap top wraps to below the sticky
      floor, and the next block lies in a sticky one. */
  lemma WrappedTopOverlaps()
    ensures var ops := [Sticky(0x1_0000, 0), Ordinary(0x1000, 0), Ordinary(0xFFFF_0000, 0), Ordinary(16, 0)];
            var r := Execute(Run(Init(0x1_0000, 0x3_0000), [], []), ops);
            && r.sticky == [Block(0x1_0000, 0x1_0000)]
            && |r.ordinary| == 3 && r.ordinary[1] == Block(0x2_1000, 0xFFFF_0000)
            && r.ordinary[2] == Block(0x1_1000, 16) && !Apart(r.sticky[0], r.ordinary[2])
  {
    hide Execute, Grow;
    var r0 := Run(Init(0x1_0000, 0x3_0000), [], []);
    var a, b, c, d := Sticky(0x1_0000, 0), Ordinary(0x1000, 0), Ordinary(0xFFFF_0000, 0), Ordinary(16, 0);
    var r1 := Step(r0, a);
    assert r1.heap == Heap(0x2_0000, 0x3_0000, 0x2_0000, 0x1_0000);
    var r2 := Step(r1, b);
    assert r2.heap == r1.heap.(ptr := 0x2_1000);
    var r3 := Step(r2, c);
    assert r3.heap == r1.heap.(ptr := 0x1_1000);
    ExecuteFour(r0, a, b, c, d);
  }

  lemma ExecuteFour(r: Run, a: Op, b: Op, c: Op, d: Op)
    ensures Execute(r, [a, b, c, d]) == Step(Step(Step(Step(r, a), b), c), d)
  {
    hide Step;
    assert [a, b, c, d][1..] == [b, c, d] && [b, c, d][1..] == [c, d] && [c, d][1..] == [d] && [d][1..] == [];
    assert Execute(r, [a, b, c, d]) == Execute(Step(r, a), [b, c, d]);
    assert Execute(Step(r, a), [b, c, d]) == Execute(Step(Step(r, a), b), [c, d]);
    assert Execute(Step(Step(r, a), b), [c, d]) == Execute(Step(Step(Step(r, a), b), c), [d]);
  }

  // --------------------------------------------------------------- the object

  class ClientHeap {
    var heapPtr: u32
    var heapEnd: u32
    var stickyFloor: u32
    const base: u32

    ghost function View(): Heap reads this { Heap(heapPtr, heapEnd, stickyFloor, base) }

    constructor (heapBase: u32, memory: u32)
      ensures View() == Init(heapBase, memory)
    {
      base := heapBase;
      heapPtr := Plus(heapBase, 15) / 16 * 16;
      heapEnd := memory;
      stickyFloor := 0;
    }

    method HeapGrow(need: u32, more: nat) returns (ok: bool)
      modifies `heapEnd
      ensures (View(), ok) == Grow(old(View()), need, more)
    {
      var target := Plus(heapPtr, need);
      if target > MAX_PAGES * PAGE {
        return false;
      }
      var pagesEnd: nat := Plus(heapEnd, PAGE - 1) / PAGE * PAGE;
      var left := more;
      while pagesEnd < target
        invariant left >= 0 && (pagesEnd < target + PAGE || pagesEnd == PagesEnd(heapEnd))
        invariant GrowPages(pagesEnd, target, left) == GrowPages(PagesEnd(heapEnd), target, more)
        invariant heapEnd == old(heapEnd)
        decreases left
      {
        if left == 0 {
          return false;
        }
        left := left - 1;
        pagesEnd := pagesEnd + PAGE;
      }
      heapEnd := pagesEnd;
      ok := true;
    }

    method AllocBlock(n: u32, more: nat) returns (p: Option<u32>)
      modifies `heapPtr, `heapEnd
      ensures (View(), p) == Alloc(old(View()), n, more)
    {
      var size: u32 := Plus(n, 15) / 16 * 16;
      if size == 0 { size := 16; }
      if Plus(heapPtr, size) > heapEnd {
        var ok := HeapGrow(size, more);
        if !ok {
          return None;
        }
      }
      p := Some(heapPtr);
      heapPtr := Plus(heapPtr, size);
    }

    method AllocStickyBlock(n: u32, more: nat) returns (p: Option<u32>)
      modifies `heapPtr, `heapEnd, `stickyFloor
      ensures (View(), p) == AllocSticky(old(View()), n, more)
    {
      var before := heapPtr;
      p := AllocBlock(n, more);
      if p.Some? {
        stickyFloor := Plus(before, Plus(n, 15) / 16 * 16);
      }
    }

    method HeapRewind()
      modifies `heapPtr
      ensures View() == Rewind(old(View()))
    {
      heapPtr := if stickyFloor != 0 then stickyFloor else base;
    }
  }
}
