/** The arena-backed response buffer, and what the completion drain sends from it. */
module ResponseBuffer {
  import opened Bytes
  import A = Arena

  /** Contents and capacity; the storage is an arena block. */
  datatype Buf = Buf(data: seq<byte>, cap: nat)

  datatype State = State(arena: A.State, buf: Buf)

  /** Doubling until the request fits. */
  function Doubled(cap: nat, need: nat): (c: nat)
    requires cap > 0
    ensures c >= need && c >= cap
    decreases if cap < need then need - cap else 0
  {
    if cap < need then Doubled(cap * 2, need) else cap
  }

  function Grown(s: State, need: nat, m: A.Malloc): (t: State)
    requires A.Inv(s.arena) && A.Honest(m)
    ensures A.Inv(t.arena) && t.buf.data == s.buf.data
    ensures t.buf.cap >= |s.buf.data| + need || t.arena.oom
    ensures s.arena.oom ==> t.arena.oom
  {
    if |s.buf.data| + need <= s.buf.cap then s
    else
      var cap := Doubled(if s.buf.cap > 0 then s.buf.cap * 2 else 4096, |s.buf.data| + need);
      var (a, p) := A.Alloc(s.arena, cap, 8, m);
      State(a, if p.None? then s.buf else s.buf.(cap := cap))
  }

  /** `wbuf_putn`: a write that finds no room is dropped. */
  function Put(s: State, bytes: seq<byte>, m: A.Malloc): (t: State)
    requires A.Inv(s.arena) && A.Honest(m)
    ensures A.Inv(t.arena)
  {
    var g := Grown(s, |bytes|, m);
    if g.buf.cap < |g.buf.data| + |bytes| then g else g.(buf := g.buf.(data := g.buf.data + bytes))
  }

  datatype Op =
    | Write(bytes: seq<byte>, m: A.Malloc)
    | ResetBuffer
    | OtherAlloc(size: nat, align: nat, ma: A.Malloc)

  ghost predicate OpOk(op: Op)
  {
    match op
    case Write(_, m) => A.Honest(m)
    case ResetBuffer => true
    case OtherAlloc(_, align, m) => align > 0 && A.Honest(m)
  }

  ghost function Step(s: State, op: Op): (t: State)
    requires A.Inv(s.arena) && OpOk(op)
    ensures A.Inv(t.arena)
  {
    match op
    case Write(bytes, m) => Put(s, bytes, m)
    case ResetBuffer => s.(buf := Buf([], 0))
    case OtherAlloc(size, align, m) => s.(arena := A.Alloc(s.arena, size, align, m).0)
  }

  ghost function Run(s: State, ops: seq<Op>): (t: State)
    requires A.Inv(s.arena) && forall i | 0 <= i < |ops| :: OpOk(ops[i])
    ensures A.Inv(t.arena)
    decreases |ops|
  {
    if |ops| == 0 then s else Run(Step(s, ops[0]), ops[1..])
  }

  /** Everything written since the last reset of the buffer. */
  function Written(before: seq<byte>, ops: seq<Op>): seq<byte>
    decreases |ops|
  {
    if |ops| == 0 then before
    else match ops[0]
      case Write(bytes, _) => Written(before + bytes, ops[1..])
      case ResetBuffer => Written([], ops[1..])
      case OtherAlloc(_, _, _) => Written(before, ops[1..])
  }

  /** Either the arena failure flag is up, or nothing has been dropped. */
  ghost predicate Complete(s: State, written: seq<byte>)
  {
    !s.arena.oom ==> s.buf.data == written
  }

  lemma PutComplete(s: State, written: seq<byte>, bytes: seq<byte>, m: A.Malloc)
    requires A.Inv(s.arena) && A.Honest(m) && Complete(s, written)
    ensures Complete(Put(s, bytes, m), written + bytes)
  {
    hide A.Alloc;
  }

  /** A write takes its bytes whole, or the arena refused a block that would have held the
      contents and them, raised its flag, and the buffer is as before. */
  lemma PutWholeOrRefused(s: State, bytes: seq<byte>, m: A.Malloc)
    requires A.Inv(s.arena) && A.Honest(m)
    ensures var t, need := Put(s, bytes, m), |s.buf.data| + |bytes|;
            || (t.buf.data == s.buf.data + bytes && t.arena.oom == s.arena.oom
                && (need <= s.buf.cap ==> t.arena == s.arena))
            || (&& t.buf == s.buf && t.arena.oom && need > s.buf.cap
                && exists size: nat :: size >= need && A.Alloc(s.arena, size, 8, m) == (t.arena, None))
  {
    hide A.Alloc;
    var need := |s.buf.data| + |bytes|;
    if need > s.buf.cap {
      var size := Doubled(if s.buf.cap > 0 then s.buf.cap * 2 else 4096, need);
      assert A.Alloc(s.arena, size, 8, m) == (A.Alloc(s.arena, size, 8, m).0, A.Alloc(s.arena, size, 8, m).1);
    }
  }

  lemma AllocKeepsFlag(a: A.State, size: nat, align: nat, m: A.Malloc)
    requires A.Inv(a) && align > 0 && A.Honest(m)
    ensures a.oom ==> A.Alloc(a, size, align, m).0.oom
  {
    hide A.AllocLoop;
  }

  lemma {:induction false} RunComplete(s: State, ops: seq<Op>, before: seq<byte>)
    requires A.Inv(s.arena) && forall i | 0 <= i < |ops| :: OpOk(ops[i])
    requires Complete(s, before)
    ensures Complete(Run(s, ops), Written(before, ops))
    decreases |ops|
  {
    hide Put, A.Alloc, A.Inv, A.Honest;
    if |ops| > 0 {
      assert OpOk(ops[0]);
      match ops[0] {
        case Write(bytes, m) =>
          PutComplete(s, before, bytes, m);
          RunComplete(Put(s, bytes, m), ops[1..], before + bytes);
        case ResetBuffer =>
          RunComplete(Step(s, ops[0]), ops[1..], []);
        case OtherAlloc(size, align, m) =>
          AllocKeepsFlag(s.arena, size, align, m);
          RunComplete(Step(s, ops[0]), ops[1..], before);
      }
    }
  }

  // -------------------------------------------------------------------- drain

  type Headers = seq<(seq<byte>, seq<byte>)>

  datatype Response = Response(status: int, headers: Headers, body: seq<byte>)

  const LIMIT_TEXT: seq<byte> := Ascii("request exceeded memory limit\n")
  const EMPTY_TEXT: seq<byte> := Ascii("empty response\n")

  /** The drain's decision for a live request, before the title and script splices, with
      the buffer and arena it leaves: the replacement texts go through the same arena. */
  ghost function Drained(s: State, status: int, headers: Headers, m: A.Malloc): (o: (State, Response))
    requires A.Inv(s.arena) && A.Honest(m)
  {
    if s.arena.oom && status < 500 then
      var t := Put(s.(buf := Buf([], 0)), LIMIT_TEXT, m);
      (t, Response(500, [], t.buf.data))
    else if s.buf.data == [] && status < 300 then
      var t := Put(s, EMPTY_TEXT, m);
      (t, Response(500, headers, t.buf.data))
    else (s, Response(status, headers, s.buf.data))
  }

  /** What is sent, told by what the handler wrote (`written`), its status and the arena's
      flag: below 500 exactly the written bytes under the handler's status, unless the flag
      is up or there is neither a byte nor a status of 300 or more; then 500 with one of
      two texts, whole, or nothing when the arena has no room for even that. From 500 on
      whatever the buffer holds. */
  ghost predicate SentRight(s: State, written: seq<byte>, status: int, headers: Headers, r: Response)
  {
    && (status >= 500 ==> r == Response(status, headers, s.buf.data))
    && (status < 500 ==>
          (r == Response(status, headers, written) <==> !s.arena.oom && (written != [] || status >= 300)))
    && (status < 500 && s.arena.oom ==>
          r.status == 500 && r.headers == [] && r.body in {Ascii("request exceeded memory limit\n"), []})
    && (status < 300 && !s.arena.oom && written == [] ==>
          r.status == 500 && r.headers == headers && r.body in {Ascii("empty response\n"), []})
  }

  lemma DrainedRight(s: State, written: seq<byte>, status: int, headers: Headers, m: A.Malloc)
    requires A.Inv(s.arena) && A.Honest(m) && Complete(s, written)
    ensures SentRight(s, written, status, headers, Drained(s, status, headers, m).1)
  {
    PutWholeOrRefused(s.(buf := Buf([], 0)), LIMIT_TEXT, m);
    PutWholeOrRefused(s, EMPTY_TEXT, m);
    hide Put, A.Alloc, A.Inv, A.Honest;
    assert [] + LIMIT_TEXT == LIMIT_TEXT && [] + EMPTY_TEXT == EMPTY_TEXT;
  }

  /** A replacement text is missing only if the arena refused a block. */
  lemma ReplacedWholeOrEmpty(s: State, status: int, headers: Headers, m: A.Malloc)
    requires A.Inv(s.arena) && A.Honest(m)
    ensures var (t, r) := Drained(s, status, headers, m);
            r != Response(status, headers, s.buf.data) && r.body == [] ==>
              exists size: nat :: A.Alloc(s.arena, size, 8, m) == (t.arena, None)
  {
    PutWholeOrRefused(s.(buf := Buf([], 0)), LIMIT_TEXT, m);
    PutWholeOrRefused(s, EMPTY_TEXT, m);
    hide Put, A.Alloc, A.Inv, A.Honest;
    assert [] + LIMIT_TEXT != [] && [] + EMPTY_TEXT != [];
  }

  /** No silent truncation: for every sequence of handler writes, buffer resets and other
      allocations, the response sent is right with respect to everything written since the
      last reset. */
  lemma NoSilentTruncation(arena: A.State, ops: seq<Op>, status: int, headers: Headers, m: A.Malloc)
    requires A.Inv(arena) && A.Honest(m) && forall i | 0 <= i < |ops| :: OpOk(ops[i])
    ensures var s := Run(State(arena, Buf([], 0)), ops);
            SentRight(s, Written([], ops), status, headers, Drained(s, status, headers, m).1)
  {
    RunComplete(State(arena, Buf([], 0)), ops, []);
    DrainedRight(Run(State(arena, Buf([], 0)), ops), Written([], ops), status, headers, m);
  }

  /** `cerco_wbuf` over a live arena. */
  class WBuf {
    const arena: A.Arena
    var data: seq<byte>
    var cap: nat

    ghost function View(): State reads this, arena { State(arena.View(), Buf(data, cap)) }
    ghost predicate Valid() reads this, arena { arena.Valid() }

    constructor (a: A.Arena)
      requires a.Valid()
      ensures Valid() && arena == a && View() == State(a.View(), Buf([], 0))
    {
      arena, data, cap := a, [], 0;
    }

    method Grow(need: nat, m: A.Malloc)
      requires Valid() && A.Honest(m)
      modifies this, arena
      ensures Valid() && View() == Grown(old(View()), need, m)
    {
      hide A.Alloc;
      if |data| + need <= cap {
        return;
      }
      var bigger := if cap != 0 then cap * 2 else 4096;
      ghost var first := bigger;
      while bigger < |data| + need
        invariant bigger > 0 && Doubled(bigger, |data| + need) == Doubled(first, |data| + need)
        decreases |data| + need - bigger
      {
        bigger := bigger * 2;
      }
      var p := arena.AllocAligned(bigger, 8, m);
      if p.None? {
        return;
      }
      cap := bigger;
    }

    method PutN(bytes: seq<byte>, m: A.Malloc)
      requires Valid() && A.Honest(m)
      modifies this, arena
      ensures Valid() && View() == Put(old(View()), bytes, m)
    {
      hide Grown;
      Grow(|bytes|, m);
      if cap < |data| + |bytes| {
        return;
      }
      data := data + bytes;
    }

    /** The drain, on the request's buffer; the headers are dropped with the body. */
    method Drain(status: int, headers: Headers, m: A.Malloc) returns (r: Response)
      requires Valid() && A.Honest(m)
      modifies this, arena
      ensures Valid() && (View(), r) == Drained(old(View()), status, headers, m)
      ensures SentRight(old(View()), old(data), status, headers, r)
    {
      ghost var before := View();
      DrainedRight(before, data, status, headers, m);
      hide Put, SentRight;
      if arena.oom && status < 500 {
        ResetBuf();
        PutN(LIMIT_TEXT, m);
        return Response(500, [], data);
      } else if |data| == 0 && status < 300 {
        PutN(EMPTY_TEXT, m);
        return Response(500, headers, data);
      }
      return Response(status, headers, data);
    }

    method ResetBuf()
      requires Valid()
      modifies `data, `cap
      ensures Valid() && View() == State(arena.View(), Buf([], 0))
    {
      data, cap := [], 0;
    }
  }
}
