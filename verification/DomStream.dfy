/** The wasm-to-host DOM command stream: the client's hand-written encoder with its
    32 KiB buffer and eager flush, and the host's decoder. */
module DomStream {
  import opened Bytes
  import opened Sequences

  const CMD_BUF_SIZE := 32768
  /** `cmd_end` flushes once the buffer is more than three quarters full. */
  const HIGH_WATER := CMD_BUF_SIZE - CMD_BUF_SIZE / 4
  const MAX_CMD := CMD_BUF_SIZE / 4

  datatype Cmd =
    | Create(id: u32, tag: Str, parent: u32)
    | SetText(node: u32, text: Str)
    | SetAttr(node: u32, key: Str, val: Str)
    | RemoveAttr(node: u32, key: Str)
    | AppendChild(parent: u32, child: u32)
    | RemoveNode(node: u32)
    | SetClass(node: u32, cls: Str)
    | AddClass(node: u32, cls: Str)
    | RemoveClass(node: u32, cls: Str)
    | AddEvent(node: u32, event: Str, slot: u32)
    | SetValue(node: u32, text: Str)
    | SetInnerHtml(node: u32, html: Str)

  // ---------------------------------------------------------------- encoding

  function StrBytes(s: Str): (b: seq<byte>)
    ensures |b| == 4 + |s|
  {
    U32Bytes(|s|) + s
  }

  function Encode(c: Cmd): (e: seq<byte>)
    ensures |e| > 0
  {
    match c
    case Create(id, tag, parent) => [1] + (U32Bytes(id) + (StrBytes(tag) + U32Bytes(parent)))
    case SetText(n, t) => [2] + (U32Bytes(n) + StrBytes(t))
    case SetAttr(n, k, v) => [3] + (U32Bytes(n) + (StrBytes(k) + StrBytes(v)))
    case RemoveAttr(n, k) => [4] + (U32Bytes(n) + StrBytes(k))
    case AppendChild(p, ch) => [5] + (U32Bytes(p) + U32Bytes(ch))
    case RemoveNode(n) => [6] + U32Bytes(n)
    case SetClass(n, cl) => [7] + (U32Bytes(n) + StrBytes(cl))
    case AddClass(n, cl) => [8] + (U32Bytes(n) + StrBytes(cl))
    case RemoveClass(n, cl) => [9] + (U32Bytes(n) + StrBytes(cl))
    case AddEvent(n, ev, slot) => [10] + (U32Bytes(n) + (StrBytes(ev) + U32Bytes(slot)))
    case SetValue(n, t) => [11] + (U32Bytes(n) + StrBytes(t))
    case SetInnerHtml(n, h) => [12] + (U32Bytes(n) + StrBytes(h))
  }

  function EncodeAll(cs: seq<Cmd>): seq<byte>
  {
    if cs == [] then [] else Encode(cs[0]) + EncodeAll(cs[1..])
  }

  // ---------------------------------------------------------------- decoding

  datatype Read<+T> = Got(value: T, next: nat) | RangeError

  /** `view.getUint32(pos, true)`: throws past the end of the view. */
  function ReadU32(b: seq<byte>, pos: nat): Read<u32>
  {
    if pos + 4 > |b| then RangeError else Got(GetU32(b[pos..pos + 4]), pos + 4)
  }

  function Min(a: nat, b: nat): nat { if a < b then a else b }

  /** A length-prefixed string; `subarray` clamps to the view, the position does not. */
  function ReadStr(b: seq<byte>, pos: nat): Read<Str>
  {
    match ReadU32(b, pos)
    case RangeError => RangeError
    case Got(len, p) => Got(b[Min(p, |b|)..Min(p + len, |b|)], p + len)
  }

  datatype Parse = Parsed(cmd: Cmd, next: nat) | Unknown(next: nat) | Throws

  function ReadNodeStr(b: seq<byte>, pos: nat): Read<(u32, Str)>
  {
    match ReadU32(b, pos)
    case RangeError => RangeError
    case Got(n, p) =>
      match ReadStr(b, p)
      case RangeError => RangeError
      case Got(s, q) => Got((n, s), q)
  }

  function ReadNodeStrU32(b: seq<byte>, pos: nat): Read<(u32, Str, u32)>
  {
    match ReadNodeStr(b, pos)
    case RangeError => RangeError
    case Got((n, s), p) =>
      match ReadU32(b, p)
      case RangeError => RangeError
      case Got(v, q) => Got((n, s, v), q)
  }

  function ReadNodeStrStr(b: seq<byte>, pos: nat): Read<(u32, Str, Str)>
  {
    match ReadNodeStr(b, pos)
    case RangeError => RangeError
    case Got((n, s), p) =>
      match ReadStr(b, p)
      case RangeError => RangeError
      case Got(v, q) => Got((n, s, v), q)
  }

  function ReadTwo(b: seq<byte>, pos: nat): Read<(u32, u32)>
  {
    match ReadU32(b, pos)
    case RangeError => RangeError
    case Got(n, p) =>
      match ReadU32(b, p)
      case RangeError => RangeError
      case Got(v, q) => Got((n, v), q)
  }

  predicate IsNodeStrOp(op: byte) { op == 2 || op == 4 || 7 <= op <= 9 || op == 11 || op == 12 }

  function NodeStrCmd(op: byte, n: u32, s: Str): Cmd
    requires IsNodeStrOp(op)
  {
    if op == 2 then SetText(n, s)
    else if op == 4 then RemoveAttr(n, s)
    else if op == 7 then SetClass(n, s)
    else if op == 8 then AddClass(n, s)
    else if op == 9 then RemoveClass(n, s)
    else if op == 11 then SetValue(n, s)
    else SetInnerHtml(n, s)
  }

  /** `processCommand`: one command, or an unknown opcode skipped by its one byte. */
  function ParseAt(b: seq<byte>, pos: nat): (r: Parse)
    requires pos < |b|
    ensures r.Parsed? || r.Unknown? ==> r.next > pos
  {
    var p := pos + 1;
    var op := b[pos];
    if IsNodeStrOp(op) then
      (match ReadNodeStr(b, p)
       case RangeError => Throws
       case Got((n, s), q) => Parsed(NodeStrCmd(op, n, s), q))
    else if op == 1 || op == 10 then
      (match ReadNodeStrU32(b, p)
       case RangeError => Throws
       case Got((n, s, v), q) => Parsed(if op == 1 then Create(n, s, v) else AddEvent(n, s, v), q))
    else if op == 3 then
      (match ReadNodeStrStr(b, p)
       case RangeError => Throws
       case Got((n, k, v), q) => Parsed(SetAttr(n, k, v), q))
    else if op == 5 then
      (match ReadTwo(b, p)
       case RangeError => Throws
       case Got((n, v), q) => Parsed(AppendChild(n, v), q))
    else if op == 6 then
      (match ReadU32(b, p)
       case RangeError => Throws
       case Got(n, q) => Parsed(RemoveNode(n), q))
    else Unknown(p)
  }

  /** What one `domFlush` call sees: the commands, and whether it ran to the end. */
  datatype Batch = Batch(cmds: seq<Cmd>, complete: bool)

  function DecodeFrom(b: seq<byte>, pos: nat): Batch
    decreases |b| - pos
  {
    if pos >= |b| then Batch([], true)
    else match ParseAt(b, pos)
      case Throws => Batch([], false)
      case Unknown(next) => DecodeFrom(b, next)
      case Parsed(c, next) => var rest := DecodeFrom(b, next); rest.(cmds := [c] + rest.cmds)
  }

  function Decode(b: seq<byte>): Batch { DecodeFrom(b, 0) }

  // -------------------------------------------------- decoder inverts encoder

  lemma ReadU32Held(b: seq<byte>, pos: nat, v: u32)
    requires Holds(b, pos, U32Bytes(v))
    ensures ReadU32(b, pos) == Got(v, pos + 4)
  {
    U32RoundTrip(v);
  }

  lemma ReadStrHeld(b: seq<byte>, pos: nat, s: Str)
    requires Holds(b, pos, StrBytes(s))
    ensures ReadStr(b, pos) == Got(s, pos + |StrBytes(s)|)
  {
    HoldsSplit(b, pos, U32Bytes(|s|), s);
    ReadU32Held(b, pos, |s|);
  }

  lemma ReadNodeStrHeld(b: seq<byte>, pos: nat, n: u32, s: Str)
    requires Holds(b, pos, U32Bytes(n)) && Holds(b, pos + 4, StrBytes(s))
    ensures ReadNodeStr(b, pos) == Got((n, s), pos + 4 + |StrBytes(s)|)
  {
    ReadU32Held(b, pos, n);
    ReadStrHeld(b, pos + 4, s);
  }

  lemma ReadNodeStrU32Held(b: seq<byte>, pos: nat, n: u32, s: Str, v: u32)
    requires Holds(b, pos, U32Bytes(n) + (StrBytes(s) + U32Bytes(v)))
    ensures ReadNodeStrU32(b, pos) == Got((n, s, v), pos + 8 + |StrBytes(s)|)
  {
    HoldsSplit(b, pos, U32Bytes(n), StrBytes(s) + U32Bytes(v));
    HoldsSplit(b, pos + 4, StrBytes(s), U32Bytes(v));
    ReadNodeStrHeld(b, pos, n, s);
    ReadU32Held(b, pos + 4 + |StrBytes(s)|, v);
  }

  lemma ReadNodeStrStrHeld(b: seq<byte>, pos: nat, n: u32, s: Str, t: Str)
    requires Holds(b, pos, U32Bytes(n) + (StrBytes(s) + StrBytes(t)))
    ensures ReadNodeStrStr(b, pos) == Got((n, s, t), pos + 4 + |StrBytes(s)| + |StrBytes(t)|)
  {
    HoldsSplit(b, pos, U32Bytes(n), StrBytes(s) + StrBytes(t));
    HoldsSplit(b, pos + 4, StrBytes(s), StrBytes(t));
    ReadNodeStrHeld(b, pos, n, s);
    ReadStrHeld(b, pos + 4 + |StrBytes(s)|, t);
  }

  lemma ParseNodeStr(b: seq<byte>, pos: nat, op: byte, n: u32, s: Str)
    requires IsNodeStrOp(op) && Holds(b, pos, [op] + (U32Bytes(n) + StrBytes(s)))
    ensures pos < |b| && ParseAt(b, pos) == Parsed(NodeStrCmd(op, n, s), pos + 5 + |StrBytes(s)|)
  {
    HoldsSplit(b, pos, [op], U32Bytes(n) + StrBytes(s));
    assert b[pos] == b[pos..pos + 1][0] == op;
    HoldsSplit(b, pos + 1, U32Bytes(n), StrBytes(s));
    ReadNodeStrHeld(b, pos + 1, n, s);
  }

  lemma ParseNodeStrU32(b: seq<byte>, pos: nat, op: byte, n: u32, s: Str, v: u32)
    requires op == 1 || op == 10
    requires Holds(b, pos, [op] + (U32Bytes(n) + (StrBytes(s) + U32Bytes(v))))
    ensures pos < |b|
    ensures ParseAt(b, pos) ==
            Parsed(if op == 1 then Create(n, s, v) else AddEvent(n, s, v), pos + 9 + |StrBytes(s)|)
  {
    HoldsSplit(b, pos, [op], U32Bytes(n) + (StrBytes(s) + U32Bytes(v)));
    assert b[pos] == b[pos..pos + 1][0] == op;
    ReadNodeStrU32Held(b, pos + 1, n, s, v);
  }

  lemma ParseSetAttr(b: seq<byte>, pos: nat, n: u32, s: Str, t: Str)
    requires Holds(b, pos, [3] + (U32Bytes(n) + (StrBytes(s) + StrBytes(t))))
    ensures pos < |b|
    ensures ParseAt(b, pos) == Parsed(SetAttr(n, s, t), pos + 5 + |StrBytes(s)| + |StrBytes(t)|)
  {
    HoldsSplit(b, pos, [3], U32Bytes(n) + (StrBytes(s) + StrBytes(t)));
    assert b[pos] == b[pos..pos + 1][0] == 3;
    ReadNodeStrStrHeld(b, pos + 1, n, s, t);
  }

  lemma ParseAppendChild(b: seq<byte>, pos: nat, n: u32, ch: u32)
    requires Holds(b, pos, [5] + (U32Bytes(n) + U32Bytes(ch)))
    ensures pos < |b| && ParseAt(b, pos) == Parsed(AppendChild(n, ch), pos + 9)
  {
    HoldsSplit(b, pos, [5], U32Bytes(n) + U32Bytes(ch));
    assert b[pos] == b[pos..pos + 1][0] == 5;
    HoldsSplit(b, pos + 1, U32Bytes(n), U32Bytes(ch));
    ReadU32Held(b, pos + 1, n);
    ReadU32Held(b, pos + 5, ch);
  }

  lemma ParseRemoveNode(b: seq<byte>, pos: nat, n: u32)
    requires Holds(b, pos, [6] + U32Bytes(n))
    ensures pos < |b| && ParseAt(b, pos) == Parsed(RemoveNode(n), pos + 5)
  {
    HoldsSplit(b, pos, [6], U32Bytes(n));
    assert b[pos] == b[pos..pos + 1][0] == 6;
    ReadU32Held(b, pos + 1, n);
  }

  /** Wherever an encoded command sits in a view, the host parses back that command
      and stops right behind it. */
  lemma ParseInvertsEncode(b: seq<byte>, pos: nat, c: Cmd)
    requires Holds(b, pos, Encode(c))
    ensures pos < |b| && ParseAt(b, pos) == Parsed(c, pos + |Encode(c)|)
  {
    hide ParseAt;
    match c
    case SetText(n, s) => ParseNodeStr(b, pos, 2, n, s);
    case RemoveAttr(n, s) => ParseNodeStr(b, pos, 4, n, s);
    case SetClass(n, s) => ParseNodeStr(b, pos, 7, n, s);
    case AddClass(n, s) => ParseNodeStr(b, pos, 8, n, s);
    case RemoveClass(n, s) => ParseNodeStr(b, pos, 9, n, s);
    case SetValue(n, s) => ParseNodeStr(b, pos, 11, n, s);
    case SetInnerHtml(n, s) => ParseNodeStr(b, pos, 12, n, s);
    case Create(n, s, v) => ParseNodeStrU32(b, pos, 1, n, s, v);
    case AddEvent(n, s, v) => ParseNodeStrU32(b, pos, 10, n, s, v);
    case SetAttr(n, s, t) => ParseSetAttr(b, pos, n, s, t);
    case AppendChild(n, ch) => ParseAppendChild(b, pos, n, ch);
    case RemoveNode(n) => ParseRemoveNode(b, pos, n);
  }

  lemma {:induction false} DecodeHeld(b: seq<byte>, pos: nat, cs: seq<Cmd>)
    requires Holds(b, pos, EncodeAll(cs)) && pos + |EncodeAll(cs)| == |b|
    ensures DecodeFrom(b, pos) == Batch(cs, true)
    decreases cs
  {
    hide Encode, ParseAt;
    if cs != [] {
      HoldsSplit(b, pos, Encode(cs[0]), EncodeAll(cs[1..]));
      ParseInvertsEncode(b, pos, cs[0]);
      DecodeHeld(b, pos + |Encode(cs[0])|, cs[1..]);
    }
  }

  lemma DecodeInvertsEncode(cs: seq<Cmd>)
    ensures Decode(EncodeAll(cs)) == Batch(cs, true)
  {
    DecodeHeld(EncodeAll(cs), 0, cs);
  }

  lemma {:induction false} EncodeAllConcat(cs: seq<Cmd>, ds: seq<Cmd>)
    ensures EncodeAll(cs + ds) == EncodeAll(cs) + EncodeAll(ds)
  {
    if cs == [] {
      assert cs + ds == ds;
    } else {
      assert (cs + ds)[1..] == cs[1..] + ds;
      EncodeAllConcat(cs[1..], ds);
    }
  }

  // ------------------------------------------------------------ stream states

  /** The buffered bytes and the batches handed to the host so far. */
  datatype Stream = Stream(buf: seq<byte>, batches: seq<seq<byte>>)

  datatype Op = Issue(cmd: Cmd) | Flush

  const START := Stream([], [])

  function Flushed(s: Stream): Stream
  {
    if s.buf == [] then s else Stream([], s.batches + [s.buf])
  }

  function Step(s: Stream, op: Op): Stream
  {
    match op
    case Flush => Flushed(s)
    case Issue(c) =>
      var t := s.(buf := s.buf + Encode(c));
      if |t.buf| > HIGH_WATER then Flushed(t) else t
  }

  function Run(s: Stream, ops: seq<Op>): Stream
    decreases ops
  {
    if ops == [] then s else Run(Step(s, ops[0]), ops[1..])
  }

  function Issued(ops: seq<Op>): seq<Cmd>
  {
    if ops == [] then [] else (if ops[0].Issue? then [ops[0].cmd] else []) + Issued(ops[1..])
  }

  predicate Fits(s: Stream, op: Op)
  {
    op.Issue? ==> |s.buf| + |Encode(op.cmd)| <= CMD_BUF_SIZE
  }

  /** Every write of the run stays inside the 32 KiB buffer. */
  predicate RunFits(s: Stream, ops: seq<Op>)
    decreases ops
  {
    ops == [] || (Fits(s, ops[0]) && RunFits(Step(s, ops[0]), ops[1..]))
  }

  predicate Small(op: Op) { op.Issue? ==> |Encode(op.cmd)| <= MAX_CMD }

  /** What the host has processed after all batches. */
  function Received(batches: seq<seq<byte>>): seq<Cmd>
  {
    if batches == [] then [] else Received(batches[..|batches| - 1]) + Decode(batches[|batches| - 1]).cmds
  }

  /** A byte string that is a whole number of commands: decoding runs to its end and
      re-encoding gives it back. */
  predicate Whole(b: seq<byte>)
  {
    Decode(b).complete && EncodeAll(Decode(b).cmds) == b
  }

  predicate Sound(s: Stream)
  {
    && Whole(s.buf) && |s.buf| <= CMD_BUF_SIZE
    && (forall i | 0 <= i < |s.batches| :: Whole(s.batches[i]) && 0 < |s.batches[i]| <= CMD_BUF_SIZE)
  }

  /** Commands issued so far, as far as the bytes tell. */
  function Emitted(s: Stream): seq<Cmd> { Received(s.batches) + Decode(s.buf).cmds }

  lemma FlushedSound(s: Stream)
    requires Sound(s)
    ensures Sound(Flushed(s)) && Emitted(Flushed(s)) == Emitted(s) && Flushed(s).buf == []
  {
    if s.buf != [] {
      assert Flushed(s).batches[..|s.batches|] == s.batches;
    }
  }

  lemma StepSound(s: Stream, op: Op)
    requires Sound(s) && Fits(s, op)
    ensures Sound(Step(s, op))
    ensures Emitted(Step(s, op)) == Emitted(s) + (if op.Issue? then [op.cmd] else [])
    ensures |s.buf| <= HIGH_WATER ==> |Step(s, op).buf| <= HIGH_WATER
  {
    match op
    case Flush => FlushedSound(s);
    case Issue(c) =>
      var cs := Decode(s.buf).cmds;
      EncodeAllConcat(cs, [c]);
      DecodeInvertsEncode(cs + [c]);
      assert EncodeAll([c]) == Encode(c);
      var t := s.(buf := s.buf + Encode(c));
      assert Decode(t.buf) == Batch(cs + [c], true);
      assert Emitted(t) == Emitted(s) + [c];
      FlushedSound(t);
  }

  /** Any run whose writes stay inside the buffer hands the host whole commands only,
      and the host sees exactly the issued commands, in order, plus what is still
      buffered. */
  lemma {:induction false} RunSound(s: Stream, ops: seq<Op>)
    requires Sound(s) && RunFits(s, ops)
    ensures Sound(Run(s, ops))
    ensures Emitted(Run(s, ops)) == Emitted(s) + Issued(ops)
    decreases ops
  {
    hide Sound, Emitted, Step, Encode, Decode;
    if ops != [] {
      var t := Step(s, ops[0]);
      StepSound(s, ops[0]);
      RunSound(t, ops[1..]);
      ConcatAssoc(Emitted(s), if ops[0].Issue? then [ops[0].cmd] else [], Issued(ops[1..]));
    }
  }

  /** Commands of at most 8 KiB never overrun the buffer, in any run. */
  lemma {:induction false} SmallCommandsFit(s: Stream, ops: seq<Op>)
    requires |s.buf| <= HIGH_WATER && (forall i | 0 <= i < |ops| :: Small(ops[i]))
    ensures RunFits(s, ops) && |Run(s, ops).buf| <= HIGH_WATER
    decreases ops
  {
    if ops != [] {
      assert Small(ops[0]);
      SmallCommandsFit(Step(s, ops[0]), ops[1..]);
    }
  }

  /** The stream theorem: for every run of DOM calls with commands of at most 8 KiB the
      buffer is never overrun, no flush splits a command, and decoding all batches in
      order, then the bytes still buffered, gives exactly the issued commands. */
  lemma StreamFaithful(ops: seq<Op>)
    requires forall i | 0 <= i < |ops| :: Small(ops[i])
    ensures RunFits(START, ops)
    ensures var s := Run(START, ops);
            && Sound(s) && |s.buf| <= HIGH_WATER
            && Received(s.batches) + Decode(s.buf).cmds == Issued(ops)
  {
    hide Run, RunFits, Decode, Issued, Small, Whole;
    SmallCommandsFit(START, ops);
    StartSound();
    RunSound(START, ops);
    assert [] + Issued(ops) == Issued(ops);
  }

  lemma StartSound()
    ensures Sound(START) && Emitted(START) == []
  {
    DecodeInvertsEncode([]);
  }

  /** Text the encoder can be given: it measures with `strlen`. */
  predicate IssuesCStrings(op: Op)
  {
    match op
    case Flush => true
    case Issue(Create(_, tag, _)) => NulFree(tag)
    case Issue(SetText(_, t)) => NulFree(t)
    case Issue(SetAttr(_, k, v)) => NulFree(k) && NulFree(v)
    case Issue(RemoveAttr(_, k)) => NulFree(k)
    case Issue(AppendChild(_, _)) => true
    case Issue(RemoveNode(_)) => true
    case Issue(SetClass(_, cl)) => NulFree(cl)
    case Issue(AddClass(_, cl)) => NulFree(cl)
    case Issue(RemoveClass(_, cl)) => NulFree(cl)
    case Issue(AddEvent(_, ev, _)) => NulFree(ev)
    case Issue(SetValue(_, t)) => NulFree(t)
    case Issue(SetInnerHtml(_, html)) => NulFree(html)
  }

  /** 8 KiB is the exact limit: some run of small commands, their texts C strings, leaves
      room for no more. */
  lemma EightKiBIsTight(c: Cmd)
    requires |Encode(c)| > MAX_CMD
    ensures exists ops: seq<Op> ::
              (forall i | 0 <= i < |ops| :: Small(ops[i]) && IssuesCStrings(ops[i])) && !Fits(Run(START, ops), Issue(c))
  {
    var op, ops := FullestRun();
    hide Run, Encode, Small, IssuesCStrings;
    assert forall i | 0 <= i < |ops| :: ops[i] == op;
  }

  /** Three commands of 8 KiB fill the buffer to the flush mark, which does not flush. */
  lemma FullestRun() returns (op: Op, ops: seq<Op>)
    ensures Small(op) && IssuesCStrings(op) && ops == [op, op, op] && |Run(START, ops).buf| == HIGH_WATER
  {
    var text: Str := seq(MAX_CMD - 9, _ => 65);
    op := Issue(SetText(1, text));
    ops := [op, op, op];
    assert |Encode(op.cmd)| == MAX_CMD;
    hide Encode;
    RunThree(op);
  }

  lemma RunThree(op: Op)
    ensures Run(START, [op, op, op]) == Step(Step(Step(START, op), op), op)
  {
    hide Step;
    assert [op, op, op][1..] == [op, op] && [op, op][1..] == [op] && [op][1..] == [];
    assert Run(START, [op, op, op]) == Run(Step(START, op), [op, op]);
    assert Run(Step(START, op), [op, op]) == Run(Step(Step(START, op), op), [op]);
  }

  // ------------------------------------------------------- client-side buffer

  const MAX_EVENT_SLOTS := 512

  /** `cmd_buf`/`cmd_len` and the DOM calls that append to them. `batches` records the
      arguments of the host import. */
  class CommandBuffer {
    const cmdBuf: array<byte>
    var cmdLen: nat
    var batches: seq<seq<byte>>
    var nextDynamicId: u32
    var slotCount: nat

    ghost predicate Valid()
      reads this
    {
      cmdBuf.Length == CMD_BUF_SIZE && cmdLen <= CMD_BUF_SIZE && slotCount <= MAX_EVENT_SLOTS
    }

    ghost function View(): Stream
      requires Valid()
      reads this, cmdBuf
    {
      Stream(cmdBuf[..cmdLen], batches)
    }

    constructor ()
      ensures Valid() && View() == START && fresh(cmdBuf) && nextDynamicId == 0x10_0000 && slotCount == 0
    {
      cmdBuf := new byte[CMD_BUF_SIZE];
      cmdLen, batches, nextDynamicId, slotCount := 0, [], 0x10_0000, 0;
    }

    method PutU8(v: byte)
      requires Valid() && cmdLen + 1 <= CMD_BUF_SIZE
      modifies `cmdLen, cmdBuf
      ensures Valid() && cmdBuf[..cmdLen] == old(cmdBuf[..cmdLen]) + [v]
    {
      cmdBuf[cmdLen] := v;
      cmdLen := cmdLen + 1;
    }

    method PutU32(v: u32)
      requires Valid() && cmdLen + 4 <= CMD_BUF_SIZE
      modifies `cmdLen, cmdBuf
      ensures Valid() && cmdBuf[..cmdLen] == old(cmdBuf[..cmdLen]) + U32Bytes(v)
    {
      PutU8(v % 0x100);
      PutU8(v / 0x100 % 0x100);
      PutU8(v / 0x1_0000 % 0x100);
      PutU8(v / 0x100_0000 % 0x100);
    }

    method PutStr(s: Str)
      requires Valid() && cmdLen + 4 + |s| <= CMD_BUF_SIZE
      modifies `cmdLen, cmdBuf
      ensures Valid() && cmdBuf[..cmdLen] == old(cmdBuf[..cmdLen]) + StrBytes(s)
    {
      PutU32(|s|);
      ghost var head := cmdBuf[..cmdLen];
      var i := 0;
      while i < |s|
        invariant 0 <= i <= |s| && Valid() && cmdLen == |head| + i
        invariant cmdBuf[..cmdLen] == head + s[..i]
      {
        PutU8(s[i]);
        i := i + 1;
      }
    }

    method End()
      requires Valid()
      modifies `cmdLen, `batches
      ensures Valid()
      ensures View() == if old(cmdLen) > HIGH_WATER then Flushed(old(View())) else old(View())
    {
      if cmdLen > CMD_BUF_SIZE - CMD_BUF_SIZE / 4 {
        batches := batches + [cmdBuf[..cmdLen]];
        cmdLen := 0;
      }
    }

    method DomFlush()
      requires Valid()
      modifies `cmdLen, `batches
      ensures Valid() && View() == Step(old(View()), Flush)
    {
      if cmdLen != 0 {
        batches := batches + [cmdBuf[..cmdLen]];
        cmdLen := 0;
      }
    }

    /** The shape shared by all node-plus-string calls. */
    method NodeStr(op: byte, node: u32, s: Str, ghost c: Cmd)
      requires Valid() && Fits(View(), Issue(c))
      requires Encode(c) == [op] + (U32Bytes(node) + StrBytes(s))
      modifies `cmdLen, `batches, cmdBuf
      ensures Valid() && View() == Step(old(View()), Issue(c))
    {
      hide U32Bytes, StrBytes, Encode;
      PutU8(op);
      PutU32(node);
      PutStr(s);
      assert cmdBuf[..cmdLen] == old(cmdBuf[..cmdLen]) + Encode(c);
      End();
    }

    method SetText(node: i32, s: Str)
      requires Valid() && Fits(View(), Issue(Cmd.SetText(ToU32(node), s)))
      modifies `cmdLen, `batches, cmdBuf
      ensures Valid() && View() == Step(old(View()), Issue(Cmd.SetText(ToU32(node), s)))
    {
      NodeStr(2, ToU32(node), s, Cmd.SetText(ToU32(node), s));
    }

    method SetAttr(node: i32, k: Str, v: Str)
      requires Valid() && Fits(View(), Issue(Cmd.SetAttr(ToU32(node), k, v)))
      modifies `cmdLen, `batches, cmdBuf
      ensures Valid() && View() == Step(old(View()), Issue(Cmd.SetAttr(ToU32(node), k, v)))
    {
      hide U32Bytes, StrBytes, ToU32;
      PutU8(3);
      PutU32(ToU32(node));
      PutStr(k);
      PutStr(v);
      AppendFour(old(cmdBuf[..cmdLen]), [3], U32Bytes(ToU32(node)), StrBytes(k), StrBytes(v));
      assert cmdBuf[..cmdLen] == old(cmdBuf[..cmdLen]) + Encode(Cmd.SetAttr(ToU32(node), k, v));
      End();
    }

    method RemoveAttr(node: i32, k: Str)
      requires Valid() && Fits(View(), Issue(Cmd.RemoveAttr(ToU32(node), k)))
      modifies `cmdLen, `batches, cmdBuf
      ensures Valid() && View() == Step(old(View()), Issue(Cmd.RemoveAttr(ToU32(node), k)))
    {
      NodeStr(4, ToU32(node), k, Cmd.RemoveAttr(ToU32(node), k));
    }

    method SetClass(node: i32, cls: Str)
      requires Valid() && Fits(View(), Issue(Cmd.SetClass(ToU32(node), cls)))
      modifies `cmdLen, `batches, cmdBuf
      ensures Valid() && View() == Step(old(View()), Issue(Cmd.SetClass(ToU32(node), cls)))
    {
      NodeStr(7, ToU32(node), cls, Cmd.SetClass(ToU32(node), cls));
    }

    method AddClass(node: i32, cls: Str)
      requires Valid() && Fits(View(), Issue(Cmd.AddClass(ToU32(node), cls)))
      modifies `cmdLen, `batches, cmdBuf
      ensures Valid() && View() == Step(old(View()), Issue(Cmd.AddClass(ToU32(node), cls)))
    {
      NodeStr(8, ToU32(node), cls, Cmd.AddClass(ToU32(node), cls));
    }

    method RemoveClass(node: i32, cls: Str)
      requires Valid() && Fits(View(), Issue(Cmd.RemoveClass(ToU32(node), cls)))
      modifies `cmdLen, `batches, cmdBuf
      ensures Valid() && View() == Step(old(View()), Issue(Cmd.RemoveClass(ToU32(node), cls)))
    {
      NodeStr(9, ToU32(node), cls, Cmd.RemoveClass(ToU32(node), cls));
    }

    method Create(tag: Str, parent: i32) returns (id: i32)
      requires Valid() && Fits(View(), Issue(Cmd.Create(nextDynamicId, tag, ToU32(parent))))
      modifies `cmdLen, `batches, `nextDynamicId, cmdBuf
      ensures Valid() && id == ToI32(old(nextDynamicId))
      ensures nextDynamicId == (old(nextDynamicId) + 1) % 0x1_0000_0000
      ensures View() == Step(old(View()), Issue(Cmd.Create(old(nextDynamicId), tag, ToU32(parent))))
    {
      hide U32Bytes, StrBytes, ToU32;
      var raw := nextDynamicId;
      nextDynamicId := (nextDynamicId + 1) % 0x1_0000_0000;
      PutU8(1);
      PutU32(raw);
      PutStr(tag);
      PutU32(ToU32(parent));
      AppendFour(old(cmdBuf[..cmdLen]), [1], U32Bytes(raw), StrBytes(tag), U32Bytes(ToU32(parent)));
      assert cmdBuf[..cmdLen] == old(cmdBuf[..cmdLen]) + Encode(Cmd.Create(raw, tag, ToU32(parent)));
      End();
      id := ToI32(raw);
    }

    method Remove(node: i32)
      requires Valid() && Fits(View(), Issue(RemoveNode(ToU32(node))))
      modifies `cmdLen, `batches, cmdBuf
      ensures Valid() && View() == Step(old(View()), Issue(RemoveNode(ToU32(node))))
    {
      PutU8(6);
      PutU32(ToU32(node));
      assert cmdBuf[..cmdLen] == old(cmdBuf[..cmdLen]) + Encode(RemoveNode(ToU32(node)));
      End();
    }

    method SetValue(node: i32, v: Str)
      requires Valid() && Fits(View(), Issue(Cmd.SetValue(ToU32(node), v)))
      modifies `cmdLen, `batches, cmdBuf
      ensures Valid() && View() == Step(old(View()), Issue(Cmd.SetValue(ToU32(node), v)))
    {
      NodeStr(11, ToU32(node), v, Cmd.SetValue(ToU32(node), v));
    }

    method SetInnerHtml(node: i32, html: Str)
      requires Valid() && Fits(View(), Issue(Cmd.SetInnerHtml(ToU32(node), html)))
      modifies `cmdLen, `batches, cmdBuf
      ensures Valid() && View() == Step(old(View()), Issue(Cmd.SetInnerHtml(ToU32(node), html)))
    {
      NodeStr(12, ToU32(node), html, Cmd.SetInnerHtml(ToU32(node), html));
    }

    /** Registers an event slot; a full slot table drops the call. */
    method On(node: i32, event: Str)
      requires Valid() && (slotCount < MAX_EVENT_SLOTS ==> Fits(View(), Issue(AddEvent(ToU32(node), event, slotCount))))
      modifies `cmdLen, `batches, `slotCount, cmdBuf
      ensures Valid()
      ensures old(slotCount) == MAX_EVENT_SLOTS ==> View() == old(View()) && slotCount == old(slotCount)
      ensures old(slotCount) < MAX_EVENT_SLOTS ==>
                && slotCount == old(slotCount) + 1
                && View() == Step(old(View()), Issue(AddEvent(ToU32(node), event, old(slotCount))))
    {
      if slotCount >= MAX_EVENT_SLOTS {
        return;
      }
      hide U32Bytes, StrBytes, ToU32;
      var slot := slotCount;
      slotCount := slotCount + 1;
      PutU8(10);
      PutU32(ToU32(node));
      PutStr(event);
      PutU32(slot);
      AppendFour(old(cmdBuf[..cmdLen]), [10], U32Bytes(ToU32(node)), StrBytes(event), U32Bytes(slot));
      assert cmdBuf[..cmdLen] == old(cmdBuf[..cmdLen]) + Encode(AddEvent(ToU32(node), event, slot));
      End();
    }
  }
}
