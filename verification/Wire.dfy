/** The server-function value codec: reader and writer over a byte buffer, each with a
    position and a sticky error flag. */
module Wire {
  import opened Bytes

  /** `cerco_wval`. A boolean occupies the 32-bit slot; `as.b` is its low byte. */
  datatype WVal =
    | I32(i: i32)
    | I64(l: i64)
    | F64(bits: u64)
    | Bool(slot: i32)
    | StrVal(data: Str)
    | BytesVal(data: Str)

  function LowByte(i: i32): byte { ToU32(i) % 0x100 }

  function Tag(v: WVal): byte
  {
    match v
    case I32(_) => 0
    case I64(_) => 1
    case F64(_) => 2
    case Bool(_) => 3
    case StrVal(_) => 4
    case BytesVal(_) => 5
  }

  function Payload(v: WVal): seq<byte>
  {
    match v
    case I32(i) => U32Bytes(ToU32(i))
    case I64(l) => U64Bytes(ToU64(l))
    case F64(bits) => U64Bytes(bits)
    case Bool(slot) => U32Bytes(if LowByte(slot) != 0 then 1 else 0)
    case StrVal(s) => U32Bytes(|s|) + s
    case BytesVal(s) => U32Bytes(|s|) + s
  }

  function EncVal(v: WVal): seq<byte> { [Tag(v)] + Payload(v) }

  /** What a value looks like after a trip over the wire: booleans become 0 or 1. */
  function Normal(v: WVal): WVal
  {
    if v.Bool? then Bool(if LowByte(v.slot) != 0 then 1 else 0) else v
  }

  /** Every byte form the reader takes for `v`: a boolean may carry any 32-bit word. */
  function RawPayload(v: WVal): seq<byte>
  {
    if v.Bool? then U32Bytes(ToU32(v.slot)) else Payload(v)
  }

  function RawVal(v: WVal): seq<byte> { [Tag(v)] + RawPayload(v) }

  /** The writer's form is the raw form of the normalised value. */
  lemma EncIsRaw(v: WVal)
    ensures EncVal(v) == RawVal(Normal(v)) && Tag(Normal(v)) == Tag(v)
  {
  }

  function ValSize(v: WVal): (n: nat)
    ensures n == |EncVal(v)|
  {
    match v
    case I32(_) => 5
    case Bool(_) => 5
    case I64(_) => 9
    case F64(_) => 9
    case StrVal(s) => 5 + |s|
    case BytesVal(s) => 5 + |s|
  }

  // ------------------------------------------------------------------ reading

  datatype Reader = Reader(data: seq<byte>, pos: nat, err: bool)

  predicate InRange(r: Reader) { r.pos <= |r.data| }

  function Take(r: Reader, n: nat): (o: (Reader, Option<seq<byte>>))
    requires InRange(r)
    ensures InRange(o.0) && o.0.data == r.data && o.0.pos >= r.pos && (o.0.err <==> o.1.None?)
    ensures o.1.Some? ==> |o.1.value| == n && o.0.pos == r.pos + n
  {
    if r.err || n > |r.data| - r.pos then (r.(err := true), None)
    else (r.(pos := r.pos + n), Some(r.data[r.pos..r.pos + n]))
  }

  function ReadU8(r: Reader): (o: (Reader, byte))
    requires InRange(r)
    ensures InRange(o.0) && o.0.data == r.data && o.0.pos >= r.pos
  {
    var (r1, p) := Take(r, 1);
    (r1, if p.Some? then p.value[0] else 0)
  }

  function ReadU32(r: Reader): (o: (Reader, u32))
    requires InRange(r)
    ensures InRange(o.0) && o.0.data == r.data && o.0.pos >= r.pos
  {
    var (r1, p) := Take(r, 4);
    (r1, if p.Some? then GetU32(p.value) else 0)
  }

  function ReadU64(r: Reader): (o: (Reader, u64))
    requires InRange(r)
    ensures InRange(o.0) && o.0.data == r.data && o.0.pos >= r.pos
  {
    var (r1, p) := Take(r, 8);
    (r1, if p.Some? then GetU64(p.value) else 0)
  }

  /** The value behind type byte `t`; `None` leaves the error flag set. */
  function ReadPayload(r: Reader, t: byte): (o: (Reader, Option<WVal>))
    requires InRange(r) && !r.err
    ensures InRange(o.0) && o.0.data == r.data && o.0.pos >= r.pos && (o.0.err <==> o.1.None?)
  {
    if t == 0 || t == 3 then
      var (r1, u) := ReadU32(r);
      (r1, if r1.err then None else Some(if t == 0 then I32(ToI32(u)) else Bool(ToI32(u))))
    else if t == 1 || t == 2 then
      var (r1, u) := ReadU64(r);
      (r1, if r1.err then None else Some(if t == 1 then I64(ToI64(u)) else F64(u)))
    else if t == 4 || t == 5 then
      var (r1, len) := ReadU32(r);
      var (r2, p) := Take(r1, len);
      (r2, if p.None? then None else Some(if t == 4 then StrVal(p.value) else BytesVal(p.value)))
    else (r.(err := true), None)
  }

  function ReadVal(r: Reader): (o: (Reader, Option<WVal>))
    requires InRange(r)
    ensures InRange(o.0) && o.0.data == r.data && o.0.pos >= r.pos && (o.0.err <==> o.1.None?)
  {
    var (r1, t) := ReadU8(r);
    if r1.err then (r1, None) else ReadPayload(r1, t)
  }

  // ------------------------------------------------- the reader inverts the writer

  lemma ReadU32At(r: Reader, v: u32)
    requires !r.err && Holds(r.data, r.pos, U32Bytes(v))
    ensures ReadU32(r) == (r.(pos := r.pos + 4), v)
  {
    U32RoundTrip(v);
  }

  lemma ReadU64At(r: Reader, v: u64)
    requires !r.err && Holds(r.data, r.pos, U64Bytes(v))
    ensures ReadU64(r) == (r.(pos := r.pos + 8), v)
  {
    U64RoundTrip(v);
  }

  lemma ReadPayloadAt(r: Reader, v: WVal)
    requires !r.err && Holds(r.data, r.pos, RawPayload(v))
    ensures ReadPayload(r, Tag(v)) == (r.(pos := r.pos + |RawPayload(v)|), Some(v))
  {
    hide U32Bytes, U64Bytes, GetU32, GetU64, LowByte;
    match v
    case I32(i) => ReadU32At(r, ToU32(i));
    case Bool(slot) => ReadU32At(r, ToU32(slot));
    case I64(l) => ReadU64At(r, ToU64(l));
    case F64(bits) => ReadU64At(r, bits);
    case StrVal(s) =>
      HoldsSplit(r.data, r.pos, U32Bytes(|s|), s);
      ReadU32At(r, |s|);
    case BytesVal(s) =>
      HoldsSplit(r.data, r.pos, U32Bytes(|s|), s);
      ReadU32At(r, |s|);
  }

  /** Wherever a raw value sits in the body, the reader returns that value and stops right
      behind it. */
  lemma ReadRawAt(r: Reader, v: WVal)
    requires !r.err && Holds(r.data, r.pos, RawVal(v))
    ensures ReadVal(r) == (r.(pos := r.pos + |RawVal(v)|), Some(v))
  {
    HoldsSplit(r.data, r.pos, [Tag(v)], RawPayload(v));
    assert r.data[r.pos] == r.data[r.pos..r.pos + 1][0] == Tag(v);
    ReadPayloadAt(r.(pos := r.pos + 1), v);
  }

  /** So it does for what the writer wrote. */
  lemma ReadValAt(r: Reader, v: WVal)
    requires !r.err && Holds(r.data, r.pos, EncVal(v))
    ensures ReadVal(r) == (r.(pos := r.pos + |EncVal(v)|), Some(Normal(v)))
  {
    hide EncVal, RawVal, Normal, ReadVal;
    EncIsRaw(v);
    ReadRawAt(r, Normal(v));
  }

  lemma ReadPayloadIsRaw(r: Reader, t: byte)
    requires InRange(r) && !r.err && ReadPayload(r, t).1.Some?
    ensures var (r1, v) := ReadPayload(r, t);
            && Tag(v.value) == t && Holds(r.data, r.pos, RawPayload(v.value))
            && r1 == r.(pos := r.pos + |RawPayload(v.value)|)
  {
    hide U32Bytes, U64Bytes, GetU32, GetU64;
    var d, p := r.data, r.pos;
    if t == 0 || t == 3 {
      U32BytesBack(d[p..p + 4]);
    } else if t == 1 || t == 2 {
      U64BytesBack(d[p..p + 8]);
    } else {
      U32BytesBack(d[p..p + 4]);
      var n := GetU32(d[p..p + 4]);
      assert d[p..p + 4 + n] == d[p..p + 4] + d[p + 4..p + 4 + n];
    }
  }

  /** Nothing else is read: a value comes only from one of its raw forms. */
  lemma ReadIsRaw(r: Reader)
    requires InRange(r) && ReadVal(r).1.Some?
    ensures var (r1, v) := ReadVal(r);
            && !r.err && Holds(r.data, r.pos, RawVal(v.value))
            && r1 == r.(pos := r.pos + |RawVal(v.value)|)
  {
    hide RawPayload, ReadPayload;
    var (r1, t) := ReadU8(r);
    ReadPayloadIsRaw(r1, t);
    var payload := RawPayload(ReadVal(r).1.value);
    assert r.data[r.pos..r.pos + 1] == [t];
    assert r.data[r.pos..r.pos + 1 + |payload|] == r.data[r.pos..r.pos + 1] + r.data[r1.pos..r1.pos + |payload|];
  }

  /** Reading never looks past what it consumes: more bytes behind change nothing. */
  lemma ReadValLocal(r: Reader, more: seq<byte>)
    requires InRange(r) && ReadVal(r).1.Some?
    ensures var full := Reader(r.data + more, r.pos, r.err);
            ReadVal(full) == (ReadVal(r).0.(data := r.data + more), ReadVal(r).1)
  {
    hide GetU32, GetU64;
    var full := Reader(r.data + more, r.pos, r.err);
    TakeLocal(r, more, 1);
    var (r1, t) := ReadU8(r);
    TakeLocal(r1, more, 4);
    TakeLocal(r1, more, 8);
    if t == 4 || t == 5 {
      var (r2, len) := ReadU32(r1);
      TakeLocal(r2, more, len);
    }
  }

  lemma TakeLocal(r: Reader, more: seq<byte>, n: nat)
    requires InRange(r)
    ensures Take(r, n).1.Some? ==>
              Take(r.(data := r.data + more), n) == (Take(r, n).0.(data := r.data + more), Take(r, n).1)
  {
    if n <= |r.data| - r.pos {
      assert (r.data + more)[r.pos..r.pos + n] == r.data[r.pos..r.pos + n];
    }
  }

  /** `cerco_wreader`. */
  class WReader {
    const p: seq<byte>
    var pos: nat
    var err: bool

    ghost predicate Valid() reads this { pos <= |p| }
    ghost function View(): Reader reads this { Reader(p, pos, err) }

    constructor (data: seq<byte>)
      ensures Valid() && View() == Reader(data, 0, false)
    {
      p, pos, err := data, 0, false;
    }

    method TakeBytes(n: nat) returns (o: Option<seq<byte>>)
      requires Valid()
      modifies this
      ensures Valid() && (View(), o) == Take(old(View()), n)
    {
      if err || n > |p| - pos {
        err := true;
        return None;
      }
      o := Some(p[pos..pos + n]);
      pos := pos + n;
    }

    method RU8() returns (v: byte)
      requires Valid()
      modifies this
      ensures Valid() && (View(), v) == ReadU8(old(View()))
    {
      var q := TakeBytes(1);
      v := if q.Some? then q.value[0] else 0;
    }

    method RU32() returns (v: u32)
      requires Valid()
      modifies this
      ensures Valid() && (View(), v) == ReadU32(old(View()))
    {
      var q := TakeBytes(4);
      v := if q.Some? then GetU32(q.value) else 0;
    }

    method RU64() returns (v: u64)
      requires Valid()
      modifies this
      ensures Valid() && (View(), v) == ReadU64(old(View()))
    {
      var q := TakeBytes(8);
      v := if q.Some? then GetU64(q.value) else 0;
    }

    method RVal() returns (o: Option<WVal>)
      requires Valid()
      modifies this
      ensures Valid() && (View(), o) == ReadVal(old(View()))
    {
      var t := RU8();
      if err {
        return None;
      }
      if t == 0 || t == 3 {
        var u := RU32();
        o := if err then None else Some(if t == 0 then I32(ToI32(u)) else Bool(ToI32(u)));
      } else if t == 1 || t == 2 {
        var u := RU64();
        o := if err then None else Some(if t == 1 then I64(ToI64(u)) else F64(u));
      } else if t == 4 || t == 5 {
        var len := RU32();
        var q := TakeBytes(len);
        o := if q.None? then None else Some(if t == 4 then StrVal(q.value) else BytesVal(q.value));
      } else {
        err := true;
        o := None;
      }
    }
  }

  // ------------------------------------------------------------------ writing

  /** `cerco_wwriter`: space is claimed before it is filled, and the first claim that
      does not fit sets the error flag for good. */
  class WWriter {
    const buf: array<byte>
    var pos: nat
    var err: bool

    ghost predicate Valid() reads this { pos <= buf.Length }

    ghost function Written(): seq<byte>
      requires Valid()
      reads this, buf
    {
      buf[..pos]
    }

    constructor (storage: array<byte>)
      ensures Valid() && buf == storage && Written() == [] && !err
    {
      buf, pos, err := storage, 0, false;
    }

    /** Claims and fills `s`, one byte at a time. */
    method Put(s: seq<byte>)
      requires Valid()
      modifies this, buf
      ensures Valid() && (err <==> old(err) || |s| > buf.Length - old(pos))
      ensures Written() == if err then old(Written()) else old(Written()) + s
    {
      if err || |s| > buf.Length - pos {
        err := true;
        return;
      }
      var at := pos;
      pos := pos + |s|;
      for i := 0 to |s|
        invariant buf[..at + i] == old(Written()) + s[..i]
        invariant Valid() && pos == at + |s| && !err
      {
        buf[at + i] := s[i];
      }
    }

    /** The eight shifted bytes of a 64-bit word. */
    method WU64(v: u64)
      requires Valid()
      modifies this, buf
      ensures Valid() && (err <==> old(err) || 8 > buf.Length - old(pos))
      ensures Written() == if err then old(Written()) else old(Written()) + U64Bytes(v)
    {
      if err || 8 > buf.Length - pos {
        err := true;
        return;
      }
      var at := pos;
      pos := pos + 8;
      for i := 0 to 8
        invariant buf[..at + i] == old(Written()) + U64Bytes(v)[..i]
        invariant Valid() && pos == at + 8 && !err
      {
        LEIndex(v, 8, i);
        buf[at + i] := ShiftBytes(v, i) % 0x100;
      }
    }

    method WBlock(s: Str)
      requires Valid()
      modifies this, buf
      ensures Valid() && (err <==> old(err) || 4 + |s| > buf.Length - old(pos))
      ensures !err ==> Written() == old(Written()) + (U32Bytes(|s|) + s)
    {
      Put(U32Bytes(|s|));
      if s != [] {
        Put(s);
      }
    }

    method WritePayload(v: WVal)
      requires Valid()
      modifies this, buf
      ensures Valid() && (err <==> old(err) || |Payload(v)| > buf.Length - old(pos))
      ensures !err ==> Written() == old(Written()) + Payload(v)
    {
      hide U32Bytes, U64Bytes, LowByte, ToU32, ToU64;
      match v {
        case I32(i) => Put(U32Bytes(ToU32(i)));
        case Bool(slot) => Put(U32Bytes(if LowByte(slot) != 0 then 1 else 0));
        case I64(l) => WU64(ToU64(l));
        case F64(bits) => WU64(bits);
        case StrVal(s) => WBlock(s);
        case BytesVal(s) => WBlock(s);
      }
    }

    /** `cerco_w_val`: it fails exactly when the encoding does not fit. */
    method WriteVal(v: WVal)
      requires Valid()
      modifies this, buf
      ensures Valid() && (err <==> old(err) || |EncVal(v)| > buf.Length - old(pos))
      ensures !err ==> Written() == old(Written()) + EncVal(v)
    {
      hide Payload;
      Put([Tag(v)]);
      WritePayload(v);
      assert !err ==> Written() == old(Written()) + ([Tag(v)] + Payload(v));
    }
  }
}
