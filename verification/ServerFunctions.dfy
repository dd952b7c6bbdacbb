/** Server-function calls end to end: the wasm client's argument encoder and frame
    header, the server's frame decoder and reply encoder, and the client's reply
    decoder. */
module ServerFunctions {
  import opened Bytes
  import opened Wire
  import ClientLibc

  const SF_BODY_MAX := 32768

  /** Argument and result types, as the generator's type letters `i l f b s y`. */
  datatype Kind = KI32 | KI64 | KF64 | KBool | KStr | KBytes

  /** A typed argument of a generated stub, and of the server adapter that calls the
      handler. */
  datatype Arg =
    | AI32(i: i32)
    | AI64(l: i64)
    | AF64(bits: u64)
    | ABool(b: byte)
    | AStr(s: Str)
    | ABytes(s: Str)

  function KindOf(a: Arg): Kind
  {
    match a
    case AI32(_) => KI32
    case AI64(_) => KI64
    case AF64(_) => KF64
    case ABool(_) => KBool
    case AStr(_) => KStr
    case ABytes(_) => KBytes
  }

  function Kinds(args: seq<Arg>): (ks: seq<Kind>)
    ensures |ks| == |args| && forall i | 0 <= i < |args| :: ks[i] == KindOf(args[i])
  {
    seq(|args|, i requires 0 <= i < |args| => KindOf(args[i]))
  }

  /** What the handler must receive: booleans as 0 or 1, everything else unchanged. */
  function Canonical(a: Arg): Arg { if a.ABool? then ABool(if a.b != 0 then 1 else 0) else a }

  function CanonicalAll(args: seq<Arg>): (r: seq<Arg>)
    ensures |r| == |args|
  {
    if args == [] then [] else [Canonical(args[0])] + CanonicalAll(args[1..])
  }

  // ----------------------------------------------------------- client encoding

  /** The bytes the client's own encoder writes for one argument. */
  function EncArg(a: Arg): seq<byte>
  {
    match a
    case AI32(i) => [0] + U32Bytes(ToU32(i))
    case AI64(l) => [1] + U64Bytes(ToU64(l))
    case AF64(bits) => [2] + U64Bytes(bits)
    case ABool(b) => [3] + U32Bytes(if b != 0 then 1 else 0)
    case AStr(s) => [4] + (U32Bytes(|s|) + s)
    case ABytes(s) => [5] + (U32Bytes(|s|) + s)
  }

  function EncArgs(args: seq<Arg>): seq<byte>
  {
    if args == [] then [] else EncArg(args[0]) + EncArgs(args[1..])
  }

  /** The request body: argument count, then the arguments. */
  function Frame(args: seq<Arg>): seq<byte>
    requires |args| < 0x1_0000_0000
  {
    U32Bytes(|args|) + EncArgs(args)
  }

  // ----------------------------------------------------------- server decoding

  /** `sf_arg_of_type`: kinds must agree, with booleans and 32-bit integers
      interchangeable. */
  predicate Accepts(want: Kind, v: WVal)
  {
    match v
    case I32(_) => want == KI32 || want == KBool
    case Bool(_) => want == KI32 || want == KBool
    case I64(_) => want == KI64
    case F64(_) => want == KF64
    case StrVal(_) => want == KStr
    case BytesVal(_) => want == KBytes
  }

  /** The union member the generated adapter passes on. */
  function Passed(want: Kind, v: WVal): Arg
    requires Accepts(want, v)
  {
    match v
    case I32(i) => if want == KI32 then AI32(i) else ABool(LowByte(i))
    case Bool(i) => if want == KI32 then AI32(i) else ABool(LowByte(i))
    case I64(l) => AI64(l)
    case F64(bits) => AF64(bits)
    case StrVal(s) => AStr(s)
    case BytesVal(s) => ABytes(s)
  }

  /** A generated adapter: one `sf_arg_of_type` per declared argument. */
  function DecodeArgs(r: Reader, sig: seq<Kind>): (o: (Reader, Option<seq<Arg>>))
    requires InRange(r)
    ensures InRange(o.0) && o.0.data == r.data && (o.1.Some? && !r.err ==> !o.0.err) && (o.1.None? ==> o.0.err)
    decreases sig
  {
    if sig == [] then (r, Some([]))
    else
      var (r1, v) := ReadVal(r);
      if v.None? || !Accepts(sig[0], v.value) then (r1.(err := true), None)
      else
        var (r2, rest) := DecodeArgs(r1, sig[1..]);
        (r2, if rest.None? then None else Some([Passed(sig[0], v.value)] + rest.value))
  }

  datatype Served = Called(args: seq<Arg>, end: nat) | Truncated | Malformed

  /** `sf_run` up to the handler call. The argument count is read and ignored. */
  function Serve(body: seq<byte>, sig: seq<Kind>): Served
  {
    var (r0, _) := ReadU32(Reader(body, 0, false));
    if r0.err then Truncated
    else
      var (r1, args) := DecodeArgs(r0, sig);
      if args.None? then Malformed else Called(args.value, r1.pos)
  }

  // ------------------------------------------------------- requests round-trip

  /** An argument as the wire value the reader sees. */
  function AsWire(a: Arg): WVal
  {
    match a
    case AI32(i) => I32(i)
    case AI64(l) => I64(l)
    case AF64(bits) => F64(bits)
    case ABool(b) => Bool(b)
    case AStr(s) => StrVal(s)
    case ABytes(s) => BytesVal(s)
  }

  /** The client's encoder and the shared writer produce the same bytes. */
  lemma EncodersAgree(a: Arg)
    ensures EncArg(a) == EncVal(AsWire(a))
    ensures Accepts(KindOf(a), Normal(AsWire(a)))
    ensures Passed(KindOf(a), Normal(AsWire(a))) == Canonical(a)
  {
    hide U32Bytes, U64Bytes;
  }

  lemma {:induction false} DecodeArgsAt(r: Reader, args: seq<Arg>)
    requires !r.err && Holds(r.data, r.pos, EncArgs(args))
    ensures DecodeArgs(r, Kinds(args)) == (r.(pos := r.pos + |EncArgs(args)|), Some(CanonicalAll(args)))
    decreases args
  {
    hide EncVal, EncArg, AsWire, Normal, Accepts, Passed, ReadVal, KindOf, Canonical;
    if args != [] {
      var a := args[0];
      HoldsSplit(r.data, r.pos, EncArg(a), EncArgs(args[1..]));
      EncodersAgree(a);
      ReadValAt(r, AsWire(a));
      assert Kinds(args)[1..] == Kinds(args[1..]);
      DecodeArgsAt(r.(pos := r.pos + |EncArg(a)|), args[1..]);
    }
  }

  /** Every call arrives: for every signature and every argument vector, the frame the
      client builds makes the server call the handler with the same values in order,
      and the reader ends exactly at the end of the frame. */
  lemma CallArrives(args: seq<Arg>)
    requires |args| < 0x1_0000_0000
    ensures Serve(Frame(args), Kinds(args)) == Called(CanonicalAll(args), |Frame(args)|)
  {
    var r := Reader(Frame(args), 0, false);
    HoldsSplit(Frame(args), 0, U32Bytes(|args|), EncArgs(args));
    ReadU32At(r, |args|);
    DecodeArgsAt(r.(pos := 4), args);
  }

  lemma {:induction false} DecodeArgsLocal(r: Reader, sig: seq<Kind>, more: seq<byte>)
    requires InRange(r) && DecodeArgs(r, sig).1.Some?
    ensures DecodeArgs(r.(data := r.data + more), sig) ==
            (DecodeArgs(r, sig).0.(data := r.data + more), DecodeArgs(r, sig).1)
    decreases sig
  {
    hide ReadVal, Accepts, Passed;
    if sig != [] {
      ReadValLocal(r, more);
      DecodeArgsLocal(ReadVal(r).0, sig[1..], more);
    }
  }

  /** Bytes behind a complete frame are ignored: the documented "must decode exactly"
      rejects short bodies only. */
  lemma TrailingBytesIgnored(body: seq<byte>, sig: seq<Kind>, more: seq<byte>)
    requires Serve(body, sig).Called?
    ensures Serve(body + more, sig) == Serve(body, sig)
  {
    var r := Reader(body, 0, false);
    TakeLocal(r, more, 4);
    DecodeArgsLocal(ReadU32(r).0, sig, more);
  }

  /** No proper prefix of a frame is served: truncation is always detected. */
  lemma TruncatedFrameRejected(args: seq<Arg>, n: nat)
    requires |args| < 0x1_0000_0000 && n < |Frame(args)|
    ensures !Serve(Frame(args)[..n], Kinds(args)).Called?
  {
    var f := Frame(args);
    if Serve(f[..n], Kinds(args)).Called? {
      TrailingBytesIgnored(f[..n], Kinds(args), f[n..]);
      assert f[..n] + f[n..] == f;
      CallArrives(args);
      CalledEnd(f[..n], Kinds(args));
    }
  }

  lemma CalledEnd(body: seq<byte>, sig: seq<Kind>)
    requires Serve(body, sig).Called?
    ensures Serve(body, sig).end <= |body|
  {
  }

  // ------------------------------------------------------ which bodies are served

  function RawVals(vs: seq<WVal>): seq<byte>
  {
    if vs == [] then [] else RawVal(vs[0]) + RawVals(vs[1..])
  }

  predicate AcceptsAll(sig: seq<Kind>, vs: seq<WVal>)
  {
    |sig| == |vs| && forall i | 0 <= i < |sig| :: Accepts(sig[i], vs[i])
  }

  function PassedAll(sig: seq<Kind>, vs: seq<WVal>): seq<Arg>
    requires AcceptsAll(sig, vs)
  {
    seq(|sig|, i requires 0 <= i < |sig| => Passed(sig[i], vs[i]))
  }

  /** A count word, values of the declared types in any raw form, then any bytes. */
  function Request(count: u32, vs: seq<WVal>, more: seq<byte>): seq<byte>
  {
    U32Bytes(count) + (RawVals(vs) + more)
  }

  lemma {:induction false} DecodeRawAt(r: Reader, sig: seq<Kind>, vs: seq<WVal>)
    requires !r.err && Holds(r.data, r.pos, RawVals(vs)) && AcceptsAll(sig, vs)
    ensures DecodeArgs(r, sig) == (r.(pos := r.pos + |RawVals(vs)|), Some(PassedAll(sig, vs)))
    decreases sig
  {
    hide RawVal, Accepts, Passed, ReadVal;
    if sig == [] {
      assert RawVals(vs) == [] && PassedAll(sig, vs) == [];
    } else {
      HoldsSplit(r.data, r.pos, RawVal(vs[0]), RawVals(vs[1..]));
      ReadRawAt(r, vs[0]);
      DecodeRawAt(r.(pos := r.pos + |RawVal(vs[0])|), sig[1..], vs[1..]);
      assert PassedAll(sig, vs) == [Passed(sig[0], vs[0])] + PassedAll(sig[1..], vs[1..]);
    }
  }

  lemma {:induction false} DecodedIsRaw(r: Reader, sig: seq<Kind>) returns (vs: seq<WVal>)
    requires InRange(r) && !r.err && DecodeArgs(r, sig).1.Some?
    ensures AcceptsAll(sig, vs) && Holds(r.data, r.pos, RawVals(vs))
    decreases sig
  {
    hide RawVal, Accepts, Passed, ReadVal;
    if sig == [] {
      vs := [];
    } else {
      ReadIsRaw(r);
      var (r1, v) := ReadVal(r);
      var rest := DecodedIsRaw(r1, sig[1..]);
      vs := [v.value] + rest;
      assert vs[1..] == rest && RawVals(vs) == RawVal(v.value) + RawVals(rest);
      HoldsJoin(r.data, r.pos, RawVal(v.value), RawVals(rest));
    }
  }

  lemma HoldsJoin(b: seq<byte>, pos: nat, p: seq<byte>, q: seq<byte>)
    requires Holds(b, pos, p) && Holds(b, pos + |p|, q)
    ensures Holds(b, pos, p + q)
  {
    assert b[pos..pos + |p| + |q|] == b[pos..pos + |p|] + b[pos + |p|..pos + |p| + |q|];
  }

  /** Every such body is served, whatever its count word and whatever follows the values;
      the reader ends behind the values. */
  lemma RequestServed(sig: seq<Kind>, count: u32, vs: seq<WVal>, more: seq<byte>)
    requires AcceptsAll(sig, vs)
    ensures Serve(Request(count, vs, more), sig) == Called(PassedAll(sig, vs), 4 + |RawVals(vs)|)
  {
    hide AcceptsAll, PassedAll, RawVals, DecodeArgs, U32Bytes;
    var body := Request(count, vs, more);
    var r := Reader(body, 0, false);
    HoldsWhole(body);
    HoldsSplit(body, 0, U32Bytes(count), RawVals(vs) + more);
    HoldsSplit(body, 4, RawVals(vs), more);
    ReadU32At(r, count);
    DecodeRawAt(r.(pos := 4), sig, vs);
  }

  lemma HoldsWhole(b: seq<byte>)
    ensures Holds(b, 0, b)
  {
  }

  ghost predicate IsRequest(body: seq<byte>, sig: seq<Kind>)
  {
    exists count: u32, vs, more :: AcceptsAll(sig, vs) && body == Request(count, vs, more)
  }

  /** The exact condition of being served: a body reaches the handler if and only if it is
      a word, values of the declared types, and any bytes behind them. */
  lemma ServedIff(body: seq<byte>, sig: seq<Kind>)
    ensures Serve(body, sig).Called? <==> IsRequest(body, sig)
  {
    hide DecodeArgs, AcceptsAll, RawVals, U32Bytes, GetU32;
    if Serve(body, sig).Called? {
      var r := ReadU32(Reader(body, 0, false)).0;
      var vs := DecodedIsRaw(r, sig);
      var count, more := GetU32(body[..4]), body[4 + |RawVals(vs)|..];
      U32BytesBack(body[..4]);
      assert body == body[..4] + (body[4..4 + |RawVals(vs)|] + more);
      assert body == Request(count, vs, more);
    } else if IsRequest(body, sig) {
      var count: u32, vs, more :| AcceptsAll(sig, vs) && body == Request(count, vs, more);
      RequestServed(sig, count, vs, more);
    }
  }

  /** The argument count never matters, neither for accepting nor for what is passed on. */
  lemma CountIgnored(n: u32, k: u32, rest: seq<byte>, sig: seq<Kind>)
    ensures Serve(U32Bytes(n) + rest, sig) == Serve(U32Bytes(k) + rest, sig)
  {
    CountIgnoredOneWay(n, k, rest, sig);
    CountIgnoredOneWay(k, n, rest, sig);
    assert !Serve(U32Bytes(n) + rest, sig).Truncated? && !Serve(U32Bytes(k) + rest, sig).Truncated?;
  }

  lemma CountIgnoredOneWay(n: u32, k: u32, rest: seq<byte>, sig: seq<Kind>)
    ensures Serve(U32Bytes(n) + rest, sig).Called? ==>
              Serve(U32Bytes(n) + rest, sig) == Serve(U32Bytes(k) + rest, sig)
  {
    hide AcceptsAll, PassedAll, RawVals, U32Bytes, Serve;
    var body := U32Bytes(n) + rest;
    ServedIff(body, sig);
    if Serve(body, sig).Called? {
      var count: u32, vs, more :| AcceptsAll(sig, vs) && body == Request(count, vs, more);
      assert rest == body[4..] == RawVals(vs) + more;
      RequestServed(sig, count, vs, more);
      RequestServed(sig, k, vs, more);
    }
  }

  /** What the documentation asks for: the count of the declared arguments, the arguments,
      and nothing else. */
  ghost predicate Documented(body: seq<byte>, sig: seq<Kind>)
    requires |sig| < 0x1_0000_0000
  {
    exists vs :: AcceptsAll(sig, vs) && body == Request(|sig|, vs, [])
  }

  /** How far the server goes beyond the documentation: a served body decodes exactly if
      and only if its count word is right and no bytes follow the values; the latter is
      where the reader ends. */
  lemma DocumentedIff(sig: seq<Kind>, count: u32, vs: seq<WVal>, more: seq<byte>)
    requires |sig| < 0x1_0000_0000 && AcceptsAll(sig, vs)
    ensures var body := Request(count, vs, more);
            && (Documented(body, sig) <==> count == |sig| && more == [])
            && Serve(body, sig).Called?
            && (Serve(body, sig).end == |body| <==> more == [])
  {
    hide AcceptsAll, PassedAll, RawVals, U32Bytes, Serve;
    var body := Request(count, vs, more);
    RequestServed(sig, count, vs, more);
    if Documented(body, sig) {
      var ws :| AcceptsAll(sig, ws) && body == Request(|sig|, ws, []);
      RequestServed(sig, |sig|, ws, []);
      assert body[..4] == U32Bytes(count) == U32Bytes(|sig|);
      U32RoundTrip(count);
      U32RoundTrip(|sig|);
    }
  }

  /** One integer argument, announced as seven and followed by a stray byte: served. */
  lemma WrongCountServed(i: i32)
    ensures Serve(Request(7, [I32(i)], [0]), [KI32]) == Called([AI32(i)], 9)
    ensures !Documented(Request(7, [I32(i)], [0]), [KI32])
  {
    assert RawVals([I32(i)]) == RawVal(I32(i));
    RequestServed([KI32], 7, [I32(i)], [0]);
    DocumentedIff([KI32], 7, [I32(i)], [0]);
  }

  // ------------------------------------------------------------------ replies

  /** What a handler produced. */
  datatype Ret = Value(v: WVal) | Failed(msg: Str)

  function Reply(ret: Ret): seq<byte>
  {
    match ret
    case Failed(msg) => [1] + (U32Bytes(|msg|) + msg)
    case Value(v) => [0] + (U32Bytes(0) + (U32Bytes(1) + EncVal(v)))
  }

  /** `oom` and a newline. */
  const OOM_TEXT: seq<byte> := [111, 111, 109, 10]

  /** `sf_run` behind the handler call: the value goes through a writer over a buffer of
      exactly `cerco_wval_size` bytes, which therefore never reports an error; `memory`
      tells whether that buffer could be allocated. */
  method EncodeReply(ret: Ret, memory: bool) returns (status: int, body: seq<byte>)
    ensures if ret.Value? && !memory then status == 500 && body == OOM_TEXT else status == 200 && body == Reply(ret)
  {
    match ret {
      case Failed(msg) =>
        return 200, [1] + (U32Bytes(|msg|) + msg);
      case Value(v) =>
        var need := ValSize(v);
        if !memory {
          return 500, OOM_TEXT;
        }
        var tmp := new byte[need];
        var w := new WWriter(tmp);
        w.WriteVal(v);
        if w.err {
          return 500, [];
        }
        assert tmp[..] == w.Written();
        return 200, [0] + (U32Bytes(0) + (U32Bytes(1) + tmp[..]));
    }
  }

  datatype Error = NetworkError | BadResponse | TypeMismatch | PlainError | Message(text: seq<byte>)

  /** What the application callback receives. `OverRead` stands for a reply on which the
      client would read past the bytes it was given. */
  datatype Outcome =
    | Num32(i: i32)
    | Num64(l: i64)
    | Double(bits: u64)
    | Text(s: seq<byte>)
    | Blob(s: seq<byte>)
    | Err(e: Error)
    | OverRead

  /** `sf_done_common`; `scratch` tells whether the message copy could be allocated. */
  function Done(status: int, data: seq<byte>, want: byte, scratch: bool): Outcome
  {
    var len := |data|;
    if status != 200 || len < 9 then Err(NetworkError)
    else
      var errLen := GetU32(data[1..5]);
      if errLen > len then Err(BadResponse)
      else if data[0] != 0 then
        if !scratch then Err(PlainError)
        else if 5 + errLen > len then OverRead
        else Err(Message(data[5..5 + errLen]))
      else if 5 + errLen + 4 > len then Err(BadResponse)
      else
        var v := 5 + errLen + 4;
        if GetU32(data[v - 4..v]) < 1 || v >= len then Err(BadResponse)
        else if data[v] != want && !(want == 3 && data[v] == 0) && !(want == 0 && data[v] == 3) then Err(TypeMismatch)
        else DoneValue(data, v + 1, data[v])
  }

  function DoneValue(data: seq<byte>, v: nat, t: byte): Outcome
  {
    if t == 0 || t == 3 then
      if v + 4 > |data| then OverRead else Num32(ToI32(GetU32(data[v..v + 4])))
    else if t == 1 || t == 2 then
      if v + 8 > |data| then OverRead
      else if t == 1 then Num64(ToI64(GetU64(data[v..v + 8]))) else Double(GetU64(data[v..v + 8]))
    else if t == 4 then
      if v + 4 > |data| then OverRead else Text(CStr(data[v + 4..]))
    else if t == 5 then
      if v + 4 > |data| then OverRead
      else
        var n := GetU32(data[v..v + 4]);
        if v + 4 + n > |data| then OverRead else Blob(data[v + 4..v + 4 + n])
    else Err(TypeMismatch)
  }

  /** What a returned value must look like to the callback. */
  function Delivered(v: WVal): Outcome
  {
    match v
    case I32(i) => Num32(i)
    case Bool(slot) => Num32(if LowByte(slot) != 0 then 1 else 0)
    case I64(l) => Num64(l)
    case F64(bits) => Double(bits)
    case StrVal(s) => Text(s)
    case BytesVal(s) => Blob(s)
  }

  lemma DoneValueAt(data: seq<byte>, at: nat, v: WVal)
    requires Holds(data, at, Payload(v)) && at + |Payload(v)| == |data| && (v.StrVal? ==> NulFree(v.data))
    ensures DoneValue(data, at, Tag(v)) == Delivered(v)
  {
    hide U32Bytes, GetU32, U64Bytes, GetU64, LowByte;
    match v
    case I32(i) => U32RoundTrip(ToU32(i));
    case Bool(slot) => U32RoundTrip(if LowByte(slot) != 0 then 1 else 0);
    case I64(l) => U64RoundTrip(ToU64(l));
    case F64(bits) => U64RoundTrip(bits);
    case StrVal(s) =>
      HoldsSplit(data, at, U32Bytes(|s|), s);
      assert data[at + 4..] == data[at + 4..at + 4 + |s|] == s;
      CStrWhole(s);
    case BytesVal(s) =>
      HoldsSplit(data, at, U32Bytes(|s|), s);
      U32RoundTrip(|s|);
  }

  /** Every returned value survives the reply path. */
  lemma ValueArrives(v: WVal, scratch: bool)
    requires v.StrVal? ==> NulFree(v.data)
    ensures Done(200, Reply(Value(v)), Tag(v), scratch) == Delivered(v)
  {
    hide U32Bytes, GetU32, Payload, DoneValue, Delivered;
    var data := Reply(Value(v));
    assert data[1..5] == U32Bytes(0) && data[5..9] == U32Bytes(1);
    U32RoundTrip(0);
    U32RoundTrip(1);
    assert data[9] == Tag(v);
    assert data[10..10 + |Payload(v)|] == Payload(v);
    DoneValueAt(data, 10, v);
  }

  /** An application error reaches the callback with its text exactly when the text has
      at least four bytes; a shorter one is reported as a network error, because the
      client refuses replies under nine bytes. Without scratch space for the copy the
      callback gets a fixed text. */
  lemma ErrorArrives(msg: Str, want: byte, scratch: bool)
    ensures Done(200, Reply(Failed(msg)), want, scratch) ==
            Err(if |msg| < 4 then NetworkError else if scratch then Message(msg) else PlainError)
  {
    hide U32Bytes, GetU32;
    var data := Reply(Failed(msg));
    assert data[1..5] == U32Bytes(|msg|) && data[5..] == msg;
    assert data[5..5 + |msg|] == data[5..];
    U32RoundTrip(|msg|);
  }

  /** No reply of this server makes the client read past its end. */
  lemma RepliesNeverOverRead(ret: Ret, want: byte, scratch: bool)
    requires ret.Value? && ret.v.StrVal? ==> NulFree(ret.v.data)
    requires ret.Value? ==> want == Tag(ret.v)
    ensures !Done(200, Reply(ret), want, scratch).OverRead?
  {
    hide Done, Reply;
    match ret
    case Value(v) => ValueArrives(v, scratch);
    case Failed(msg) => ErrorArrives(msg, want, scratch);
  }

  /** Bytes of payload a value of type `t` takes at `v`; strings end at their NUL, which
      the fetch buffer always has behind the reply. */
  function Needed(data: seq<byte>, v: nat, t: byte): nat
    requires v <= |data|
  {
    if t == 1 || t == 2 then 8
    else if t == 5 && v + 4 <= |data| then 4 + GetU32(data[v..v + 4])
    else 4
  }

  /** A message block or a value that claims more bytes than the reply has. */
  predicate ClaimsTooMuch(data: seq<byte>)
    requires |data| >= 9
  {
    var n := GetU32(data[1..5]);
    if data[0] != 0 then |data| < 5 + n else 9 + n < |data| && |data| < 10 + n + Needed(data, 10 + n, data[9 + n])
  }

  /** For any reply bytes: the client reads past them if and only if the reply is one whose
      message or value it is about to deliver and that claims too much. The length test of
      the source bounds the message by the whole reply, five bytes short of its header. */
  lemma OverReadIff(status: int, data: seq<byte>, want: byte, scratch: bool)
    ensures Done(status, data, want, scratch).OverRead? <==>
            && status == 200 && |data| >= 9 && GetU32(data[1..5]) <= |data| && ClaimsTooMuch(data)
            && if data[0] != 0 then scratch
               else var v := 9 + GetU32(data[1..5]);
                    && GetU32(data[v - 4..v]) >= 1 && data[v] <= 5
                    && (data[v] == want || (want == 3 && data[v] == 0) || (want == 0 && data[v] == 3))
  {
    hide GetU32, GetU64, CStr;
  }

  /** Five bytes of header, four of text, and a claimed length of nine: inside the source's
      test, past the end of the reply. */
  lemma MessageOverRead(want: byte)
    ensures Done(200, [1, 9, 0, 0, 0, 33, 33, 33, 33], want, true) == OverRead
  {
    assert [1, 9, 0, 0, 0, 33, 33, 33, 33][1..5] == [9, 0, 0, 0];
  }

  // ------------------------------------------------- which replies give what

  /** The reply's type byte is the awaited one; integers and booleans stand for each other. */
  predicate TypeFits(want: byte, t: byte) { t == want || (want == 3 && t == 0) || (want == 0 && t == 3) }

  /** At `v` the reply holds, in bytes, the value the callback gets: a type byte that fits,
      then the word, the eight bytes or the counted block; of a string whatever follows its
      length up to the first NUL. */
  predicate ValueAt(data: seq<byte>, v: nat, want: byte, o: Outcome)
    requires v < |data|
  {
    && TypeFits(want, data[v])
    && match o
       case Num32(i) => data[v] in {0, 3} && Holds(data, v + 1, U32Bytes(ToU32(i)))
       case Num64(l) => data[v] == 1 && Holds(data, v + 1, U64Bytes(ToU64(l)))
       case Double(bits) => data[v] == 2 && Holds(data, v + 1, U64Bytes(bits))
       case Text(s) => data[v] == 4 && v + 5 <= |data| && s == CStr(data[v + 5..])
       case Blob(s) => data[v] == 5 && |s| < 0x1_0000_0000 && Holds(data, v + 1, U32Bytes(|s|) + s)
       case _ => false
  }

  /** A reply that carries `o`: a zero byte, a block of `n` bytes that is skipped, a count
      of at least one, and the value. */
  ghost predicate Carries(data: seq<byte>, want: byte, o: Outcome)
  {
    exists n: u32, count: u32 ::
      && data != [] && data[0] == 0 && Holds(data, 1, U32Bytes(n)) && Holds(data, 5 + n, U32Bytes(count))
      && count >= 1 && 9 + n < |data| && ValueAt(data, 9 + n, want, o)
  }

  predicate IsValue(o: Outcome) { !o.Err? && !o.OverRead? }

  lemma HoldsU32(data: seq<byte>, pos: nat, w: u32)
    ensures Holds(data, pos, U32Bytes(w)) <==> pos + 4 <= |data| && GetU32(data[pos..pos + 4]) == w
  {
    U32RoundTrip(w);
    if pos + 4 <= |data| {
      U32BytesBack(data[pos..pos + 4]);
    }
  }

  lemma HoldsU64(data: seq<byte>, pos: nat, w: u64)
    ensures Holds(data, pos, U64Bytes(w)) <==> pos + 8 <= |data| && GetU64(data[pos..pos + 8]) == w
  {
    U64RoundTrip(w);
    if pos + 8 <= |data| {
      U64BytesBack(data[pos..pos + 8]);
    }
  }

  lemma HoldsBlock(data: seq<byte>, pos: nat, s: Str)
    ensures Holds(data, pos, U32Bytes(|s|) + s) <==>
            && pos + 4 <= |data| && GetU32(data[pos..pos + 4]) == |s|
            && pos + 4 + |s| <= |data| && data[pos + 4..pos + 4 + |s|] == s
  {
    hide U32Bytes, GetU32;
    HoldsU32(data, pos, |s|);
    if Holds(data, pos, U32Bytes(|s|) + s) {
      HoldsSplit(data, pos, U32Bytes(|s|), s);
    }
    if Holds(data, pos, U32Bytes(|s|)) && Holds(data, pos + 4, s) {
      HoldsJoin(data, pos, U32Bytes(|s|), s);
    }
  }

  lemma SignsBack(i: i32, w: u32, l: i64, d: u64)
    ensures ToI32(w) == i <==> w == ToU32(i)
    ensures ToI64(d) == l <==> d == ToU64(l)
  {
  }

  lemma DoneValueIff(data: seq<byte>, v: nat, want: byte, o: Outcome)
    requires v < |data| && IsValue(o) && TypeFits(want, data[v])
    ensures DoneValue(data, v + 1, data[v]) == o <==> ValueAt(data, v, want, o)
  {
    hide U32Bytes, U64Bytes, GetU32, GetU64, ToI32, ToI64, ToU32, ToU64, Holds, TypeFits, CStr;
    match o
    case Num32(i) =>
      HoldsU32(data, v + 1, ToU32(i));
      if v + 5 <= |data| {
        SignsBack(i, GetU32(data[v + 1..v + 5]), 0, 0);
      }
    case Num64(l) =>
      HoldsU64(data, v + 1, ToU64(l));
      if v + 9 <= |data| {
        SignsBack(0, 0, l, GetU64(data[v + 1..v + 9]));
      }
    case Double(bits) => HoldsU64(data, v + 1, bits);
    case Text(_) =>
    case Blob(s) =>
      if |s| < 0x1_0000_0000 {
        HoldsBlock(data, v + 1, s);
      }
  }

  /** The exact condition of a value: the callback gets `o` if and only if the status is
      200 and the reply carries `o`. */
  lemma ValueIff(status: int, data: seq<byte>, want: byte, scratch: bool, o: Outcome)
    requires IsValue(o)
    ensures Done(status, data, want, scratch) == o <==> status == 200 && Carries(data, want, o)
  {
    hide U32Bytes, GetU32, DoneValue, ValueAt;
    if status == 200 && Carries(data, want, o) {
      var n: u32, count: u32 :|
        && data != [] && data[0] == 0 && Holds(data, 1, U32Bytes(n)) && Holds(data, 5 + n, U32Bytes(count))
        && count >= 1 && 9 + n < |data| && ValueAt(data, 9 + n, want, o);
      HoldsU32(data, 1, n);
      HoldsU32(data, 5 + n, count);
      assert TypeFits(want, data[9 + n]) by { ValueFits(data, 9 + n, want, o); }
      DoneValueIff(data, 9 + n, want, o);
    }
    if Done(status, data, want, scratch) == o {
      var n: int := GetU32(data[1..5]);
      var count := GetU32(data[5 + n..9 + n]);
      HoldsU32(data, 1, n);
      HoldsU32(data, 5 + n, count);
      DoneValueIff(data, 9 + n, want, o);
    }
  }

  lemma ValueFits(data: seq<byte>, v: nat, want: byte, o: Outcome)
    requires v < |data| && ValueAt(data, v, want, o)
    ensures TypeFits(want, data[v])
  {
  }

  /** Every failure and what it comes from: another status or a short reply; a block or a
      missing value past the end, or a count of zero; a type that does not fit or is none;
      a first byte that is not zero, with the message behind it. */
  lemma ErrorIff(status: int, data: seq<byte>, want: byte, scratch: bool)
    ensures var o := Done(status, data, want, scratch);
            && (o == Err(NetworkError) <==> status != 200 || |data| < 9)
            && (status == 200 && |data| >= 9 ==>
                  var n := GetU32(data[1..5]);
                  && (o == Err(BadResponse) <==>
                        n > |data| || (data[0] == 0 && (9 + n >= |data| || GetU32(data[5 + n..9 + n]) == 0)))
                  && (o == Err(TypeMismatch) <==>
                        && data[0] == 0 && 9 + n < |data| && GetU32(data[5 + n..9 + n]) != 0
                        && (!TypeFits(want, data[9 + n]) || data[9 + n] > 5))
                  && (o == Err(PlainError) <==> n <= |data| && data[0] != 0 && !scratch)
                  && (forall text :: o == Err(Message(text)) <==>
                        n <= |data| - 5 && data[0] != 0 && scratch && text == data[5..5 + n]))
  {
    hide GetU32, GetU64, CStr;
  }

  /** Integers and booleans pass for one another, nothing else does: the client's callback
      then gets the word as it is. */
  lemma AcceptsIff(want: Kind, v: WVal)
    ensures Accepts(want, v) <==> match want
      case KI32 => v.I32? || v.Bool?
      case KBool => v.I32? || v.Bool?
      case KI64 => v.I64?
      case KF64 => v.F64?
      case KStr => v.StrVal?
      case KBytes => v.BytesVal?
    ensures forall i :: Passed(KI32, Bool(i)) == AI32(i) && Passed(KBool, I32(i)) == ABool(ToU32(i) % 256)
  {
  }

  /** A body is too short for its count word, or not of the declared form. */
  lemma RefusedIff(body: seq<byte>, sig: seq<Kind>)
    ensures Serve(body, sig) == Truncated <==> |body| < 4
    ensures Serve(body, sig) == Malformed <==> |body| >= 4 && !IsRequest(body, sig)
  {
    ServedIff(body, sig);
    hide IsRequest, DecodeArgs;
  }

  /** The eight-byte accumulation loop of the reply decoder. */
  method Accumulate(p: seq<byte>) returns (u: u64)
    requires |p| == 8
    ensures u == GetU64(p)
  {
    var acc: nat := 0;
    for i := 0 to 8
      invariant acc == FromLE(p[..i])
    {
      FromLEAppend(p[..i], p[i]);
      assert p[..i + 1] == p[..i] + [p[i]];
      acc := acc + (p[i] as int) * Pow256(i);
    }
    assert p[..8] == p;
    FromLEBound(p);
    Pow256Of8();
    u := acc;
  }

  /** The value branch of the reply decoder, at the byte behind the type. */
  method DecodeReplyValue(data: seq<byte>, v: nat, t: byte) returns (o: Outcome)
    ensures o == DoneValue(data, v, t)
  {
    if t == 0 || t == 3 {
      if v + 4 > |data| { return OverRead; }
      o := Num32(ToI32(GetU32(data[v..v + 4])));
    } else if t == 1 || t == 2 {
      if v + 8 > |data| { return OverRead; }
      var u := Accumulate(data[v..v + 8]);
      o := if t == 1 then Num64(ToI64(u)) else Double(u);
    } else if t == 4 {
      if v + 4 > |data| { return OverRead; }
      o := Text(CStr(data[v + 4..]));
    } else if t == 5 {
      if v + 4 > |data| { return OverRead; }
      var n := GetU32(data[v..v + 4]);
      if v + 4 + n > |data| { return OverRead; }
      o := Blob(data[v + 4..v + 4 + n]);
    } else {
      o := Err(TypeMismatch);
    }
  }

  method DecodeReply(status: int, data: seq<byte>, want: byte, scratch: bool) returns (o: Outcome)
    ensures o == Done(status, data, want, scratch)
    ensures forall x | IsValue(x) :: o == x <==> status == 200 && Carries(data, want, x)
    ensures o == Err(NetworkError) <==> status != 200 || |data| < 9
  {
    forall x | IsValue(x)
      ensures Done(status, data, want, scratch) == x <==> status == 200 && Carries(data, want, x)
    {
      ValueIff(status, data, want, scratch, x);
    }
    ErrorIff(status, data, want, scratch);
    hide DoneValue, Carries;
    if status != 200 || |data| < 9 {
      return Err(NetworkError);
    }
    var errLen := GetU32(data[1..5]);
    if errLen > |data| {
      return Err(BadResponse);
    }
    if data[0] != 0 {
      if !scratch {
        return Err(PlainError);
      }
      if 5 + errLen > |data| {
        return OverRead;
      }
      return Err(Message(data[5..5 + errLen]));
    }
    var v := 5 + errLen;
    if v + 4 > |data| {
      return Err(BadResponse);
    }
    var count := GetU32(data[v..v + 4]);
    v := v + 4;
    if count < 1 || v >= |data| {
      return Err(BadResponse);
    }
    var t := data[v];
    if t != want && !(want == 3 && t == 0) && !(want == 0 && t == 3) {
      return Err(TypeMismatch);
    }
    o := DecodeReplyValue(data, v + 1, t);
  }

  // ---------------------------------------------------------- the client object

  const SF_PENDING_MAX := 32

  /** Generated stubs have at most this many arguments. */
  const STUB_ARGS_MAX := 16

  /** No object on a 32-bit target has 2 GiB or more, so the room check does not wrap. */
  predicate IsObject(a: Arg) { a.AStr? || a.ABytes? ==> |a.s| < 0x8000_0000 }

  /** Written without looking at the room that is left. */
  predicate Unchecked(a: Arg) { !a.AStr? && !a.ABytes? }

  /** The fill level after one more argument. */
  function Advance(len: nat, a: Arg): nat
  {
    if !Unchecked(a) && len + |EncArg(a)| > SF_BODY_MAX then SF_BODY_MAX + 1 else len + |EncArg(a)|
  }

  function RunLen(args: seq<Arg>): nat
  {
    if args == [] then 0 else Advance(RunLen(args[..|args| - 1]), args[|args| - 1])
  }

  /** Some unchecked argument ends past the buffer. */
  predicate Overruns(args: seq<Arg>)
  {
    exists i | 0 <= i < |args| :: Unchecked(args[i]) && |EncArgs(args[..i + 1])| > SF_BODY_MAX
  }

  /** The fill level is the length of the encoding while that fits, and past the maximum
      from then on. */
  lemma {:induction false} RunLenIs(args: seq<Arg>)
    ensures if |EncArgs(args)| <= SF_BODY_MAX then RunLen(args) == |EncArgs(args)| else RunLen(args) > SF_BODY_MAX
    decreases |args|
  {
    hide EncArg;
    if args != [] {
      var n := |args| - 1;
      RunLenIs(args[..n]);
      EncArgsSplit(args, n);
      assert args[..n + 1] == args;
    }
  }

  lemma RunLenNext(args: seq<Arg>, i: nat)
    requires i < |args|
    ensures RunLen(args[..i + 1]) == Advance(RunLen(args[..i]), args[i])
    ensures Overruns(args[..i + 1]) <==>
            Overruns(args[..i]) || (Unchecked(args[i]) && RunLen(args[..i]) + |EncArg(args[i])| > SF_BODY_MAX)
  {
    hide EncArg, EncArgs, Unchecked;
    var more, less := args[..i + 1], args[..i];
    assert more[..i] == less && more[i] == args[i];
    RunLenIs(less);
    RunLenIs(more);
    EncArgsSplit(args, i);
    assert forall k | 0 <= k < i :: more[..k + 1] == less[..k + 1] && more[k] == less[k];
    assert more[..i + 1] == more;
    if Overruns(less) {
      var k :| 0 <= k < |less| && Unchecked(less[k]) && |EncArgs(less[..k + 1])| > SF_BODY_MAX;
      assert Unchecked(more[k]) && |EncArgs(more[..k + 1])| > SF_BODY_MAX;
    }
    if Overruns(more) {
      var k :| 0 <= k < |more| && Unchecked(more[k]) && |EncArgs(more[..k + 1])| > SF_BODY_MAX;
      if k < i {
        assert Unchecked(less[k]) && |EncArgs(less[..k + 1])| > SF_BODY_MAX;
      }
    }
    if Unchecked(args[i]) && |EncArgs(more)| > SF_BODY_MAX {
      assert Unchecked(more[i]) && |EncArgs(more[..i + 1])| > SF_BODY_MAX;
    }
  }

  /** A string that does not fit marks the overflow; the integer behind it is written past
      the mark. */
  lemma StringThenWordOverruns(i: i32)
    ensures Overruns([AStr(seq(SF_BODY_MAX, _ => 65)), AI32(i)])
  {
    hide EncArg;
    var a: Arg, b := AStr(seq(SF_BODY_MAX, _ => 65)), AI32(i);
    var args := [a, b];
    EncArgsSplit(args, 0);
    assert args[..1] == [a] && args[..0] == [] && EncArgs(args[..0]) == [];
    assert |EncArg(a)| > SF_BODY_MAX by { BlockLength(a); }
    EncArgsSplit(args, 1);
    assert args[..2] == args;
    assert Unchecked(args[1]) && |EncArgs(args[..1 + 1])| > SF_BODY_MAX;
  }

  lemma BlockLength(a: Arg)
    ensures |EncArg(a)| == if a.AStr? || a.ABytes? then 5 + |a.s| else if a.AI64? || a.AF64? then 9 else 5
  {
  }

  /** `sf_body`, its fill level (one past the maximum marks an overflow) and the table
      of calls awaiting a reply, each with the type it wants. `overrun` records whether a
      byte was ever written at or past the end of the buffer. */
  class SfClient {
    const body: array<byte>
    var len: nat
    var overrun: bool
    var nargs: u32
    var pending: seq<Option<byte>>

    ghost predicate Valid()
      reads this
    {
      body.Length == SF_BODY_MAX && |pending| == SF_PENDING_MAX
    }

    ghost predicate Open()
      reads this
    {
      Valid() && len <= SF_BODY_MAX
    }

    ghost function Bytes(): seq<byte>
      requires Open()
      reads this, body
    {
      body[..len]
    }

    constructor ()
      ensures Open() && Bytes() == [] && fresh(body) && !overrun && pending == seq(SF_PENDING_MAX, _ => None)
    {
      body := new byte[SF_BODY_MAX];
      len, nargs, overrun := 0, 0, false;
      pending := seq(SF_PENDING_MAX, _ => None);
    }

    method Begin(n: u32)
      requires Valid()
      modifies `len, `nargs
      ensures Open() && Bytes() == [] && nargs == n
    {
      len, nargs := 0, n;
    }

    /** One byte at the fill level, wherever that is. */
    method PutByte(v: byte)
      requires Valid()
      modifies `len, `overrun, body
      ensures Valid() && len == old(len) + 1 && overrun == (old(overrun) || len > SF_BODY_MAX)
      ensures len <= SF_BODY_MAX ==> Bytes() == old(body[..len]) + [v]
    {
      if len < SF_BODY_MAX {
        body[len] := v;
      } else {
        overrun := true;
      }
      len := len + 1;
    }

    method PutWord(v: u32)
      requires Valid()
      modifies `len, `overrun, body
      ensures Valid() && len == old(len) + 4 && overrun == (old(overrun) || len > SF_BODY_MAX)
      ensures len <= SF_BODY_MAX ==> Bytes() == old(body[..len]) + U32Bytes(v)
    {
      PutByte(v % 0x100);
      PutByte(v / 0x100 % 0x100);
      PutByte(v / 0x1_0000 % 0x100);
      PutByte(v / 0x100_0000 % 0x100);
    }

    method PutLong(v: u64)
      requires Valid()
      modifies `len, `overrun, body
      ensures Valid() && len == old(len) + 8 && overrun == (old(overrun) || len > SF_BODY_MAX)
      ensures len <= SF_BODY_MAX ==> Bytes() == old(body[..len]) + U64Bytes(v)
    {
      for i := 0 to 8
        invariant Valid() && len == old(len) + i
        invariant overrun == (old(overrun) || (i > 0 && len > SF_BODY_MAX))
        invariant len <= SF_BODY_MAX ==> Bytes() == old(body[..len]) + U64Bytes(v)[..i]
      {
        LEIndex(v, 8, i);
        PutByte(ShiftBytes(v, i) % 0x100);
      }
    }

    /** Strings and blobs check for room; one that does not fit marks the overflow. */
    method PutBlock(tag: byte, s: Str)
      requires Valid() && |s| < 0x8000_0000 && len < 0x4000_0000
      modifies `len, `overrun, body
      ensures Valid() && overrun == old(overrun)
      ensures if old(len) + 5 + |s| > SF_BODY_MAX then len == SF_BODY_MAX + 1
              else Open() && Bytes() == old(body[..len]) + ([tag] + (U32Bytes(|s|) + s))
    {
      if (len + 5 + |s|) % 0x1_0000_0000 > SF_BODY_MAX {
        len := SF_BODY_MAX + 1;
        return;
      }
      PutByte(tag);
      PutWord(|s|);
      ghost var head := Bytes();
      for i := 0 to |s|
        invariant Open() && overrun == old(overrun) && len == |head| + i && Bytes() == head + s[..i]
      {
        PutByte(s[i]);
      }
      assert Bytes() == old(body[..len]) + ([tag] + (U32Bytes(|s|) + s));
    }

    /** `sf_reserve` looks at the room and does nothing about it. */
    method PutTagWord(tag: byte, v: u32)
      requires Valid()
      modifies `len, `overrun, body
      ensures Valid() && len == old(len) + 5 && overrun == (old(overrun) || len > SF_BODY_MAX)
      ensures len <= SF_BODY_MAX ==> Bytes() == old(body[..len]) + ([tag] + U32Bytes(v))
    {
      PutByte(tag);
      PutWord(v);
    }

    method PutTagLong(tag: byte, v: u64)
      requires Valid()
      modifies `len, `overrun, body
      ensures Valid() && len == old(len) + 9 && overrun == (old(overrun) || len > SF_BODY_MAX)
      ensures len <= SF_BODY_MAX ==> Bytes() == old(body[..len]) + ([tag] + U64Bytes(v))
    {
      PutByte(tag);
      PutLong(v);
    }

    /** One argument; a write past the end happens exactly for an unchecked one without
        room. */
    method PutArg(a: Arg)
      requires Valid() && IsObject(a) && len < 0x4000_0000
      modifies `len, `overrun, body
      ensures Valid() && len == Advance(old(len), a)
      ensures overrun == (old(overrun) || (Unchecked(a) && old(len) + |EncArg(a)| > SF_BODY_MAX))
      ensures len <= SF_BODY_MAX ==> Bytes() == old(body[..len]) + EncArg(a)
    {
      hide U32Bytes, U64Bytes, ToU32, ToU64, Holds;
      BlockLength(a);
      match a {
        case AI32(i) => PutTagWord(0, ToU32(i));
        case AI64(l) => PutTagLong(1, ToU64(l));
        case AF64(bits) => PutTagLong(2, bits);
        case ABool(b) => PutTagWord(3, if b != 0 then 1 else 0);
        case AStr(s) => PutBlock(4, s);
        case ABytes(s) => PutBlock(5, s);
      }
    }

    /** A generated stub: all arguments in order, then the submit. It is refused exactly
        when the frame is too long or no slot is free, and has by then written past the
        buffer exactly when some unchecked argument ends past it. */
    method Call(args: seq<Arg>, want: byte) returns (slot: int)
      requires Valid() && |args| <= STUB_ARGS_MAX && forall i | 0 <= i < |args| :: IsObject(args[i])
      modifies this, body
      ensures Valid() && -1 <= slot < SF_PENDING_MAX
      ensures overrun == (old(overrun) || Overruns(args))
      ensures slot == -1 <==> |Frame(args)| > SF_BODY_MAX || forall i | 0 <= i < SF_PENDING_MAX :: old(pending)[i].Some?
      ensures slot >= 0 ==> Open() && Bytes() == Frame(args) && pending == old(pending)[slot := Some(want)]
    {
      hide EncArg, EncArgs, Unchecked, Overruns, U32Bytes, Advance, RunLen, IsObject;
      Begin(|args|);
      NothingRun(args);
      for i := 0 to |args|
        invariant Valid() && nargs == |args| && pending == old(pending)
        invariant len == RunLen(args[..i]) <= SF_BODY_MAX + 1 + 9 * i
        invariant overrun == (old(overrun) || Overruns(args[..i]))
        invariant len <= SF_BODY_MAX ==> Bytes() == EncArgs(args[..i])
      {
        RunLenNext(args, i);
        EncArgsSplit(args, i);
        AdvanceBound(len, args[i]);
        RunLenIs(args[..i]);
        RunLenIs(args[..i + 1]);
        PutArg(args[i]);
      }
      assert args[..|args|] == args;
      RunLenIs(args);
      slot := SubmitRaw(want);
    }

    /** `cerco_sf_submit_raw`: claims the first free slot, shifts the arguments up by
        four bytes in place and writes the count in front. */
    method SubmitRaw(want: byte) returns (slot: int)
      requires Valid()
      modifies this, body
      ensures Valid() && nargs == old(nargs) && overrun == old(overrun) && -1 <= slot < SF_PENDING_MAX
      ensures slot == -1 <==> (old(len) + 4 > SF_BODY_MAX || forall i | 0 <= i < SF_PENDING_MAX :: old(pending)[i].Some?)
      ensures slot >= 0 ==>
                && old(pending)[slot].None? && (forall k | 0 <= k < slot :: old(pending)[k].Some?) && pending == old(pending)[slot := Some(want)]
                && Open() && body[..len] == U32Bytes(old(nargs)) + old(body[..len])
    {
      slot := -1;
      var i := 0;
      while i < SF_PENDING_MAX
        invariant 0 <= i <= SF_PENDING_MAX && slot == -1
        invariant forall k | 0 <= k < i :: pending[k].Some?
      {
        if pending[i].None? {
          slot := i;
          break;
        }
        i := i + 1;
      }
      if slot < 0 || len + 4 > SF_BODY_MAX {
        return -1;
      }
      ghost var args := body[..len];
      ClientLibc.MemMove(body, 4, 0, len);
      var head := U32Bytes(nargs);
      body[0], body[1], body[2], body[3] := head[0], head[1], head[2], head[3];
      len := len + 4;
      pending := pending[slot := Some(want)];
      assert body[4..len] == args;
      assert body[..len] == head + body[4..len];
    }

    /** A reply for slot `slot`: the slot is freed and its callback gets one outcome. */
    method OnReply(slot: nat, status: int, data: seq<byte>, scratch: bool) returns (o: Option<Outcome>)
      requires Valid() && slot < SF_PENDING_MAX
      modifies `pending
      ensures Valid() && pending == old(pending)[slot := None]
      ensures o == if old(pending)[slot].None? then None
                   else Some(Done(status, data, old(pending)[slot].value, scratch))
      ensures o.Some? ==>
                forall x | IsValue(x) :: o.value == x <==> status == 200 && Carries(data, old(pending)[slot].value, x)
      ensures o.Some? ==> (o.value == Err(NetworkError) <==> status != 200 || |data| < 9)
    {
      var p := pending[slot];
      pending := pending[slot := None];
      if p.None? {
        return None;
      }
      var got := DecodeReply(status, data, p.value, scratch);
      o := Some(got);
    }
  }

  lemma NothingRun(args: seq<Arg>)
    ensures RunLen(args[..0]) == 0 && EncArgs(args[..0]) == [] && !Overruns(args[..0])
  {
  }

  lemma AdvanceBound(len: nat, a: Arg)
    ensures Advance(len, a) <= (if len > SF_BODY_MAX + 1 then len else SF_BODY_MAX + 1) + 9
    ensures len <= Advance(len, a) || Advance(len, a) == SF_BODY_MAX + 1
  {
  }

  lemma {:induction false} EncArgsConcat(xs: seq<Arg>, ys: seq<Arg>)
    ensures EncArgs(xs + ys) == EncArgs(xs) + EncArgs(ys)
  {
    hide EncArg;
    if xs == [] {
      assert xs + ys == ys;
    } else {
      assert (xs + ys)[1..] == xs[1..] + ys;
      EncArgsConcat(xs[1..], ys);
    }
  }

  lemma EncArgsSplit(args: seq<Arg>, i: nat)
    requires i < |args|
    ensures EncArgs(args[..i + 1]) == EncArgs(args[..i]) + EncArg(args[i])
    ensures |EncArgs(args[..i + 1])| <= |EncArgs(args)|
  {
    hide EncArg;
    assert args[..i + 1] == args[..i] + [args[i]];
    EncArgsConcat(args[..i], [args[i]]);
    assert EncArgs([args[i]]) == EncArg(args[i]);
    assert args == args[..i + 1] + args[i + 1..];
    EncArgsConcat(args[..i + 1], args[i + 1..]);
  }
}
