/** Percent-decoding, and the two walkers over urlencoded pairs: the query walker on
    NUL-terminated text and the form parser on a bounded body. */
module UrlEncoded {
  import opened Bytes
  import opened Search

  const PERCENT: byte := 0x25
  const PLUS: byte := 0x2B
  const SPACE: byte := 0x20
  const EQUALS: byte := 0x3D
  const AND: byte := 0x26

  // ----------------------------------------------------------------- decoding

  function HexVal(c: byte): (v: Option<nat>)
    ensures v.Some? ==> v.value < 16
  {
    if 0x30 <= c <= 0x39 then Some(c - 0x30)
    else if 0x61 <= c <= 0x66 then Some(c - 0x61 + 10)
    else if 0x41 <= c <= 0x46 then Some(c - 0x41 + 10)
    else None
  }

  /** A hexadecimal digit in either case stands for its place in the row of digits. */
  lemma HexValIff(c: byte, v: nat)
    requires v < 16
    ensures HexVal(c) == Some(v) <==> c == Ascii("0123456789abcdef")[v] || c == Ascii("0123456789ABCDEF")[v]
  {
  }

  /** The signs, in characters. */
  lemma SignTexts()
    ensures [PERCENT] == Ascii("%") && [PLUS] == Ascii("+") && [SPACE] == Ascii(" ")
    ensures [EQUALS] == Ascii("=") && [AND] == Ascii("&")
  {
  }

  /** The decoded bytes; None for a truncated or malformed escape. */
  function Decoded(s: seq<byte>, plus: bool): (r: Option<seq<byte>>)
    ensures r.Some? ==> |r.value| <= |s|
    decreases |s|
  {
    if s == [] then Some([])
    else if s[0] == PERCENT then
      if |s| < 3 || HexVal(s[1]).None? || HexVal(s[2]).None? then None
      else Prepend(16 * HexVal(s[1]).value + HexVal(s[2]).value, Decoded(s[3..], plus))
    else if s[0] == PLUS && plus then Prepend(SPACE, Decoded(s[1..], plus))
    else Prepend(s[0], Decoded(s[1..], plus))
  }

  function Prepend(c: byte, rest: Option<seq<byte>>): Option<seq<byte>>
  {
    if rest.None? then None else Some([c] + rest.value)
  }

  /** Decoding into a buffer of `cap` bytes, one of them for the terminator. */
  function DecodedWithin(s: seq<byte>, cap: nat, plus: bool): Option<seq<byte>>
  {
    var r := Decoded(s, plus);
    if r.Some? && |r.value| < cap then r else None
  }

  function Continued(done: seq<byte>, rest: Option<seq<byte>>): Option<seq<byte>>
  {
    if rest.None? then None else Some(done + rest.value)
  }

  lemma ContinuedMore(done: seq<byte>, c: byte, rest: Option<seq<byte>>)
    ensures Continued(done, Prepend(c, rest)) == Continued(done + [c], rest)
  {
    if rest.Some? {
      assert done + ([c] + rest.value) == (done + [c]) + rest.value;
    }
  }

  lemma Window(s: seq<byte>, base: nat, i: nat, j: nat)
    requires base + i <= base + j <= |s|
    ensures s[base..][i..j] == s[base + i..base + j] && s[base..][i..] == s[base + i..]
  {
  }

  lemma DecodedNothing(plus: bool)
    ensures Decoded([], plus) == Some([])
  {
  }

  /** One turn of the decoding loop: the decoded byte and where the next one starts. */
  method DecodeOne(s: seq<byte>, i: nat, plus: bool) returns (ok: bool, out: byte, next: nat)
    requires i < |s|
    ensures ok ==> i < next <= |s| && Decoded(s[i..], plus) == Prepend(out, Decoded(s[next..], plus))
    ensures !ok ==> Decoded(s[i..], plus).None?
  {
    hide HexVal;
    var c := s[i];
    ok, out, next := true, c, i + 1;
    Window(s, i, 1, 1);
    if c == PERCENT {
      if i + 2 >= |s| {
        return false, out, next;
      }
      var hi, lo := HexVal(s[i + 1]), HexVal(s[i + 2]);
      if hi.None? || lo.None? {
        return false, out, next;
      }
      Window(s, i, 3, 3);
      out, next := 16 * hi.value + lo.value, i + 3;
    } else if c == PLUS && plus {
      out := SPACE;
    }
  }

  /** `cerco_url_decode`; None is the all-ones size. */
  method UrlDecode(s: seq<byte>, dst: array<byte>, plus: bool) returns (r: Option<nat>)
    modifies dst
    ensures r.Some? <==> DecodedWithin(s, dst.Length, plus).Some?
    ensures r.Some? ==> r.value < dst.Length && dst[r.value] == 0
                        && Some(dst[..r.value]) == DecodedWithin(s, dst.Length, plus)
  {
    DecodedNothing(plus);
    hide Decoded;
    if dst.Length == 0 {
      return None;
    }
    var o, i := 0, 0;
    assert s[0..] == s && forall x: seq<byte> :: [] + x == x;
    while i < |s|
      invariant i <= |s| && o < dst.Length
      invariant Decoded(s, plus) == Continued(dst[..o], Decoded(s[i..], plus))
      decreases |s| - i
    {
      var ok, out, next := DecodeOne(s, i, plus);
      if !ok {
        return None;
      }
      ContinuedMore(dst[..o], out, Decoded(s[next..], plus));
      if o + 1 >= dst.Length {
        return None;
      }
      ghost var done := dst[..o];
      dst[o] := out;
      o := o + 1;
      i := next;
      assert dst[..o] == done + [out];
    }
    assert s[i..] == [];
    ghost var done := dst[..o];
    assert done + [] == done;
    dst[o] := 0;
    assert dst[..o] == done;
    return Some(o);
  }

  // --------------------------------------------- every percent-encoding

  /** One encoded byte, as section 2.1 of RFC 3986 writes it; a plus sign for a space where
      forms allow it. */
  datatype Unit = Raw(c: byte) | Pct(hi: byte, lo: byte) | Space

  predicate UnitOk(u: Unit, plus: bool)
  {
    match u
    case Raw(c) => c != PERCENT && (plus ==> c != PLUS)
    case Pct(hi, lo) => HexVal(hi).Some? && HexVal(lo).Some?
    case Space => plus
  }

  function UnitText(u: Unit): (t: seq<byte>)
    ensures t != []
  {
    match u
    case Raw(c) => [c]
    case Pct(hi, lo) => [PERCENT, hi, lo]
    case Space => [PLUS]
  }

  function UnitByte(u: Unit, plus: bool): byte
    requires UnitOk(u, plus)
  {
    match u
    case Raw(c) => c
    case Pct(hi, lo) => 16 * HexVal(hi).value + HexVal(lo).value
    case Space => SPACE
  }

  predicate Encoding(us: seq<Unit>, plus: bool) { forall i | 0 <= i < |us| :: UnitOk(us[i], plus) }

  function Text(us: seq<Unit>): seq<byte>
  {
    if us == [] then [] else UnitText(us[0]) + Text(us[1..])
  }

  function Meaning(us: seq<Unit>, plus: bool): (m: seq<byte>)
    requires Encoding(us, plus)
    ensures |m| == |us|
  {
    seq(|us|, i requires 0 <= i < |us| => UnitByte(us[i], plus))
  }

  lemma DecodedUnit(u: Unit, rest: seq<byte>, plus: bool)
    requires UnitOk(u, plus)
    ensures Decoded(UnitText(u) + rest, plus) == Prepend(UnitByte(u, plus), Decoded(rest, plus))
  {
    var t := UnitText(u);
    assert (t + rest)[|t|..] == rest;
    assert t[0] == (t + rest)[0];
    if u.Pct? {
      assert (t + rest)[1] == u.hi && (t + rest)[2] == u.lo;
    }
  }

  /** Decoding inverts every percent-encoding of every byte string. */
  lemma {:induction false} DecodingInverts(us: seq<Unit>, plus: bool)
    requires Encoding(us, plus)
    ensures Decoded(Text(us), plus) == Some(Meaning(us, plus))
  {
    hide UnitOk, UnitText, UnitByte;
    if us == [] {
      DecodedNothing(plus);
    } else {
      hide Decoded;
      DecodingInverts(us[1..], plus);
      DecodedUnit(us[0], Text(us[1..]), plus);
      assert Meaning(us, plus) == [UnitByte(us[0], plus)] + Meaning(us[1..], plus);
    }
  }

  /** Nothing else is accepted: decodable text is an encoding of what it decodes to. */
  lemma {:induction false} DecodedIsEncoding(s: seq<byte>, plus: bool) returns (us: seq<Unit>)
    requires Decoded(s, plus).Some?
    ensures Encoding(us, plus) && Text(us) == s && Some(Meaning(us, plus)) == Decoded(s, plus)
    decreases |s|
  {
    if s == [] {
      us := [];
    } else {
      var u := if s[0] == PERCENT then Pct(s[1], s[2]) else if s[0] == PLUS && plus then Space else Raw(s[0]);
      var rest := s[|UnitText(u)|..];
      var vs := DecodedIsEncoding(rest, plus);
      us := [u] + vs;
      assert us[1..] == vs && s == UnitText(u) + rest;
      DecodingInverts(us, plus);
    }
  }

  /** The upper-case form every byte string has. */
  function HexDigit(n: nat): (c: byte)
    requires n < 16
    ensures HexVal(c) == Some(n)
  {
    if n < 10 then 0x30 + n else 0x41 + (n - 10)
  }

  function PercentEncoded(s: seq<byte>): (us: seq<Unit>)
    ensures |us| == |s| && forall i | 0 <= i < |s| :: us[i] == Pct(HexDigit(s[i] / 16), HexDigit(s[i] % 16))
  {
    seq(|s|, i requires 0 <= i < |s| => Pct(HexDigit(s[i] / 16), HexDigit(s[i] % 16)))
  }

  lemma DigitsBack(c: byte, plus: bool)
    ensures var u := Pct(HexDigit(c / 16), HexDigit(c % 16)); UnitOk(u, plus) && UnitByte(u, plus) == c
  {
    hide HexVal;
  }

  lemma EveryStringEncodes(s: seq<byte>, plus: bool)
    ensures Encoding(PercentEncoded(s), plus) && Decoded(Text(PercentEncoded(s)), plus) == Some(s)
  {
    var us := PercentEncoded(s);
    forall i | 0 <= i < |us|
      ensures UnitOk(us[i], plus) && UnitByte(us[i], plus) == s[i]
    {
      DigitsBack(s[i], plus);
    }
    hide UnitOk, UnitByte, HexDigit, Decoded, Text;
    DecodingInverts(us, plus);
    assert Meaning(us, plus) == s;
  }

  // ------------------------------------------------------------- pair walkers

  predicate Ends(c: byte, key: bool) { c == AND || (key && c == EQUALS) }

  /** Length of a key or value: up to its separator or the end of the text. */
  function EndOf(s: seq<byte>, key: bool): (n: nat)
    ensures n <= |s| && (forall i | 0 <= i < n :: !Ends(s[i], key)) && (n < |s| ==> Ends(s[n], key))
  {
    if s == [] || Ends(s[0], key) then 0 else 1 + EndOf(s[1..], key)
  }

  lemma EndIs(s: seq<byte>, key: bool, n: nat)
    requires n <= |s| && (forall i | 0 <= i < n :: !Ends(s[i], key)) && (n < |s| ==> Ends(s[n], key))
    ensures EndOf(s, key) == n
  {
  }

  /** A decoded field, as the C string its readers see. */
  function Field(s: seq<byte>, cap: nat): Option<seq<byte>>
  {
    match DecodedWithin(s, cap, true)
    case None => None
    case Some(r) => Some(CStr(r))
  }

  datatype Next = Stop | Bad(used: nat) | Pair(key: seq<byte>, value: seq<byte>, used: nat)

  function SkipAnd(s: seq<byte>, n: nat): nat { if n < |s| && s[n] == AND then n + 1 else n }

  /** Where the fields of the first pair lie: the key up to `klen`, the value between
      `vstart` and `vend`, the next pair from `used`. */
  datatype Span = Span(klen: nat, vstart: nat, vend: nat, used: nat)

  function Scan(s: seq<byte>): (r: Span)
    ensures r.klen <= r.vstart <= r.vend <= r.used <= |s|
    ensures s != [] ==> r.used > 0
  {
    var k := EndOf(s, true);
    if k < |s| && s[k] == EQUALS then
      var end := k + 1 + EndOf(s[k + 1..], false);
      Span(k, k + 1, end, SkipAnd(s, end))
    else Span(k, k, k, SkipAnd(s, k))
  }

  /** The next pair of non-empty text, and how far it reaches. A bad key leaves the
      position alone, a bad value does not; a pair without `=` has an empty value. */
  function NextPair(s: seq<byte>, kcap: nat, vcap: nat): (r: Next)
    ensures r.Pair? ==> 0 < r.used <= |s|
    ensures r.Bad? ==> r.used <= |s|
  {
    if s == [] then Stop
    else
      var span := Scan(s);
      var key, value := Field(s[..span.klen], kcap), Field(s[span.vstart..span.vend], vcap);
      if key.None? then Bad(0)
      else if value.None? then Bad(span.used)
      else Pair(key.value, value.value, span.used)
  }

  /** All pairs up to the end of the text or the first malformed or oversized field. */
  function Pairs(s: seq<byte>, kcap: nat, vcap: nat): seq<(seq<byte>, seq<byte>)>
    decreases |s|
  {
    match NextPair(s, kcap, vcap)
    case Pair(key, value, used) => [(key, value)] + Pairs(s[used..], kcap, vcap)
    case _ => []
  }

  /** A field as written: a key without `=` and `&`, then perhaps `=` (61) and a value
      without `&` (38). */
  predicate IsField(field: seq<byte>, key: seq<byte>, value: seq<byte>)
  {
    && 61 !in key && 38 !in key && 38 !in value
    && ((field == key && value == []) || field == key + [61] + value)
  }

  lemma ScanField(s: seq<byte>, field: seq<byte>, key: seq<byte>, value: seq<byte>, tail: seq<byte>)
    requires IsField(field, key, value) && s == field + tail && (tail == [] || tail[0] == 38)
    ensures var span := Scan(s);
            && s[..span.klen] == key && s[span.vstart..span.vend] == value
            && span.used == |field| + if tail == [] then 0 else 1
  {
    hide EndOf, Scan;
    ClearBytes(s, key, true);
    EndIs(s, true, |key|);
    assert s[..|key|] == key;
    if field == key + [61] + value {
      ScanValue(s, key, value, tail);
    } else {
      hide Ends;
      ScanIs(s, |key|, 0);
    }
  }

  lemma ScanValue(s: seq<byte>, key: seq<byte>, value: seq<byte>, tail: seq<byte>)
    requires s == key + [61] + value + tail && 38 !in value && (tail == [] || tail[0] == 38)
    requires EndOf(s, true) == |key|
    ensures var k := |key|;
            s[k + 1..k + 1 + |value|] == value
            && Scan(s) == Span(k, k + 1, k + 1 + |value|, k + 1 + |value| + if tail == [] then 0 else 1)
  {
    hide EndOf, Scan, Ends;
    FieldParts(s, key, value, tail);
    var after := s[|key| + 1..];
    ClearBytes(after, value, false);
    ValueEnds(after, value, tail);
    ScanIs(s, |key|, |value|);
  }

  lemma FieldParts(s: seq<byte>, key: seq<byte>, value: seq<byte>, tail: seq<byte>)
    requires s == key + [61] + value + tail
    ensures s[|key|] == 61 && s[|key| + 1..] == value + tail && s[|key| + 1..|key| + 1 + |value|] == value
    ensures |s| == |key| + 1 + |value| + |tail| && (tail != [] ==> s[|key| + 1 + |value|] == tail[0])
  {
  }

  lemma ValueEnds(s: seq<byte>, value: seq<byte>, tail: seq<byte>)
    requires s == value + tail && (tail == [] || tail[0] == 38)
    requires forall i | 0 <= i < |value| :: !Ends(s[i], false)
    ensures EndOf(s, false) == |value|
  {
    EndIs(s, false, |value|);
  }

  lemma ClearBytes(s: seq<byte>, part: seq<byte>, key: bool)
    requires part <= s && 38 !in part && (key ==> 61 !in part)
    ensures forall i | 0 <= i < |part| :: !Ends(s[i], key)
  {
    assert forall i | 0 <= i < |part| :: s[i] == part[i] && part[i] in part;
  }

  /** The pair list, told on the text: the fields between ampersands, each with its key and
      value decoded, up to the first that does not decode or does not fit. A last empty
      field behind an ampersand is none; an empty field anywhere else is a pair. */
  lemma PairsOfText(field: seq<byte>, key: seq<byte>, value: seq<byte>, tail: seq<byte>, kcap: nat, vcap: nat)
    requires IsField(field, key, value) && (tail == [] || tail[0] == 38) && field + tail != []
    ensures Pairs([], kcap, vcap) == []
    ensures var k, v := Field(key, kcap), Field(value, vcap);
            Pairs(field + tail, kcap, vcap) ==
            if k.None? || v.None? then []
            else [(k.value, v.value)] + if tail == [] then [] else Pairs(tail[1..], kcap, vcap)
  {
    hide Field, Scan;
    var s := field + tail;
    ScanField(s, field, key, value, tail);
    NothingNext(kcap, vcap);
    if tail == [] {
      assert s[|field|..] == [];
    } else {
      assert s[|field| + 1..] == tail[1..];
    }
  }

  lemma {:induction false} CStrPadded(s: seq<byte>, rest: seq<byte>)
    ensures CStr(s + [0] + rest) == CStr(s)
  {
    if s == [] {
      assert (s + [0] + rest)[0] == 0;
    } else {
      assert (s + [0] + rest)[1..] == s[1..] + [0] + rest;
      CStrPadded(s[1..], rest);
    }
  }

  /** Decoding into a buffer that is then read as a C string. */
  method DecodeField(s: seq<byte>, buf: array<byte>) returns (ok: bool)
    modifies buf
    ensures ok <==> Field(s, buf.Length).Some?
    ensures ok ==> Field(s, buf.Length) == Some(CStr(buf[..]))
  {
    var r := UrlDecode(s, buf, true);
    ok := r.Some?;
    if ok {
      var n := r.value;
      assert buf[..] == buf[..n] + [0] + buf[n + 1..];
      CStrPadded(buf[..n], buf[n + 1..]);
    }
  }

  /** The query walker's scan loops: up to a separator or the terminator. */
  method QueryEnd(q: seq<byte>, p: nat, key: bool) returns (end: nat)
    requires NulFree(q) && p <= |q|
    ensures end == p + EndOf(q[p..], key)
  {
    end := p;
    while At(q, end) != 0 && !(key && At(q, end) == EQUALS) && At(q, end) != AND
      invariant p <= end <= |q| && forall i | p <= i < end :: !Ends(q[i], key)
      decreases |q| - end
    {
      end := end + 1;
    }
    EndIs(q[p..], key, end - p);
  }

  /** The rest of the query walker's scan, after the key that ends at `kend`; without a
      value, `vstart` is absent. */
  method QueryRest(q: seq<byte>, pos: nat, kend: nat) returns (vstart: Option<nat>, vend: nat, end: nat)
    requires NulFree(q) && pos <= kend <= |q| && kend - pos == EndOf(q[pos..], true)
    ensures pos <= end && (vstart.Some? ==> pos <= vstart.value <= vend <= |q|)
    ensures Scan(q[pos..]) == if vstart.Some? then Span(kend - pos, vstart.value - pos, vend - pos, end - pos)
                              else Span(kend - pos, kend - pos, kend - pos, end - pos)
  {
    hide EndOf, Scan;
    var p := kend;
    vstart, vend := None, kend;
    Peek(q, pos, kend - pos);
    if At(q, p) == EQUALS {
      p := p + 1;
      vstart := Some(p);
      Window(q, pos, p - pos, p - pos);
      p := QueryEnd(q, p, false);
      vend := p;
    }
    ScanIs(q[pos..], kend - pos, if vstart.Some? then vend - vstart.value else 0);
    Peek(q, pos, p - pos);
    if At(q, p) == AND {
      p := p + 1;
    }
    end := p;
  }

  lemma ScanKey(s: seq<byte>)
    ensures Scan(s).klen == EndOf(s, true)
  {
  }

  /** `cerco_query_next`: 1 for a pair, 0 at the end, -1 for a bad field. */
  method QueryNext(q: seq<byte>, pos: nat, kbuf: array<byte>, vbuf: array<byte>) returns (r: int, end: nat)
    requires NulFree(q) && pos <= |q| && vbuf.Length > 0 && kbuf != vbuf
    modifies kbuf, vbuf
    ensures match NextPair(q[pos..], kbuf.Length, vbuf.Length)
            case Stop => r == 0 && end == pos
            case Bad(used) => r == -1 && end == pos + used
            case Pair(key, value, used) =>
              r == 1 && end == pos + used && CStr(kbuf[..]) == key && CStr(vbuf[..]) == value
  {
    hide Field, EndOf, CStr, Scan;
    end := pos;
    if At(q, pos) == 0 {
      return 0, end;
    }
    ghost var span := Scan(q[pos..]);
    ScanKey(q[pos..]);
    var p := QueryEnd(q, pos, true);
    Window(q, pos, 0, span.klen);
    var ok := DecodeField(q[pos..p], kbuf);
    if !ok {
      return -1, end;
    }
    var vstart, vend, next := QueryRest(q, pos, p);
    end := next;
    Window(q, pos, span.vstart, span.vend);
    if vstart.Some? {
      ok := DecodeField(q[vstart.value..vend], vbuf);
      if !ok {
        return -1, end;
      }
    } else {
      vbuf[0] := 0;
      CStrOfTerminator(vbuf[..]);
      NoValue(vbuf.Length);
    }
    return 1, end;
  }

  lemma NoValue(cap: nat)
    requires cap > 0
    ensures Field([], cap) == Some([])
  {
  }

  lemma CStrOfTerminator(s: seq<byte>)
    requires s != [] && s[0] == 0
    ensures CStr(s) == []
  {
  }

  /** Calling `cerco_query_next` until it stops. The position grows with every pair, so it
      does stop. */
  method QueryPairs(q: seq<byte>, kcap: nat, vcap: nat) returns (pairs: seq<(seq<byte>, seq<byte>)>)
    requires NulFree(q) && vcap > 0
    ensures pairs == Pairs(q, kcap, vcap)
  {
    hide NextPair;
    var kbuf, vbuf := new byte[kcap], new byte[vcap];
    pairs := [];
    var pos := 0;
    assert q[0..] == q;
    while true
      invariant pos <= |q| && Pairs(q, kcap, vcap) == pairs + Pairs(q[pos..], kcap, vcap)
      decreases |q| - pos
    {
      var r, end := QueryNext(q, pos, kbuf, vbuf);
      if r != 1 {
        break;
      }
      assert q[pos..][end - pos..] == q[end..];
      pairs := pairs + [(CStr(kbuf[..]), CStr(vbuf[..]))];
      pos := end;
    }
  }

  const KEY_BUF := 256
  const VALUE_BUF := 2048

  /** The form parser's scan loops: up to a separator or the end of the body. */
  method FormEnd(b: seq<byte>, p: nat, key: bool) returns (end: nat)
    requires p <= |b|
    ensures end == p + EndOf(b[p..], key)
  {
    end := p;
    while end < |b| && !(key && b[end] == EQUALS) && b[end] != AND
      invariant p <= end <= |b| && forall i | p <= i < end :: !Ends(b[i], key)
    {
      end := end + 1;
    }
    EndIs(b[p..], key, end - p);
  }

  lemma ScanIs(s: seq<byte>, k: nat, v: nat)
    requires k == EndOf(s, true) && (k < |s| && s[k] == EQUALS ==> v == EndOf(s[k + 1..], false))
    ensures Scan(s) == if k < |s| && s[k] == EQUALS then Span(k, k + 1, k + 1 + v, SkipAnd(s, k + 1 + v))
                       else Span(k, k, k, SkipAnd(s, k))
  {
    hide EndOf;
  }

  /** The scan of one pair: the key's length, where the value lies, where the next pair
      starts. */
  method FormScan(b: seq<byte>, kstart: nat) returns (klen: nat, vstart: nat, vend: nat, pos: nat)
    requires kstart < |b|
    ensures kstart <= vstart <= vend <= |b| && kstart <= pos
    ensures Scan(b[kstart..]) == Span(klen, vstart - kstart, vend - kstart, pos - kstart)
  {
    hide EndOf, Scan, Ends;
    pos := FormEnd(b, kstart, true);
    klen, vstart, vend := pos - kstart, pos, pos;
    if pos < |b| && b[pos] == EQUALS {
      pos := pos + 1;
      vstart := pos;
      pos := FormEnd(b, vstart, false);
      vend := pos;
    }
    FormSpan(b, kstart, klen, vend - vstart);
    if pos < |b| && b[pos] == AND {
      pos := pos + 1;
    }
  }

  /** The span of the pair at `at`, told by positions in the whole body. */
  lemma FormSpan(b: seq<byte>, at: nat, k: nat, v: nat)
    requires at + k <= |b| && k == EndOf(b[at..], true)
    requires at + k < |b| && b[at + k] == EQUALS ==> v == EndOf(b[at + k + 1..], false)
    ensures var eq := at + k < |b| && b[at + k] == EQUALS;
            var vstart := if eq then k + 1 else k;
            var vend := if eq then k + 1 + v else k;
            at + vend <= |b|
            && Scan(b[at..]) ==
               Span(k, vstart, vend, if at + vend < |b| && b[at + vend] == AND then vend + 1 else vend)
  {
    hide EndOf, Scan, Ends;
    Peek(b, at, k);
    if at + k < |b| && b[at + k] == EQUALS {
      Window(b, at, k + 1, k + 1);
      Peek(b, at, k + 1 + v);
    }
    ScanIs(b[at..], k, v);
  }

  lemma Peek(b: seq<byte>, base: nat, i: nat)
    requires base + i <= |b|
    ensures i < |b[base..]| <==> base + i < |b|
    ensures base + i < |b| ==> b[base..][i] == b[base + i]
  {
  }

  /** One turn of `form_parse`'s bounded walk: the pair it would append and the new
      position, or None to give up. */
  method FormNext(b: seq<byte>, kstart: nat) returns (r: Option<(seq<byte>, seq<byte>)>, pos: nat)
    requires kstart < |b|
    ensures match NextPair(b[kstart..], KEY_BUF, VALUE_BUF)
            case Pair(key, value, used) => r == Some((key, value)) && pos == kstart + used
            case _ => r == None
  {
    hide Field, EndOf, CStr, Scan;
    ghost var span := Scan(b[kstart..]);
    var klen, vstart, vend;
    klen, vstart, vend, pos := FormScan(b, kstart);
    Window(b, kstart, 0, span.klen);
    Window(b, kstart, span.vstart, span.vend);
    var kbuf, vbuf := new byte[KEY_BUF], new byte[VALUE_BUF];
    var ok := DecodeField(b[kstart..kstart + klen], kbuf);
    if !ok {
      return None, pos;
    }
    ok := DecodeField(b[vstart..vend], vbuf);
    if !ok {
      return None, pos;
    }
    r := Some((CStr(kbuf[..]), CStr(vbuf[..])));
  }

  /** `form_parse` over a urlencoded body, which may hold any bytes; the list is what the
      tail pointer appended. */
  method FormParse(b: seq<byte>) returns (form: seq<(seq<byte>, seq<byte>)>)
    ensures form == Pairs(b, KEY_BUF, VALUE_BUF)
  {
    hide NextPair;
    form := [];
    var pos := 0;
    assert b[0..] == b;
    while pos < |b|
      invariant pos <= |b| && Pairs(b, KEY_BUF, VALUE_BUF) == form + Pairs(b[pos..], KEY_BUF, VALUE_BUF)
      decreases |b| - pos
    {
      var kv, end := FormNext(b, pos);
      if kv.None? {
        return;
      }
      assert b[pos..][end - pos..] == b[end..];
      form := form + [kv.value];
      pos := end;
    }
    NothingNext(KEY_BUF, VALUE_BUF);
    assert b[pos..] == [];
  }

  // ---------------------------------------------------------------- round trip

  datatype Encoded = Encoded(key: seq<Unit>, value: seq<Unit>)

  predicate BothEncode(e: Encoded) { Encoding(e.key, true) && Encoding(e.value, true) }

  /** An encoded pair whose raw bytes do not read as separators. */
  predicate Separable(e: Encoded)
    requires BothEncode(e)
  {
    && (forall i | 0 <= i < |e.key| && e.key[i].Raw? :: !Ends(e.key[i].c, true))
    && (forall i | 0 <= i < |e.value| && e.value[i].Raw? :: !Ends(e.value[i].c, false))
  }

  /** Small enough for the buffers, and C strings. */
  predicate PairOk(e: Encoded, kcap: nat, vcap: nat)
    requires BothEncode(e)
  {
    && Separable(e)
    && |e.key| < kcap && |e.value| < vcap
    && NulFree(Meaning(e.key, true)) && NulFree(Meaning(e.value, true))
  }

  function PairText(e: Encoded): seq<byte> { Text(e.key) + [EQUALS] + Text(e.value) }

  function FormText(es: seq<Encoded>): seq<byte>
  {
    if es == [] then [] else if |es| == 1 then PairText(es[0]) else PairText(es[0]) + [AND] + FormText(es[1..])
  }

  function MeantPair(e: Encoded): (seq<byte>, seq<byte>)
    requires BothEncode(e)
  {
    (Meaning(e.key, true), Meaning(e.value, true))
  }

  function Meant(es: seq<Encoded>): seq<(seq<byte>, seq<byte>)>
    requires forall i | 0 <= i < |es| :: BothEncode(es[i])
  {
    seq(|es|, i requires 0 <= i < |es| => MeantPair(es[i]))
  }

  lemma {:induction false} NoSeparators(us: seq<Unit>, key: bool)
    requires Encoding(us, true) && forall i | 0 <= i < |us| && us[i].Raw? :: !Ends(us[i].c, key)
    ensures forall i | 0 <= i < |Text(us)| :: !Ends(Text(us)[i], key)
  {
    if us != [] {
      NoSeparators(us[1..], key);
    }
  }

  lemma FieldOf(us: seq<Unit>, cap: nat)
    requires Encoding(us, true) && |us| < cap && NulFree(Meaning(us, true))
    ensures Field(Text(us), cap) == Some(Meaning(us, true))
  {
    hide Decoded, Text;
    DecodingInverts(us, true);
    CStrWhole(Meaning(us, true));
  }

  lemma FirstSpan(e: Encoded, tail: seq<byte>)
    requires BothEncode(e) && Separable(e) && (tail == [] || tail[0] == AND)
    ensures var k, v := |Text(e.key)|, |Text(e.value)|;
            Scan(PairText(e) + tail) == Span(k, k + 1, k + 1 + v, k + 1 + v + if tail == [] then 0 else 1)
  {
    hide EndOf, Text;
    var s, k, v := PairText(e) + tail, Text(e.key), Text(e.value);
    NoSeparators(e.key, true);
    NoSeparators(e.value, false);
    assert s[|k|] == EQUALS && forall i | 0 <= i < |k| :: s[i] == k[i];
    EndIs(s, true, |k|);
    var after := s[|k| + 1..];
    assert after == v + tail;
    EndIs(after, false, |v|);
  }

  lemma FirstPair(e: Encoded, tail: seq<byte>, kcap: nat, vcap: nat)
    requires BothEncode(e) && PairOk(e, kcap, vcap) && (tail == [] || tail[0] == AND)
    ensures NextPair(PairText(e) + tail, kcap, vcap) ==
            Pair(Meaning(e.key, true), Meaning(e.value, true), |PairText(e)| + if tail == [] then 0 else 1)
  {
    hide Field, EndOf, Text, Meaning;
    var s, k, v := PairText(e) + tail, Text(e.key), Text(e.value);
    FirstSpan(e, tail);
    hide Scan;
    assert s[..|k|] == k && s[|k| + 1..|k| + 1 + |v|] == v;
    FieldOf(e.key, kcap);
    FieldOf(e.value, vcap);
  }

  function Tail(es: seq<Encoded>): seq<byte>
    requires es != []
  {
    if |es| == 1 then [] else [AND] + FormText(es[1..])
  }

  lemma FormTextSplit(es: seq<Encoded>)
    requires es != []
    ensures FormText(es) == PairText(es[0]) + Tail(es)
    ensures FormText(es)[|PairText(es[0])| + if Tail(es) == [] then 0 else 1..] == FormText(es[1..])
  {
    hide PairText;
    var p := PairText(es[0]);
    if |es| == 1 {
      assert (p + [])[|p|..] == [] && es[1..] == [];
    } else {
      assert p + [AND] + FormText(es[1..]) == p + ([AND] + FormText(es[1..]));
      Window(FormText(es), |p|, 1, 1);
      assert FormText(es)[|p|..] == Tail(es);
    }
  }

  /** Every way of encoding a list of pairs is read back as that list, by either walker. */
  lemma {:induction false} FormRoundTrip(es: seq<Encoded>, kcap: nat, vcap: nat)
    requires forall i | 0 <= i < |es| :: BothEncode(es[i])
    requires forall i | 0 <= i < |es| :: PairOk(es[i], kcap, vcap)
    ensures Pairs(FormText(es), kcap, vcap) == Meant(es)
  {
    hide NextPair, Meaning, PairText;
    if es == [] {
      NothingNext(kcap, vcap);
    } else {
      var e := es[0];
      assert BothEncode(e) && PairOk(e, kcap, vcap);
      MeantFirst(es);
      FormTextSplit(es);
      hide FormText, Meant;
      FirstPair(e, Tail(es), kcap, vcap);
      FormRoundTrip(es[1..], kcap, vcap);
      hide Tail, PairOk, Encoding;
      PairsFirst(FormText(es), kcap, vcap);
      hide Pairs;
    }
  }

  lemma MeantFirst(es: seq<Encoded>)
    requires es != [] && forall i | 0 <= i < |es| :: BothEncode(es[i])
    ensures Meant(es) == [MeantPair(es[0])] + Meant(es[1..])
  {
    hide BothEncode, MeantPair;
  }

  lemma PairsFirst(s: seq<byte>, kcap: nat, vcap: nat)
    requires NextPair(s, kcap, vcap).Pair?
    ensures var n := NextPair(s, kcap, vcap);
            Pairs(s, kcap, vcap) == [(n.key, n.value)] + Pairs(s[n.used..], kcap, vcap)
  {
    hide NextPair;
  }

  lemma NothingNext(kcap: nat, vcap: nat)
    ensures NextPair([], kcap, vcap) == Stop
  {
  }
}
