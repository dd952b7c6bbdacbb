/** HTML escaping: the length query, the buffered form and the run-flushing form all
    produce one text, and unescaping it gives the input back. */
module Escape {
  import opened Bytes
  import A = Arena
  import R = ResponseBuffer

  const AMP: byte := 0x26
  const LESS: byte := 0x3C
  const GREATER: byte := 0x3E
  const QUOTE: byte := 0x22
  const APOSTROPHE: byte := 0x27

  /** `&amp;`, `&lt;`, `&gt;`, `&quot;` and `&#39;`. */
  const AMP_TEXT: seq<byte> := [0x26, 0x61, 0x6D, 0x70, 0x3B]
  const LESS_TEXT: seq<byte> := [0x26, 0x6C, 0x74, 0x3B]
  const GREATER_TEXT: seq<byte> := [0x26, 0x67, 0x74, 0x3B]
  const QUOTE_TEXT: seq<byte> := [0x26, 0x71, 0x75, 0x6F, 0x74, 0x3B]
  const APOSTROPHE_TEXT: seq<byte> := [0x26, 0x23, 0x33, 0x39, 0x3B]

  /** The replacement of a special byte; empty for any other. */
  function Rep(c: byte): seq<byte>
  {
    if c == AMP then AMP_TEXT
    else if c == LESS then LESS_TEXT
    else if c == GREATER then GREATER_TEXT
    else if c == QUOTE then QUOTE_TEXT
    else if c == APOSTROPHE then APOSTROPHE_TEXT
    else []
  }

  function Piece(c: byte): (p: seq<byte>)
    ensures p != []
  {
    if Rep(c) != [] then Rep(c) else [c]
  }

  function Escaped(s: seq<byte>): (r: seq<byte>)
  {
    if s == [] then [] else Piece(s[0]) + Escaped(s[1..])
  }

  /** The escaping of single bytes, in characters. */
  lemma EscapedByte(c: byte)
    ensures Escaped([c]) ==
            if c == '&' as int then Ascii("&amp;")
            else if c == '<' as int then Ascii("&lt;")
            else if c == '>' as int then Ascii("&gt;")
            else if c == '"' as int then Ascii("&quot;")
            else if c == '\'' as int then Ascii("&#39;")
            else [c]
  {
    assert [c][1..] == [];
    assert Escaped([c]) == Piece(c) + Escaped([]);
  }

  /** What a browser reads: each of the five entities is one byte. */
  function Unescaped(s: seq<byte>): seq<byte>
    decreases |s|
  {
    if s == [] then []
    else if AMP_TEXT <= s then [AMP] + Unescaped(s[5..])
    else if LESS_TEXT <= s then [LESS] + Unescaped(s[4..])
    else if GREATER_TEXT <= s then [GREATER] + Unescaped(s[4..])
    else if QUOTE_TEXT <= s then [QUOTE] + Unescaped(s[6..])
    else if APOSTROPHE_TEXT <= s then [APOSTROPHE] + Unescaped(s[5..])
    else [s[0]] + Unescaped(s[1..])
  }

  /** The entities differ from each other in their second byte. */
  lemma OneEntity(e: seq<byte>, s: seq<byte>)
    requires |s| > 1 && |e| > 1 && (e[0] != s[0] || e[1] != s[1])
    ensures !(e <= s)
  {
  }

  lemma NoEntity(s: seq<byte>)
    requires s != [] && s[0] != AMP
    ensures Unescaped(s) == [s[0]] + Unescaped(s[1..])
  {
  }

  lemma UnescapedPiece(c: byte, rest: seq<byte>)
    ensures Unescaped(Piece(c) + rest) == [c] + Unescaped(rest)
  {
    var p := Piece(c);
    var s := p + rest;
    assert s[|p|..] == rest && s[..|p|] == p;
    if Rep(c) == [] {
      NoEntity(s);
    } else {
      assert s[0] == p[0] && s[1] == p[1] && p <= s;
      var first := s[1];
      if first != 0x61 { OneEntity(AMP_TEXT, s); }
      if first != 0x6C { OneEntity(LESS_TEXT, s); }
      if first != 0x67 { OneEntity(GREATER_TEXT, s); }
      if first != 0x71 { OneEntity(QUOTE_TEXT, s); }
    }
  }

  /** Nothing is lost: a browser reads back exactly the escaped text. */
  lemma {:induction false} UnescapeInverts(s: seq<byte>)
    ensures Unescaped(Escaped(s)) == s
  {
    hide Unescaped, Piece;
    if s == [] {
      UnescapedNothing();
    } else {
      UnescapeInverts(s[1..]);
      UnescapedPiece(s[0], Escaped(s[1..]));
    }
  }

  lemma UnescapedNothing()
    ensures Unescaped([]) == []
  {
  }

  predicate IsMarkup(c: byte) { c == LESS || c == GREATER || c == QUOTE || c == APOSTROPHE }

  /** Nothing can leave the text: no tag opens or closes, no attribute value ends, and
      every ampersand starts one of the five entities. */
  lemma {:induction false} EscapedIsInert(s: seq<byte>)
    ensures forall i | 0 <= i < |Escaped(s)| :: !IsMarkup(Escaped(s)[i])
    ensures forall i | 0 <= i < |Escaped(s)| && Escaped(s)[i] == AMP ::
              exists c: byte :: Rep(c) != [] && Rep(c) <= Escaped(s)[i..]
    ensures NulFree(s) ==> NulFree(Escaped(s))
  {
    if s != [] {
      var p, rest := Piece(s[0]), Escaped(s[1..]);
      EscapedIsInert(s[1..]);
      PieceIsInert(s[0]);
      forall i | 0 <= i < |Escaped(s)| && Escaped(s)[i] == AMP
        ensures exists c: byte :: Rep(c) != [] && Rep(c) <= Escaped(s)[i..]
      {
        if i < |p| {
          assert Escaped(s)[0..] == p + rest;
          assert Rep(s[0]) <= Escaped(s)[i..];
        } else {
          var c: byte :| Rep(c) != [] && Rep(c) <= rest[i - |p|..];
          assert Escaped(s)[i..] == rest[i - |p|..];
        }
      }
    }
  }

  lemma PieceIsInert(c: byte)
    ensures forall i | 0 <= i < |Piece(c)| :: !IsMarkup(Piece(c)[i])
    ensures forall i | 0 <= i < |Piece(c)| :: Piece(c)[i] == AMP ==> i == 0 && Rep(c) == Piece(c)
    ensures c != 0 ==> NulFree(Piece(c))
  {
  }

  lemma {:induction false} EscapedConcat(a: seq<byte>, b: seq<byte>)
    ensures Escaped(a + b) == Escaped(a) + Escaped(b)
  {
    hide Piece, Rep;
    if a == [] {
      assert a + b == b;
    } else {
      EscapedConcat(a[1..], b);
      assert (a + b)[1..] == a[1..] + b;
      assert (Piece(a[0]) + Escaped(a[1..])) + Escaped(b) == Piece(a[0]) + (Escaped(a[1..]) + Escaped(b));
    }
  }

  lemma EscapedOneMore(s: seq<byte>, i: nat)
    requires i < |s|
    ensures Escaped(s[..i + 1]) == Escaped(s[..i]) + Piece(s[i])
    ensures |Escaped(s[..i + 1])| <= |Escaped(s)|
  {
    hide Piece;
    assert s[..i + 1] == s[..i] + [s[i]];
    EscapedConcat(s[..i], [s[i]]);
    assert Escaped([s[i]]) == Piece(s[i]) + Escaped([]);
    EscapedConcat(s[..i + 1], s[i + 1..]);
    assert s == s[..i + 1] + s[i + 1..];
  }

  /** Text without special bytes is sent as it is. */
  lemma {:induction false} PlainEscaped(s: seq<byte>)
    requires forall i | 0 <= i < |s| :: Rep(s[i]) == []
    ensures Escaped(s) == s
  {
    if s != [] {
      PlainEscaped(s[1..]);
    }
  }

  // -------------------------------------------------------------- three writers

  /** `cerco_html_escape` without a buffer: how much room the text needs. */
  method EscapedLength(s: seq<byte>) returns (need: nat)
    ensures need == |Escaped(s)|
  {
    hide Escaped;
    EscapedNone();
    need := 0;
    for i := 0 to |s|
      invariant need == |Escaped(s[..i])|
    {
      EscapedOneMore(s, i);
      var c := s[i];
      if c == AMP || c == APOSTROPHE {
        need := need + 5;
      } else if c == LESS || c == GREATER {
        need := need + 4;
      } else if c == QUOTE {
        need := need + 6;
      } else {
        need := need + 1;
      }
    }
    assert s[..|s|] == s;
  }

  lemma EscapedNone()
    ensures Escaped([]) == []
  {
  }

  /** `cerco_html_escape` into `buf`, of which `cap` bytes may be used; None is the
      all-ones size. It succeeds exactly when the text and its terminator fit. */
  method EscapeInto(s: seq<byte>, buf: array<byte>, cap: nat) returns (r: Option<nat>)
    requires cap <= buf.Length
    modifies buf
    ensures cap == 0 ==> r == Some(0) && buf[..] == old(buf[..])
    ensures 0 < cap <= |Escaped(s)| ==> r == None
    ensures |Escaped(s)| < cap ==>
              r == Some(|Escaped(s)|) && buf[..] == Escaped(s) + [0] + old(buf[|Escaped(s)| + 1..])
    ensures buf[cap..] == old(buf[cap..])
  {
    hide Escaped, Rep;
    if cap == 0 {
      return Some(0);
    }
    EscapedNone();
    var o := 0;
    for i := 0 to |s|
      invariant o < cap && o <= buf.Length && o == |Escaped(s[..i])| <= |Escaped(s)|
      invariant buf[..o] == Escaped(s[..i]) && buf[o..] == old(buf[o..])
    {
      EscapedOneMore(s, i);
      var p := Piece(s[i]);
      ghost var was := buf[..];
      if o + |p| > cap - 1 {
        return None;
      }
      forall k | 0 <= k < |p| {
        buf[o + k] := p[k];
      }
      assert buf[..o + |p|] == was[..o] + p && buf[o + |p|..] == was[o..][|p|..];
      o := o + |p|;
    }
    assert s[..|s|] == s;
    buf[o] := 0;
    return Some(o);
  }

  /** `wbuf_escape`: plain runs are flushed whole. Unless the arena fails, the buffer grew
      by exactly the escaped text. */
  method WbufEscape(b: R.WBuf, s: seq<byte>, m: A.Malloc)
    requires b.Valid() && A.Honest(m)
    modifies b, b.arena
    ensures b.Valid() && (old(b.arena.oom) ==> b.arena.oom)
    ensures !b.arena.oom ==> b.data == old(b.data) + Escaped(s)
  {
    hide Escaped, Rep;
    ghost var before := b.data;
    EscapedNone();
    var start := 0;
    for i := 0 to |s|
      invariant b.Valid() && start <= i && (old(b.arena.oom) ==> b.arena.oom)
      invariant !b.arena.oom ==> b.data == before + Escaped(s[..start])
      invariant forall k | start <= k < i :: Rep(s[k]) == []
    {
      var rep := Rep(s[i]);
      if rep == [] {
        continue;
      }
      if i > start {
        Put(b, s[start..i], m);
      }
      Put(b, rep, m);
      RunEscaped(s, start, i);
      EscapedOneMore(s, i);
      start := i + 1;
    }
    if |s| > start {
      Put(b, s[start..], m);
    }
    RunEscaped(s, start, |s|);
    assert s[..|s|] == s;
  }

  /** One write: dropped only with the failure flag up. */
  method Put(b: R.WBuf, bytes: seq<byte>, m: A.Malloc)
    requires b.Valid() && A.Honest(m)
    modifies b, b.arena
    ensures b.Valid() && (old(b.arena.oom) ==> b.arena.oom)
    ensures !b.arena.oom ==> b.data == old(b.data) + bytes
  {
    R.PutComplete(b.View(), b.data, bytes, m);
    b.PutN(bytes, m);
  }

  lemma RunEscaped(s: seq<byte>, start: nat, i: nat)
    requires start <= i <= |s| && forall k | start <= k < i :: Rep(s[k]) == []
    ensures Escaped(s[..i]) == Escaped(s[..start]) + s[start..i]
  {
    hide Escaped;
    PlainEscaped(s[start..i]);
    EscapedConcat(s[..start], s[start..i]);
    assert s[..i] == s[..start] + s[start..i];
  }
}
