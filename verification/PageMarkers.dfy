/** Client-side navigation: cutting the page region out of a fetched document. */
module PageMarkers {
  import opened Bytes
  import opened Search

  /** `<!--cerco:page-->` */
  const START: seq<byte> := [0x3C, 0x21, 0x2D, 0x2D, 0x63, 0x65, 0x72, 0x63, 0x6F, 0x3A, 0x70, 0x61, 0x67, 0x65, 0x2D, 0x2D, 0x3E]

  /** `<!--cerco:/page-->` */
  const END: seq<byte> := [0x3C, 0x21, 0x2D, 0x2D, 0x63, 0x65, 0x72, 0x63, 0x6F, 0x3A, 0x2F, 0x70, 0x61, 0x67, 0x65, 0x2D, 0x2D, 0x3E]

  /** Offset and length of the text between the first start marker and the first end marker
      behind it; (0, 0) when one is missing. */
  function Extracted(html: seq<byte>, start: seq<byte>, end: seq<byte>): (r: (nat, nat))
    ensures r.0 + r.1 <= |html|
  {
    match FindFrom(html, 0, start)
    case None => (0, 0)
    case Some(s) =>
      var from := s + |start|;
      match FindFrom(html[from..], 0, end)
      case None => (0, 0)
      case Some(len) => (from, len)
  }

  /** `extract_between` */
  method ExtractBetween(html: seq<byte>, start: seq<byte>, end: seq<byte>) returns (off: nat, len: nat)
    requires NulFree(html) && NulFree(start) && NulFree(end)
    ensures (off, len) == Extracted(html, start, end)
  {
    hide FindFrom;
    var s := StrStr(html, start);
    if s.None? {
      return 0, 0;
    }
    var from := s.value + |start|;
    var e := StrStr(html[from..], end);
    if e.None? {
      return 0, 0;
    }
    return from, e.value;
  }

  lemma MarkerTexts()
    ensures START == Ascii("<!--cerco:page-->") && END == Ascii("<!--cerco:/page-->")
  {
  }

  /** The page found is the text between the first start marker and the first end marker
      behind it; without them the answer is (0, 0). */
  lemma ExtractedIff(html: seq<byte>, start: seq<byte>, end: seq<byte>, s: nat, len: nat)
    requires start != []
    ensures Extracted(html, start, end) == (s + |start|, len) <==>
            FirstAt(html, s, start) && FirstAt(html[s + |start|..], len, end)
    ensures Extracted(html, start, end) == (0, 0) <==>
            !exists t: nat :: FirstAt(html, t, start) && Contains(html[t + |start|..], end)
  {
    hide FindFrom, Holds;
    var r := FindFrom(html, 0, start);
    if r.Some? {
      assert FirstAt(html, r.value, start) && r.value + |start| <= |html| by { HoldsInside(html, r.value, start); }
      var tail := html[r.value + |start|..];
      var e := FindFrom(tail, 0, end);
      assert e.Some? ==> Holds(tail, e.value, end);
    }
    forall t: nat | FirstAt(html, t, start)
      ensures r == Some(t)
    {
      assert Holds(html, t, start);
    }
  }

  lemma HoldsInside(b: seq<byte>, pos: nat, piece: seq<byte>)
    requires Holds(b, pos, piece)
    ensures pos + |piece| <= |b|
  {
  }

  /** What the server sends: the wrapper generated for a route writes the markers around
      the page. */
  function Document(prefix: seq<byte>, body: seq<byte>, suffix: seq<byte>): seq<byte>
  {
    prefix + START + (body + END + suffix)
  }

  /** Extraction returns exactly the bytes the page wrote if and only if nothing before
      the page holds the start marker and the page does not hold the end marker. */
  lemma ExtractsBody(prefix: seq<byte>, body: seq<byte>, suffix: seq<byte>)
    ensures var html := Document(prefix, body, suffix);
            Extracted(html, START, END) == (|prefix + START|, |body|) <==>
            !Contains(prefix, START) && !Contains(body, END)
    ensures var html := Document(prefix, body, suffix);
            html[|prefix + START|..][..|body|] == body
  {
    hide FindFrom, Contains;
    var html, tail := Document(prefix, body, suffix), body + END + suffix;
    PlacedIsFirst(prefix, START, tail);
    PlacedIsFirst(body, END, suffix);
    assert html[|prefix + START|..] == tail;
  }
}
