/** The per-page title: recorded escaped, then spliced into the first `<title>` element of
    the finished document. */
module PageTitle {
  import opened Bytes
  import opened Escape
  import opened Search
  import A = Arena
  import R = ResponseBuffer

  /** `<title>` and `</title>` */
  const OPEN: seq<byte> := [0x3C, 0x74, 0x69, 0x74, 0x6C, 0x65, 0x3E]
  const CLOSE: seq<byte> := [0x3C, 0x2F, 0x74, 0x69, 0x74, 0x6C, 0x65, 0x3E]

  /** Where the contents of the first title element lie. */
  function TitleSpan(doc: seq<byte>): (r: Option<(nat, nat)>)
    ensures r.Some? ==> r.value.0 <= r.value.1 <= |doc|
  {
    match FindFrom(doc, 0, OPEN)
    case None => None
    case Some(open) =>
      var inner := open + 7;
      match FindFrom(doc, inner, CLOSE)
      case None => None
      case Some(close) => Some((inner, close))
  }

  lemma MarkerTexts()
    ensures OPEN == Ascii("<title>") && CLOSE == Ascii("</title>")
  {
  }

  /** The span: behind the first opening marker, up to the first closing one behind it. */
  lemma SpanIff(doc: seq<byte>, inner: nat, close: nat)
    ensures TitleSpan(doc) == Some((inner, close)) <==>
            && 7 <= inner <= close
            && Holds(doc, inner - 7, Ascii("<title>")) && Holds(doc, close, Ascii("</title>"))
            && (forall k: nat | k < inner - 7 :: !Holds(doc, k, Ascii("<title>")))
            && (forall k: nat | inner <= k < close :: !Holds(doc, k, Ascii("</title>")))
  {
    MarkerTexts();
    hide FindFrom, Holds, Ascii;
  }

  function Applied(doc: seq<byte>, title: seq<byte>): seq<byte>
  {
    match TitleSpan(doc)
    case None => doc
    case Some((inner, close)) => doc[..inner] + title + doc[close..]
  }

  /** Two documents that agree up to `n` hold the same needles below `n`. */
  lemma SameBelow(d: seq<byte>, e: seq<byte>, n: nat, k: nat, needle: seq<byte>)
    requires n <= |d| && n <= |e| && d[..n] == e[..n] && k + |needle| <= n
    ensures Holds(d, k, needle) <==> Holds(e, k, needle)
  {
    assert d[k..k + |needle|] == d[..n][k..k + |needle|];
    assert e[k..k + |needle|] == e[..n][k..k + |needle|];
  }

  /** A needle that starts with `<` is not inside text without `<`. */
  lemma NotInText(d: seq<byte>, k: nat, needle: seq<byte>)
    requires k < |d| && d[k] != LESS && needle != [] && needle[0] == LESS
    ensures !Holds(d, k, needle)
  {
    DiffersAt(d, k, needle, 0);
  }

  lemma ShiftedHold(a: seq<byte>, text: seq<byte>, tail: seq<byte>, needle: seq<byte>)
    requires Holds(tail, 0, needle)
    ensures Holds(a + text + tail, |a| + |text|, needle)
  {
    var d, k := a + text + tail, |a| + |text|;
    assert d[k..] == tail;
    assert d[k..k + |needle|] == tail[..|needle|];
  }

  lemma OpenStays(doc: seq<byte>, e: seq<byte>)
    requires TitleSpan(doc).Some?
    requires var inner := TitleSpan(doc).value.0; inner <= |e| && e[..inner] == doc[..inner]
    ensures FindFrom(e, 0, OPEN) == FindFrom(doc, 0, OPEN)
  {
    hide FindFrom, Holds;
    var open := FindFrom(doc, 0, OPEN).value;
    forall k: nat | k <= open
      ensures Holds(e, k, OPEN) <==> Holds(doc, k, OPEN)
    {
      SameBelow(doc, e, open + 7, k, OPEN);
    }
    assert Holds(e, open, OPEN);
  }

  /** The splice changes the contents of the first title element and nothing else, and
      leaves that element where a second look finds it again. */
  lemma SpliceKeepsSpan(doc: seq<byte>, text: seq<byte>)
    requires TitleSpan(doc).Some? && LESS !in text
    ensures var (inner, close) := TitleSpan(doc).value;
            var out := Applied(doc, text);
            && TitleSpan(out) == Some((inner, inner + |text|))
            && out[..inner] == doc[..inner]
            && out[inner..inner + |text|] == text
            && out[inner + |text|..] == doc[close..]
  {
    hide FindFrom;
    var inner, close := TitleSpan(doc).value.0, TitleSpan(doc).value.1;
    var out := Applied(doc, text);
    OpenStays(doc, out);
    var at := inner + |text|;
    assert doc[close..][..|CLOSE|] == doc[close..close + |CLOSE|];
    ShiftedHold(doc[..inner], text, doc[close..], CLOSE);
    forall k: nat | inner <= k < at
      ensures !Holds(out, k, CLOSE)
    {
      assert out[k] == text[k - inner];
      NotInText(out, k, CLOSE);
    }
    assert Holds(out, at, CLOSE);
  }

  /** The title theorem: with a title element in the document, the stored text reads back
      as the given title, and everything around it is untouched. */
  lemma TitleShown(doc: seq<byte>, title: seq<byte>)
    requires TitleSpan(doc).Some?
    ensures var (inner, close) := TitleSpan(doc).value;
            var out := Applied(doc, Escaped(title));
            && TitleSpan(out).Some?
            && Unescaped(out[TitleSpan(out).value.0..TitleSpan(out).value.1]) == title
            && out[..TitleSpan(out).value.0] == doc[..inner]
            && out[TitleSpan(out).value.1..] == doc[close..]
  {
    hide TitleSpan, Applied, Escaped, Unescaped;
    EscapedIsInert(title);
    SpliceKeepsSpan(doc, Escaped(title));
    UnescapeInverts(title);
  }

  /** Applying titles one after the other is applying the last; in particular applying a
      title twice is applying it once. */
  lemma LastTitleWins(doc: seq<byte>, first: seq<byte>, second: seq<byte>)
    ensures Applied(Applied(doc, Escaped(first)), Escaped(second)) == Applied(doc, Escaped(second))
  {
    if TitleSpan(doc).Some? {
      EscapedIsInert(first);
      SpliceKeepsSpan(doc, Escaped(first));
    }
  }

  /** Without both markers in order, and only then, there is no span, and the document is
      sent as it is. */
  lemma UntouchedWithoutTitle(doc: seq<byte>, title: seq<byte>)
    ensures TitleSpan(doc) == None <==>
            forall i: nat, j | i + 7 <= j :: !(Holds(doc, i, Ascii("<title>")) && Holds(doc, j, Ascii("</title>")))
    ensures TitleSpan(doc) == None ==> Applied(doc, title) == doc
  {
    MarkerTexts();
    hide FindFrom, Holds, Ascii;
    if TitleSpan(doc).Some? {
      var open := FindFrom(doc, 0, OPEN).value;
      var close := FindFrom(doc, open + 7, CLOSE).value;
      assert Holds(doc, open, OPEN) && Holds(doc, close, CLOSE);
    } else if FindFrom(doc, 0, OPEN).Some? {
      var open := FindFrom(doc, 0, OPEN).value;
      assert forall i: nat | Holds(doc, i, OPEN) :: i >= open;
    }
  }

  lemma AllocFailureIsFlagged(a: A.State, size: nat, align: nat, m: A.Malloc)
    requires A.Inv(a) && align > 0 && A.Honest(m)
    ensures A.Alloc(a, size, align, m).1.None? ==> A.Alloc(a, size, align, m).0.oom
  {
    hide A.AllocLoop;
  }

  /** The splice as a step of buffer and arena; the copy may find no memory. */
  ghost function Spliced(s: R.State, title: Option<seq<byte>>, m: A.Malloc): R.State
    requires A.Inv(s.arena) && A.Honest(m)
  {
    if title.None? || TitleSpan(s.buf.data).None? then s
    else
      var out := Applied(s.buf.data, title.value);
      var (arena, p) := A.Alloc(s.arena, |out|, 8, m);
      R.State(arena, if p.None? then s.buf else R.Buf(out, |out|))
  }

  /** A title is lost only with the arena's failure flag up. */
  lemma SplicedOrFlagged(s: R.State, title: seq<byte>, m: A.Malloc)
    requires A.Inv(s.arena) && A.Honest(m)
    ensures var t := Spliced(s, Some(title), m);
            || (t.buf.data == Applied(s.buf.data, title) && t.arena.oom == s.arena.oom)
            || (A.Alloc(s.arena, |Applied(s.buf.data, title)|, 8, m) == (t.arena, None) && t.arena.oom && t.buf == s.buf)
    ensures s.arena.oom ==> Spliced(s, Some(title), m).arena.oom
  {
    hide A.Alloc, FindFrom;
    var size := |Applied(s.buf.data, title)|;
    R.AllocKeepsFlag(s.arena, size, 8, m);
    AllocFailureIsFlagged(s.arena, size, 8, m);
  }

  /** The response of a request: its buffer and its recorded title. */
  class Page {
    const resp: R.WBuf
    var title: Option<seq<byte>>

    ghost predicate Valid() reads this, resp, resp.arena { resp.Valid() }

    constructor (b: R.WBuf)
      requires b.Valid()
      ensures Valid() && resp == b && title == None
    {
      resp, title := b, None;
    }

    /** `cerco_title`: the query sizes the block, so the escaped text always fits it. */
    method SetTitle(text: seq<byte>, m: A.Malloc)
      requires Valid() && NulFree(text) && A.Honest(m)
      modifies this, resp.arena
      ensures Valid() && resp.data == old(resp.data) && resp.cap == old(resp.cap)
      ensures var (arena, p) := A.Alloc(old(resp.arena.View()), |Escaped(text)| + 1, 8, m);
              resp.arena.View() == arena && title == if p.Some? then Some(Escaped(text)) else old(title)
    {
      hide Escaped, A.Alloc;
      var need := EscapedLength(text);
      var p := resp.arena.AllocAligned(need + 1, 8, m);
      if p.None? {
        return;
      }
      var buf := new byte[need + 1];
      var r := EscapeInto(text, buf, need + 1);
      assert buf[..] == Escaped(text) + [0] + [];
      EscapedIsInert(text);
      CStrTerminated(Escaped(text), []);
      title := Some(CStr(buf[..]));
    }

    /** `apply_page_title` */
    method ApplyPageTitle(m: A.Malloc)
      requires Valid() && A.Honest(m)
      modifies resp, resp.arena
      ensures Valid() && resp.View() == Spliced(old(resp.View()), title, m)
    {
      hide FindFrom, A.Alloc;
      if title.None? {
        return;
      }
      var open := Find(resp.data, 0, OPEN);
      if open.None? {
        return;
      }
      var inner := open.value + 7;
      var close := Find(resp.data, inner, CLOSE);
      if close.None? {
        return;
      }
      var head, tail := resp.data[..inner], resp.data[close.value..];
      var size := |head| + |title.value| + |tail|;
      var p := resp.arena.AllocAligned(size, 8, m);
      if p.None? {
        return;
      }
      resp.data := head + title.value + tail;
      resp.cap := size;
    }
  }
}
