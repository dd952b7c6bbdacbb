/** The routing table told on its text: what a route written with colons and stars matches and
    captures, what startup makes of the table and what a request is answered. */
module RouteText {
  import opened Bytes
  import opened Sequences
  import opened Router

  // ------------------------------------------------------------ text of a route

  /** A piece `:name` (58 is the colon). */
  predicate TakesOne(p: seq<byte>) { p != [] && p[0] == 58 }

  /** A piece `*name` with a name (42 is the star). */
  predicate TakesRest(p: seq<byte>) { |p| > 1 && p[0] == 42 }

  /** Index of the first piece that takes the rest, or the length. */
  function RestAt(ps: seq<seq<byte>>): (k: nat)
    ensures k <= |ps| && (forall i | 0 <= i < k :: !TakesRest(ps[i])) && (k < |ps| ==> TakesRest(ps[k]))
  {
    if ps == [] || TakesRest(ps[0]) then 0 else 1 + RestAt(ps[1..])
  }

  predicate PieceFits(p: seq<byte>, segment: seq<byte>) { TakesOne(p) || EqFold(p, segment) }

  /** Piece by piece up to the one that takes the rest; without one, the counts agree. */
  predicate TextMatch(ps: seq<seq<byte>>, req: seq<seq<byte>>)
  {
    var k := RestAt(ps);
    && (if k < |ps| then |req| >= k else |req| == k)
    && forall i | 0 <= i < k :: PieceFits(ps[i], req[i])
  }

  /** Name and segment of every `:name` piece, in order. */
  function Pairs(ps: seq<seq<byte>>, req: seq<seq<byte>>): seq<Capture>
    requires |ps| == |req|
  {
    if ps == [] then []
    else (if TakesOne(ps[0]) then [Capture(ps[0][1..], req[0])] else []) + Pairs(ps[1..], req[1..])
  }

  /** Then the joined rest, if there is one. */
  function TextCaptures(ps: seq<seq<byte>>, req: seq<seq<byte>>): seq<Capture>
    requires TextMatch(ps, req)
  {
    var k := RestAt(ps);
    Pairs(ps[..k], req[..k]) + if k < |ps| && k < |req| then [Capture(ps[k][1..], Join(req[k..]))] else []
  }

  lemma TextMatchStep(ps: seq<seq<byte>>, req: seq<seq<byte>>)
    requires ps != [] && !TakesRest(ps[0])
    ensures TextMatch(ps, req) <==> req != [] && PieceFits(ps[0], req[0]) && TextMatch(ps[1..], req[1..])
  {
    hide TakesRest, PieceFits;
    var k := RestAt(ps);
    assert k == 1 + RestAt(ps[1..]);
    if req != [] {
      assert forall i | 0 < i < |ps| :: ps[i] == ps[1..][i - 1];
      assert forall i | 0 < i < |req| :: req[i] == req[1..][i - 1];
    }
  }

  /** What a route matches, on its text. */
  lemma {:induction false} MatchOnText(ps: seq<seq<byte>>, req: seq<seq<byte>>)
    ensures PathMatch(ParseSegs(ps), req) <==> TextMatch(ps, req)
    decreases |ps|
  {
    hide EqFold, TextMatch;
    if ps == [] {
      NoPieceMatch(ps, req);
    } else if TakesRest(ps[0]) {
      RestMatches(ps, req);
    } else {
      TextMatchStep(ps, req);
      assert ParseSegs(ps)[1..] == ParseSegs(ps[1..]);
      if req != [] {
        MatchOnText(ps[1..], req[1..]);
      }
    }
  }

  lemma NoPieceMatch(ps: seq<seq<byte>>, req: seq<seq<byte>>)
    requires ps == []
    ensures TextMatch(ps, req) <==> req == []
  {
  }

  lemma RestMatches(ps: seq<seq<byte>>, req: seq<seq<byte>>)
    requires ps != [] && TakesRest(ps[0])
    ensures TextMatch(ps, req)
  {
  }

  lemma PairsStep(ps: seq<seq<byte>>, req: seq<seq<byte>>, k: nat)
    requires 0 < k <= |ps| && k <= |req|
    ensures Pairs(ps[..k], req[..k]) ==
            (if TakesOne(ps[0]) then [Capture(ps[0][1..], req[0])] else []) + Pairs(ps[1..][..k - 1], req[1..][..k - 1])
  {
    assert ps[..k][1..] == ps[1..][..k - 1] && req[..k][1..] == req[1..][..k - 1];
  }

  lemma TextCapturesStep(ps: seq<seq<byte>>, req: seq<seq<byte>>)
    requires ps != [] && !TakesRest(ps[0]) && TextMatch(ps, req)
    ensures req != [] && TextMatch(ps[1..], req[1..])
    ensures TextCaptures(ps, req) ==
            (if TakesOne(ps[0]) then [Capture(ps[0][1..], req[0])] else []) + TextCaptures(ps[1..], req[1..])
  {
    TextMatchStep(ps, req);
    hide TextMatch, TakesRest, TakesOne, Pairs, Join;
    var k := RestAt(ps);
    assert k == 1 + RestAt(ps[1..]);
    RestLength(ps, req);
    PairsStep(ps, req, k);
    assert k < |ps| ==> ps[k] == ps[1..][k - 1];
    assert k < |req| ==> req[k..] == req[1..][k - 1..];
    ConcatAssoc(if TakesOne(ps[0]) then [Capture(ps[0][1..], req[0])] else [],
                Pairs(ps[1..][..k - 1], req[1..][..k - 1]),
                if k < |ps| && k < |req| then [Capture(ps[k][1..], Join(req[k..]))] else []);
  }

  lemma RestLength(ps: seq<seq<byte>>, req: seq<seq<byte>>)
    requires TextMatch(ps, req)
    ensures RestAt(ps) <= |req|
  {
  }

  /** What a route captures, on its text. */
  lemma {:induction false} CapturesOnText(ps: seq<seq<byte>>, req: seq<seq<byte>>)
    requires TextMatch(ps, req)
    ensures Captures(ParseSegs(ps), req) == TextCaptures(ps, req)
    decreases |ps|
  {
    hide EqFold, TextMatch, Join;
    if ps == [] {
      NoPieceMatch(ps, req);
    } else if TakesRest(ps[0]) {
      RestLength(ps, req);
      assert ps[..0] == [] && req[..0] == [] && req[0..] == req;
    } else {
      TextCapturesStep(ps, req);
      CapturesOnText(ps[1..], req[1..]);
      assert ParseSegs(ps)[1..] == ParseSegs(ps[1..]);
      hide TextCaptures, RestAt;
    }
  }

  // --------------------------------------------------------- building the table

  /** A route as the generated table lists it. */
  datatype Entry = Entry(verb: seq<byte>, path: seq<byte>, fn: nat)

  function Table(es: seq<Entry>): (t: seq<Route>)
    ensures |t| == |es|
  {
    seq(|es|, i requires 0 <= i < |es| => ParseRoute(es[i].verb, es[i].path, es[i].fn))
  }

  /** One entry of `router_init`: segments up to the 24th, the rest of the path is dropped. */
  method ParseEntry(e: Entry) returns (r: Route)
    ensures r == ParseRoute(e.verb, e.path, e.fn)
  {
    hide SlashAt, Pieces, ParseSeg;
    var p := if e.path != [] && e.path[0] == SLASH then 1 else 0;
    ghost var all, done := Pieces(e.path[p..]), [];
    assert p == 0 ==> e.path[p..] == e.path;
    var segs: seq<Seg> := [];
    while p < |e.path| && |segs| < MAX_SEGS
      invariant p <= |e.path| && all == done + Pieces(e.path[p..])
      invariant segs == ParseSegs(done) && |done| <= MAX_SEGS
      decreases |e.path| - p
    {
      var k := SlashAt(e.path[p..]);
      var next := if p + k == |e.path| then |e.path| else p + k + 1;
      OnePiece(e.path, p, next, done, k);
      segs := segs + [ParseSeg(e.path[p..p + k])];
      done := done + [e.path[p..p + k]];
      p := next;
    }
    if p == |e.path| {
      NoMorePieces(e.path[p..]);
    }
    assert done == if |all| > MAX_SEGS then all[..MAX_SEGS] else all;
    r := Route(e.verb, segs, e.fn);
  }

  /** A parsed route has the entry's method and handler, and matches and captures what the
      first 24 pieces of its text say. */
  ghost predicate ReadsAs(e: Entry, r: Route)
  {
    && r.verb == e.verb && r.fn == e.fn
    && (forall req :: PathMatch(r.segs, req) <==> TextMatch(Written(e), req))
    && (forall req | TextMatch(Written(e), req) :: Captures(r.segs, req) == TextCaptures(Written(e), req))
  }

  function Written(e: Entry): seq<seq<byte>>
  {
    if |Split(e.path)| > MAX_SEGS then Split(e.path)[..MAX_SEGS] else Split(e.path)
  }

  lemma ParsedReads(e: Entry)
    ensures ReadsAs(e, ParseRoute(e.verb, e.path, e.fn))
  {
    hide TextMatch, PathMatch, Captures, TextCaptures, Split, ParseSegs;
    forall req
      ensures PathMatch(ParseSegs(Written(e)), req) <==> TextMatch(Written(e), req)
    {
      MatchOnText(Written(e), req);
    }
    forall req | TextMatch(Written(e), req)
      ensures Captures(ParseSegs(Written(e)), req) == TextCaptures(Written(e), req)
    {
      CapturesOnText(Written(e), req);
    }
  }

  /** `router_init` */
  method RouterInit(es: seq<Entry>) returns (t: seq<Route>)
    ensures t == Table(es)
    ensures forall i | 0 <= i < |es| :: ReadsAs(es[i], t[i])
  {
    hide ParseRoute, ReadsAs;
    t := [];
    for i := 0 to |es|
      invariant |t| == i && forall k | 0 <= k < i :: t[k] == ParseRoute(es[k].verb, es[k].path, es[k].fn)
      invariant forall k | 0 <= k < i :: ReadsAs(es[k], t[k])
    {
      var r := ParseEntry(es[i]);
      ParsedReads(es[i]);
      t := t + [r];
    }
  }

  // ------------------------------------------------------------ literal routes

  /** A piece that matches itself only: no colon in front, and no star but a lone one. */
  predicate Literal(p: seq<byte>) { !TakesOne(p) && !TakesRest(p) }

  /** A route without parameters serves its own path if and only if it has at most 24
      segments; a longer one is cut and never matches what it was written for. */
  lemma LiteralRouteServesItselfIff(verb: seq<byte>, path: seq<byte>, fn: nat)
    requires forall i | 0 <= i < |Split(path)| :: Literal(Split(path)[i])
    ensures Hits(ParseRoute(verb, path, fn), Split(path), verb) <==> |Split(path)| <= 24
  {
    var e := Entry(verb, path, fn);
    ParsedReads(e);
    SameVerbServes(verb);
    hide PathMatch, Split, EqFold, ParseSegs;
    assert forall i | 0 <= i < |Written(e)| :: Written(e)[i] == Split(path)[i];
    assert PathMatch(ParseRoute(verb, path, fn).segs, Split(path)) <==> TextMatch(Written(e), Split(path));
    LiteralText(Written(e), Split(path));
  }

  lemma LiteralText(ps: seq<seq<byte>>, req: seq<seq<byte>>)
    requires forall i | 0 <= i < |ps| :: Literal(ps[i])
    ensures TextMatch(ps, req) <==> |ps| == |req| && forall i | 0 <= i < |ps| :: EqFold(ps[i], req[i])
  {
    hide EqFold;
    NoRest(ps);
    assert forall i | 0 <= i < |ps| && i < |req| :: Literal(ps[i]) && (PieceFits(ps[i], req[i]) <==> EqFold(ps[i], req[i]));
  }

  lemma {:induction false} NoRest(ps: seq<seq<byte>>)
    requires forall i | 0 <= i < |ps| :: Literal(ps[i])
    ensures RestAt(ps) == |ps|
  {
    if ps != [] {
      assert Literal(ps[0]);
      NoRest(ps[1..]);
    }
  }

  lemma SameVerbServes(verb: seq<byte>)
    ensures Serves(verb, verb)
    ensures forall p :: EqFold(p, p)
  {
  }

  // ------------------------------------------------------------------- methods

  lemma VerbTexts()
    ensures GET == Ascii("GET") && HEAD == Ascii("HEAD") && POST == Ascii("POST") && PUT == Ascii("PUT")
    ensures PATCH == Ascii("PATCH") && DELETE == Ascii("DELETE") && OPTIONS == Ascii("OPTIONS")
  {
  }

  /** An entry serves its own method, and GET serves HEAD. */
  lemma ServesIff(routeVerb: seq<byte>, verb: seq<byte>)
    ensures Serves(routeVerb, verb) <==>
            EqFold(routeVerb, verb) || (EqFold(routeVerb, Ascii("GET")) && EqFold(verb, Ascii("HEAD")))
  {
    VerbTexts();
  }

  function Name(v: Verb): seq<byte>
  {
    match v
    case VGet => Ascii("GET")
    case VPost => Ascii("POST")
    case VPut => Ascii("PUT")
    case VPatch => Ascii("PATCH")
    case VDelete => Ascii("DELETE")
    case VHead => Ascii("HEAD")
    case VOptions => Ascii("OPTIONS")
  }

  /** The bit an entry adds to the mask is the one of its method's name. */
  lemma BitIff(verb: seq<byte>, v: Verb)
    ensures v in Bit(verb) <==> EqFold(verb, Name(v))
  {
    VerbTexts();
    hide EqFold, Ascii;
    DifferentVerbs(verb);
    assert Name(VGet) == GET && Name(VPost) == POST && Name(VPut) == PUT && Name(VPatch) == PATCH;
    assert Name(VDelete) == DELETE && Name(VHead) == HEAD && Name(VOptions) == OPTIONS;
  }

  lemma DifferentVerbs(verb: seq<byte>)
    ensures forall v, w | EqFold(verb, Name(v)) && EqFold(verb, Name(w)) :: v == w
  {
    forall v, w | EqFold(verb, Name(v)) && EqFold(verb, Name(w))
      ensures v == w
    {
      assert |verb| == |Name(v)| == |Name(w)|;
      assert Lower(verb[0]) == Lower(Name(v)[0]) == Lower(Name(w)[0]);
      assert Lower(verb[1]) == Lower(Name(v)[1]) == Lower(Name(w)[1]);
    }
  }

  // -------------------------------------------------------------------- answers

  predicate TextHits(e: Entry, req: seq<seq<byte>>, verb: seq<byte>)
  {
    TextMatch(Written(e), req) && Serves(e.verb, verb)
  }

  /** What a request is answered, on the text of the table: the first entry that matches path
      and method; failing that, exactly the methods of the entries that match the path. */
  ghost predicate IsTextAnswer(es: seq<Entry>, req: seq<seq<byte>>, verb: seq<byte>, f: Found)
  {
    match f
    case Match(fn, caps) =>
      exists i | 0 <= i < |es| ::
        && TextHits(es[i], req, verb) && fn == es[i].fn
        && caps == Kept(TextCaptures(Written(es[i]), req))
        && forall k | 0 <= k < i :: !TextHits(es[k], req, verb)
    case Mismatch(allowed) =>
      && (forall k | 0 <= k < |es| :: !TextHits(es[k], req, verb))
      && (exists k | 0 <= k < |es| :: TextMatch(Written(es[k]), req))
      && (forall v :: v in allowed <==> exists k | 0 <= k < |es| :: TextMatch(Written(es[k]), req) && EqFold(es[k].verb, Name(v)))
    case Miss => forall k | 0 <= k < |es| :: !TextMatch(Written(es[k]), req)
  }

  lemma AnswerOnText(es: seq<Entry>, t: seq<Route>, req: seq<seq<byte>>, verb: seq<byte>, f: Found)
    requires |t| == |es| && forall i | 0 <= i < |es| :: ReadsAs(es[i], t[i])
    requires IsAnswer(t, req, verb, f)
    ensures IsTextAnswer(es, req, verb, f)
  {
    hide TextMatch, PathMatch, Captures, TextCaptures, Written, EqFold, Name, Bit, Serves, Kept;
    forall k | 0 <= k < |es|
      ensures t[k].verb == es[k].verb && t[k].fn == es[k].fn
      ensures PathMatch(t[k].segs, req) <==> TextMatch(Written(es[k]), req)
      ensures Hits(t[k], req, verb) <==> TextHits(es[k], req, verb)
      ensures TextMatch(Written(es[k]), req) ==> Captures(t[k].segs, req) == TextCaptures(Written(es[k]), req)
    {
      assert ReadsAs(es[k], t[k]);
    }
    match f
    case Match(fn, caps) =>
      var i :| 0 <= i < |t| && Hits(t[i], req, verb) && fn == t[i].fn
        && caps == Kept(Captures(t[i].segs, req)) && forall k | 0 <= k < i :: !Hits(t[k], req, verb);
      assert TextHits(es[i], req, verb);
    case Mismatch(allowed) =>
      forall v
        ensures v in allowed <==> exists k | 0 <= k < |es| :: TextMatch(Written(es[k]), req) && EqFold(es[k].verb, Name(v))
      {
        forall k | 0 <= k < |es|
          ensures v in Bit(t[k].verb) <==> EqFold(es[k].verb, Name(v))
        {
          BitIff(t[k].verb, v);
        }
      }
    case Miss =>
  }

  // ------------------------------------------------------------------ splitting

  /** Splitting loses the first slash and the last one, and nothing else. */
  lemma {:induction false} PiecesJoin(p: seq<byte>)
    requires p != []
    ensures Pieces(p) != []
    ensures if p[|p| - 1] == 47 then Join(Pieces(p)) + [47] == p else Join(Pieces(p)) == p
    decreases |p|
  {
    hide SlashAt, Pieces, Join;
    var k := SlashAt(p);
    PiecesStep(p);
    if k == |p| {
      assert p[..k] == p && [p] + [] == [p];
      OneJoined(p);
      NoSlash(p);
    } else {
      var rest := p[k + 1..];
      assert p == p[..k] + [47] + rest;
      if rest == [] {
        NoMorePieces(rest);
        assert [p[..k]] + [] == [p[..k]];
        OneJoined(p[..k]);
      } else {
        PiecesJoin(rest);
        MoreJoined(p[..k], Pieces(rest));
        assert p[|p| - 1] == rest[|rest| - 1];
        ConcatAssoc(p[..k] + [47], Join(Pieces(rest)), [47]);
      }
    }
  }

  lemma OneJoined(x: seq<byte>)
    ensures Join([x]) == x
  {
  }

  lemma MoreJoined(x: seq<byte>, xs: seq<seq<byte>>)
    requires xs != []
    ensures Join([x] + xs) == x + [47] + Join(xs)
  {
    assert ([x] + xs)[1..] == xs;
  }

  lemma NoSlash(p: seq<byte>)
    requires p != [] && SlashAt(p) == |p|
    ensures p[|p| - 1] != 47
  {
  }

  /** The segments of a path: slash-free, and joined they are the path without its first and
      last slash. */
  lemma SplitExact(path: seq<byte>)
    ensures var body := if path != [] && path[0] == 47 then path[1..] else path;
            && AllSlashFree(Split(path)) && (body == [] <==> Split(path) == [])
            && (body != [] ==> Join(Split(path)) + (if body[|body| - 1] == 47 then [47] else []) == body)
  {
    var body := if path != [] && path[0] == 47 then path[1..] else path;
    PiecesSlashFree(body);
    if body != [] {
      PiecesJoin(body);
    }
  }

  /** Startup and one request together: what the table in the program text says is what the
      request gets. */
  method InitAndLookup(es: seq<Entry>, path: seq<byte>, verb: seq<byte>) returns (f: Found)
    requires NulFree(path)
    ensures |Split(path)| > 64 ==> f == Miss
    ensures |Split(path)| <= 64 ==> IsTextAnswer(es, Split(path), verb, f)
  {
    var table := RouterInit(es);
    f := Lookup(table, path, verb);
    if |Split(path)| <= 64 {
      AnswerOnText(es, table, Split(path), verb, f);
    }
  }
}
