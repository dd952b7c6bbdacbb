/** The file-based router: path splitting, first-match lookup with captures, and the set
    of allowed methods of a path that matches only under other methods. */
module Router {
  import opened Bytes
  import opened Sequences

  const MAX_SEGS := 24
  const MAX_PARAMS := 16
  const MAX_REQ_SEGS := 64
  const SLASH: byte := 47
  const COLON: byte := 58
  const STAR: byte := 42

  // -------------------------------------------------------------------- text

  function Lower(b: byte): byte { if 65 <= b <= 90 then b + 32 else b }

  predicate EqFold(a: seq<byte>, b: seq<byte>)
  {
    |a| == |b| && forall i | 0 <= i < |a| :: Lower(a[i]) == Lower(b[i])
  }

  /** Equal up to case: same length, and at each place the same byte or the two forms of one
      ASCII letter. */
  lemma EqFoldIff(a: seq<byte>, b: seq<byte>)
    ensures EqFold(a, b) <==> |a| == |b| && forall i | 0 <= i < |a| ::
              || a[i] == b[i]
              || (65 <= a[i] <= 90 && b[i] == a[i] + 32) || (65 <= b[i] <= 90 && a[i] == b[i] + 32)
  {
    if EqFold(a, b) {
      assert forall i | 0 <= i < |a| :: Lower(a[i]) == Lower(b[i]);
    }
  }

  /** `cerco_strcaseeq`. */
  method StrCaseEq(a: seq<byte>, b: seq<byte>) returns (eq: bool)
    ensures eq == EqFold(a, b)
  {
    var i := 0;
    while i < |a| && i < |b|
      invariant 0 <= i <= |a| && i <= |b|
      invariant forall k | 0 <= k < i :: Lower(a[k]) == Lower(b[k])
    {
      if Lower(a[i]) != Lower(b[i]) {
        return false;
      }
      i := i + 1;
    }
    eq := i == |a| && i == |b|;
  }

  /** Position of the first slash, or the length. */
  function SlashAt(p: seq<byte>): (k: nat)
    ensures k <= |p| && (forall i | 0 <= i < k :: p[i] != SLASH) && (k < |p| ==> p[k] == SLASH)
  {
    if p == [] || p[0] == SLASH then 0 else 1 + SlashAt(p[1..])
  }

  predicate SlashFree(p: seq<byte>) { forall i | 0 <= i < |p| :: p[i] != SLASH }

  /** The text between slashes; nothing behind a trailing slash. */
  function Pieces(p: seq<byte>): seq<seq<byte>>
    decreases |p|
  {
    if p == [] then []
    else
      var k := SlashAt(p);
      if k == |p| then [p] else [p[..k]] + Pieces(p[k + 1..])
  }

  function Split(path: seq<byte>): seq<seq<byte>>
  {
    Pieces(if path != [] && path[0] == SLASH then path[1..] else path)
  }

  /** All text between slashes, including a last empty piece. */
  function SplitAll(p: seq<byte>): (r: seq<seq<byte>>)
    ensures |r| > 0
    decreases |p|
  {
    var k := SlashAt(p);
    if k == |p| then [p] else [p[..k]] + SplitAll(p[k + 1..])
  }

  function Join(xs: seq<seq<byte>>): seq<byte>
  {
    if xs == [] then [] else if |xs| == 1 then xs[0] else xs[0] + [SLASH] + Join(xs[1..])
  }

  predicate AllSlashFree(xs: seq<seq<byte>>) { forall i | 0 <= i < |xs| :: SlashFree(xs[i]) }

  lemma {:induction false} SplitJoin(xs: seq<seq<byte>>)
    requires xs != [] && AllSlashFree(xs)
    ensures SplitAll(Join(xs)) == xs
  {
    if |xs| == 1 {
      assert SlashAt(xs[0]) == |xs[0]|;
    } else {
      var p := Join(xs);
      assert p == xs[0] + [SLASH] + Join(xs[1..]);
      assert p[|xs[0]|] == SLASH && p[..|xs[0]|] == xs[0] && p[|xs[0]| + 1..] == Join(xs[1..]);
      assert forall i | 0 <= i < |xs[0]| :: p[i] == xs[0][i];
      SlashUnique(p, |xs[0]|);
      SplitJoin(xs[1..]);
    }
  }

  lemma SlashUnique(p: seq<byte>, k: nat)
    requires k < |p| && p[k] == SLASH && forall i | 0 <= i < k :: p[i] != SLASH
    ensures SlashAt(p) == k
  {
  }

  lemma {:induction false} PiecesSlashFree(p: seq<byte>)
    ensures AllSlashFree(Pieces(p))
    decreases |p|
  {
    if p != [] && SlashAt(p) < |p| {
      PiecesSlashFree(p[SlashAt(p) + 1..]);
    }
  }

  // ------------------------------------------------------------------- routes

  datatype Seg = Lit(text: seq<byte>) | Param(name: seq<byte>) | CatchAll(name: seq<byte>)

  /** `seg_parse`. */
  function ParseSeg(p: seq<byte>): Seg
  {
    if p != [] && p[0] == COLON then Param(p[1..])
    else if |p| > 1 && p[0] == STAR then CatchAll(p[1..])
    else Lit(p)
  }

  datatype Route = Route(verb: seq<byte>, segs: seq<Seg>, fn: nat)

  function ParseSegs(ps: seq<seq<byte>>): (r: seq<Seg>)
    ensures |r| == |ps| && forall i | 0 <= i < |ps| :: r[i] == ParseSeg(ps[i])
  {
    seq(|ps|, i requires 0 <= i < |ps| => ParseSeg(ps[i]))
  }

  /** One entry of the table built by `router_init`, which keeps 24 segments. */
  function ParseRoute(verb: seq<byte>, path: seq<byte>, fn: nat): Route
  {
    var ps := Split(path);
    Route(verb, ParseSegs(if |ps| > MAX_SEGS then ps[..MAX_SEGS] else ps), fn)
  }

  predicate SegEq(s: Seg, req: seq<byte>)
  {
    match s
    case Lit(t) => EqFold(t, req)
    case Param(_) => true
    case CatchAll(_) => true
  }

  /** The reference meaning of a pattern: literals match up to case, a parameter one
      segment, a catch-all everything that is left. */
  predicate PathMatch(segs: seq<Seg>, req: seq<seq<byte>>)
    decreases segs
  {
    if segs == [] then req == []
    else if segs[0].CatchAll? then true
    else req != [] && SegEq(segs[0], req[0]) && PathMatch(segs[1..], req[1..])
  }

  const GET: seq<byte> := [71, 69, 84]
  const HEAD: seq<byte> := [72, 69, 65, 68]
  const POST: seq<byte> := [80, 79, 83, 84]
  const PUT: seq<byte> := [80, 85, 84]
  const PATCH: seq<byte> := [80, 65, 84, 67, 72]
  const DELETE: seq<byte> := [68, 69, 76, 69, 84, 69]
  const OPTIONS: seq<byte> := [79, 80, 84, 73, 79, 78, 83]

  /** GET routes also serve HEAD. */
  predicate Serves(routeVerb: seq<byte>, verb: seq<byte>)
  {
    EqFold(routeVerb, verb) || (EqFold(verb, HEAD) && EqFold(routeVerb, GET))
  }

  /** The bits of `allowed_mask`, as a set. */
  datatype Verb = VGet | VPost | VPut | VPatch | VDelete | VHead | VOptions

  function Bit(v: seq<byte>): set<Verb>
  {
    if EqFold(v, GET) then {VGet}
    else if EqFold(v, POST) then {VPost}
    else if EqFold(v, PUT) then {VPut}
    else if EqFold(v, PATCH) then {VPatch}
    else if EqFold(v, DELETE) then {VDelete}
    else if EqFold(v, HEAD) then {VHead}
    else if EqFold(v, OPTIONS) then {VOptions}
    else {}
  }

  datatype Capture = Capture(name: seq<byte>, value: seq<byte>)

  /** All captures of a match; a catch-all with nothing left captures nothing. */
  function Captures(segs: seq<Seg>, req: seq<seq<byte>>): seq<Capture>
    decreases segs
  {
    if segs == [] || req == [] then []
    else match segs[0]
      case CatchAll(name) => [Capture(name, Join(req))]
      case Param(name) => [Capture(name, req[0])] + Captures(segs[1..], req[1..])
      case Lit(_) => Captures(segs[1..], req[1..])
  }

  function Kept(cs: seq<Capture>): seq<Capture> { if |cs| > MAX_PARAMS then cs[..MAX_PARAMS] else cs }

  /** The pattern with its captures put back in. */
  function Substituted(segs: seq<Seg>, caps: seq<Capture>): seq<seq<byte>>
    decreases segs
  {
    if segs == [] then []
    else match segs[0]
      case Lit(t) => [t] + Substituted(segs[1..], caps)
      case Param(_) => if caps == [] then [] else [caps[0].value] + Substituted(segs[1..], caps[1..])
      case CatchAll(_) => if caps == [] then [] else SplitAll(caps[0].value)
  }

  /** Equal where the pattern captures, equal up to case where it is literal. */
  predicate SameUpToCase(segs: seq<Seg>, built: seq<seq<byte>>, req: seq<seq<byte>>)
    decreases segs
  {
    if segs == [] || segs[0].CatchAll? then built == req
    else
      && built != [] && req != []
      && (if segs[0].Lit? then built[0] == segs[0].text && EqFold(built[0], req[0]) else built[0] == req[0])
      && SameUpToCase(segs[1..], built[1..], req[1..])
  }

  /** The captures lose nothing: put back into the pattern they give the request's
      segments, literals up to case. */
  lemma {:induction false} CapturesRebuild(segs: seq<Seg>, req: seq<seq<byte>>)
    requires PathMatch(segs, req) && AllSlashFree(req)
    ensures SameUpToCase(segs, Substituted(segs, Captures(segs, req)), req)
    decreases segs
  {
    if segs != [] {
      match segs[0]
      case CatchAll(_) =>
        if req != [] {
          SplitJoin(req);
        }
      case Param(_) =>
        CapturesRebuild(segs[1..], req[1..]);
        var caps := Captures(segs, req);
        assert caps[1..] == Captures(segs[1..], req[1..]);
        assert Substituted(segs, caps)[1..] == Substituted(segs[1..], caps[1..]);
      case Lit(_) =>
        CapturesRebuild(segs[1..], req[1..]);
        var caps := Captures(segs, req);
        assert Substituted(segs, caps)[1..] == Substituted(segs[1..], caps);
    }
  }

  // ------------------------------------------------------------------- lookup

  datatype Found = Miss | Match(fn: nat, captures: seq<Capture>) | Mismatch(allowed: set<Verb>)

  predicate Hits(r: Route, req: seq<seq<byte>>, verb: seq<byte>)
  {
    PathMatch(r.segs, req) && Serves(r.verb, verb)
  }

  /** What a lookup must answer: the first entry that matches path and method; failing
      that, exactly the methods of the entries that match the path. */
  ghost predicate IsAnswer(routes: seq<Route>, req: seq<seq<byte>>, verb: seq<byte>, f: Found)
  {
    match f
    case Match(fn, caps) =>
      exists i | 0 <= i < |routes| ::
        && Hits(routes[i], req, verb) && fn == routes[i].fn
        && caps == Kept(Captures(routes[i].segs, req))
        && forall k | 0 <= k < i :: !Hits(routes[k], req, verb)
    case Mismatch(allowed) =>
      && (forall k | 0 <= k < |routes| :: !Hits(routes[k], req, verb))
      && (exists k | 0 <= k < |routes| :: PathMatch(routes[k].segs, req))
      && (forall v :: v in allowed <==> exists k | 0 <= k < |routes| :: PathMatch(routes[k].segs, req) && v in Bit(routes[k].verb))
    case Miss => forall k | 0 <= k < |routes| :: !PathMatch(routes[k].segs, req)
  }

  /** The segment loop of one table entry. */
  method MatchSegs(segs: seq<Seg>, req: seq<seq<byte>>) returns (matched: bool)
    ensures matched == PathMatch(segs, req)
  {
    var catchallHit := false;
    var i := 0;
    var s := 0;
    assert segs[0..] == segs && req[0..] == req;
    while s < |segs|
      invariant 0 <= s <= |segs| && i == s && i <= |req| && !catchallHit
      invariant PathMatch(segs, req) == PathMatch(segs[s..], req[i..])
    {
      assert segs[s..][1..] == segs[s + 1..];
      if segs[s].CatchAll? {
        catchallHit := true;
        break;
      }
      if i >= |req| {
        return false;
      }
      assert req[i..][1..] == req[i + 1..];
      var eq := true;
      if segs[s].Lit? {
        eq := StrCaseEq(segs[s].text, req[i]);
      }
      if !eq {
        return false;
      }
      i := i + 1;
      s := s + 1;
    }
    matched := catchallHit || i == |req|;
  }

  /** One turn of the capture loop, behind the captures found so far. */
  lemma CapturesFrom(all: seq<Capture>, segs: seq<Seg>, req: seq<seq<byte>>, i: nat)
    requires i <= |segs| && i <= |req|
    ensures all + Captures(segs[i..], req[i..]) ==
            if i == |segs| || i == |req| then all
            else match segs[i]
                 case CatchAll(name) => all + [Capture(name, Join(req[i..]))]
                 case Param(name) => (all + [Capture(name, req[i])]) + Captures(segs[i + 1..], req[i + 1..])
                 case Lit(_) => all + Captures(segs[i + 1..], req[i + 1..])
  {
    hide Join;
    if i < |segs| && i < |req| {
      assert segs[i..][1..] == segs[i + 1..] && req[i..][1..] == req[i + 1..];
      if segs[i].Param? {
        ConcatAssoc(all, [Capture(segs[i].name, req[i])], Captures(segs[i + 1..], req[i + 1..]));
      }
    }
  }

  /** The capture loop of a matched entry; it stops recording at sixteen. */
  method CaptureParams(segs: seq<Seg>, req: seq<seq<byte>>) returns (caps: seq<Capture>)
    ensures caps == Kept(Captures(segs, req))
  {
    hide Kept, Join, Captures;
    caps := [];
    KeptSnoc([], Capture([], []));
    var i := 0;
    ghost var all: seq<Capture> := [];
    assert segs[0..] == segs && req[0..] == req;
    while i < |segs| && i < |req|
      invariant 0 <= i <= |segs| && i <= |req| && caps == Kept(all)
      invariant Captures(segs, req) == all + Captures(segs[i..], req[i..])
    {
      CapturesFrom(all, segs, req, i);
      match segs[i] {
        case CatchAll(name) =>
          var joined := JoinFrom(req, i);
          KeptSnoc(all, Capture(name, joined));
          if |caps| < MAX_PARAMS {
            caps := caps + [Capture(name, joined)];
          }
          return;
        case Param(name) =>
          KeptSnoc(all, Capture(name, req[i]));
          if |caps| < MAX_PARAMS {
            caps := caps + [Capture(name, req[i])];
          }
          all := all + [Capture(name, req[i])];
        case Lit(_) =>
      }
      i := i + 1;
    }
    CapturesFrom(all, segs, req, i);
  }

  lemma KeptSnoc(all: seq<Capture>, c: Capture)
    ensures Kept([]) == [] && |Kept(all)| <= MAX_PARAMS
    ensures Kept(all + [c]) == if |Kept(all)| < MAX_PARAMS then Kept(all) + [c] else Kept(all)
  {
  }

  /** The remainder from segment `from`, joined with slashes. */
  method JoinFrom(req: seq<seq<byte>>, from: nat) returns (joined: seq<byte>)
    requires from < |req|
    ensures joined == Join(req[from..])
  {
    joined := [];
    var k := from;
    assert req[from..from] == [];
    while k < |req|
      invariant from <= k <= |req| && joined == Join(req[from..k])
    {
      if k > from {
        joined := joined + [SLASH];
      }
      joined := joined + req[k];
      JoinSnoc(req[from..k], req[k]);
      assert req[from..k + 1] == req[from..k] + [req[k]];
      k := k + 1;
    }
    assert req[from..k] == req[from..];
  }

  lemma {:induction false} JoinSnoc(xs: seq<seq<byte>>, x: seq<byte>)
    ensures Join(xs + [x]) == if xs == [] then x else Join(xs) + [SLASH] + x
  {
    if |xs| > 1 {
      assert (xs + [x])[1..] == xs[1..] + [x];
      JoinSnoc(xs[1..], x);
    } else if |xs| == 1 {
      assert (xs + [x])[1..] == [x];
    }
  }

  /** `router_find` on the split request. */
  method Find(routes: seq<Route>, req: seq<seq<byte>>, verb: seq<byte>) returns (f: Found)
    ensures IsAnswer(routes, req, verb, f)
  {
    hide Captures, PathMatch, EqFold, Bit;
    var isHead := StrCaseEq(verb, HEAD);
    var mismatch := false;
    var allowed: set<Verb> := {};
    var i := 0;
    while i < |routes|
      invariant 0 <= i <= |routes|
      invariant forall k | 0 <= k < i :: !Hits(routes[k], req, verb)
      invariant mismatch <==> exists k | 0 <= k < i :: PathMatch(routes[k].segs, req)
      invariant forall v :: v in allowed <==> exists k | 0 <= k < i :: PathMatch(routes[k].segs, req) && v in Bit(routes[k].verb)
    {
      var matched := MatchSegs(routes[i].segs, req);
      if matched {
        var caps := CaptureParams(routes[i].segs, req);
        var same := StrCaseEq(routes[i].verb, verb);
        var get := StrCaseEq(routes[i].verb, GET);
        if same || (isHead && get) {
          return Match(routes[i].fn, caps);
        }
        mismatch := true;
        allowed := allowed + Bit(routes[i].verb);
      }
      i := i + 1;
    }
    f := if mismatch then Mismatch(allowed) else Miss;
  }

  /** The answer is unique: the description above pins a lookup down. */
  lemma AnswerUnique(routes: seq<Route>, req: seq<seq<byte>>, verb: seq<byte>, f: Found, g: Found)
    requires IsAnswer(routes, req, verb, f) && IsAnswer(routes, req, verb, g)
    ensures f == g
  {
    hide Captures, PathMatch, EqFold, Bit;
    if f.Match? && g.Match? {
      var i :| 0 <= i < |routes| && Hits(routes[i], req, verb) && f.fn == routes[i].fn
        && f.captures == Kept(Captures(routes[i].segs, req)) && forall k | 0 <= k < i :: !Hits(routes[k], req, verb);
      var j :| 0 <= j < |routes| && Hits(routes[j], req, verb) && g.fn == routes[j].fn
        && g.captures == Kept(Captures(routes[j].segs, req)) && forall k | 0 <= k < j :: !Hits(routes[k], req, verb);
      assert i == j;
    } else if f.Mismatch? && g.Mismatch? {
      assert f.allowed == g.allowed;
    }
  }

  lemma {:induction false} FewerDoNotRebuild(segs: seq<Seg>, req: seq<seq<byte>>, n: nat)
    requires PathMatch(segs, req) && n < |Captures(segs, req)|
    ensures !SameUpToCase(segs, Substituted(segs, Captures(segs, req)[..n]), req)
    decreases segs
  {
    hide EqFold;
    var caps := Captures(segs, req);
    match segs[0]
    case CatchAll(_) =>
    case Param(_) =>
      if n > 0 {
        FewerDoNotRebuild(segs[1..], req[1..], n - 1);
        assert caps[1..] == Captures(segs[1..], req[1..]);
        assert caps[..n][1..] == caps[1..][..n - 1];
        assert Substituted(segs, caps[..n])[1..] == Substituted(segs[1..], caps[..n][1..]);
      }
    case Lit(_) =>
      FewerDoNotRebuild(segs[1..], req[1..], n);
      assert Substituted(segs, caps[..n])[1..] == Substituted(segs[1..], caps[..n]);
  }

  /** A returned route's stored captures, put back into its pattern, rebuild the request's
      segments up to literal case if and only if there were at most sixteen to store. */
  lemma MatchRebuilds(routes: seq<Route>, path: seq<byte>, verb: seq<byte>, i: nat)
    requires i < |routes| && Hits(routes[i], Split(path), verb)
    ensures var segs, caps := routes[i].segs, Captures(routes[i].segs, Split(path));
            SameUpToCase(segs, Substituted(segs, Kept(caps)), Split(path)) <==> |caps| <= 16
  {
    var segs, req := routes[i].segs, Split(path);
    if |Captures(segs, req)| <= MAX_PARAMS {
      PiecesSlashFree(if path != [] && path[0] == SLASH then path[1..] else path);
      CapturesRebuild(segs, req);
    } else {
      FewerDoNotRebuild(segs, req, MAX_PARAMS);
    }
  }

  // ---------------------------------------------------- splitting in place

  /** `s` is the C string at offset `o` of the buffer `w`. */
  predicate CStrAt(w: seq<byte>, o: nat, s: seq<byte>)
  {
    o + |s| < |w| && w[o..o + |s|] == s && w[o + |s|] == 0
  }

  /** The first `|offs|` pieces are C strings in the part of the buffer before `p`. */
  ghost predicate PiecesAt(w: seq<byte>, offs: seq<nat>, done: seq<seq<byte>>, p: nat)
  {
    |offs| == |done| && forall k | 0 <= k < |offs| :: CStrAt(w, offs[k], done[k]) && offs[k] + |done[k]| < p
  }

  lemma PiecesKept(w: seq<byte>, v: seq<byte>, offs: seq<nat>, done: seq<seq<byte>>, p: nat)
    requires PiecesAt(w, offs, done, p) && p <= |w| == |v| && w[..p] == v[..p]
    ensures PiecesAt(v, offs, done, p)
  {
    forall k | 0 <= k < |offs|
      ensures CStrAt(v, offs[k], done[k])
    {
      var o, n := offs[k], |done[k]|;
      assert w[..p][o..o + n] == v[..p][o..o + n];
      assert w[..p][o + n] == v[..p][o + n];
    }
  }

  method StrChrSlash(work: array<byte>, p: nat, len: nat) returns (k: nat)
    requires p <= len < work.Length && NulFree(work[p..len]) && work[len] == 0
    ensures k == SlashAt(work[p..len])
  {
    k := 0;
    while work[p + k] != 0 && work[p + k] != SLASH
      invariant p + k <= len && forall i | 0 <= i < k :: work[p..len][i] != SLASH
      decreases len - k
    {
      assert work[p..len][k] == work[p + k];
      k := k + 1;
    }
    if p + k < len {
      assert work[p..len][k] == work[p + k];
    }
    SlashIs(work[p..len], k);
  }

  lemma SlashIs(p: seq<byte>, k: nat)
    requires k <= |p| && (forall i | 0 <= i < k :: p[i] != SLASH) && (k < |p| ==> p[k] == SLASH)
    ensures SlashAt(p) == k
  {
  }

  /** Writing the terminator over the separator behind `k` bytes. */
  lemma PieceCut(w: seq<byte>, path: seq<byte>, p: nat, k: nat)
    requires p + k < |path| < |w| && w[p..|path|] == path[p..]
    ensures var v := w[p + k := 0];
            && v[..p] == w[..p] && v[p..p + k] == path[p..p + k] && v[p + k] == 0
            && v[p + k + 1..|path|] == path[p + k + 1..] && v[|path|] == w[|path|]
  {
    var v := w[p + k := 0];
    assert path[p..p + k] == path[p..][..k] == w[p..|path|][..k] == v[p..p + k];
    assert path[p + k + 1..] == path[p..][k + 1..] == w[p..|path|][k + 1..] == v[p + k + 1..|path|];
  }

  /** One segment at `p`: its separator, if any, becomes its terminator. */
  method TakePiece(work: array<byte>, path: seq<byte>, ghost done: seq<seq<byte>>, ghost offs: seq<nat>, p: nat)
    returns (next: nat, last: bool)
    requires NulFree(path) && work.Length == |path| + 1 && p < |path|
    requires work[p..|path|] == path[p..] && work[|path|] == 0 && PiecesAt(work[..], offs, done, p)
    modifies work
    ensures p < next <= |path| && last == (SlashAt(path[p..]) == |path| - p)
    ensures next == if last then |path| else p + SlashAt(path[p..]) + 1
    ensures work[next..|path|] == path[next..] && work[|path|] == 0
    ensures PiecesAt(work[..], offs + [p], done + [path[p..p + SlashAt(path[p..])]], if last then |path| + 1 else next)
  {
    hide CStrAt, PiecesAt;
    var k := StrChrSlash(work, p, |path|);
    last := p + k == |path|;
    if last {
      assert path[p..] == path[p..p + k] == work[..][p..p + k];
      IsTerminated(work[..], p, path[p..]);
      PieceAdded(work[..], offs, done, p, path[p..], |path| + 1);
      return |path|, true;
    }
    ghost var before := work[..];
    work[p + k] := 0;
    PieceCut(before, path, p, k);
    assert work[..] == before[p + k := 0];
    PiecesKept(before, work[..], offs, done, p);
    IsTerminated(work[..], p, path[p..p + k]);
    PieceAdded(work[..], offs, done, p, path[p..p + k], p + k + 1);
    next := p + k + 1;
  }

  lemma IsTerminated(w: seq<byte>, o: nat, s: seq<byte>)
    requires o + |s| < |w| && w[o..o + |s|] == s && w[o + |s|] == 0
    ensures CStrAt(w, o, s)
  {
  }

  /** `split_path`: writes a NUL over each separator and returns where the segments
      start, or fails when there are more than `max`. */
  method SplitPath(work: array<byte>, path: seq<byte>, max: nat) returns (n: int, offs: seq<nat>)
    requires NulFree(path) && work[..] == path + [0]
    modifies work
    ensures if |Split(path)| > max then n == -1
            else n == |offs| == |Split(path)| && PiecesAt(work[..], offs, Split(path), work.Length)
  {
    hide PiecesAt, Pieces;
    assert path == work[..][..|path|] && work[|path|] == work[..][|path|] == 0;
    if work[0] == SLASH {
      assert path[0] == work[..][0];
      assert work[1..|path|] == path[1..];
      n, offs := SplitFrom(work, path, 1, max);
    } else {
      assert path != [] ==> path[0] == work[..][0];
      assert work[0..|path|] == path[0..] == path;
      n, offs := SplitFrom(work, path, 0, max);
    }
  }

  method SplitFrom(work: array<byte>, path: seq<byte>, start: nat, max: nat) returns (n: int, offs: seq<nat>)
    requires NulFree(path) && work.Length == |path| + 1 && start <= |path|
    requires work[start..|path|] == path[start..] && work[|path|] == 0
    modifies work
    ensures if |Pieces(path[start..])| > max then n == -1
            else n == |offs| == |Pieces(path[start..])| && PiecesAt(work[..], offs, Pieces(path[start..]), work.Length)
  {
    hide PiecesAt, SlashAt, Pieces;
    var p := start;
    offs := [];
    ghost var done: seq<seq<byte>> := [];
    NoPieces(work[..], if p < |path| then p else |path| + 1);
    assert [] + Pieces(path[p..]) == Pieces(path[p..]);
    while p < |path|
      invariant p <= |path| && work.Length == |path| + 1
      invariant work[p..|path|] == path[p..] && work[|path|] == 0
      invariant PiecesAt(work[..], offs, done, if p < |path| then p else |path| + 1)
      invariant |offs| == |done| <= max && Pieces(path[start..]) == done + Pieces(path[p..])
      decreases |path| - p
    {
      PiecesStep(path[p..]);
      if |offs| >= max {
        return -1, [];
      }
      ghost var k := SlashAt(path[p..]);
      var next, last := TakePiece(work, path, done, offs, p);
      OnePiece(path, p, next, done, k);
      offs := offs + [p];
      done := done + [path[p..p + k]];
      if !last && next == |path| {
        PiecesWiden(work[..], offs, done, next, |path| + 1);
      }
      p := next;
    }
    n := |offs|;
    assert p == |path|;
    NoMorePieces(path[p..]);
    assert Pieces(path[start..]) == done + [] == done;
  }

  lemma OnePiece(path: seq<byte>, p: nat, next: nat, done: seq<seq<byte>>, k: nat)
    requires p < |path| && k == SlashAt(path[p..]) && p < next <= |path|
    requires next == if k == |path| - p then |path| else p + k + 1
    ensures done + Pieces(path[p..]) == done + [path[p..p + k]] + Pieces(path[next..])
  {
    hide SlashAt, Pieces;
    PiecesStep(path[p..]);
    assert path[p..][..k] == path[p..p + k];
    if k == |path| - p {
      NoMorePieces(path[next..]);
    } else {
      assert path[p..][k + 1..] == path[next..];
    }
  }

  lemma NoMorePieces(p: seq<byte>)
    requires p == []
    ensures Pieces(p) == []
  {
  }

  lemma NoPieces(w: seq<byte>, p: nat)
    ensures PiecesAt(w, [], [], p)
  {
  }

  lemma PiecesStep(p: seq<byte>)
    requires p != []
    ensures Pieces(p) == [p[..SlashAt(p)]] + (if SlashAt(p) == |p| then [] else Pieces(p[SlashAt(p) + 1..]))
  {
    hide SlashAt;
    var k := SlashAt(p);
    if k == |p| {
      assert p[..k] == p;
    } else {
      assert Pieces(p) == [p[..k]] + Pieces(p[k + 1..]);
    }
  }

  lemma PieceAdded(w: seq<byte>, offs: seq<nat>, done: seq<seq<byte>>, p: nat, piece: seq<byte>, q: nat)
    requires PiecesAt(w, offs, done, p) && CStrAt(w, p, piece) && p + |piece| < q
    ensures PiecesAt(w, offs + [p], done + [piece], q)
  {
  }

  lemma PiecesWiden(w: seq<byte>, offs: seq<nat>, done: seq<seq<byte>>, p: nat, q: nat)
    requires PiecesAt(w, offs, done, p) && p <= q
    ensures PiecesAt(w, offs, done, q)
  {
  }

  // -------------------------------------------------------------------- lookup

  /** A lookup from the decoded path: a working copy is split in place; too many segments
      is a miss. */
  method Lookup(routes: seq<Route>, path: seq<byte>, verb: seq<byte>) returns (f: Found)
    requires NulFree(path)
    ensures |Split(path)| > MAX_REQ_SEGS ==> f == Miss
    ensures |Split(path)| <= MAX_REQ_SEGS ==> IsAnswer(routes, Split(path), verb, f)
  {
    var work := new byte[|path| + 1](i requires 0 <= i <= |path| => if i < |path| then path[i] else 0);
    assert work[..] == path + [0];
    var n, offs := SplitPath(work, path, MAX_REQ_SEGS);
    if n < 0 {
      return Miss;
    }
    var req := ReadPieces(work, offs, Split(path), path);
    f := Find(routes, req, verb);
  }

  /** The segments as the C strings their pointers denote. */
  method ReadPieces(work: array<byte>, offs: seq<nat>, ghost pieces: seq<seq<byte>>, ghost path: seq<byte>)
    returns (req: seq<seq<byte>>)
    requires pieces == Split(path) && NulFree(path) && PiecesAt(work[..], offs, pieces, work.Length)
    ensures req == pieces
  {
    SplitNulFree(path);
    hide Split, PiecesAt, CStr, NulFree;
    PiecesCount(work[..], offs, pieces, work.Length);
    req := [];
    for k := 0 to |offs|
      invariant req == pieces[..k]
    {
      PieceReadBack(work[..], offs, pieces, work.Length, k);
      assert work[offs[k]..] == work[..][offs[k]..];
      req := req + [CStr(work[offs[k]..])];
    }
  }

  lemma PiecesCount(w: seq<byte>, offs: seq<nat>, done: seq<seq<byte>>, p: nat)
    requires PiecesAt(w, offs, done, p)
    ensures |offs| == |done|
  {
  }

  lemma PieceReadBack(w: seq<byte>, offs: seq<nat>, done: seq<seq<byte>>, p: nat, k: nat)
    requires PiecesAt(w, offs, done, p) && k < |offs| == |done| && NulFree(done[k])
    ensures offs[k] <= |w| && CStr(w[offs[k]..]) == done[k]
  {
    var o, piece := offs[k], done[k];
    assert CStrAt(w, o, piece);
    var rest := w[o + |piece| + 1..];
    assert w[o..] == piece + [0] + rest;
    CStrTerminated(piece, rest);
  }

  lemma SplitNulFree(path: seq<byte>)
    requires NulFree(path)
    ensures forall i | 0 <= i < |Split(path)| :: NulFree(Split(path)[i])
  {
    PiecesNulFree(if path != [] && path[0] == SLASH then path[1..] else path);
  }

  lemma {:induction false} PiecesNulFree(p: seq<byte>)
    requires NulFree(p)
    ensures forall i | 0 <= i < |Pieces(p)| :: NulFree(Pieces(p)[i])
    decreases |p|
  {
    if p != [] && SlashAt(p) < |p| {
      PiecesNulFree(p[SlashAt(p) + 1..]);
    }
  }
}
