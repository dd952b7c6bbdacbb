/** Route code generation: which layouts wrap a page, and what the generated wrapper
    functions evaluate to. */
module Layouts {
  import opened Bytes
  import opened Sequences

  const MAX_LAYOUTS := 64

  /** Directory texts are copied into buffers of this size, terminator included. */
  const DIR_BUF := 256

  type Name = string

  // -------------------------------------------------------------- directories

  /** A directory below `src/routes`: names of directory entries, outermost first. */
  type Path = seq<Name>

  /** The longest name a directory entry has. */
  const NAME_MAX := 255

  predicate IsName(n: Name) { 0 < |n| <= NAME_MAX && forall i | 0 <= i < |n| :: n[i] != '/' }

  predicate IsPath(p: Path) { forall i | 0 <= i < |p| :: IsName(p[i]) }

  /** The directory as the generator stores it. */
  function Text(p: Path): string
  {
    if p == [] then "" else if |p| == 1 then p[0] else Text(p[..|p| - 1]) + "/" + p[|p| - 1]
  }

  /** What `snprintf` leaves of a text in such a buffer. */
  function Stored(s: string): string { if |s| < DIR_BUF then s else s[..DIR_BUF - 1] }

  /** Short enough that no cut text looks like it: see `FindsRightIff`. */
  predicate Fits(p: Path) { IsPath(p) && |Text(p)| < DIR_BUF - 1 }

  /** `strrchr(work, '/')`: the last slash, or the length when there is none. */
  function LastSlash(s: string): (k: nat)
    ensures k <= |s| && (k < |s| ==> s[k] == '/' && forall i | k < i < |s| :: s[i] != '/')
    ensures k == |s| ==> forall i | 0 <= i < |s| :: s[i] != '/'
  {
    LastSlashFrom(s, |s|)
  }

  function LastSlashFrom(s: string, n: nat): (k: nat)
    requires n <= |s| && forall i | n <= i < |s| :: s[i] != '/'
    ensures k <= |s| && (k < |s| ==> s[k] == '/' && forall i | k < i < |s| :: s[i] != '/')
    ensures k == |s| ==> forall i | 0 <= i < |s| :: s[i] != '/'
  {
    if n == 0 then |s| else if s[n - 1] == '/' then n - 1 else LastSlashFrom(s, n - 1)
  }

  /** The walk from a directory to the root, innermost first. */
  function Up(work: string): (d: seq<string>)
    ensures |d| > 0
    decreases |work|
  {
    var k := LastSlash(work);
    if k == |work| then (if work == [] then [""] else [work, ""]) else [work] + Up(work[..k])
  }

  /** The directories on the way from the root to `p`, as text. */
  function Ancestors(p: Path): (a: seq<string>)
    ensures |a| == |p| + 1
  {
    if p == [] then [""] else Ancestors(p[..|p| - 1]) + [Text(p)]
  }

  function Reversed<T>(s: seq<T>): (r: seq<T>)
    ensures |r| == |s|
  {
    if s == [] then [] else Reversed(s[1..]) + [s[0]]
  }

  lemma {:induction false} ReversedAt<T>(s: seq<T>)
    ensures forall i | 0 <= i < |s| :: Reversed(s)[i] == s[|s| - 1 - i]
  {
    if s != [] {
      ReversedAt(s[1..]);
    }
  }

  lemma NameHasNoSlash(n: Name)
    requires IsName(n)
    ensures LastSlash(n) == |n|
  {
  }

  lemma TextCut(p: Path)
    requires IsPath(p) && |p| > 1
    ensures LastSlash(Text(p)) == |Text(p[..|p| - 1])| < |Text(p)|
    ensures Text(p)[..LastSlash(Text(p))] == Text(p[..|p| - 1])
  {
    var a, n, t := Text(p[..|p| - 1]), p[|p| - 1], Text(p);
    assert IsName(n);
    assert t == a + "/" + n;
    assert t[|a|] == '/' && t[..|a|] == a && t[|a| + 1..] == n;
    assert forall i | |a| < i < |t| :: t[i] == n[i - |a| - 1];
  }

  /** The walk visits exactly the ancestors, the directory itself and the root included. */
  lemma {:induction false} UpIsAncestors(p: Path)
    requires IsPath(p)
    ensures Reversed(Up(Text(p))) == Ancestors(p)
  {
    hide LastSlash;
    if |p| == 0 {
      EmptyHasNoSlash();
      assert Reversed([""]) == [""];
    } else if |p| == 1 {
      assert IsName(p[0]);
      NameHasNoSlash(p[0]);
      assert p[..0] == [];
      assert Up(Text(p)) == [p[0], ""];
      assert Reversed([p[0], ""]) == ["", p[0]];
      assert Ancestors(p) == Ancestors([]) + [p[0]] == ["", p[0]];
    } else {
      TextCut(p);
      UpIsAncestors(p[..|p| - 1]);
      assert Up(Text(p)) == [Text(p)] + Up(Text(p[..|p| - 1]));
    }
  }

  lemma EmptyHasNoSlash()
    ensures LastSlash("") == 0
  {
  }

  /** Different directories have different text. */
  lemma {:induction false} TextInjective(p: Path, q: Path)
    requires IsPath(p) && IsPath(q) && Text(p) == Text(q)
    ensures p == q
    decreases |p|
  {
    hide LastSlash;
    TextSlash(p);
    TextSlash(q);
    if |p| > 1 {
      TextCut(p);
      TextCut(q);
      var p', q' := p[..|p| - 1], q[..|q| - 1];
      TextInjective(p', q');
      assert p == p' + [p[|p| - 1]] && q == q' + [q[|q| - 1]];
      assert Text(p)[|Text(p')| + 1..] == p[|p| - 1];
      assert Text(q)[|Text(q')| + 1..] == q[|q| - 1];
    } else if |p| == 1 {
      assert IsName(p[0]);
    }
  }

  /** Only nested directories have a slash, only the root is empty. */
  lemma TextSlash(p: Path)
    requires IsPath(p)
    ensures (LastSlash(Text(p)) < |Text(p)|) <==> |p| > 1
    ensures Text(p) == "" <==> p == []
  {
    hide LastSlash;
    if |p| > 1 {
      TextCut(p);
    } else if |p| == 1 {
      assert IsName(p[0]);
      NameHasNoSlash(p[0]);
    } else {
      EmptyHasNoSlash();
    }
  }

  // ------------------------------------------------------------ layout chains

  datatype Layout = Layout(dir: Path, symbol: Name)

  datatype Route = Route(dir: Path, symbol: Name)

  /** `find_layout`: the first layout stored under this directory text. */
  function FindLayout(ls: seq<Layout>, dir: string): Option<Name>
  {
    if ls == [] then None
    else if Stored(Text(ls[0].dir)) == dir then Some(ls[0].symbol)
    else FindLayout(ls[1..], dir)
  }

  /** The layout of a directory, by directory. */
  function LayoutOf(ls: seq<Layout>, dir: Path): Option<Name>
  {
    if ls == [] then None else if ls[0].dir == dir then Some(ls[0].symbol) else LayoutOf(ls[1..], dir)
  }

  function AsSeq(o: Option<Name>): seq<Name> { if o.Some? then [o.value] else [] }

  /** The reference meaning: the layouts of exactly the directories on the way from the
      root to the route, outermost first. */
  function LayoutsAbove(ls: seq<Layout>, dir: Path): (r: seq<Name>)
    ensures |r| <= |dir| + 1
  {
    if dir == [] then AsSeq(LayoutOf(ls, [])) else LayoutsAbove(ls, dir[..|dir| - 1]) + AsSeq(LayoutOf(ls, dir))
  }

  predicate Layouted(ls: seq<Layout>) { forall i | 0 <= i < |ls| :: IsPath(ls[i].dir) }

  /** A short text is stored by its own directory only. */
  lemma StoredInjective(p: Path, q: Path)
    requires Fits(p) && IsPath(q) && Stored(Text(q)) == Text(p)
    ensures p == q
  {
    assert |Text(q)| < DIR_BUF;
    TextInjective(p, q);
  }

  lemma {:induction false} FindIsLayoutOf(ls: seq<Layout>, dir: Path)
    requires Layouted(ls) && Fits(dir)
    ensures FindLayout(ls, Text(dir)) == LayoutOf(ls, dir)
  {
    hide Text, Stored, Fits;
    if ls != [] {
      if Stored(Text(ls[0].dir)) == Text(dir) {
        StoredInjective(dir, ls[0].dir);
      } else {
        StoredShort(dir);
      }
      FindIsLayoutOf(ls[1..], dir);
    }
  }

  lemma StoredShort(p: Path)
    requires Fits(p)
    ensures Stored(Text(p)) == Text(p)
  {
  }

  /** The lookup answers rightly for every set of layouts. */
  ghost predicate FindsRight(dir: Path)
  {
    forall ls | Layouted(ls) :: FindLayout(ls, Stored(Text(dir))) == LayoutOf(ls, dir)
  }

  /** The exact condition of a right lookup: a directory is looked up rightly in every tree
      if and only if its text has at most 254 characters. From 255 on its own
      subdirectories are stored under the same text. */
  lemma FindsRightIff(dir: Path)
    requires IsPath(dir)
    ensures FindsRight(dir) <==> |Text(dir)| < DIR_BUF - 1
  {
    assert dir == [] ==> Text(dir) == "";
    hide FindLayout, LayoutOf, Text;
    if |Text(dir)| < DIR_BUF - 1 {
      StoredShort(dir);
      forall ls | Layouted(ls)
        ensures FindLayout(ls, Stored(Text(dir))) == LayoutOf(ls, dir)
      {
        FindIsLayoutOf(ls, dir);
      }
    } else {
      var below := dir + ["a"];
      assert below[..|dir|] == dir;
      TextBelow(dir, "a");
      OneLayout(below, "s", dir);
      assert Layouted([Layout(below, "s")]);
    }
  }

  lemma TextBelow(dir: Path, n: Name)
    requires dir != []
    ensures Text(dir + [n]) == Text(dir) + "/" + n
  {
    assert (dir + [n])[..|dir|] == dir;
  }

  lemma OneLayout(at: Path, symbol: Name, dir: Path)
    requires at != dir && Stored(Text(at)) == Stored(Text(dir))
    ensures FindLayout([Layout(at, symbol)], Stored(Text(dir))) == Some(symbol)
    ensures LayoutOf([Layout(at, symbol)], dir) == None
  {
    hide Text, Stored;
    var ls := [Layout(at, symbol)];
    assert ls[1..] == [];
  }

  /** Two siblings below a directory of 254 characters share their layouts. */
  lemma SiblingsCollide(x: Name, y: Name, z: Name, symbol: Name)
    requires IsPath([x, y]) && IsPath([x, z]) && |x| == 254 && y != z
    ensures FindLayout([Layout([x, y], symbol)], Stored(Text([x, z]))) == Some(symbol)
    ensures LayoutOf([Layout([x, y], symbol)], [x, z]) == None
  {
    assert [x] + [y] == [x, y] && [x] + [z] == [x, z];
    assert [x, y][1] == y && [x, z][1] == z;
    TextBelow([x], y);
    TextBelow([x], z);
    OneLayout([x, y], symbol, [x, z]);
  }

  /** The layouts found for a list of directory texts, in order. */
  function FoundIn(ls: seq<Layout>, dirs: seq<string>): seq<Name>
  {
    if dirs == [] then [] else AsSeq(FindLayout(ls, dirs[0])) + FoundIn(ls, dirs[1..])
  }

  lemma {:induction false} FoundInConcat(ls: seq<Layout>, a: seq<string>, b: seq<string>)
    ensures FoundIn(ls, a + b) == FoundIn(ls, a) + FoundIn(ls, b)
  {
    hide FindLayout, AsSeq;
    if a == [] {
      assert a + b == b;
    } else {
      FoundInConcat(ls, a[1..], b);
      assert (a + b)[0] == a[0] && (a + b)[1..] == a[1..] + b;
      ConcatAssoc(AsSeq(FindLayout(ls, a[0])), FoundIn(ls, a[1..]), FoundIn(ls, b));
    }
  }

  lemma FoundInOne(ls: seq<Layout>, dir: string)
    ensures FoundIn(ls, [dir]) == AsSeq(FindLayout(ls, dir))
  {
    hide FindLayout, AsSeq;
    assert [dir][1..] == [];
  }

  lemma FoundInNone(ls: seq<Layout>)
    ensures FoundIn(ls, []) == []
  {
  }

  lemma FoundOneMore(ls: seq<Layout>, dirs: seq<string>, n: nat)
    requires n < |dirs|
    ensures FoundIn(ls, dirs[..n + 1]) == FoundIn(ls, dirs[..n]) + AsSeq(FindLayout(ls, dirs[n]))
  {
    hide FindLayout, AsSeq, FoundIn;
    assert dirs[..n + 1] == dirs[..n] + [dirs[n]];
    FoundInConcat(ls, dirs[..n], [dirs[n]]);
    FoundInOne(ls, dirs[n]);
  }

  lemma {:induction false} FoundIsAbove(ls: seq<Layout>, dir: Path)
    requires Layouted(ls) && Fits(dir)
    ensures FoundIn(ls, Ancestors(dir)) == LayoutsAbove(ls, dir)
  {
    hide FoundIn, FindLayout, LayoutOf;
    FindIsLayoutOf(ls, dir);
    if dir == [] {
      FoundInOne(ls, "");
    } else {
      var up := dir[..|dir| - 1];
      PrefixFits(dir, |dir| - 1);
      FoundIsAbove(ls, up);
      FoundInConcat(ls, Ancestors(up), [Text(dir)]);
      FoundInOne(ls, Text(dir));
    }
  }

  /** The walk keeps at most 64 directories, so the outermost ones of a deeper route are
      never looked at. */
  function Cut(dir: Path): nat { if |dir| + 1 > MAX_LAYOUTS then |dir| + 1 - MAX_LAYOUTS else 0 }

  /** The directory texts the walk collects, innermost first. */
  function Walked(dir: Path): (w: seq<string>)
    ensures |w| <= MAX_LAYOUTS
  {
    var up := Up(Stored(Text(dir)));
    if |up| <= MAX_LAYOUTS then up else up[..MAX_LAYOUTS]
  }

  /** The chain stored for a route. */
  function Chain(ls: seq<Layout>, dir: Path): seq<Name> { FoundIn(ls, Reversed(Walked(dir))) }

  lemma WalkedIs(dir: Path)
    requires Fits(dir)
    ensures Reversed(Walked(dir)) == Ancestors(dir)[Cut(dir)..]
  {
    StoredShort(dir);
    assert IsPath(dir);
    hide Ancestors, Up, Text, IsPath, Reversed, Stored, Fits;
    UpIsAncestors(dir);
    ReversedAt(Up(Text(dir)));
    ReversedAt(Walked(dir));
  }

  predicate NoLayoutAboveCut(ls: seq<Layout>, dir: Path)
  {
    forall j | 0 <= j < Cut(dir) :: LayoutOf(ls, dir[..j]).None?
  }

  lemma {:induction false} PrefixFits(p: Path, n: nat)
    requires Fits(p) && n <= |p|
    ensures Fits(p[..n])
    decreases |p|
  {
    if n < |p| {
      var up := p[..|p| - 1];
      assert |Text(up)| <= |Text(p)| by { if |p| == 1 { assert up == []; } }
      PrefixFits(up, n);
      assert up[..n] == p[..n];
    } else {
      assert p[..n] == p;
    }
  }

  lemma {:induction false} AncestorAt(p: Path, j: nat)
    requires j <= |p|
    ensures Ancestors(p)[j] == Text(p[..j])
    decreases |p|
  {
    if j == |p| {
      assert p[..j] == p;
    } else {
      AncestorAt(p[..|p| - 1], j);
      assert p[..|p| - 1][..j] == p[..j];
    }
  }

  lemma {:induction false} NothingFound(ls: seq<Layout>, dirs: seq<string>)
    ensures FoundIn(ls, dirs) == [] <==> forall j | 0 <= j < |dirs| :: FindLayout(ls, dirs[j]).None?
  {
    hide FindLayout;
    if dirs != [] {
      NothingFound(ls, dirs[1..]);
      assert |FoundIn(ls, dirs)| == |AsSeq(FindLayout(ls, dirs[0]))| + |FoundIn(ls, dirs[1..])|;
      assert forall j | 0 < j < |dirs| :: dirs[j] == dirs[1..][j - 1];
    }
  }

  /** The stored chain is the layouts of exactly the ancestors if and only if no directory
      beyond the 64 innermost ones has a layout. */
  lemma ChainIsLayoutsAbove(ls: seq<Layout>, dir: Path)
    requires Layouted(ls) && Fits(dir)
    ensures Chain(ls, dir) == LayoutsAbove(ls, dir) <==> NoLayoutAboveCut(ls, dir)
  {
    hide FoundIn, LayoutsAbove, Ancestors, LayoutOf, FindLayout, Text, Walked, Reversed;
    WalkedIs(dir);
    var a, n := Ancestors(dir), Cut(dir);
    assert a == a[..n] + a[n..];
    FoundInConcat(ls, a[..n], a[n..]);
    FoundIsAbove(ls, dir);
    NothingFound(ls, a[..n]);
    forall j | 0 <= j < n
      ensures FindLayout(ls, a[j]) == LayoutOf(ls, dir[..j])
    {
      AncestorAt(dir, j);
      PrefixFits(dir, j);
      FindIsLayoutOf(ls, dir[..j]);
    }
    assert FoundIn(ls, a[..n]) != [] ==> |FoundIn(ls, a)| > |FoundIn(ls, a[n..])|;
  }

  lemma {:induction false} TextOfAs(n: nat)
    ensures |Text(seq(n, _ => "a"))| == if n == 0 then 0 else 2 * n - 1
    ensures IsPath(seq(n, _ => "a"))
  {
    if n > 0 {
      TextOfAs(n - 1);
      assert seq(n, _ => "a")[..n - 1] == seq(n - 1, _ => "a");
    }
  }

  /** 64 nested directories, far within the buffers: the root's layout is lost. */
  lemma DeepRouteLosesRoot(symbol: Name)
    ensures var ls, dir := [Layout([], symbol)], seq(64, _ => "a");
            Layouted(ls) && Fits(dir) && Chain(ls, dir) != LayoutsAbove(ls, dir)
  {
    var ls, dir: Path := [Layout([], symbol)], seq(64, _ => "a");
    TextOfAs(64);
    assert Text([]) == "" && Fits(ls[0].dir);
    assert LayoutOf(ls, dir[..0]) == Some(symbol);
    hide Chain, LayoutsAbove, Text;
    ChainIsLayoutsAbove(ls, dir);
  }

  /** The directory walk of `compute_layout_chains`. */
  method WalkUp(dir: string) returns (dirs: seq<string>)
    ensures var up := Up(Stored(dir));
            dirs == if |up| <= MAX_LAYOUTS then up else up[..MAX_LAYOUTS]
  {
    dirs := [];
    var work := Stored(dir);
    while true
      invariant |dirs| <= MAX_LAYOUTS && Up(Stored(dir)) == dirs + Up(work)
      decreases |work|
    {
      if |dirs| >= MAX_LAYOUTS {
        break;
      }
      dirs := dirs + [work];
      var slash := LastSlash(work);
      if slash == |work| {
        if work != "" && |dirs| < MAX_LAYOUTS {
          dirs := dirs + [""];
        }
        break;
      }
      work := work[..slash];
    }
  }

  /** The second loop: layouts of the collected directories, last first. */
  method CollectBackwards(ls: seq<Layout>, dirs: seq<string>) returns (chain: seq<Name>)
    requires |dirs| <= MAX_LAYOUTS
    ensures chain == FoundIn(ls, Reversed(dirs))
  {
    hide FoundIn, FindLayout, Reversed;
    ghost var up := Reversed(dirs);
    ReversedAt(dirs);
    FoundInNone(ls);
    chain := [];
    var k := |dirs| - 1;
    while k >= 0 && |chain| < MAX_LAYOUTS
      invariant -1 <= k < |dirs|
      invariant chain == FoundIn(ls, up[..|dirs| - 1 - k]) && |chain| <= |dirs| - 1 - k
      decreases k
    {
      FoundOneMore(ls, up, |dirs| - 1 - k);
      var found := FindLayout(ls, dirs[k]);
      if found.Some? {
        chain := chain + [found.value];
      }
      k := k - 1;
    }
    assert up[..|up|] == up;
  }

  /** One route's chain. */
  method ComputeChain(ls: seq<Layout>, dir: Path) returns (chain: seq<Name>)
    ensures chain == Chain(ls, dir)
  {
    var dirs := WalkUp(Text(dir));
    chain := CollectBackwards(ls, dirs);
  }

  // ------------------------------------------------------------ generated code

  /** Names of generated functions. */
  datatype Fn = PageFn(route: nat) | ChainFn(route: nat, level: nat)

  /** A generated definition: a page with its markers, or a layout called around an
      earlier function. */
  datatype Def = PageDef(name: Fn, symbol: Name) | WrapDef(name: Fn, layout: Name, callee: Fn)

  /** What a request handler renders. */
  datatype Html = Page(symbol: Name) | Wrapped(layout: Name, inner: Html)

  /** Running a function of the file `defs`; a callee must be defined earlier. */
  function Eval(defs: seq<Def>, f: Fn): Option<Html>
    decreases |defs|
  {
    if defs == [] then None
    else
      var before, last := defs[..|defs| - 1], defs[|defs| - 1];
      if last.name != f then Eval(before, f)
      else match last
        case PageDef(_, symbol) => Some(Page(symbol))
        case WrapDef(_, layout, callee) =>
          var inner := Eval(before, callee);
          if inner.None? then None else Some(Wrapped(layout, inner.value))
  }

  /** Layouts nested around a page, the first outermost. */
  function Nest(layouts: seq<Name>, page: Html): Html
  {
    if layouts == [] then page else Wrapped(layouts[0], Nest(layouts[1..], page))
  }

  function Callee(i: nat, level: nat): Fn { if level == 0 then PageFn(i) else ChainFn(i, level) }

  /** The definitions of route `i` up to wrapper `level`, innermost first. */
  function RouteDefs(i: nat, symbol: Name, chain: seq<Name>, level: nat): (d: seq<Def>)
    requires level <= |chain|
    ensures |d| == level + 1
  {
    if level == 0 then [PageDef(PageFn(i), symbol)]
    else RouteDefs(i, symbol, chain, level - 1)
         + [WrapDef(ChainFn(i, level), chain[|chain| - level], Callee(i, level - 1))]
  }

  function Program(routes: seq<Route>, chains: seq<seq<Name>>): seq<Def>
    requires |routes| == |chains|
  {
    if routes == [] then []
    else
      var n := |routes| - 1;
      Program(routes[..n], chains[..n]) + RouteDefs(n, routes[n].symbol, chains[n], |chains[n]|)
  }

  predicate Defines(defs: seq<Def>, f: Fn) { exists k | 0 <= k < |defs| :: defs[k].name == f }

  predicate NamesDistinct(defs: seq<Def>) { forall j, k | 0 <= j < k < |defs| :: defs[j].name != defs[k].name }

  /** Every definition calls only functions defined before it. */
  predicate CallsBackwards(defs: seq<Def>)
  {
    forall k | 0 <= k < |defs| && defs[k].WrapDef? :: Defines(defs[..k], defs[k].callee)
  }

  /** Evaluating wrapper `level` nests the last `level` layouts around the page. */
  lemma {:induction false} EvalRoute(before: seq<Def>, i: nat, symbol: Name, chain: seq<Name>, level: nat)
    requires level <= |chain|
    ensures Eval(before + RouteDefs(i, symbol, chain, level), Callee(i, level)) ==
            Some(Nest(chain[|chain| - level..], Page(symbol)))
    decreases level
  {
    var defs := before + RouteDefs(i, symbol, chain, level);
    if level == 0 {
      assert defs[..|defs| - 1] == before;
      assert chain[|chain|..] == [];
    } else {
      EvalRoute(before, i, symbol, chain, level - 1);
      assert defs[..|defs| - 1] == before + RouteDefs(i, symbol, chain, level - 1);
      var used := chain[|chain| - level..];
      assert used[1..] == chain[|chain| - (level - 1)..];
    }
  }

  /** Definitions of later routes do not change what a function means. */
  lemma {:induction false} EvalIgnoresLater(before: seq<Def>, i: nat, symbol: Name, chain: seq<Name>, level: nat, f: Fn)
    requires level <= |chain| && f.route != i
    ensures Eval(before + RouteDefs(i, symbol, chain, level), f) == Eval(before, f)
    decreases level
  {
    var defs := before + RouteDefs(i, symbol, chain, level);
    if level == 0 {
      assert defs[..|defs| - 1] == before;
    } else {
      EvalIgnoresLater(before, i, symbol, chain, level - 1, f);
      assert defs[..|defs| - 1] == before + RouteDefs(i, symbol, chain, level - 1);
    }
  }

  lemma {:induction false} EvalEntry(routes: seq<Route>, chains: seq<seq<Name>>, i: nat)
    requires |routes| == |chains| && i < |routes|
    ensures Eval(Program(routes, chains), Callee(i, |chains[i]|)) == Some(Nest(chains[i], Page(routes[i].symbol)))
    decreases |routes|
  {
    var n := |routes| - 1;
    var before := Program(routes[..n], chains[..n]);
    if i == n {
      EvalRoute(before, n, routes[n].symbol, chains[n], |chains[n]|);
      assert chains[n][0..] == chains[n];
    } else {
      EvalEntry(routes[..n], chains[..n], i);
      EvalIgnoresLater(before, n, routes[n].symbol, chains[n], |chains[n]|, Callee(i, |chains[i]|));
    }
  }

  /** All route chains. */
  function Chains(ls: seq<Layout>, routes: seq<Route>): (c: seq<seq<Name>>)
    ensures |c| == |routes| && forall i | 0 <= i < |routes| :: c[i] == Chain(ls, routes[i].dir)
  {
    seq(|routes|, i requires 0 <= i < |routes| => Chain(ls, routes[i].dir))
  }

  /** The outer loop of `compute_layout_chains`. */
  method ComputeChains(ls: seq<Layout>, routes: seq<Route>) returns (chains: seq<seq<Name>>)
    ensures chains == Chains(ls, routes)
  {
    hide Chain;
    chains := [];
    for i := 0 to |routes|
      invariant |chains| == i && forall k | 0 <= k < i :: chains[k] == Chain(ls, routes[k].dir)
    {
      var chain := ComputeChain(ls, routes[i].dir);
      chains := chains + [chain];
    }
  }

  lemma {:induction false} NestInjective(a: seq<Name>, b: seq<Name>, symbol: Name)
    requires Nest(a, Page(symbol)) == Nest(b, Page(symbol))
    ensures a == b
  {
    if a != [] && b != [] {
      NestInjective(a[1..], b[1..], symbol);
      assert a == [a[0]] + a[1..] && b == [b[0]] + b[1..];
    }
  }

  /** The code generation theorem: for every tree of layouts and routes, the handler the
      table names for a route renders the layouts of exactly the directories above it,
      the root's outermost, around its page - if and only if no layout lies beyond the 64
      innermost of these directories, which a route less than 64 levels deep cannot have. */
  lemma HandlerNestsLayouts(ls: seq<Layout>, routes: seq<Route>, i: nat)
    requires i < |routes| && Layouted(ls) && Fits(routes[i].dir)
    ensures var dir, page := routes[i].dir, Page(routes[i].symbol);
            var handler := Callee(i, |Chain(ls, dir)|);
            Eval(Program(routes, Chains(ls, routes)), handler) == Some(Nest(LayoutsAbove(ls, dir), page))
            <==> NoLayoutAboveCut(ls, dir)
    ensures |routes[i].dir| < MAX_LAYOUTS ==> NoLayoutAboveCut(ls, routes[i].dir)
  {
    hide Eval, Nest, Program, LayoutsAbove, Chain, LayoutOf;
    var dir, page := routes[i].dir, Page(routes[i].symbol);
    EvalEntry(routes, Chains(ls, routes), i);
    ChainIsLayoutsAbove(ls, dir);
    if Nest(Chain(ls, dir), page) == Nest(LayoutsAbove(ls, dir), page) {
      NestInjective(Chain(ls, dir), LayoutsAbove(ls, dir), routes[i].symbol);
    }
  }

  // --------------------------------------------------------- a valid C file

  lemma {:induction false} RouteDefsNames(i: nat, symbol: Name, chain: seq<Name>, level: nat)
    requires level <= |chain|
    ensures forall k | 0 <= k <= level :: RouteDefs(i, symbol, chain, level)[k].name == Callee(i, k)
    ensures forall k | 0 <= k <= level && RouteDefs(i, symbol, chain, level)[k].WrapDef? ::
              k > 0 && RouteDefs(i, symbol, chain, level)[k].callee == Callee(i, k - 1)
    decreases level
  {
    if level > 0 {
      RouteDefsNames(i, symbol, chain, level - 1);
    }
  }

  /** The generated file defines every function once and calls only functions defined
      above the call. */
  lemma {:induction false} FileWellFormed(routes: seq<Route>, chains: seq<seq<Name>>)
    requires |routes| == |chains|
    ensures var p := Program(routes, chains);
            && NamesDistinct(p) && CallsBackwards(p)
            && forall k | 0 <= k < |p| :: p[k].name.route < |routes|
    decreases |routes|
  {
    if routes != [] {
      var n := |routes| - 1;
      var a := Program(routes[..n], chains[..n]);
      var b := RouteDefs(n, routes[n].symbol, chains[n], |chains[n]|);
      FileWellFormed(routes[..n], chains[..n]);
      RouteDefsNames(n, routes[n].symbol, chains[n], |chains[n]|);
      var p: seq<Def> := a + b;
      forall k | 0 <= k < |p| && p[k].WrapDef?
        ensures Defines(p[..k], p[k].callee)
      {
        if k < |a| {
          assert p[..k] == a[..k];
        } else {
          assert p[..k][k - 1].name == b[k - 1 - |a|].name;
        }
      }
    }
  }

  /** The wrapper loop and the route loop of `gen_routes`. */
  method GenRoutes(routes: seq<Route>, chains: seq<seq<Name>>) returns (defs: seq<Def>, table: seq<Fn>)
    requires |routes| == |chains|
    ensures defs == Program(routes, chains)
    ensures |table| == |routes| && forall i | 0 <= i < |routes| :: table[i] == Callee(i, |chains[i]|)
  {
    defs := [];
    for i := 0 to |routes|
      invariant defs == Program(routes[..i], chains[..i])
    {
      var route := GenRoute(i, routes[i].symbol, chains[i]);
      assert routes[..i + 1][..i] == routes[..i] && chains[..i + 1][..i] == chains[..i];
      defs := defs + route;
    }
    assert routes[..|routes|] == routes && chains[..|routes|] == chains;
    table := [];
    for i := 0 to |routes|
      invariant |table| == i && forall k | 0 <= k < i :: table[k] == Callee(k, |chains[k]|)
    {
      table := table + [if chains[i] != [] then ChainFn(i, |chains[i]|) else PageFn(i)];
    }
  }

  method GenRoute(i: nat, symbol: Name, chain: seq<Name>) returns (defs: seq<Def>)
    ensures defs == RouteDefs(i, symbol, chain, |chain|)
  {
    defs := [PageDef(PageFn(i), symbol)];
    var k := |chain|;
    while k >= 1
      invariant 0 <= k <= |chain| && defs == RouteDefs(i, symbol, chain, |chain| - k)
    {
      var level := |chain| - k + 1;
      defs := defs + [WrapDef(ChainFn(i, level), chain[k - 1], if level == 1 then PageFn(i) else ChainFn(i, level - 1))];
      k := k - 1;
    }
  }

  /** The generator from the scanned tree to the file: chains, then code. In every tree the
      file is well formed, and the handler listed for a route whose directory text has at
      most 254 characters renders the layouts of exactly its ancestors unless one lies
      beyond the 64 innermost directories. */
  method Generate(ls: seq<Layout>, routes: seq<Route>) returns (defs: seq<Def>, table: seq<Fn>)
    requires Layouted(ls)
    ensures NamesDistinct(defs) && CallsBackwards(defs) && |table| == |routes|
    ensures forall i | 0 <= i < |routes| && Fits(routes[i].dir) ::
              Eval(defs, table[i]) == Some(Nest(LayoutsAbove(ls, routes[i].dir), Page(routes[i].symbol)))
              <==> NoLayoutAboveCut(ls, routes[i].dir)
  {
    hide Eval, Nest, Program, LayoutsAbove, Chain, NoLayoutAboveCut, Fits, Layouted, NamesDistinct, CallsBackwards;
    var chains := ComputeChains(ls, routes);
    defs, table := GenRoutes(routes, chains);
    FileWellFormed(routes, chains);
    forall i | 0 <= i < |routes| && Fits(routes[i].dir)
      ensures Eval(defs, table[i]) == Some(Nest(LayoutsAbove(ls, routes[i].dir), Page(routes[i].symbol)))
              <==> NoLayoutAboveCut(ls, routes[i].dir)
    {
      HandlerNestsLayouts(ls, routes, i);
    }
  }
}
