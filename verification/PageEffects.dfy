/** What every command does to the page, told by the page before and after: which lists of
    children, which attribute, which class; and that the page stays a forest. */
module PageEffects {
  import opened Bytes
  import opened DomStream
  import opened HostDom

  // ------------------------------------------------------- lists of children

  /** `t` is `s` without its one `x`, or `s` itself if that has none. */
  ghost predicate Removal(s: seq<Elem>, t: seq<Elem>, x: Elem)
  {
    && x !in t
    && ((x !in s && t == s) || exists i :: IsAt(s, i, x) && t == s[..i] + s[i + 1..])
  }

  predicate IsAt(s: seq<Elem>, i: int, x: Elem) { 0 <= i < |s| && s[i] == x }

  predicate NoRepeats(s: seq<Elem>) { forall i, j | 0 <= i < j < |s| :: s[i] != s[j] }

  lemma {:induction false} WithoutAbsent(s: seq<Elem>, x: Elem)
    requires x !in s
    ensures Without(s, x) == s
  {
    if s != [] {
      WithoutAbsent(s[1..], x);
    }
  }

  lemma {:induction false} WithoutRemoves(s: seq<Elem>, x: Elem)
    requires NoRepeats(s)
    ensures Removal(s, Without(s, x), x) && NoRepeats(Without(s, x))
  {
    WithoutKeeps(s, x);
    if x !in s {
      WithoutAbsent(s, x);
    } else if s[0] == x {
      assert x !in s[1..];
      WithoutAbsent(s[1..], x);
      assert IsAt(s, 0, x) && Without(s, x) == s[..0] + s[1..];
    } else {
      WithoutRemoves(s[1..], x);
      WithoutKeeps(s[1..], x);
      RemovalBehind(s, Without(s[1..], x), x);
    }
  }

  lemma RemovalBehind(s: seq<Elem>, rest: seq<Elem>, x: Elem)
    requires s != [] && s[0] != x && x in s && Removal(s[1..], rest, x)
    ensures Removal(s, [s[0]] + rest, x)
  {
    var i :| IsAt(s[1..], i, x) && rest == s[1..][..i] + s[1..][i + 1..];
    assert IsAt(s, i + 1, x) && [s[0]] + rest == s[..i + 1] + s[i + 1 + 1..];
  }

  // ----------------------------------------------------------------- forests

  /** Every element stands in at most one list of children, once. */
  ghost predicate OneParent(h: Dom)
  {
    && (forall e | e in h.elems :: NoRepeats(h.elems[e].children))
    && forall e, f, x | IsChild(h, e, x) && IsChild(h, f, x) :: e == f
  }

  predicate IsChild(h: Dom, e: Elem, x: Elem) { e in h.elems && x in h.elems[e].children }

  /** Nothing but the children lists differs, and these by the removal of `x`. */
  ghost predicate TakenOut(h: Dom, g: Dom, x: Elem)
  {
    && g.elems.Keys == h.elems.Keys
    && forall e | e in h.elems ::
         && g.elems[e] == h.elems[e].(children := g.elems[e].children)
         && Removal(h.elems[e].children, g.elems[e].children, x)
  }

  lemma DetachedTakesOut(h: Dom, x: Elem)
    requires OneParent(h)
    ensures TakenOut(h, Detached(h, x), x) && OneParent(Detached(h, x))
    ensures forall e :: !IsChild(Detached(h, x), e, x)
  {
    var g := Detached(h, x);
    forall e | e in h.elems
      ensures Removal(h.elems[e].children, g.elems[e].children, x)
      ensures NoRepeats(g.elems[e].children)
      ensures forall y | y in g.elems[e].children :: y in h.elems[e].children
    {
      WithoutRemoves(h.elems[e].children, x);
      WithoutKeeps(h.elems[e].children, x);
    }
    hide Without, Detached, Removal, NoRepeats;
    forall e, f, y | IsChild(g, e, y) && IsChild(g, f, y)
      ensures e == f
    {
      assert IsChild(h, e, y) && IsChild(h, f, y);
    }
  }

  /** The page with `x` taken out and put behind the other children of `p`. */
  ghost predicate Moved(h: Dom, g: Dom, p: Elem, x: Elem)
  {
    && g.elems.Keys == h.elems.Keys
    && forall e | e in h.elems ::
         && g.elems[e] == h.elems[e].(children := g.elems[e].children)
         && if e == p then
              exists rest :: Removal(h.elems[e].children, rest, x) && g.elems[e].children == rest + [x]
            else Removal(h.elems[e].children, g.elems[e].children, x)
  }

  lemma AppendedMoves(h: Dom, p: Elem, x: Elem)
    requires OneParent(h) && p in h.elems
    ensures Moved(h, Appended(h, p, x), p, x) && OneParent(Appended(h, p, x))
  {
    DetachedTakesOut(h, x);
    AddedOneParent(Detached(h, x), p, x);
    hide Detached, Removal, OneParent, IsChild;
  }

  lemma AddedOneParent(d: Dom, p: Elem, x: Elem)
    requires OneParent(d) && p in d.elems && forall e :: !IsChild(d, e, x)
    ensures OneParent(d.(elems := d.elems[p := d.elems[p].(children := d.elems[p].children + [x])]))
  {
    var g := d.(elems := d.elems[p := d.elems[p].(children := d.elems[p].children + [x])]);
    assert NoRepeats(g.elems[p].children) by { assert !IsChild(d, p, x); }
    assert forall e, y :: IsChild(g, e, y) <==> IsChild(d, e, y) || (e == p && y == x);
    hide IsChild, NoRepeats;
  }

  // ------------------------------------------------------ effect of commands

  /** The new element has the tag, is empty, is registered, and is the last child of the
      parent's element; nothing else changes. (Under its own id the browser throws.) */
  lemma CreateEffect(h: Dom, id: u32, tag: Str, parent: u32)
    requires WellFormed(h) && parent != id
    ensures var g := Apply(h, Create(id, tag, parent));
            && id in g.registry && g.handlers == h.handlers
            && var el := g.registry[id];
               && g.registry == h.registry[id := el] && el !in h.elems
               && g.elems.Keys == h.elems.Keys + {el} && g.elems[el] == Blank(tag)
               && forall e | e in h.elems ::
                    g.elems[e] == if parent in h.registry && e == h.registry[parent]
                                  then h.elems[e].(children := h.elems[e].children + [el]) else h.elems[e]
  {
    var el, b := Made(h.next), Born(h, id, tag);
    BornWellFormed(h, id, tag);
    assert parent in b.registry ==> b.registry[parent] in h.elems;
    forall e, x | IsChild(b, e, x)
      ensures x != el
    {
      assert Known(h, h.elems[e].children);
    }
    DetachedNowhere(b, el);
    hide WellFormed, Detached, Known, IsChild;
    BornEffect(h, id, tag);
    hide Born, Blank;
  }

  lemma BornEffect(h: Dom, id: u32, tag: Str)
    requires Made(h.next) !in h.elems
    ensures var g, el := Born(h, id, tag), Made(h.next);
            && g.registry == h.registry[id := el] && g.handlers == h.handlers
            && g.elems.Keys == h.elems.Keys + {el} && g.elems[el] == Blank(tag)
            && forall e | e in h.elems :: g.elems[e] == h.elems[e]
  {
  }

  lemma DetachedNowhere(h: Dom, x: Elem)
    requires forall e :: !IsChild(h, e, x)
    ensures Detached(h, x) == h
  {
    forall e | e in h.elems
      ensures Without(h.elems[e].children, x) == h.elems[e].children
    {
      assert !IsChild(h, e, x);
      WithoutAbsent(h.elems[e].children, x);
    }
    hide Without;
    assert Detached(h, x).elems == h.elems;
  }

  /** The child leaves the list it was in and becomes the last child of the parent. */
  lemma AppendChildEffect(h: Dom, parent: u32, child: u32)
    requires WellFormed(h) && OneParent(h)
    ensures var g := Apply(h, AppendChild(parent, child));
            && g.registry == h.registry && g.handlers == h.handlers
            && if parent in h.registry && child in h.registry then Moved(h, g, h.registry[parent], h.registry[child])
               else g == h
  {
    if parent in h.registry && child in h.registry {
      AppendedMoves(h, h.registry[parent], h.registry[child]);
    }
  }

  /** The element is in no list of children any more, and the id names nothing. */
  lemma RemoveNodeEffect(h: Dom, n: u32)
    requires WellFormed(h) && OneParent(h)
    ensures var g := Apply(h, RemoveNode(n));
            && n !in g.registry && g.handlers == h.handlers
            && (forall m | m != n :: (m in g.registry <==> m in h.registry)
                                     && (m in g.registry ==> g.registry[m] == h.registry[m]))
            && if n in h.registry then TakenOut(h, g, h.registry[n]) else g == h
  {
    if n in h.registry {
      DetachedTakesOut(h, h.registry[n]);
    }
  }

  /** The slot goes behind those of the same node and type. */
  lemma AddEventEffect(h: Dom, n: u32, ev: Str, slot: u32)
    ensures var g := Apply(h, AddEvent(n, ev, slot));
            && g.registry == h.registry && g.elems == h.elems
            && forall m, t :: Slots(g, m, t) ==
                 if m == n && t == ev && n in h.registry then Slots(h, m, t) + [slot] else Slots(h, m, t)
  {
  }

  /** A maximal run of bytes of `s` that are no blanks. */
  predicate RunAt(s: Str, i: int, j: int)
  {
    && 0 <= i < j <= |s| && (forall k | i <= k < j :: !IsBlank(s[k]))
    && (i == 0 || IsBlank(s[i - 1])) && (j == |s| || IsBlank(s[j]))
  }

  ghost predicate HasRun(s: Str, t: Str) { exists i, j :: RunAt(s, i, j) && t == s[i..j] }

  /** What a command that changes one element does to it, slot by slot. */
  ghost predicate Changes(c: Cmd, a: Element, b: Element)
  {
    match c
    case SetText(_, t) => b == a.(content := Content.Text(t), children := [])
    case SetInnerHtml(_, t) => b == a.(content := Html(t), children := [])
    case SetValue(_, t) => b == a.(value := t)
    case SetAttr(_, k, v) =>
      b == a.(attrs := b.attrs) && forall x :: AttrOf(b, x) == if x == k then Some(v) else AttrOf(a, x)
    case RemoveAttr(_, k) =>
      b == a.(attrs := b.attrs) && forall x :: AttrOf(b, x) == if x == k then None else AttrOf(a, x)
    case SetClass(_, cl) => b == a.(classes := b.classes) && forall t: Str :: t in b.classes <==> HasRun(cl, t)
    case AddClass(_, cl) =>
      b == a.(classes := b.classes) && forall t :: t in b.classes <==> t in a.classes || (t == cl && IsToken(cl))
    case RemoveClass(_, cl) =>
      b == a.(classes := b.classes) && forall t :: t in b.classes <==> t in a.classes && !(t == cl && IsToken(cl))
    case _ => false
  }

  function AttrOf(el: Element, k: Str): Option<Str>
  {
    if k in el.attrs then Some(el.attrs[k]) else None
  }

  /** Every run of a text is one of its tokens, and every token a run. */
  lemma {:induction false} TokensAreRuns(s: Str, t: Str)
    ensures t in Tokens(s, 0) <==> HasRun(s, t)
  {
    if t in Tokens(s, 0) {
      TokenIsRun(s, 0, t);
    }
    forall i, j | RunAt(s, i, j) && t == s[i..j]
      ensures t in Tokens(s, 0)
    {
      RunIsToken(s, 0, i, j);
    }
  }

  lemma {:induction false} TokenIsRun(s: Str, from: nat, t: Str)
    requires from <= |s| && (from == 0 || IsBlank(s[from - 1])) && t in Tokens(s, from)
    ensures HasRun(s, t)
    decreases |s| - from
  {
    var to := TokenEnd(s, from);
    TokenEndStops(s, from);
    if from < to && t == s[from..to] {
      assert RunAt(s, from, to);
    } else {
      TokenIsRun(s, to + 1, t);
    }
  }

  lemma {:induction false} RunIsToken(s: Str, from: nat, i: nat, j: nat)
    requires from <= i && RunAt(s, i, j) && (from == 0 || IsBlank(s[from - 1]))
    ensures s[i..j] in Tokens(s, from)
    decreases |s| - from
  {
    var to := TokenEnd(s, from);
    TokenEndStops(s, from);
    if i < to {
      RunFromStart(s, from, to, i, j);
    } else {
      assert i != to;
      RunIsToken(s, to + 1, i, j);
    }
  }

  lemma {:induction false} TokenEndStops(s: Str, from: nat)
    requires from <= |s|
    ensures var to := TokenEnd(s, from); to == |s| || IsBlank(s[to])
    decreases |s| - from
  {
    if from < |s| && !IsBlank(s[from]) {
      TokenEndStops(s, from + 1);
    }
  }

  /** A run that begins inside the first one is the first one. */
  lemma RunFromStart(s: Str, from: nat, to: nat, i: nat, j: nat)
    requires from <= i < to <= |s| && RunAt(s, i, j)
    requires (forall k | from <= k < to :: !IsBlank(s[k])) && (to == |s| || IsBlank(s[to]))
    ensures i == from && j == to
  {
    var before: byte := if i == 0 then 32 else s[i - 1];
    var behind: byte := if j == |s| then 32 else s[j];
    var stop: byte := if to == |s| then 32 else s[to];
    assert i > from ==> !IsBlank(before);
    assert j < to ==> !IsBlank(behind);
    assert to < j ==> !IsBlank(stop);
  }

  lemma EditChanges(c: Cmd, a: Element)
    requires Edits(c)
    ensures Changes(c, a, Edit(c, a))
  {
    if c.SetClass? {
      forall t: Str
        ensures t in Tokens(c.cls, 0) <==> HasRun(c.cls, t)
      {
        TokensAreRuns(c.cls, t);
      }
    }
    hide Tokens, HasRun, IsToken;
  }

  /** The other commands change the named element as told, and nothing else. */
  lemma EditEffect(h: Dom, c: Cmd)
    requires WellFormed(h) && Edits(c)
    ensures var g := Apply(h, c);
            && g.registry == h.registry && g.handlers == h.handlers && g.elems.Keys == h.elems.Keys
            && forall e | e in h.elems ::
                 if c.node in h.registry && e == h.registry[c.node] then Changes(c, h.elems[e], g.elems[e])
                 else g.elems[e] == h.elems[e]
  {
    if c.node in h.registry {
      EditChanges(c, h.elems[h.registry[c.node]]);
    }
    hide Edit, Changes;
  }

  // -------------------------------------------------------------- whole runs

  /** Every command keeps every element in at most one place. */
  lemma OneParentKept(h: Dom, c: Cmd)
    requires WellFormed(h) && OneParent(h)
    ensures OneParent(Apply(h, c))
  {
    var g := Apply(h, c);
    match c
    case Create(id, tag, parent) =>
      var b := Born(h, id, tag);
      BornWellFormed(h, id, tag);
      BornOneParent(h, id, tag);
      if parent in b.registry {
        AppendedMoves(b, b.registry[parent], Made(h.next));
      }
    case AppendChild(p, ch) =>
      if p in h.registry && ch in h.registry {
        AppendedMoves(h, h.registry[p], h.registry[ch]);
      }
    case RemoveNode(n) =>
      if n in h.registry {
        DetachedTakesOut(h, h.registry[n]);
        SameElems(Detached(h, h.registry[n]), g);
      }
    case AddEvent(_, _, _) => SameElems(h, g);
    case _ =>
      EditTokens(c);
      hide Edit, NoRepeats;
      FewerChildren(h, c);
  }

  lemma SameElems(h: Dom, g: Dom)
    requires OneParent(h) && g.elems == h.elems
    ensures OneParent(g)
  {
    assert forall e, x :: IsChild(g, e, x) ==> IsChild(h, e, x);
  }

  lemma FewerChildren(h: Dom, c: Cmd)
    requires OneParent(h) && Edits(c)
    ensures OneParent(Edited(h, c))
  {
    EditTokens(c);
    var g := Edited(h, c);
    assert forall e, x :: IsChild(g, e, x) ==> IsChild(h, e, x);
    assert forall el: Element :: Edit(c, el).children == [] || Edit(c, el).children == el.children;
    hide Edit;
  }

  lemma BornOneParent(h: Dom, id: u32, tag: Str)
    requires WellFormed(h) && OneParent(h)
    ensures OneParent(Born(h, id, tag))
  {
    BornWellFormed(h, id, tag);
    assert forall e, x :: IsChild(Born(h, id, tag), e, x) ==> IsChild(h, e, x);
  }

  /** Elements made by commands lie below older ones: the page has no cycle. */
  ghost predicate Ranked(h: Dom)
  {
    forall e, x | IsChild(h, e, x) :: x.Made? && (e.Made? ==> e.n < x.n)
  }

  lemma RankedKept(h: Dom, c: Cmd)
    requires WellFormed(h) && OneParent(h) && Ranked(h) && Accepted(c)
    ensures Ranked(Apply(h, c))
  {
    if c.Create? {
      hide Ranked;
      CreateRanked(h, c.id, c.tag, c.parent);
    } else {
      NoNewChild(h, c);
      hide Apply, IsChild, WellFormed, OneParent;
    }
  }

  lemma CreateRanked(h: Dom, id: u32, tag: Str, parent: u32)
    requires WellFormed(h) && Ranked(h) && parent != id
    ensures Ranked(Apply(h, Create(id, tag, parent)))
  {
    CreateEffect(h, id, tag, parent);
    NewestMade(h, id, tag, parent);
    var g := Apply(h, Create(id, tag, parent));
    assert parent in h.registry ==> h.registry[parent] in h.elems;
    assert forall e | e in h.elems :: e.Made? ==> e.n < h.next;
    hide Apply, WellFormed;
    forall e, x | IsChild(g, e, x)
      ensures x.Made? && (e.Made? ==> e.n < x.n)
    {
      assert IsChild(h, e, x) || (x == Made(h.next) && e in h.elems);
    }
  }

  lemma NewestMade(h: Dom, id: u32, tag: Str, parent: u32)
    ensures var g := Apply(h, Create(id, tag, parent));
            id in g.registry && g.registry[id] == Made(h.next)
  {
  }

  lemma NoNewChild(h: Dom, c: Cmd)
    requires Accepted(c) && !c.Create?
    ensures forall e, x | IsChild(Apply(h, c), e, x) :: IsChild(h, e, x)
  {
    if c.RemoveNode? && c.node in h.registry {
      var child := h.registry[c.node];
      forall e, x | IsChild(Apply(h, c), e, x)
        ensures IsChild(h, e, x)
      {
        WithoutKeeps(h.elems[e].children, child);
      }
    } else if Edits(c) {
      EditTokens(c);
      hide Edit, Accepted;
    }
  }

  /** Over whole runs: in a page that starts as a forest, every element stands in at most
      one list of children, once, whatever the commands; if the browser takes them, no
      element lies below itself. */
  lemma {:induction false} PageStaysForest(h: Dom, cs: seq<Cmd>)
    requires WellFormed(h) && OneParent(h)
    ensures WellFormed(Applied(h, cs)) && OneParent(Applied(h, cs))
    ensures Ranked(h) && (forall c | c in cs :: Accepted(c)) ==> Ranked(Applied(h, cs))
  {
    hide Apply, WellFormed, OneParent, Ranked, Accepted;
    if cs != [] {
      var init, last := cs[..|cs| - 1], cs[|cs| - 1];
      PageStaysForest(h, init);
      ApplyWellFormed(Applied(h, init), last);
      OneParentKept(Applied(h, init), last);
      if Ranked(h) && forall c | c in cs :: Accepted(c) {
        RankedKept(Applied(h, init), last);
      }
    }
  }
}
