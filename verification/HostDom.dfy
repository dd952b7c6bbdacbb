/** What the browser host does with decoded commands: a registry from node ids to
    elements, and the effect of each command on the element it names. */
module HostDom {
  import opened Bytes
  import opened DomStream

  /** What last replaced the children of an element. */
  datatype Content = Text(text: Str) | Html(html: Str)

  /** `children` are those appended since the contents were last replaced. */
  datatype Element = Element(tag: Str, content: Content, children: seq<Elem>, classes: set<Str>,
                             attrs: map<Str, Str>, value: Str)

  /** An element made by a command, or one the browser parsed from HTML. */
  datatype Elem = Made(n: nat) | Parsed(n: nat)

  /** Two ids may name one element: `query` registers a fresh id per call. `handlers` holds
      the event slots registered per node id and event type. */
  datatype Dom = Dom(registry: map<u32, Elem>, elems: map<Elem, Element>, next: nat,
                     handlers: map<(u32, Str), seq<u32>>)

  function Blank(tag: Str): Element { Element(tag, Content.Text([]), [], {}, map[], []) }

  predicate WellFormed(h: Dom)
  {
    && (forall id | id in h.registry :: h.registry[id] in h.elems)
    && (forall e | e in h.elems :: e.Made? ==> e.n < h.next)
    && (forall e | e in h.elems :: AllTokens(h.elems[e].classes))
    && (forall e | e in h.elems :: Known(h, h.elems[e].children))
  }

  predicate Known(h: Dom, s: seq<Elem>) { forall x | x in s :: x in h.elems }

  predicate IsBlank(c: byte) { c in {9, 10, 12, 13, 32} }

  /** What a class list takes: not empty, no blanks. */
  predicate IsToken(s: Str) { s != [] && forall i | 0 <= i < |s| :: !IsBlank(s[i]) }

  predicate AllTokens(cs: set<Str>) { forall c | c in cs :: IsToken(c) }

  function Tokens(s: Str, from: nat): (ts: set<Str>)
    requires from <= |s|
    ensures AllTokens(ts)
    decreases |s| - from
  {
    var to := TokenEnd(s, from);
    (if from < to then {s[from..to]} else {}) + (if to == |s| then {} else Tokens(s, to + 1))
  }

  function TokenEnd(s: Str, from: nat): (to: nat)
    requires from <= |s|
    ensures from <= to <= |s| && forall i | from <= i < to :: !IsBlank(s[i])
    decreases |s| - from
  {
    if from == |s| || IsBlank(s[from]) then from else TokenEnd(s, from + 1)
  }

  function Without(s: seq<Elem>, x: Elem): seq<Elem>
  {
    if s == [] then [] else (if s[0] == x then [] else [s[0]]) + Without(s[1..], x)
  }

  function Detached(h: Dom, child: Elem): Dom
  {
    h.(elems := map e | e in h.elems :: h.elems[e].(children := Without(h.elems[e].children, child)))
  }

  function Appended(h: Dom, parent: Elem, child: Elem): Dom
  {
    var d := Detached(h, child);
    if parent in d.elems then
      d.(elems := d.elems[parent := d.elems[parent].(children := d.elems[parent].children + [child])])
    else d
  }

  /** Commands that change the element they name and nothing else. */
  predicate Edits(c: Cmd) { !c.Create? && !c.AppendChild? && !c.RemoveNode? && !c.AddEvent? }

  function Edit(c: Cmd, el: Element): Element
  {
    match c
    case SetText(_, t) => el.(content := Content.Text(t), children := [])
    case SetAttr(_, k, v) => el.(attrs := el.attrs[k := v])
    case RemoveAttr(_, k) => el.(attrs := el.attrs - {k})
    case SetClass(_, cl) => el.(classes := Tokens(cl, 0))
    case AddClass(_, cl) => if IsToken(cl) then el.(classes := el.classes + {cl}) else el
    case RemoveClass(_, cl) => if IsToken(cl) then el.(classes := el.classes - {cl}) else el
    case SetValue(_, t) => el.(value := t)
    case SetInnerHtml(_, html) => el.(content := Html(html), children := [])
    case _ => el
  }

  function Edited(h: Dom, c: Cmd): Dom
    requires Edits(c)
  {
    if c.node in h.registry && h.registry[c.node] in h.elems then
      h.(elems := h.elems[h.registry[c.node] := Edit(c, h.elems[h.registry[c.node]])])
    else h
  }

  /** The slots that an event of type `ev` on node `id` calls. */
  function Slots(h: Dom, id: u32, ev: Str): seq<u32>
  {
    if (id, ev) in h.handlers then h.handlers[(id, ev)] else []
  }

  /** The new element, registered, and nowhere in the page yet. */
  function Born(h: Dom, id: u32, tag: Str): Dom
  {
    Dom(h.registry[id := Made(h.next)], h.elems[Made(h.next) := Blank(tag)], h.next + 1, h.handlers)
  }

  /** Replacing contents looks for handlers inside the element only after the old contents
      are gone, so it finds none to delete. */
  function Apply(h: Dom, c: Cmd): Dom
  {
    match c
    case Create(id, tag, parent) =>
      var h1 := Born(h, id, tag);
      if parent in h1.registry then Appended(h1, h1.registry[parent], Made(h.next)) else h1
    case AppendChild(p, ch) =>
      if p in h.registry && ch in h.registry then Appended(h, h.registry[p], h.registry[ch]) else h
    case RemoveNode(n) =>
      if n in h.registry then Detached(h, h.registry[n]).(registry := h.registry - {n}) else h
    case AddEvent(n, ev, slot) =>
      if n in h.registry then h.(handlers := h.handlers[(n, ev) := Slots(h, n, ev) + [slot]]) else h
    case _ => Edited(h, c)
  }

  function Applied(h: Dom, cs: seq<Cmd>): Dom
  {
    if cs == [] then h else Apply(Applied(h, cs[..|cs| - 1]), cs[|cs| - 1])
  }

  lemma {:induction false} AppliedConcat(h: Dom, cs: seq<Cmd>, ds: seq<Cmd>)
    ensures Applied(h, cs + ds) == Applied(Applied(h, cs), ds)
  {
    if ds == [] {
      assert cs + ds == cs;
    } else {
      hide Apply;
      assert (cs + ds)[..|cs + ds| - 1] == cs + ds[..|ds| - 1];
      AppliedConcat(h, cs, ds[..|ds| - 1]);
    }
  }

  lemma {:induction false} WithoutKeeps(s: seq<Elem>, c: Elem)
    ensures c !in Without(s, c) && forall x | x in Without(s, c) :: x in s
  {
    if s != [] {
      WithoutKeeps(s[1..], c);
    }
  }

  lemma DetachedWellFormed(h: Dom, c: Elem)
    requires WellFormed(h)
    ensures WellFormed(Detached(h, c))
  {
    hide AllTokens;
    var g := Detached(h, c);
    forall e | e in g.elems
      ensures Known(g, g.elems[e].children)
    {
      WithoutKeeps(h.elems[e].children, c);
      assert Known(h, h.elems[e].children);
    }
  }

  lemma AppendedWellFormed(h: Dom, p: Elem, c: Elem)
    requires WellFormed(h) && c in h.elems
    ensures WellFormed(Appended(h, p, c))
  {
    hide AllTokens;
    DetachedWellFormed(h, c);
    var d := Detached(h, c);
    var g := Appended(h, p, c);
    forall e | e in g.elems
      ensures Known(g, g.elems[e].children)
    {
      assert Known(d, d.elems[e].children);
    }
  }

  lemma BornWellFormed(h: Dom, id: u32, tag: Str)
    requires WellFormed(h)
    ensures WellFormed(Born(h, id, tag)) && Made(h.next) !in h.elems
  {
    var g := Born(h, id, tag);
    forall e | e in g.elems
      ensures Known(g, g.elems[e].children) && AllTokens(g.elems[e].classes)
    {
      assert e in h.elems ==> Known(h, h.elems[e].children);
    }
  }

  lemma EditedWellFormed(h: Dom, c: Cmd)
    requires WellFormed(h) && Edits(c)
    ensures WellFormed(Edited(h, c))
  {
    EditTokens(c);
    hide Edit, AllTokens;
    var g := Edited(h, c);
    forall e | e in g.elems
      ensures Known(g, g.elems[e].children)
    {
      assert Known(h, h.elems[e].children);
    }
  }

  lemma EditTokens(c: Cmd)
    ensures forall el: Element | AllTokens(el.classes) :: AllTokens(Edit(c, el).classes)
    ensures forall el: Element, x :: x in Edit(c, el).children ==> x in el.children
  {
    hide Tokens, IsToken;
  }

  lemma ApplyWellFormed(h: Dom, c: Cmd)
    requires WellFormed(h)
    ensures WellFormed(Apply(h, c))
  {
    match c
    case Create(id, tag, parent) =>
      BornWellFormed(h, id, tag);
      AppendedWellFormed(Born(h, id, tag), Born(h, id, tag).registry[if parent in Born(h, id, tag).registry then parent else id], Made(h.next));
    case AppendChild(p, ch) =>
      if p in h.registry && ch in h.registry {
        AppendedWellFormed(h, h.registry[p], h.registry[ch]);
      }
    case RemoveNode(n) =>
      if n in h.registry {
        DetachedWellFormed(h, h.registry[n]);
        var d := Detached(h, h.registry[n]);
        var g := Apply(h, c);
        assert g == d.(registry := h.registry - {n});
        assert forall e | e in g.elems :: Known(d, d.elems[e].children);
        hide Detached, AllTokens;
        assert forall e | e in g.elems :: Known(g, g.elems[e].children);
      }
    case AddEvent(_, _, _) =>
      assert forall e | e in h.elems :: Known(h, h.elems[e].children);
    case _ => EditedWellFormed(h, c);
  }

  lemma {:induction false} AppliedWellFormed(h: Dom, cs: seq<Cmd>)
    requires WellFormed(h)
    ensures WellFormed(Applied(h, cs))
  {
    hide Apply, WellFormed;
    if cs != [] {
      AppliedWellFormed(h, cs[..|cs| - 1]);
      ApplyWellFormed(Applied(h, cs[..|cs| - 1]), cs[|cs| - 1]);
    }
  }

  // ------------------------------------------------------------ registrations

  /** `query` registers the element it found under a new id; an element from HTML is met
      here for the first time. */
  function Registered(h: Dom, id: u32, e: Elem, found: Element): Dom
  {
    h.(registry := h.registry[id := e], elems := if e in h.elems then h.elems else h.elems[e := found])
  }

  /** `g` is `h` with one more id, and perhaps one more element. */
  ghost predicate Extends(h: Dom, g: Dom, id: u32, e: Elem)
  {
    && id !in h.registry && g.registry == h.registry[id := e] && g.next == h.next && g.handlers == h.handlers
    && e in g.elems && (e.Made? ==> e in h.elems)
    && (forall x | x in h.elems :: x in g.elems && g.elems[x] == h.elems[x])
    && (forall x | x in g.elems :: x in h.elems || x == e)
  }

  /** The ids a command mentions. */
  function Names(c: Cmd): set<u32>
  {
    match c
    case Create(id, _, parent) => {id, parent}
    case AppendChild(parent, child) => {parent, child}
    case RemoveNode(n) => {n}
    case SetText(n, _) => {n}
    case SetAttr(n, _, _) => {n}
    case RemoveAttr(n, _) => {n}
    case SetClass(n, _) => {n}
    case AddClass(n, _) => {n}
    case RemoveClass(n, _) => {n}
    case SetInnerHtml(n, _) => {n}
    case AddEvent(n, _, _) => {n}
    case SetValue(n, _) => {n}
  }

  lemma ExtendsEdited(h: Dom, g: Dom, id: u32, e: Elem, c: Cmd)
    requires WellFormed(h) && Extends(h, g, id, e) && Edits(c) && c.node != id
    ensures Extends(Edited(h, c), Edited(g, c), id, e)
  {
    hide AllTokens, Edit;
  }

  lemma SameIds(h: Dom, g: Dom, id: u32, e: Elem, n: u32)
    requires WellFormed(h) && Extends(h, g, id, e) && n != id
    ensures n in h.registry <==> n in g.registry
    ensures n in h.registry ==> h.registry[n] == g.registry[n] && h.registry[n] in h.elems
  {
  }

  lemma ExtendsDetached(h: Dom, g: Dom, id: u32, e: Elem, child: Elem)
    requires Extends(h, g, id, e)
    ensures Extends(Detached(h, child), Detached(g, child), id, e)
  {
    hide Without;
  }

  lemma ExtendsAppended(h: Dom, g: Dom, id: u32, e: Elem, parent: Elem, child: Elem)
    requires Extends(h, g, id, e) && parent in h.elems
    ensures Extends(Appended(h, parent, child), Appended(g, parent, child), id, e)
  {
    ExtendsDetached(h, g, id, e, child);
    assert parent in Detached(h, child).elems;
    hide Detached;
  }

  lemma ExtendsCreate(h: Dom, g: Dom, id: u32, e: Elem, n: u32, tag: Str, parent: u32)
    requires WellFormed(h) && Extends(h, g, id, e) && n != id && parent != id
    ensures Extends(Apply(h, Create(n, tag, parent)), Apply(g, Create(n, tag, parent)), id, e)
  {
    var el, h1, g1 := Made(h.next), Born(h, n, tag), Born(g, n, tag);
    ExtendsBorn(h, g, id, e, n, tag);
    BornWellFormed(h, n, tag);
    SameIds(h1, g1, id, e, parent);
    hide Born, Appended, Extends, WellFormed;
    if parent in h1.registry {
      ExtendsAppended(h1, g1, id, e, h1.registry[parent], el);
    }
  }

  lemma ExtendsBorn(h: Dom, g: Dom, id: u32, e: Elem, n: u32, tag: Str)
    requires WellFormed(h) && Extends(h, g, id, e) && n != id
    ensures Extends(Born(h, n, tag), Born(g, n, tag), id, e) && Born(g, n, tag).next == h.next + 1
    ensures g.next == h.next
  {
    hide Blank, AllTokens, Known;
    assert Born(g, n, tag).registry == Born(h, n, tag).registry[id := e];
  }

  lemma ExtendsAddEvent(h: Dom, g: Dom, id: u32, e: Elem, n: u32, ev: Str, slot: u32)
    requires Extends(h, g, id, e) && n != id
    ensures Extends(Apply(h, AddEvent(n, ev, slot)), Apply(g, AddEvent(n, ev, slot)), id, e)
  {
  }

  /** A command that does not mention the new id acts alike with and without it. */
  lemma ExtendsApply(h: Dom, g: Dom, id: u32, e: Elem, c: Cmd)
    requires WellFormed(h) && Extends(h, g, id, e) && id !in Names(c)
    ensures Extends(Apply(h, c), Apply(g, c), id, e)
  {
    hide Edited, Detached, Appended, Extends, WellFormed;
    match c
    case Create(n, tag, parent) =>
      hide Apply;
      ExtendsCreate(h, g, id, e, n, tag, parent);
    case AppendChild(p, ch) =>
      SameIds(h, g, id, e, p);
      SameIds(h, g, id, e, ch);
      if p in h.registry && ch in h.registry {
        ExtendsAppended(h, g, id, e, h.registry[p], h.registry[ch]);
      }
    case RemoveNode(n) =>
      SameIds(h, g, id, e, n);
      if n in h.registry {
        ExtendsRemoved(h, g, id, e, n);
      }
    case AddEvent(n, ev, slot) => ExtendsAddEvent(h, g, id, e, n, ev, slot);
    case _ =>
      assert c.node in Names(c);
      ExtendsEdited(h, g, id, e, c);
  }

  lemma ExtendsRemoved(h: Dom, g: Dom, id: u32, e: Elem, n: u32)
    requires Extends(h, g, id, e) && n != id && n in h.registry
    ensures Extends(Apply(h, RemoveNode(n)), Apply(g, RemoveNode(n)), id, e)
  {
    ExtendsDetached(h, g, id, e, h.registry[n]);
    assert g.registry - {n} == (h.registry - {n})[id := e];
    hide Detached;
  }

  lemma {:induction false} ExtendsApplied(h: Dom, g: Dom, id: u32, e: Elem, cs: seq<Cmd>)
    requires WellFormed(h) && Extends(h, g, id, e) && forall c | c in cs :: id !in Names(c)
    ensures Extends(Applied(h, cs), Applied(g, cs), id, e)
  {
    hide Apply, Extends, WellFormed, Names;
    if cs != [] {
      var init := cs[..|cs| - 1];
      ExtendsApplied(h, g, id, e, init);
      AppliedWellFormed(h, init);
      ExtendsApply(Applied(h, init), Applied(g, init), id, e, cs[|cs| - 1]);
    }
  }

  // --------------------------------------------------------------- exceptions

  /** `classList.add` and `classList.remove` throw on a name that is no token. */
  predicate Refused(h: Dom, c: Cmd)
  {
    (c.AddClass? || c.RemoveClass?) && c.node in h.registry && !IsToken(c.cls)
  }

  /** What a batch does: an exception leaves the loop, and the rest of it is lost. */
  function Played(h: Dom, cs: seq<Cmd>): Dom
    decreases cs
  {
    if cs == [] || Refused(h, cs[0]) then h else Played(Apply(h, cs[0]), cs[1..])
  }

  predicate Stops(h: Dom, cs: seq<Cmd>)
    decreases cs
  {
    cs != [] && (Refused(h, cs[0]) || Stops(Apply(h, cs[0]), cs[1..]))
  }

  /** A tag or attribute name every browser takes. */
  predicate PlainName(s: Str)
  {
    s != [] && IsLetter(s[0]) && forall i | 0 <= i < |s| :: IsLetter(s[i]) || 48 <= s[i] <= 57 || s[i] == 45
  }

  predicate IsLetter(c: byte) { 65 <= c <= 90 || 97 <= c <= 122 }

  /** Commands the client's calls issue that no browser refuses. (No call of the client
      moves an element under another.) */
  predicate Accepted(c: Cmd)
  {
    match c
    case Create(id, tag, parent) => PlainName(tag) && parent != id
    case SetAttr(_, k, _) => PlainName(k)
    case AddClass(_, cl) => IsToken(cl)
    case RemoveClass(_, cl) => IsToken(cl)
    case AppendChild(_, _) => false
    case _ => true
  }

  lemma AppliedFirst(h: Dom, cs: seq<Cmd>)
    requires cs != []
    ensures Applied(h, cs) == Applied(Apply(h, cs[0]), cs[1..])
  {
    hide Apply;
    assert cs == [cs[0]] + cs[1..];
    AppliedConcat(h, [cs[0]], cs[1..]);
    assert Applied(h, [cs[0]]) == Apply(Applied(h, [cs[0]][..0]), cs[0]);
  }

  /** A batch is played up to the first command the browser refuses, and stops there. */
  lemma {:induction false} PlayedUpTo(h: Dom, cs: seq<Cmd>, k: nat)
    requires k <= |cs| && forall j | 0 <= j < k :: !Refused(Applied(h, cs[..j]), cs[j])
    requires k < |cs| ==> Refused(Applied(h, cs[..k]), cs[k])
    ensures Played(h, cs) == Applied(h, cs[..k]) && (Stops(h, cs) <==> k < |cs|)
    decreases cs
  {
    hide Apply, Refused, Applied;
    if k == 0 {
      assert cs[..0] == [];
      NothingApplied(h);
    } else {
      var g, rest := Apply(h, cs[0]), cs[1..];
      assert cs[..0] == [] && !Refused(Applied(h, cs[..0]), cs[0]);
      NothingApplied(h);
      forall j | 0 <= j < k
        ensures Applied(g, rest[..j]) == Applied(h, cs[..j + 1])
      {
        assert cs[..j + 1][1..] == rest[..j];
        AppliedFirst(h, cs[..j + 1]);
      }
      forall j | 0 <= j < k - 1
        ensures !Refused(Applied(g, rest[..j]), rest[j])
      {
        assert rest[j] == cs[j + 1];
      }
      PlayedUpTo(g, rest, k - 1);
    }
  }

  lemma NothingApplied(h: Dom)
    ensures Applied(h, []) == h
  {
  }

  /** A batch of accepted commands is played to its end. */
  lemma {:induction false} PlayedAll(h: Dom, cs: seq<Cmd>)
    requires forall c | c in cs :: Accepted(c)
    ensures Played(h, cs) == Applied(h, cs) && !Stops(h, cs)
    decreases cs
  {
    hide Apply, IsToken, PlainName;
    if cs != [] {
      assert Accepted(cs[0]);
      PlayedAll(Apply(h, cs[0]), cs[1..]);
      AppliedFirst(h, cs);
    }
  }

  /** The class name `a b` on a registered node: the exception, and everything behind it in
      the batch is lost. */
  lemma BlankClassLosesRest(h: Dom, n: u32, rest: seq<Cmd>)
    requires n in h.registry
    ensures Played(h, [AddClass(n, [97, 32, 98])] + rest) == h && Stops(h, [AddClass(n, [97, 32, 98])] + rest)
  {
    var s: Str := [97, 32, 98];
    assert IsBlank(s[1]);
  }

  /** The host object: `domFlush` walks a batch and applies each command as it is read. */
  class Host {
    var dom: Dom

    constructor (initial: Dom)
      ensures dom == initial
    {
      dom := initial;
    }

    /** `complete` is false when a read ran past the view, or a command threw. */
    method DomFlush(b: seq<byte>) returns (complete: bool)
      modifies this
      ensures dom == Played(old(dom), Decode(b).cmds)
      ensures complete == (Decode(b).complete && !Stops(old(dom), Decode(b).cmds))
    {
      hide Apply, ParseAt, Refused;
      var pos := 0;
      while pos < |b|
        invariant Played(old(dom), Decode(b).cmds) == Played(dom, DecodeFrom(b, pos).cmds)
        invariant Stops(old(dom), Decode(b).cmds) == Stops(dom, DecodeFrom(b, pos).cmds)
        invariant Decode(b).complete == DecodeFrom(b, pos).complete
        decreases |b| - pos
      {
        var before := pos;
        match ParseAt(b, pos) {
          case Throws =>
            return false;
          case Unknown(next) =>
            pos := next;
          case Parsed(c, next) =>
            assert DecodeFrom(b, pos).cmds[1..] == DecodeFrom(b, next).cmds;
            if Refused(dom, c) {
              return false;
            }
            dom := Apply(dom, c);
            pos := next;
        }
        if pos <= before {
          break;
        }
      }
      return true;
    }
  }
}
