/** Signals and their DOM bindings: every node bound to a signal keeps showing the
    signal's value, through the encoder, the batches and the host. */
module Signals {
  import opened Bytes
  import opened Sequences
  import opened DomStream
  import opened HostDom
  import Decimal

  /** A subscriber: which node it updates, and how. */
  datatype Sub = TextSub(node: u32) | ClassSub(node: u32, cls: Str)

  /** Subscribers newest first: binding prepends to the list. */
  datatype Sig = Sig(value: i32, subs: seq<Sub>)

  /** The signals, the command stream, and the document as the host has it. */
  datatype Client = Client(sigs: seq<Sig>, stream: Stream, host: Dom)

  /** What application code may do: create, bind and set signals, issue any other DOM
      command, flush, or query: the host registers the element it finds at once, whatever
      is still buffered. */
  datatype Act =
    | New(initial: i32)
    | BindText(node: u32, sig: nat)
    | BindClass(node: u32, sig: nat, cls: Str)
    | Set(sig: nat, value: i32)
    | Other(cmd: Cmd)
    | FlushNow
    | Query(id: u32, elem: Elem, found: Element)

  function SubCmd(s: Sub, v: i32): Cmd
  {
    match s
    case TextSub(n) => SetText(n, Decimal.Text(v))
    case ClassSub(n, cls) => if v != 0 then AddClass(n, cls) else RemoveClass(n, cls)
  }

  function SubCmds(subs: seq<Sub>, v: i32): (cs: seq<Cmd>)
    ensures |cs| == |subs|
    ensures forall i | 0 <= i < |subs| :: cs[i] == SubCmd(subs[i], v)
  {
    seq(|subs|, i requires 0 <= i < |subs| => SubCmd(subs[i], v))
  }

  function Issues(cs: seq<Cmd>): (ops: seq<Op>)
    ensures |ops| == |cs| && forall i | 0 <= i < |cs| :: ops[i] == Issue(cs[i])
  {
    seq(|cs|, i requires 0 <= i < |cs| => Issue(cs[i]))
  }

  /** Signals after an act. */
  function SigsAfter(sigs: seq<Sig>, a: Act): seq<Sig>
  {
    match a
    case New(v) => sigs + [Sig(v, [])]
    case BindText(n, i) => if i < |sigs| then sigs[i := sigs[i].(subs := [TextSub(n)] + sigs[i].subs)] else sigs
    case BindClass(n, i, cls) =>
      if i < |sigs| then sigs[i := sigs[i].(subs := [ClassSub(n, cls)] + sigs[i].subs)] else sigs
    case Set(i, v) => if i < |sigs| then sigs[i := sigs[i].(value := v)] else sigs
    case Other(_) => sigs
    case FlushNow => sigs
    case Query(_, _, _) => sigs
  }

  /** The DOM calls an act makes. */
  function Calls(sigs: seq<Sig>, a: Act): seq<Op>
  {
    match a
    case New(_) => []
    case BindText(n, i) => if i < |sigs| then [Issue(SubCmd(TextSub(n), sigs[i].value)), Flush] else []
    case BindClass(n, i, cls) => if i < |sigs| then [Issue(SubCmd(ClassSub(n, cls), sigs[i].value)), Flush] else []
    case Set(i, v) =>
      if i < |sigs| && sigs[i].value != v then Issues(SubCmds(sigs[i].subs, v)) + [Flush] else []
    case Other(c) => [Issue(c)]
    case FlushNow => [Flush]
    case Query(_, _, _) => []
  }

  lemma {:induction false} BatchesGrow(s: Stream, ops: seq<Op>)
    ensures s.batches <= Run(s, ops).batches
    decreases ops
  {
    if ops != [] {
      BatchesGrow(Step(s, ops[0]), ops[1..]);
    }
  }

  /** The batches a run of calls hands to the host. */
  function Sent(s: Stream, ops: seq<Op>): (bs: seq<seq<byte>>)
    ensures Run(s, ops).batches == s.batches + bs
  {
    BatchesGrow(s, ops);
    Run(s, ops).batches[|s.batches|..]
  }

  /** The host plays one batch after the other. */
  function Delivered(h: Dom, batches: seq<seq<byte>>): Dom
    decreases |batches|
  {
    if batches == [] then h else Delivered(Played(h, Decode(batches[0]).cmds), batches[1..])
  }

  function Called(c: Client, ops: seq<Op>, sigs: seq<Sig>): Client
  {
    Client(sigs, Run(c.stream, ops), Delivered(c.host, Sent(c.stream, ops)))
  }

  function StepClient(c: Client, a: Act): Client
  {
    if a.Query? then c.(host := Registered(c.host, a.id, a.elem, a.found))
    else Called(c, Calls(c.sigs, a), SigsAfter(c.sigs, a))
  }

  function RunClient(c: Client, acts: seq<Act>): Client
    decreases acts
  {
    if acts == [] then c else RunClient(StepClient(c, acts[0]), acts[1..])
  }

  // ------------------------------------------------------------ what is shown

  /** The part of an element a subscriber owns. */
  datatype Slot = TextSlot(elem: Elem) | ClassSlot(elem: Elem, cls: Str)

  function SlotOf(h: Dom, s: Sub): Slot
    requires s.node in h.registry
  {
    if s.TextSub? then TextSlot(h.registry[s.node]) else ClassSlot(h.registry[s.node], s.cls)
  }

  /** The node is live and shows `v`: its only content is the decimal of `v`, or it
      carries the class exactly when `v` is nonzero. */
  predicate Shows(h: Dom, s: Sub, v: i32)
  {
    && s.node in h.registry && h.registry[s.node] in h.elems
    && var el := h.elems[h.registry[s.node]];
       match s
       case TextSub(_) => el.content == Content.Text(Decimal.Text(v)) && el.children == []
       case ClassSub(_, cls) => cls in el.classes <==> v != 0
  }

  predicate IsSub(sigs: seq<Sig>, i: nat, s: Sub) { i < |sigs| && s in sigs[i].subs }

  ghost predicate Tracked(h: Dom, sigs: seq<Sig>)
  {
    forall i: nat, s | IsSub(sigs, i, s) :: Shows(h, s, sigs[i].value)
  }

  /** No two signals drive the same slot. */
  ghost predicate OneOwner(h: Dom, sigs: seq<Sig>)
  {
    forall i: nat, j: nat, s, t | IsSub(sigs, i, s) && IsSub(sigs, j, t) && i != j ::
      s.node in h.registry && t.node in h.registry ==> SlotOf(h, s) != SlotOf(h, t)
  }

  /** Ids whose element (or registration) a command overwrites. */
  function Writes(c: Cmd): set<u32>
  {
    match c
    case Create(id, _, parent) => {id, parent}
    case AppendChild(parent, _) => {parent}
    case RemoveNode(n) => {n}
    case SetText(n, _) => {n}
    case SetAttr(n, _, _) => {n}
    case RemoveAttr(n, _) => {n}
    case SetClass(n, _) => {n}
    case AddClass(n, _) => {n}
    case RemoveClass(n, _) => {n}
    case SetInnerHtml(n, _) => {n}
    case AddEvent(_, _, _) => {}
    case SetValue(n, _) => {n}
  }

  ghost predicate Disturbs(h: Dom, c: Cmd, s: Sub)
  {
    exists w | w in Writes(c) ::
      w == s.node || (w in h.registry && s.node in h.registry && h.registry[w] == h.registry[s.node])
  }

  /** Commands still buffered. */
  function Pending(c: Client): seq<Cmd> { Decode(c.stream.buf).cmds }

  /** The document once the host has processed every byte issued so far. */
  function Settled(c: Client): Dom { Applied(c.host, Pending(c)) }

  /** What the bindings ask of the application: bind live nodes that no other signal
      drives, with class names that are tokens, leave bound nodes alone, and issue
      commands of at most 8 KiB that the browser takes. What a query returns is the
      browser's part: an element of the document, under an id no call has used. */
  ghost predicate Allowed(c: Client, a: Act)
  {
    var h := Settled(c);
    match a
    case New(_) => true
    case BindText(n, i) => i < |c.sigs| ==> CanBind(h, c.sigs, i, TextSub(n))
    case BindClass(n, i, cls) => i < |c.sigs| ==> CanBind(h, c.sigs, i, ClassSub(n, cls)) && SubOk(ClassSub(n, cls))
    case Set(_, _) => true
    case Other(x) => Small(Issue(x)) && Accepted(x) && forall i: nat, s | IsSub(c.sigs, i, s) :: !Disturbs(h, x, s)
    case FlushNow => true
    case Query(id, e, found) =>
      && id !in c.host.registry && (forall x | x in Pending(c) :: id !in Names(x))
      && (e in c.host.elems || (e.Parsed? && AllTokens(found.classes) && found.children == []))
  }

  predicate SubOk(s: Sub) { s.ClassSub? ==> |s.cls| + 9 <= MAX_CMD && IsToken(s.cls) }

  ghost predicate CanBind(h: Dom, sigs: seq<Sig>, i: nat, s: Sub)
  {
    && s.node in h.registry
    && forall j: nat, t | IsSub(sigs, j, t) && j != i :: t.node in h.registry ==> SlotOf(h, t) != SlotOf(h, s)
  }

  ghost predicate AllowedRun(c: Client, acts: seq<Act>)
    decreases acts
  {
    acts == [] || (Allowed(c, acts[0]) && AllowedRun(StepClient(c, acts[0]), acts[1..]))
  }

  // ------------------------------------------------- effect of single commands

  /** A command that does not write a bound element leaves what it shows alone. */
  lemma OtherKeeps(h: Dom, c: Cmd, s: Sub, v: i32)
    requires WellFormed(h) && Shows(h, s, v) && !Disturbs(h, c, s)
    ensures Shows(Apply(h, c), s, v)
    ensures Apply(h, c).registry[s.node] == h.registry[s.node]
  {
    var e, g := h.registry[s.node], Apply(h, c);
    NotWritten(h, c, s);
    hide Disturbs, WellFormed, Shows;
    if Edits(c) {
      EditWrites(c);
      EditLeaves(h, c, e);
      hide Apply, Writes;
    } else {
      MoveLeaves(h, c, e);
      hide Apply;
    }
    ShowsLike(h, g, s, v);
  }

  lemma EditWrites(c: Cmd)
    requires Edits(c)
    ensures c.node in Writes(c)
  {
  }

  lemma MoveLeaves(h: Dom, c: Cmd, e: Elem)
    requires WellFormed(h) && e in h.elems && !Edits(c)
    requires forall w | w in Writes(c) && w in h.registry :: h.registry[w] != e
    ensures var g := Apply(h, c);
            && e in g.elems && (forall n | n !in Writes(c) && n in h.registry :: n in g.registry && g.registry[n] == h.registry[n])
            && g.elems[e].content == h.elems[e].content && g.elems[e].classes == h.elems[e].classes
            && (h.elems[e].children == [] ==> g.elems[e].children == [])
  {
    match c
    case Create(id, tag, parent) =>
      assert parent in Writes(c);
      CreateLeaves(h, id, tag, parent, e);
      hide Apply, WellFormed;
    case AppendChild(p, ch) =>
      assert p in Writes(c);
      DetachedLeaves(h, p, ch, e);
      hide Apply, WellFormed;
    case RemoveNode(n) =>
      RemovedLeaves(h, n, e);
      hide Apply, WellFormed;
    case AddEvent(_, _, _) =>
  }

  lemma ShowsLike(h: Dom, g: Dom, s: Sub, v: i32)
    requires Shows(h, s, v)
    requires s.node in g.registry && g.registry[s.node] == h.registry[s.node] && g.registry[s.node] in g.elems
    requires var a, b := h.elems[h.registry[s.node]], g.elems[g.registry[s.node]];
             b.content == a.content && b.classes == a.classes && (a.children == [] ==> b.children == [])
    ensures Shows(g, s, v)
  {
    hide Decimal.Text;
  }

  lemma NotWritten(h: Dom, c: Cmd, s: Sub)
    requires s.node in h.registry && !Disturbs(h, c, s)
    ensures forall w | w in Writes(c) :: w != s.node && (w in h.registry ==> h.registry[w] != h.registry[s.node])
  {
    hide Writes;
  }

  lemma DetachedLeaves(h: Dom, p: u32, ch: u32, e: Elem)
    requires e in h.elems && (p in h.registry ==> h.registry[p] != e)
    ensures var g := Apply(h, AppendChild(p, ch));
            && g.registry == h.registry && e in g.elems
            && g.elems[e].content == h.elems[e].content && g.elems[e].classes == h.elems[e].classes
            && (h.elems[e].children == [] ==> g.elems[e].children == [])
  {
  }

  lemma RemovedLeaves(h: Dom, n: u32, e: Elem)
    requires e in h.elems
    ensures var g := Apply(h, RemoveNode(n));
            && g.registry == h.registry - {n} && e in g.elems
            && g.elems[e].content == h.elems[e].content && g.elems[e].classes == h.elems[e].classes
            && (h.elems[e].children == [] ==> g.elems[e].children == [])
  {
  }

  lemma EditLeaves(h: Dom, c: Cmd, e: Elem)
    requires Edits(c) && e in h.elems && (c.node in h.registry ==> h.registry[c.node] != e)
    ensures var g := Apply(h, c);
            g.registry == h.registry && e in g.elems && g.elems[e] == h.elems[e]
  {
    hide Edit;
  }

  /** A new element leaves all but its parent as they were, but for its list of children,
      which can only lose elements. */
  lemma CreateLeaves(h: Dom, id: u32, tag: Str, parent: u32, e: Elem)
    requires WellFormed(h) && e in h.elems && (parent in h.registry ==> h.registry[parent] != e)
    ensures var g := Apply(h, Create(id, tag, parent));
            && g.registry == h.registry[id := Made(h.next)] && e in g.elems
            && g.elems[e].content == h.elems[e].content && g.elems[e].classes == h.elems[e].classes
            && (h.elems[e].children == [] ==> g.elems[e].children == [])
  {
    hide Known, AllTokens;
  }

  /** Running a subscriber makes its own slot show the value and spoils no slot that
      is not its own. */
  lemma SubCmdShows(h: Dom, s: Sub, v: i32)
    requires WellFormed(h) && s.node in h.registry && SubOk(s)
    ensures var h' := Apply(h, SubCmd(s, v));
            && WellFormed(h') && h'.registry == h.registry && Shows(h', s, v)
            && forall t, w :: Shows(h, t, w) && (SlotOf(h, t) == SlotOf(h, s) ==> w == v) ==> Shows(h', t, w)
  {
    hide Decimal.Text;
  }

  /** Without the condition on class names nothing is shown: setting a signal to a nonzero
      value shows its class if and only if the class name is a token. */
  lemma TokenNeeded(h: Dom, n: u32, cls: Str, v: i32)
    requires WellFormed(h) && n in h.registry
    ensures Shows(Played(h, [SubCmd(ClassSub(n, cls), v)]), ClassSub(n, cls), v) <==> v == 0 || IsToken(cls)
  {
    var s, c := ClassSub(n, cls), SubCmd(ClassSub(n, cls), v);
    assert [c][1..] == [];
    assert AllTokens(h.elems[h.registry[n]].classes);
    if IsToken(cls) {
      SubCmdEffect(h, s, v);
      assert Played(Apply(h, c), []) == Apply(h, c);
    }
  }

  lemma SubCmdEffect(h: Dom, s: Sub, v: i32)
    requires WellFormed(h) && s.node in h.registry && (s.ClassSub? ==> IsToken(s.cls))
    ensures Shows(Apply(h, SubCmd(s, v)), s, v)
  {
    hide Decimal.Text, IsToken;
  }

  lemma {:induction false} SubCmdsShow(h: Dom, subs: seq<Sub>, v: i32, k: nat)
    requires WellFormed(h) && k <= |subs| && forall s | s in subs :: s.node in h.registry && SubOk(s)
    ensures var h' := Applied(h, SubCmds(subs, v)[..k]);
            && WellFormed(h') && h'.registry == h.registry
            && (forall i | 0 <= i < k :: Shows(h', subs[i], v))
            && forall t, w :: Shows(h, t, w) && (forall s | s in subs :: SlotOf(h, t) != SlotOf(h, s)) ==> Shows(h', t, w)
  {
    hide Apply, SubCmd, WellFormed, SubOk, Decimal.Text;
    var cs := SubCmds(subs, v);
    if k > 0 {
      SubCmdsShow(h, subs, v, k - 1);
      assert cs[..k][..k - 1] == cs[..k - 1];
      var h1, h', last := Applied(h, cs[..k - 1]), Applied(h, cs[..k]), subs[k - 1];
      SubCmdShows(h1, last, v);
      assert h' == Apply(h1, SubCmd(last, v)) && last in subs;
      forall t, w | Shows(h, t, w) && (forall s | s in subs :: SlotOf(h, t) != SlotOf(h, s))
        ensures Shows(h', t, w)
      {
        assert Shows(h1, t, w);
        assert SlotOf(h1, t) == SlotOf(h, t) && SlotOf(h1, last) == SlotOf(h, last);
      }
      forall i | 0 <= i < k
        ensures Shows(h', subs[i], v)
      {
        if i < k - 1 {
          assert Shows(h1, subs[i], v);
        }
      }
    }
  }

  // --------------------------------------------------------------- the stream

  lemma {:induction false} IssuedIssues(cs: seq<Cmd>)
    ensures Issued(Issues(cs) + [Flush]) == cs
  {
    var ops := Issues(cs) + [Flush];
    if cs == [] {
      assert ops == [Flush] && ops[1..] == [];
    } else {
      assert ops[1..] == Issues(cs[1..]) + [Flush];
      IssuedIssues(cs[1..]);
    }
  }

  lemma {:induction false} FlushEmpties(s: Stream, ops: seq<Op>)
    requires ops != [] && ops[|ops| - 1] == Flush
    ensures Run(s, ops).buf == []
    decreases ops
  {
    if |ops| > 1 {
      FlushEmpties(Step(s, ops[0]), ops[1..]);
    } else {
      assert ops[1..] == [];
    }
  }

  lemma {:induction false} ReceivedConcat(a: seq<seq<byte>>, b: seq<seq<byte>>)
    ensures Received(a + b) == Received(a) + Received(b)
    decreases |b|
  {
    hide Decode;
    if b == [] {
      assert a + b == a;
    } else {
      var init := b[..|b| - 1];
      assert (a + b)[..|a + b| - 1] == a + init;
      ReceivedConcat(a, init);
      ConcatAssoc(Received(a), Received(init), Decode(b[|b| - 1]).cmds);
    }
  }

  /** Batches of accepted commands are played to their ends. */
  lemma {:induction false} DeliveredIs(h: Dom, bs: seq<seq<byte>>)
    requires forall c | c in Received(bs) :: Accepted(c)
    ensures Delivered(h, bs) == Applied(h, Received(bs))
    decreases |bs|
  {
    hide Decode, Accepted, Applied;
    if bs == [] {
      NothingApplied(h);
    } else {
      var first, rest := Decode(bs[0]).cmds, Received(bs[1..]);
      assert bs == [bs[0]] + bs[1..];
      ReceivedConcat([bs[0]], bs[1..]);
      assert Received([bs[0]]) == Received([bs[0]][..0]) + first == first;
      assert Received(bs) == first + rest;
      PlayedAll(h, first);
      DeliveredIs(Applied(h, first), bs[1..]);
      AppliedConcat(h, first, rest);
    }
  }

  /** A run of accepted calls: what the host has played and what is still buffered is what
      was buffered before, then what was issued. */
  lemma RunSettles(c: Client, ops: seq<Op>)
    requires Sound(c.stream) && RunFits(c.stream, ops)
    requires forall x | x in Pending(c) :: Accepted(x)
    requires forall x | x in Issued(ops) :: Accepted(x)
    ensures var t := Called(c, ops, c.sigs);
            && Settled(t) == Applied(Settled(c), Issued(ops))
            && forall x | x in Pending(t) :: Accepted(x)
  {
    hide Sound, RunFits, Decode, Applied, Accepted, Run, Issued;
    var s, t, sent := c.stream, Run(c.stream, ops), Sent(c.stream, ops);
    RunSound(s, ops);
    ReceivedConcat(s.batches, sent);
    var before, after := Decode(s.buf).cmds, Decode(t.buf).cmds;
    ConcatAssoc(Received(s.batches), Received(sent), after);
    ConcatAssoc(Received(s.batches), before, Issued(ops));
    CancelPrefix(Received(s.batches), Received(sent) + after, before + Issued(ops));
    forall x | x in Received(sent) || x in after
      ensures Accepted(x)
    {
      assert x in Received(sent) + after;
    }
    DeliveredIs(c.host, sent);
    AppliedConcat(c.host, Received(sent), after);
    AppliedConcat(c.host, before, Issued(ops));
  }

  /** Calls that end in a flush leave nothing buffered: the document is up to date and
      has processed exactly `cs` more. */
  lemma CallsSettle(c: Client, cs: seq<Cmd>, sigs: seq<Sig>)
    requires Sound(c.stream) && |c.stream.buf| <= HIGH_WATER && forall x | x in Pending(c) :: Accepted(x)
    requires forall x | x in cs :: Small(Issue(x)) && Accepted(x)
    ensures var t := Called(c, Issues(cs) + [Flush], sigs);
            && Sound(t.stream) && |t.stream.buf| <= HIGH_WATER && Pending(t) == []
            && t.host == Settled(t) == Applied(Settled(c), cs)
  {
    hide Sound, Encode, Step, Accepted, Applied;
    var ops := Issues(cs) + [Flush];
    forall i | 0 <= i < |ops|
      ensures Small(ops[i])
    {
      if i < |cs| {
        assert cs[i] in cs;
      }
    }
    SmallCommandsFit(c.stream, ops);
    RunSound(c.stream, ops);
    FlushEmpties(c.stream, ops);
    IssuedIssues(cs);
    RunSettles(c, ops);
    assert Pending(Called(c, ops, sigs)) == [];
    NothingApplied(Called(c, ops, sigs).host);
  }

  // ----------------------------------------------------------- what runs keep

  ghost predicate Inv(c: Client)
  {
    && Sound(c.stream) && |c.stream.buf| <= HIGH_WATER
    && (forall x | x in Pending(c) :: Accepted(x))
    && WellFormed(c.host) && WellFormed(Settled(c)) && OneOwner(Settled(c), c.sigs)
    && Tracked(Settled(c), c.sigs) && Tracked(c.host, c.sigs)
    && (forall i: nat, s | IsSub(c.sigs, i, s) :: SubOk(s))
  }

  lemma SubCmdOk(s: Sub, v: i32)
    requires SubOk(s)
    ensures Small(Issue(SubCmd(s, v))) && Accepted(SubCmd(s, v))
  {
    Decimal.TextReadBack(v);
  }

  /** A bind call: the new subscriber is live and, from then on, tracked. */
  lemma BindKeeps(c: Client, i: nat, s: Sub)
    requires Inv(c) && i < |c.sigs| && CanBind(Settled(c), c.sigs, i, s) && SubOk(s)
    ensures var sigs := c.sigs[i := c.sigs[i].(subs := [s] + c.sigs[i].subs)];
            Inv(Called(c, [Issue(SubCmd(s, c.sigs[i].value)), Flush], sigs))
  {
    hide Sound, Decimal.Text, Apply, SubCmd, SubOk, WellFormed, Run, Accepted, Delivered, Sent, Decode;
    var h, v := Settled(c), c.sigs[i].value;
    var cs := [SubCmd(s, v)];
    var sigs := c.sigs[i := c.sigs[i].(subs := [s] + c.sigs[i].subs)];
    SubCmdOk(s, v);
    CallsSettle(c, cs, sigs);
    assert Issues(cs) + [Flush] == [Issue(SubCmd(s, v)), Flush];
    SubCmdShows(h, s, v);
    var h' := Apply(h, SubCmd(s, v));
    assert Applied(h, cs) == Apply(Applied(h, cs[..0]), cs[0]) == h';
    forall j: nat, t | IsSub(sigs, j, t)
      ensures Shows(h', t, sigs[j].value) && SubOk(t) && (IsSub(c.sigs, j, t) || (j == i && t == s))
    {
      if !IsSub(c.sigs, j, t) {
        assert j == i && t == s;
      }
    }
  }

  /** Setting a signal to a new value: all its subscribers run, then one flush. */
  lemma SetKeeps(c: Client, i: nat, v: i32)
    requires Inv(c) && i < |c.sigs|
    ensures var sigs := c.sigs[i := c.sigs[i].(value := v)];
            Inv(Called(c, Issues(SubCmds(c.sigs[i].subs, v)) + [Flush], sigs))
  {
    hide Sound, Decimal.Text, Apply, SubCmd, SubOk, WellFormed, Run, Accepted, Delivered, Sent, Decode;
    var h, subs := Settled(c), c.sigs[i].subs;
    var cs := SubCmds(subs, v);
    var sigs := c.sigs[i := c.sigs[i].(value := v)];
    forall x | x in cs
      ensures Small(Issue(x)) && Accepted(x)
    {
      var k :| 0 <= k < |cs| && cs[k] == x;
      assert IsSub(c.sigs, i, subs[k]);
      SubCmdOk(subs[k], v);
    }
    CallsSettle(c, cs, sigs);
    forall s | s in subs
      ensures s.node in h.registry && SubOk(s)
    {
      assert IsSub(c.sigs, i, s);
    }
    SubCmdsShow(h, subs, v, |subs|);
    assert cs[..|subs|] == cs;
    var h' := Applied(h, cs);
    forall j: nat, t | IsSub(sigs, j, t)
      ensures Shows(h', t, sigs[j].value) && IsSub(c.sigs, j, t)
    {
      assert IsSub(c.sigs, j, t);
      if j != i {
        forall s | s in subs
          ensures SlotOf(h, t) != SlotOf(h, s)
        {
          assert IsSub(c.sigs, i, s);
        }
      }
    }
  }

  /** Any other command that leaves the bound nodes alone, flushed or not. */
  lemma OtherKeepsInv(c: Client, x: Cmd)
    requires Inv(c) && Allowed(c, Other(x))
    ensures Inv(Called(c, [Issue(x)], c.sigs))
  {
    hide Sound, Decimal.Text, Apply, SubOk, WellFormed, Disturbs, Encode, Emitted, Accepted, Decode;
    var s, h := c.stream, Settled(c);
    var t, ops := Step(c.stream, Issue(x)), [Issue(x)];
    assert ops[1..] == [] && Run(s, ops) == Run(t, []) == t && Issued(ops) == [x] + Issued([]);
    assert Issued(ops) == [x];
    StepSound(s, Issue(x));
    RunSettles(c, ops);
    assert Applied(h, [x]) == Apply(Applied(h, [x][..0]), x) == Apply(h, x);
    ApplyWellFormed(h, x);
    forall j: nat, sub | IsSub(c.sigs, j, sub)
      ensures Shows(Apply(h, x), sub, c.sigs[j].value)
      ensures Apply(h, x).registry[sub.node] == h.registry[sub.node]
    {
      OtherKeeps(h, x, sub, c.sigs[j].value);
    }
    HostAfterIssue(c, x);
  }

  /** A command that triggers a flush brings the host up to date; another leaves it. */
  lemma HostAfterIssue(c: Client, x: Cmd)
    ensures var t := Called(c, [Issue(x)], c.sigs);
            t.host == c.host || t.host == Settled(t)
  {
    hide Encode, Decode, Played;
    var s, ops := c.stream, [Issue(x)];
    var t := Step(s, Issue(x));
    assert ops[1..] == [] && Run(s, ops) == Run(t, []) == t;
    if t.buf == [] {
      EmptyPending(Called(c, ops, c.sigs));
    } else {
      assert t.batches == s.batches;
      assert Sent(s, ops) == [];
    }
  }

  lemma EmptyPending(c: Client)
    requires c.stream.buf == []
    ensures Settled(c) == c.host
  {
  }

  lemma RegisteredWellFormed(h: Dom, id: u32, e: Elem, found: Element)
    requires WellFormed(h) && (e in h.elems || (e.Parsed? && AllTokens(found.classes) && found.children == []))
    ensures WellFormed(Registered(h, id, e, found))
  {
    hide AllTokens;
    var g := Registered(h, id, e, found);
    forall x | x in g.elems
      ensures Known(g, g.elems[x].children)
    {
      assert x in h.elems ==> Known(h, h.elems[x].children);
    }
  }

  /** The queried element is one more in the host, now and after the buffered commands. */
  lemma QueryExtends(c: Client, id: u32, e: Elem, found: Element)
    requires WellFormed(c.host) && Allowed(c, Query(id, e, found))
    ensures var d := c.(host := Registered(c.host, id, e, found));
            && WellFormed(d.host) && Extends(c.host, d.host, id, e)
            && WellFormed(Settled(d)) && Extends(Settled(c), Settled(d), id, e)
  {
    hide Decode, Applied, AllTokens, Names;
    var g := Registered(c.host, id, e, found);
    RegisteredWellFormed(c.host, id, e, found);
    assert Extends(c.host, g, id, e);
    hide WellFormed, Extends;
    ExtendsApplied(c.host, g, id, e, Pending(c));
    AppliedWellFormed(g, Pending(c));
  }

  lemma ShowsExtend(h: Dom, g: Dom, id: u32, e: Elem, s: Sub, v: i32)
    requires Extends(h, g, id, e) && Shows(h, s, v)
    ensures Shows(g, s, v) && SlotOf(g, s) == SlotOf(h, s)
  {
    hide Decimal.Text;
  }

  /** A query: bound nodes keep showing what they show, now and when the buffered commands
      have been played. */
  lemma QueryKeeps(c: Client, id: u32, e: Elem, found: Element)
    requires Inv(c) && Allowed(c, Query(id, e, found))
    ensures Inv(c.(host := Registered(c.host, id, e, found)))
  {
    QueryExtends(c, id, e, found);
    hide Sound, SubOk, Accepted, Decode, Applied, Names, WellFormed, Extends, Registered, Allowed, Decimal.Text;
    var d := c.(host := Registered(c.host, id, e, found));
    forall j: nat, s | IsSub(c.sigs, j, s)
      ensures Shows(d.host, s, c.sigs[j].value)
      ensures Shows(Settled(d), s, c.sigs[j].value) && SlotOf(Settled(d), s) == SlotOf(Settled(c), s)
    {
      ShowsExtend(c.host, d.host, id, e, s, c.sigs[j].value);
      ShowsExtend(Settled(c), Settled(d), id, e, s, c.sigs[j].value);
    }
  }

  lemma StepKeeps(c: Client, a: Act)
    requires Inv(c) && Allowed(c, a)
    ensures Inv(StepClient(c, a))
  {
    hide Inv, CanBind, Called, Disturbs, Accepted, Registered, Names;
    match a
    case New(v) => NewKeeps(c, v);
    case BindText(n, i) => if i < |c.sigs| { BindKeeps(c, i, TextSub(n)); } else { NoCall(c); }
    case BindClass(n, i, cls) => if i < |c.sigs| { BindKeeps(c, i, ClassSub(n, cls)); } else { NoCall(c); }
    case Set(i, v) =>
      if i < |c.sigs| && c.sigs[i].value != v {
        SetKeeps(c, i, v);
      } else {
        assert SigsAfter(c.sigs, a) == c.sigs;
        NoCall(c);
      }
    case Other(x) => OtherKeepsInv(c, x);
    case FlushNow => FlushKeeps(c);
    case Query(id, e, found) => QueryKeeps(c, id, e, found);
  }

  lemma NoCall(c: Client)
    ensures Called(c, [], c.sigs) == c
  {
    assert Sent(c.stream, []) == [];
  }

  lemma NewKeeps(c: Client, v: i32)
    requires Inv(c)
    ensures Inv(StepClient(c, New(v)))
  {
    hide Sound, Shows, SlotOf, WellFormed, Settled, SubOk, Accepted, Decode;
    var sigs := SigsAfter(c.sigs, New(v));
    NoCall(c);
    assert StepClient(c, New(v)) == c.(sigs := sigs);
    assert Settled(c.(sigs := sigs)) == Settled(c) by { SettledAlike(c, sigs); }
    assert forall i: nat, s :: IsSub(sigs, i, s) ==> IsSub(c.sigs, i, s);
  }

  lemma SettledAlike(c: Client, sigs: seq<Sig>)
    ensures Settled(c.(sigs := sigs)) == Settled(c)
  {
  }

  lemma FlushKeeps(c: Client)
    requires Inv(c)
    ensures Inv(StepClient(c, FlushNow))
  {
    hide Sound, Shows, SlotOf, WellFormed, SubOk, Accepted, Decode, Delivered, Run, Sent;
    CallsSettle(c, [], c.sigs);
    assert Issues([]) + [Flush] == [Flush];
    NothingApplied(Settled(c));
  }

  /** Buffering is invisible: a command acts on the settled page at once; a flush, and every
      bind or set that calls, brings the host up to date; a query registers the element. */
  lemma StepSettles(c: Client, a: Act)
    requires Inv(c) && Allowed(c, a)
    ensures var t := StepClient(c, a);
            && (a.Other? ==> Settled(t) == Apply(Settled(c), a.cmd))
            && (a.FlushNow? ==> t.host == Settled(t) == Settled(c))
            && (a.New? ==> t.host == c.host && t.stream == c.stream)
            && (Calls(c.sigs, a) != [] && !a.Other? ==> t.host == Settled(t))
            && (a.Query? ==> t.stream == c.stream && t.host == Registered(c.host, a.id, a.elem, a.found)
                             && t.host.registry == c.host.registry[a.id := a.elem])
  {
    hide Inv, CanBind, Called, Accepted, Names, Disturbs, Apply, Settled;
    match a
    case New(_) => NothingCalled(c, SigsAfter(c.sigs, a));
    case BindText(n, i) => if i < |c.sigs| { BindSettles(c, i, TextSub(n)); }
    case BindClass(n, i, cls) => if i < |c.sigs| { BindSettles(c, i, ClassSub(n, cls)); }
    case Set(i, v) => if i < |c.sigs| && c.sigs[i].value != v { SetSettles(c, i, v); }
    case Other(x) => OtherSettles(c, x);
    case FlushNow => FlushSettles(c);
    case Query(_, _, _) =>
  }

  lemma NothingCalled(c: Client, sigs: seq<Sig>)
    ensures Called(c, [], sigs) == c.(sigs := sigs)
  {
    assert Sent(c.stream, []) == [];
  }

  lemma BindSettles(c: Client, i: nat, s: Sub)
    requires Inv(c) && i < |c.sigs| && CanBind(Settled(c), c.sigs, i, s) && SubOk(s)
    ensures var sigs := c.sigs[i := c.sigs[i].(subs := [s] + c.sigs[i].subs)];
            var t := Called(c, [Issue(SubCmd(s, c.sigs[i].value)), Flush], sigs);
            t.host == Settled(t)
  {
    hide Sound, Decimal.Text, Apply, SubCmd, SubOk, WellFormed, Run, Accepted, Delivered, Sent, Decode, Applied;
    var v := c.sigs[i].value;
    var cs, sigs := [SubCmd(s, v)], c.sigs[i := c.sigs[i].(subs := [s] + c.sigs[i].subs)];
    SubCmdOk(s, v);
    CallsSettle(c, cs, sigs);
    assert Issues(cs) + [Flush] == [Issue(SubCmd(s, v)), Flush];
  }

  lemma SetSettles(c: Client, i: nat, v: i32)
    requires Inv(c) && i < |c.sigs|
    ensures var sigs := c.sigs[i := c.sigs[i].(value := v)];
            var t := Called(c, Issues(SubCmds(c.sigs[i].subs, v)) + [Flush], sigs);
            t.host == Settled(t)
  {
    hide Sound, Decimal.Text, Apply, SubCmd, SubOk, WellFormed, Run, Accepted, Delivered, Sent, Decode, Applied;
    var cs := SubCmds(c.sigs[i].subs, v);
    forall x | x in cs
      ensures Small(Issue(x)) && Accepted(x)
    {
      var k :| 0 <= k < |cs| && cs[k] == x;
      assert IsSub(c.sigs, i, c.sigs[i].subs[k]);
      SubCmdOk(c.sigs[i].subs[k], v);
    }
    CallsSettle(c, cs, c.sigs[i := c.sigs[i].(value := v)]);
  }

  lemma OtherSettles(c: Client, x: Cmd)
    requires Inv(c) && Allowed(c, Other(x))
    ensures Settled(Called(c, [Issue(x)], c.sigs)) == Apply(Settled(c), x)
  {
    hide Sound, Apply, SubOk, WellFormed, Disturbs, Encode, Emitted, Accepted, Decode, Shows;
    var s, ops := c.stream, [Issue(x)];
    assert ops[1..] == [] && Issued(ops) == [x] + Issued([]);
    assert Issued(ops) == [x];
    StepSound(s, Issue(x));
    RunSettles(c, ops);
    var h := Settled(c);
    assert Applied(h, [x]) == Apply(Applied(h, [x][..0]), x) == Apply(h, x);
  }

  lemma FlushSettles(c: Client)
    requires Inv(c)
    ensures var t := Called(c, [Flush], c.sigs); t.host == Settled(t) == Settled(c)
  {
    hide Sound, Shows, SlotOf, WellFormed, SubOk, Accepted, Decode, Delivered, Run, Sent;
    CallsSettle(c, [], c.sigs);
    assert Issues([]) + [Flush] == [Flush];
    NothingApplied(Settled(c));
  }

  lemma {:induction false} RunKeeps(c: Client, acts: seq<Act>)
    requires Inv(c) && AllowedRun(c, acts)
    ensures Inv(RunClient(c, acts))
    decreases acts
  {
    hide Inv, Allowed, StepClient;
    if acts != [] {
      StepKeeps(c, acts[0]);
      RunKeeps(StepClient(c, acts[0]), acts[1..]);
    }
  }

  /** After every allowed run every subscriber of every signal shows the signal's value. */
  lemma SubscribersTrack(h0: Dom, acts: seq<Act>)
    requires WellFormed(h0) && AllowedRun(Client([], START, h0), acts)
    ensures var c := RunClient(Client([], START, h0), acts);
            Tracked(c.host, c.sigs) && Tracked(Settled(c), c.sigs)
  {
    StartSound();
    EmptyPending(Client([], START, h0));
    assert Inv(Client([], START, h0)) by { EmptyBatch(); }
    RunKeeps(Client([], START, h0), acts);
  }

  lemma EmptyBatch()
    ensures Decode([]).cmds == []
  {
  }

  // ------------------------------------------------- the theorem on calls alone

  /** How many signals the calls create. */
  function SigCount(acts: seq<Act>): nat
  {
    if acts == [] then 0 else SigCount(acts[..|acts| - 1]) + if acts[|acts| - 1].New? then 1 else 0
  }

  /** The value the calls gave signal `i` last: the latest set of it, or its creation. */
  function LastValue(acts: seq<Act>, i: nat): i32
    requires i < SigCount(acts)
  {
    var init, a := acts[..|acts| - 1], acts[|acts| - 1];
    if a.New? && i == SigCount(init) then a.initial
    else if a.Set? && a.sig == i then a.value
    else LastValue(init, i)
  }

  predicate BindsTo(a: Act, i: nat, s: Sub)
  {
    match s
    case TextSub(n) => a == BindText(n, i)
    case ClassSub(n, cls) => a == BindClass(n, i, cls)
  }

  /** Call `k` binds the node of `s` to signal `i`, created before it. */
  predicate BoundBy(acts: seq<Act>, k: nat, i: nat, s: Sub)
  {
    k < |acts| && BindsTo(acts[k], i, s) && i < SigCount(acts[..k])
  }

  lemma {:induction false} RunClientSnoc(c: Client, acts: seq<Act>, a: Act)
    ensures RunClient(c, acts + [a]) == StepClient(RunClient(c, acts), a)
    decreases acts
  {
    hide StepClient;
    if acts == [] {
      assert acts + [a] == [a] && [a][1..] == [];
      assert RunClient(c, [a]) == RunClient(StepClient(c, a), [a][1..]);
    } else {
      assert (acts + [a])[1..] == acts[1..] + [a];
      RunClientSnoc(StepClient(c, acts[0]), acts[1..], a);
    }
  }

  /** After any run the runtime's records are what the calls say: one signal per creation,
      holding the value given last, with exactly the bound nodes as subscribers. */
  ghost predicate Records(acts: seq<Act>, sigs: seq<Sig>)
  {
    && |sigs| == SigCount(acts)
    && forall i | 0 <= i < |sigs| ::
         && sigs[i].value == LastValue(acts, i)
         && forall s :: s in sigs[i].subs <==> exists k :: BoundBy(acts, k, i, s)
  }

  lemma BoundEarlier(acts: seq<Act>, i: nat, s: Sub)
    requires acts != []
    ensures var init := acts[..|acts| - 1];
            (exists k :: BoundBy(acts, k, i, s))
            <==> (exists k :: BoundBy(init, k, i, s)) || (BindsTo(acts[|acts| - 1], i, s) && i < SigCount(init))
  {
    hide BindsTo, SigCount;
    var init, last := acts[..|acts| - 1], |acts| - 1;
    forall k: nat | k < last
      ensures BoundBy(acts, k, i, s) <==> BoundBy(init, k, i, s)
    {
      assert acts[..k] == init[..k];
    }
    assert BoundBy(acts, last, i, s) <==> BindsTo(acts[last], i, s) && i < SigCount(init);
  }

  lemma RecordsStep(acts: seq<Act>, sigs: seq<Sig>)
    requires acts != [] && Records(acts[..|acts| - 1], sigs)
    ensures Records(acts, SigsAfter(sigs, acts[|acts| - 1]))
  {
    var a, after := acts[|acts| - 1], SigsAfter(sigs, acts[|acts| - 1]);
    forall i | 0 <= i < |after|
      ensures after[i].value == LastValue(acts, i)
      ensures forall s :: s in after[i].subs <==> exists k :: BoundBy(acts, k, i, s)
    {
      forall s
        ensures s in after[i].subs <==> exists k :: BoundBy(acts, k, i, s)
      {
        BoundEarlier(acts, i, s);
        hide BoundBy;
        if i == |sigs| {
          NotYetBound(acts[..|acts| - 1], i, s);
        }
      }
    }
  }

  lemma NotYetBound(acts: seq<Act>, i: nat, s: Sub)
    requires i >= SigCount(acts)
    ensures !exists k :: BoundBy(acts, k, i, s)
  {
    forall k: nat | k <= |acts|
      ensures SigCount(acts[..k]) <= SigCount(acts)
    {
      CountGrows(acts, k);
    }
  }

  lemma {:induction false} CountGrows(acts: seq<Act>, k: nat)
    requires k <= |acts|
    ensures SigCount(acts[..k]) <= SigCount(acts)
  {
    if k == |acts| {
      assert acts[..k] == acts;
    } else {
      assert acts[..|acts| - 1][..k] == acts[..k];
      CountGrows(acts[..|acts| - 1], k);
    }
  }

  lemma {:induction false} RecordsKept(h0: Dom, acts: seq<Act>)
    ensures Records(acts, RunClient(Client([], START, h0), acts).sigs)
  {
    hide StepClient, SigsAfter, Records;
    var c := Client([], START, h0);
    if acts == [] {
      assert Records([], []) by { NothingRecorded(); }
    } else {
      var init, a := acts[..|acts| - 1], acts[|acts| - 1];
      RecordsKept(h0, init);
      RecordsStep(acts, RunClient(c, init).sigs);
      RunClientSnoc(c, init, a);
      assert init + [a] == acts;
      StepSigs(RunClient(c, init), a);
    }
  }

  lemma NothingRecorded()
    ensures Records([], [])
  {
  }

  lemma StepSigs(c: Client, a: Act)
    ensures StepClient(c, a).sigs == SigsAfter(c.sigs, a)
  {
  }

  /** The binding theorem, on the calls alone: after every allowed run, queries in between
      included, each node a call bound to a signal shows the value a call gave that signal
      last - its exact decimal, or the class if and only if it is nonzero - in the page as
      flushed so far and in the page once the rest is flushed. */
  lemma BindingsTrack(h0: Dom, acts: seq<Act>, k: nat, i: nat, s: Sub)
    requires WellFormed(h0) && AllowedRun(Client([], START, h0), acts) && BoundBy(acts, k, i, s)
    ensures i < SigCount(acts)
    ensures var c := RunClient(Client([], START, h0), acts);
            Shows(c.host, s, LastValue(acts, i)) && Shows(Settled(c), s, LastValue(acts, i))
  {
    var c := RunClient(Client([], START, h0), acts);
    SubscribersTrack(h0, acts);
    RecordsKept(h0, acts);
    CountGrows(acts, k);
    hide RunClient, Shows, Settled, SigCount, LastValue;
    assert IsSub(c.sigs, i, s);
  }

  // ------------------------------------------------------------ the runtime

  lemma {:induction false} RunSnoc(s: Stream, ops: seq<Op>, op: Op)
    ensures Run(s, ops + [op]) == Step(Run(s, ops), op)
    decreases ops
  {
    hide Step;
    if ops == [] {
      assert ops + [op] == [op] && [op][1..] == [];
      assert Run(s, [op]) == Run(Step(s, op), [op][1..]);
    } else {
      assert (ops + [op])[1..] == ops[1..] + [op];
      RunSnoc(Step(s, ops[0]), ops[1..], op);
    }
  }

  lemma NoOps(s: Stream)
    ensures Run(s, []) == s
  {
  }

  /** No command leaves more than the flush mark buffered. */
  lemma StepLow(s: Stream, op: Op)
    requires |s.buf| <= HIGH_WATER
    ensures |Step(s, op).buf| <= HIGH_WATER
  {
    hide Encode;
  }

  lemma RunTwo(s: Stream, a: Op, b: Op)
    ensures Run(s, [a, b]) == Step(Step(s, a), b)
  {
    hide Step;
    NoOps(s);
    RunSnoc(s, [], a);
    RunSnoc(s, [a], b);
    assert [] + [a] == [a] && [a] + [b] == [a, b];
  }

  /** A bind on the records: one more subscriber of one signal. */
  lemma BindShape(sigs: seq<Sig>, i: nat, s: Sub)
    requires i < |sigs|
    ensures var act := if s.TextSub? then BindText(s.node, i) else BindClass(s.node, i, s.cls);
            var after := sigs[i := sigs[i].(subs := [s] + sigs[i].subs)];
            && SigsAfter(sigs, act) == after && Calls(sigs, act) == [Issue(SubCmd(s, sigs[i].value)), Flush]
            && s in after[i].subs && after[i].value == sigs[i].value
            && (forall j, t | 0 <= j < |sigs| && t in sigs[j].subs :: t in after[j].subs)
            && forall j: nat, t :: IsSub(after, j, t) ==> IsSub(sigs, j, t) || t == s
  {
  }

  /** A set on the records: one value, or nothing when it is the same. */
  lemma SetShape(sigs: seq<Sig>, i: nat, v: i32)
    requires i < |sigs|
    ensures var after := sigs[i := sigs[i].(value := v)];
            && SigsAfter(sigs, Set(i, v)) == after && (sigs[i].value == v ==> after == sigs)
            && Calls(sigs, Set(i, v)) == (if sigs[i].value == v then [] else Issues(SubCmds(sigs[i].subs, v)) + [Flush])
            && (forall s | s in sigs[i].subs :: IsSub(sigs, i, s))
            && forall j: nat, t :: IsSub(after, j, t) ==> IsSub(sigs, j, t)
  {
    hide SubCmds, Issues;
  }

  /** `cerco_sig` objects with their subscriber lists, and the calls that drive them. */
  class SignalRuntime {
    var sigs: seq<Sig>
    const out: CommandBuffer

    ghost predicate Valid()
      reads this, out
    {
      && out.Valid() && out.cmdLen <= HIGH_WATER
      && forall i: nat, s | IsSub(sigs, i, s) :: SubOk(s)
    }

    constructor (buffer: CommandBuffer)
      requires buffer.Valid() && buffer.cmdLen <= HIGH_WATER
      ensures Valid() && out == buffer && sigs == []
    {
      sigs, out := [], buffer;
    }

    method SignalNew(initial: i32) returns (sig: nat)
      requires Valid()
      modifies this
      ensures Valid() && sig == |old(sigs)| && sigs == SigsAfter(old(sigs), New(initial)) && out.View() == old(out.View())
    {
      sig := |sigs|;
      ghost var before := sigs;
      sigs := sigs + [Sig(initial, [])];
      assert forall i: nat, s :: IsSub(sigs, i, s) ==> IsSub(before, i, s);
    }

    /** One subscriber call. */
    method RunSub(s: Sub, v: i32)
      requires out.Valid() && out.cmdLen <= HIGH_WATER && SubOk(s)
      modifies out`cmdLen, out`batches, out.cmdBuf
      ensures out.Valid() && out.cmdLen <= HIGH_WATER
      ensures out.View() == Step(old(out.View()), Issue(SubCmd(s, v)))
    {
      SubCmdOk(s, v);
      WordBack(s.node);
      StepLow(out.View(), Issue(SubCmd(s, v)));
      hide Step, Encode, ToU32, ToI32, SubOk, Accepted, Decimal.Text;
      match s {
        case TextSub(n) =>
          var text := Decimal.I32ToStr(v);
          out.SetText(ToI32(n), text);
        case ClassSub(n, cls) =>
          if v != 0 {
            out.AddClass(ToI32(n), cls);
          } else {
            out.RemoveClass(ToI32(n), cls);
          }
      }
    }

    /** Prepends the subscriber and syncs the current value. */
    method Bind(s: Sub, i: nat)
      requires Valid() && i < |sigs| && SubOk(s)
      modifies this, out`cmdLen, out`batches, out.cmdBuf
      ensures Valid()
      ensures var act := if s.TextSub? then BindText(s.node, i) else BindClass(s.node, i, s.cls);
              sigs == SigsAfter(old(sigs), act) && out.View() == Run(old(out.View()), Calls(old(sigs), act))
      ensures |sigs| == |old(sigs)| && s in sigs[i].subs && sigs[i].value == old(sigs)[i].value
      ensures forall j, t | 0 <= j < |sigs| && t in old(sigs)[j].subs :: t in sigs[j].subs
    {
      ghost var before, stream := sigs, out.View();
      ghost var act := if s.TextSub? then BindText(s.node, i) else BindClass(s.node, i, s.cls);
      BindShape(sigs, i, s);
      sigs := sigs[i := sigs[i].(subs := [s] + sigs[i].subs)];
      ghost var op := Issue(SubCmd(s, sigs[i].value));
      hide SigsAfter, Calls, IsSub, SubCmd;
      RunSub(s, sigs[i].value);
      out.DomFlush();
      RunTwo(stream, op, Flush);
    }

    /** All subscribers, newest first. */
    method RunSubs(subs: seq<Sub>, v: i32)
      requires out.Valid() && out.cmdLen <= HIGH_WATER && forall s | s in subs :: SubOk(s)
      modifies out`cmdLen, out`batches, out.cmdBuf
      ensures out.Valid() && out.cmdLen <= HIGH_WATER
      ensures out.View() == Run(old(out.View()), Issues(SubCmds(subs, v)))
    {
      hide Run, Step, SubOk, SubCmd;
      ghost var stream, ops := out.View(), Issues(SubCmds(subs, v));
      NoOps(stream);
      var k := 0;
      while k < |subs|
        invariant 0 <= k <= |subs| && out.Valid() && out.cmdLen <= HIGH_WATER
        invariant out.View() == Run(stream, ops[..k])
      {
        assert subs[k] in subs;
        RunSub(subs[k], v);
        RunSnoc(stream, ops[..k], ops[k]);
        assert ops[..k + 1] == ops[..k] + [ops[k]];
        k := k + 1;
      }
      assert ops[..k] == ops;
    }

    /** `cerco_signal_set`: an equal value is ignored; otherwise every subscriber runs,
        newest first, and one flush follows. */
    method SignalSet(i: nat, v: i32)
      requires Valid() && i < |sigs|
      modifies this, out`cmdLen, out`batches, out.cmdBuf
      ensures Valid() && sigs == SigsAfter(old(sigs), Set(i, v))
      ensures |sigs| == |old(sigs)| && sigs[i].value == v && sigs[i].subs == old(sigs)[i].subs
      ensures out.View() == Run(old(out.View()), Calls(old(sigs), Set(i, v)))
    {
      SetShape(sigs, i, v);
      hide Run, SubOk, SubCmds, Issues, SigsAfter, Calls, IsSub;
      NoOps(out.View());
      if sigs[i].value == v {
        return;
      }
      ghost var stream := out.View();
      var subs := sigs[i].subs;
      ghost var ops := Issues(SubCmds(subs, v));
      sigs := sigs[i := sigs[i].(value := v)];
      RunSubs(subs, v);
      out.DomFlush();
      RunSnoc(stream, ops, Flush);
    }
  }
}
