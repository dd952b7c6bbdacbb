/** Connection teardown on the event loop: deferred finalization with writes in flight,
    the close callback, the list of active connections, the live-reload (SSE) list and
    the recycling pool. Connections are records named by their address. */
module Connections {
  import opened Bytes
  import opened LinkedLists

  const POOL_MAX := 256

  /** The lifecycle fields of `cerco_conn`; its list pointers live in the link maps. */
  datatype Conn = Conn(closing: bool, finalized: bool, closeCbDone: bool, pendingWrites: int,
                       deadline: int, keepAlive: bool, forceClose: bool, sse: bool)

  /** What the event library owes a connection: a callback per queued write and one per
      close; and how often the connection was closed and finalized since it was accepted. */
  datatype Owed = Owed(inFlight: nat, closes: nat, closeDue: bool, finalizations: nat)

  /** `list.links` are the `prev`/`next` fields, which the free list shares; `active`,
      `sses` and `pool` name what the three lists contain, `retired` what each finalized
      connection was owed at that moment. */
  datatype State = State(conns: map<Id, Conn>, owed: map<Id, Owed>, list: List, nConns: int,
                         sseList: List, free: Option<Id>, freeN: nat,
                         active: seq<Id>, sses: seq<Id>, pool: seq<Id>,
                         retired: seq<Owed>)

  const START := State(map[], map[], List(None, map[]), 0, List(None, map[]), None, 0, [], [], [], [])

  predicate Known(s: State, c: Id) { c in s.conns && c in s.owed }

  // ------------------------------------------------------------ finalization

  /** Marked, unlinked and counted out. */
  function Detached(s: State, c: Id): State
    requires Known(s, c)
  {
    var l := if c in s.list.links then Bypass(s.list, c) else s.list;
    var o := s.owed[c].(finalizations := s.owed[c].finalizations + 1);
    s.(conns := s.conns[c := s.conns[c].(finalized := true)], owed := s.owed[c := o],
       list := List(l.head, l.links[c := Links(None, None)]), nConns := s.nConns - 1,
       active := if c in s.active then Remove(s.active, c) else s.active, retired := s.retired + [o])
  }

  /** `conn_finalize`. */
  function Finalize(s: State, c: Id): State
    requires Known(s, c)
  {
    if s.conns[c].finalized then s else Recycle(Detached(s, c), c)
  }

  /** `conn_put`: back to the pool, or freed when the pool is full. */
  function Recycle(s: State, c: Id): State
  {
    if s.freeN < POOL_MAX then
      s.(list := s.list.(links := s.list.links[c := Links(None, s.free)]),
         free := Some(c), freeN := s.freeN + 1, pool := [c] + s.pool)
    else s.(conns := s.conns - {c}, owed := s.owed - {c})
  }

  /** `conn_maybe_finalize`. */
  function MaybeFinalize(s: State, c: Id): State
    requires Known(s, c)
  {
    var n := s.conns[c];
    if !n.closing || n.finalized then s
    else if !n.closeCbDone then s
    else if n.pendingWrites > 0 then s
    else Finalize(s, c)
  }

  /** `conn_close_and_free` up to its final check. */
  function Close(s: State, c: Id): State
    requires Known(s, c)
  {
    var n, o := s.conns[c], s.owed[c];
    s.(conns := s.conns[c := n.(closing := true, sse := false)],
       owed := s.owed[c := o.(closes := o.closes + 1, closeDue := true)],
       sseList := if n.sse && c in s.sseList.links then Bypass(s.sseList, c) else s.sseList,
       sses := if n.sse && c in s.sses then Remove(s.sses, c) else s.sses)
  }

  function CloseAndFree(s: State, c: Id): State
    requires Known(s, c)
  {
    if s.conns[c].closing then s else MaybeFinalize(Close(s, c), c)
  }

  // ------------------------------------------------------------------- writes

  datatype Kind = Simple(force: bool) | Response | Sse

  /** No memory for the write, refused by the library, or queued. */
  datatype Outcome = NoMemory | Refused | Queued

  /** The connection as a write leaves its reply flags. */
  function Flagged(n: Conn, k: Kind): Conn
  {
    if k.Simple? then n.(keepAlive := !k.force, forceClose := k.force) else n
  }

  function Write(s: State, c: Id, k: Kind, o: Outcome): State
    requires Known(s, c)
  {
    if o.NoMemory? then CloseAndFree(s, c)
    else
      var n := s.conns[c];
      var m := Flagged(n, k);
      if o.Refused? then CloseAndFree(s.(conns := s.conns[c := m]), c)
      else s.(conns := s.conns[c := m.(pendingWrites := m.pendingWrites + 1)],
              owed := s.owed[c := s.owed[c].(inFlight := s.owed[c].inFlight + 1)])
  }

  /** The library delivers one owed write callback; the counter goes down first. */
  function Delivered(s: State, c: Id): State
    requires Known(s, c) && s.owed[c].inFlight > 0
  {
    s.(conns := s.conns[c := s.conns[c].(pendingWrites := s.conns[c].pendingWrites - 1)],
       owed := s.owed[c := s.owed[c].(inFlight := s.owed[c].inFlight - 1)])
  }

  function SetDeadline(s: State, c: Id, at: int): State
    requires Known(s, c)
  {
    s.(conns := s.conns[c := s.conns[c].(deadline := at)])
  }

  function AfterClose(s: State, c: Id): (t: State)
    requires Known(s, c)
  {
    var t := CloseAndFree(s, c);
    if Known(t, c) then MaybeFinalize(t, c) else t
  }

  function ResponseWritten(s: State, c: Id, hasReq: bool, ok: bool, deadline: int): State
    requires Known(s, c) && s.owed[c].inFlight > 0
  {
    var t := Delivered(s, c);
    if hasReq && !t.conns[c].finalized then
      if !ok then AfterClose(t, c)
      else if t.conns[c].closing then MaybeFinalize(t, c)
      else SetDeadline(t, c, deadline)
    else MaybeFinalize(t, c)
  }

  function SimpleWritten(s: State, c: Id, ok: bool, deadline: int): State
    requires Known(s, c) && s.owed[c].inFlight > 0
  {
    var t := Delivered(s, c);
    if t.conns[c].finalized || t.conns[c].closing then MaybeFinalize(t, c)
    else if !ok then CloseAndFree(t, c)
    else SetDeadline(t, c, deadline)
  }

  function SseWritten(s: State, c: Id, ok: bool): State
    requires Known(s, c) && s.owed[c].inFlight > 0
  {
    var t := Delivered(s, c);
    if !ok && !t.conns[c].closing && !t.conns[c].finalized then CloseAndFree(t, c) else MaybeFinalize(t, c)
  }

  function StreamClosed(s: State, c: Id): State
    requires Known(s, c)
  {
    MaybeFinalize(s.(conns := s.conns[c := s.conns[c].(closeCbDone := true)],
                     owed := s.owed[c := s.owed[c].(closeDue := false)]), c)
  }

  // ------------------------------------------------------------------- accept

  /** `conn_get`: the head of the free list, or a new allocation at `newAddr`. */
  function Obtain(s: State, newAddr: Id): (State, Id)
  {
    if s.free.Some? && s.pool != [] && s.freeN > 0 && s.free.value in s.list.links then
      (s.(free := s.list.links[s.free.value].next, freeN := s.freeN - 1, pool := s.pool[1..]), s.free.value)
    else (s, newAddr)
  }

  const ZEROED := Conn(false, false, false, 0, 0, true, false, false)

  function Linked(s: State, c: Id, deadline: int): State
  {
    s.(list := PushFront(s.list, c), nConns := s.nConns + 1, active := [c] + s.active,
       conns := s.conns[c := ZEROED.(deadline := deadline)], owed := s.owed[c := Owed(0, 0, false, 0)])
  }

  /** `cerco_connection_cb`: a connection whose handle cannot be set up goes back to the
      pool, one whose accept fails is only closed, the others are linked and counted
      before the overflow check. */
  function Accept(s: State, newAddr: Id, initOk: bool, acceptOk: bool, maxConns: int, reply: Outcome, deadline: int): State
  {
    var (t, c) := Obtain(s, newAddr);
    if !initOk then
      Recycle(t.(conns := t.conns[c := ZEROED], owed := t.owed[c := Owed(0, 0, false, 0)]), c)
    else if !acceptOk then
      t.(conns := t.conns[c := ZEROED], owed := t.owed[c := Owed(0, 1, true, 0)])
    else
      var u := Linked(t, c, deadline);
      if u.nConns > maxConns then Write(u, c, Simple(true), reply) else u
  }

  // ------------------------------------------------------------ sweeps and SSE

  function SweepOne(s: State, c: Id, now: int): State
  {
    if Known(s, c) && !s.conns[c].closing && !s.conns[c].finalized && now >= s.conns[c].deadline then
      CloseAndFree(s.(conns := s.conns[c := s.conns[c].(forceClose := true)]), c)
    else s
  }

  /** `conn_sweep_deadlines` over the connections still to visit. */
  function SweepAll(s: State, todo: seq<Id>, now: int): State
    decreases todo
  {
    if todo == [] then s else SweepAll(SweepOne(s, todo[0], now), todo[1..], now)
  }

  /** `send_live_sse`. */
  function OpenSse(s: State, c: Id, header: Outcome, first: Outcome): State
    requires Known(s, c)
  {
    if !header.Queued? then Write(s, c, Sse, header)
    else
      var t := Write(s, c, Sse, Queued);
      Write(t.(conns := t.conns[c := t.conns[c].(sse := true)],
               sseList := PushFront(t.sseList, c), sses := [c] + t.sses), c, Sse, first)
  }

  /** `conn_send_sse_reload` over the clients still to visit, one outcome each. */
  function ReloadAll(s: State, todo: seq<Id>, outcomes: seq<Outcome>): State
    decreases todo
  {
    if todo == [] || outcomes == [] then s
    else
      var t := if Known(s, todo[0]) && !s.conns[todo[0]].closing then Write(s, todo[0], Sse, outcomes[0]) else s;
      ReloadAll(t, todo[1..], outcomes[1..])
  }

  // -------------------------------------------------------------------- steps

  datatype Event =
    | Accepted(newAddr: Id, initOk: bool, acceptOk: bool, maxConns: int, reply: Outcome, deadline: int)
    | Writes(c: Id, kind: Kind, outcome: Outcome)
    | OnResponseWritten(c: Id, hasReq: bool, ok: bool, deadline: int)
    | OnSimpleWritten(c: Id, ok: bool, deadline: int)
    | OnSseWritten(c: Id, ok: bool)
    | OnStreamClosed(c: Id)
    | ReadEnded(c: Id)
    | Sweep(now: int)
    | SseRequest(c: Id, header: Outcome, first: Outcome)
    | Reload(outcomes: seq<Outcome>)

  /** What the library and the request layer may do: write on, end or subscribe an active
      connection, and deliver only callbacks that are owed. */
  predicate Enabled(s: State, e: Event)
  {
    match e
    case Accepted(newAddr, _, _, _, _, _) => newAddr !in s.conns
    case Writes(c, _, _) => c in s.active
    case OnResponseWritten(c, _, _, _) => c in s.owed && s.owed[c].inFlight > 0
    case OnSimpleWritten(c, _, _) => c in s.owed && s.owed[c].inFlight > 0
    case OnSseWritten(c, _) => c in s.owed && s.owed[c].inFlight > 0
    case OnStreamClosed(c) => c in s.owed && s.owed[c].closeDue
    case ReadEnded(c) => c in s.active
    case Sweep(_) => true
    case SseRequest(c, _, _) => c in s.active && c in s.conns && !s.conns[c].closing && !s.conns[c].sse
    case Reload(outcomes) => |outcomes| == |s.sses|
  }

  function Step(s: State, e: Event): State
    requires s.conns.Keys == s.owed.Keys && (forall c | c in s.active :: Known(s, c))
  {
    if !Enabled(s, e) then s
    else match e
      case Accepted(newAddr, initOk, acceptOk, maxConns, reply, deadline) =>
        Accept(s, newAddr, initOk, acceptOk, maxConns, reply, deadline)
      case Writes(c, k, o) => Write(s, c, k, o)
      case OnResponseWritten(c, hasReq, ok, deadline) => ResponseWritten(s, c, hasReq, ok, deadline)
      case OnSimpleWritten(c, ok, deadline) => SimpleWritten(s, c, ok, deadline)
      case OnSseWritten(c, ok) => SseWritten(s, c, ok)
      case OnStreamClosed(c) => StreamClosed(s, c)
      case ReadEnded(c) => CloseAndFree(s, c)
      case Sweep(now) => SweepAll(s, s.active, now)
      case SseRequest(c, header, first) => OpenSse(s, c, header, first)
      case Reload(outcomes) => ReloadAll(s, s.sses, outcomes)
  }

  // ---------------------------------------------------------------- invariant

  /** An active connection: its counter is the number of writes in flight, it was closed
      once if it is closing and never otherwise, and it was not finalized. */
  predicate Live(n: Conn, o: Owed)
  {
    && !n.finalized && o.finalizations == 0
    && n.pendingWrites == o.inFlight
    && o.closes == (if n.closing then 1 else 0)
    && (o.closeDue <==> n.closing && !n.closeCbDone)
    && (n.closeCbDone ==> n.closing)
    && (n.sse ==> !n.closing)
  }

  /** Nothing is owed any more: the connection must have been finalized. */
  predicate Settled(n: Conn) { n.closing && n.closeCbDone && n.pendingWrites == 0 }

  /** A pooled connection: nothing owed; closed and finalized at most once. */
  predicate AtRest(o: Owed) { o.inFlight == 0 && !o.closeDue && o.closes <= 1 && o.finalizations <= 1 }

  /** A connection whose accept failed: closed once, never linked, never finalized. */
  predicate Orphan(n: Conn, o: Owed)
  {
    !n.closing && o.inFlight == 0 && o.closes == 1 && o.finalizations == 0
  }

  ghost predicate Lists(s: State)
  {
    && Chain(s.list, s.active) && s.nConns == |s.active|
    && FreeChain(s.list.(head := s.free), s.pool) && s.freeN == |s.pool| <= POOL_MAX
    && Chain(s.sseList, s.sses)
  }

  ghost predicate Domains(s: State)
  {
    && (forall c | c in s.active :: c !in s.pool)
    && s.conns.Keys == s.owed.Keys
    && (forall c | c in s.active :: c in s.conns)
    && (forall c | c in s.pool :: c in s.conns)
  }

  /** `busy` may be settled and not yet finalized: it is in the middle of a callback.
      (Stated as one equation so that callers check it as one fact.) */
  ghost predicate InvBut(s: State, busy: Option<Id>)
  {
    Everything(s, busy) == true
  }

  ghost predicate Everything(s: State, busy: Option<Id>)
  {
    && Lists(s) && Domains(s)
    && (forall c | c in s.active :: Live(s.conns[c], s.owed[c]))
    && (forall c | c in s.active && Settled(s.conns[c]) :: busy == Some(c))
    && (forall c | c in s.sses :: c in s.active && s.conns[c].sse)
    && (forall c | c in s.active && s.conns[c].sse :: c in s.sses)
    && (forall c | c in s.pool :: AtRest(s.owed[c]))
    && (forall o | o in s.retired :: o == Owed(0, 1, false, 1))
    && (forall c | c in s.conns && c !in s.active && c !in s.pool :: Orphan(s.conns[c], s.owed[c]))
  }

  ghost predicate Inv(s: State) { InvBut(s, None) }

  lemma FinalizeInv(s: State, c: Id)
    requires InvBut(s, Some(c)) && c in s.active && Settled(s.conns[c])
    ensures Inv(Finalize(s, c)) && Finalize(s, c).active == Remove(s.active, c)
    ensures Finalize(s, c).sses == s.sses
  {
    hide Chain, FreeChain, Bypass, Remove;
    var t := Finalize(s, c);
    FinalizeLists(s, c);
    RemoveFactsChain(s.list, s.active, c);
    assert c !in s.sses;
  }

  lemma RemoveFactsChain(l: List, s: seq<Id>, c: Id)
    requires Chain(l, s) && c in s
    ensures |Remove(s, c)| == |s| - 1
    ensures forall x :: x in Remove(s, c) <==> x in s && x != c
  {
    RemoveFacts(s, c);
  }

  lemma FinalizeLists(s: State, c: Id)
    requires Lists(s) && Domains(s) && c in s.active && !s.conns[c].finalized
    ensures Lists(Finalize(s, c)) && Domains(Finalize(s, c))
  {
    hide Bypass, Remove, Chain, FreeChain;
    var t := Finalize(s, c);
    RemoveFactsChain(s.list, s.active, c);
    BypassChain(s.list, s.active, c);
    BypassFrame(s.list, s.active, c);
    ChainInLinks(s.list, s.active);
    ChainInLinks(Bypass(s.list, c), Remove(s.active, c));
    FreeInLinks(s.list.(head := s.free), s.pool);
    ChainFrame(Bypass(s.list, c), t.list, t.active);
    FreeChainFrame(s.list.(head := s.free), t.list.(head := s.free), s.pool);
    if s.freeN < POOL_MAX {
      FreePush(t.list.(head := s.free), s.pool, c);
    }
  }

  lemma ChainInLinks(l: List, s: seq<Id>)
    requires Chain(l, s)
    ensures forall x | x in s :: x in l.links
  {
  }

  lemma FreeInLinks(l: List, s: seq<Id>)
    requires FreeChain(l, s)
    ensures forall x | x in s :: x in l.links
  {
  }

  lemma FreePush(l: List, s: seq<Id>, c: Id)
    requires FreeChain(l, s) && c !in s && c in l.links && l.links[c].next == l.head
    ensures FreeChain(l.(head := Some(c)), [c] + s)
  {
  }

  lemma FreePop(l: List, s: seq<Id>)
    requires FreeChain(l, s) && s != []
    ensures l.head == Some(s[0]) && s[0] in l.links && s[0] !in s[1..]
    ensures FreeChain(l.(head := l.links[s[0]].next), s[1..])
  {
    var t := s[1..];
    assert forall i | 0 <= i < |t| :: t[i] == s[i + 1];
    assert l.links[s[0]].next == At(s, 1);
  }

  lemma MaybeFinalizeInv(s: State, c: Id)
    requires InvBut(s, Some(c)) && c in s.active
    ensures Inv(MaybeFinalize(s, c)) && MaybeFinalize(s, c).sses == s.sses
    ensures !Settled(s.conns[c]) ==> MaybeFinalize(s, c) == s
  {
    hide Lists, Finalize;
    if Settled(s.conns[c]) {
      FinalizeInv(s, c);
    }
  }

  lemma CloseInv(s: State, c: Id)
    requires InvBut(s, Some(c)) && c in s.active && !s.conns[c].closing
    ensures InvBut(Close(s, c), None) && Close(s, c).active == s.active
  {
    hide Chain, FreeChain, Bypass, Remove;
    var t := Close(s, c);
    if s.conns[c].sse {
      ChainInLinks(s.sseList, s.sses);
      BypassChain(s.sseList, s.sses, c);
      RemoveFactsChain(s.sseList, s.sses, c);
    }
  }

  /** Closing never finalizes on the spot: the close callback is still to come. */
  lemma CloseAndFreeInv(s: State, c: Id)
    requires InvBut(s, Some(c)) && c in s.active
    ensures var t := CloseAndFree(s, c);
            && InvBut(t, Some(c)) && t.active == s.active && t.conns[c].closing
            && (!Settled(s.conns[c]) ==> Inv(t))
            && (s.conns[c].closing ==> t == s)
  {
    hide Lists, Finalize;
    if !s.conns[c].closing {
      hide InvBut;
      OpenConn(s, c);
      CloseInv(s, c);
      InvWeaken(Close(s, c), c);
    }
  }

  lemma OpenConn(s: State, c: Id)
    requires InvBut(s, Some(c)) && c in s.active && !s.conns[c].closing
    ensures !s.conns[c].closeCbDone && Known(s, c)
  {
  }

  lemma InvWeaken(s: State, c: Id)
    requires Inv(s)
    ensures InvBut(s, Some(c))
  {
  }

  /** A change of one active connection's own fields. */
  lemma UpdateInv(s: State, c: Id, n: Conn, o: Owed)
    requires InvBut(s, Some(c)) && c in s.active && Live(n, o) && n.sse == s.conns[c].sse
    ensures var t := s.(conns := s.conns[c := n], owed := s.owed[c := o]);
            InvBut(t, Some(c)) && (!Settled(n) ==> Inv(t))
  {
    hide Chain, FreeChain;
  }

  /** A change of the fields that no list and no counter depends on. */
  lemma FieldInv(s: State, c: Id, n: Conn)
    requires Inv(s) && c in s.active && c in s.conns
    requires n == s.conns[c].(deadline := n.deadline, keepAlive := n.keepAlive, forceClose := n.forceClose)
    ensures Inv(s.(conns := s.conns[c := n])) && InvBut(s.(conns := s.conns[c := n]), Some(c)) && !Settled(n)
  {
    hide Lists;
    InvWeaken(s, c);
    UpdateInv(s, c, n, s.owed[c]);
    assert s.owed[c := s.owed[c]] == s.owed;
    assert !Settled(s.conns[c]);
  }

  lemma QueuedInv(s: State, c: Id)
    requires Inv(s) && c in s.active && Known(s, c)
    ensures Inv(s.(conns := s.conns[c := s.conns[c].(pendingWrites := s.conns[c].pendingWrites + 1)],
                   owed := s.owed[c := s.owed[c].(inFlight := s.owed[c].inFlight + 1)]))
  {
    hide Lists;
    InvWeaken(s, c);
    UpdateInv(s, c, s.conns[c].(pendingWrites := s.conns[c].pendingWrites + 1),
              s.owed[c].(inFlight := s.owed[c].inFlight + 1));
  }

  /** Closing an active connection, at any time between callbacks. */
  lemma ClosedInv(s: State, c: Id)
    requires Inv(s) && c in s.active
    ensures Known(s, c) && Inv(CloseAndFree(s, c)) && CloseAndFree(s, c).active == s.active
  {
    InvWeaken(s, c);
    KnownActive(s);
    assert !Settled(s.conns[c]);
    hide Lists, InvBut, CloseAndFree;
    CloseAndFreeInv(s, c);
  }

  lemma WriteRefusedInv(s: State, c: Id, k: Kind)
    requires Inv(s) && c in s.active && Known(s, c)
    ensures Inv(Write(s, c, k, Refused)) && Write(s, c, k, Refused).active == s.active
  {
    hide Lists, InvBut, CloseAndFree;
    var t := s.(conns := s.conns[c := Flagged(s.conns[c], k)]);
    FieldInv(s, c, Flagged(s.conns[c], k));
    ClosedInv(t, c);
  }

  lemma WriteQueuedInv(s: State, c: Id, k: Kind)
    requires Inv(s) && c in s.active && Known(s, c)
    ensures Inv(Write(s, c, k, Queued)) && Write(s, c, k, Queued).active == s.active
  {
    hide Lists, InvBut, CloseAndFree;
    var m := Flagged(s.conns[c], k);
    var t := s.(conns := s.conns[c := m]);
    FieldInv(s, c, m);
    QueuedInv(t, c);
    assert t.conns[c := m.(pendingWrites := m.pendingWrites + 1)] == s.conns[c := m.(pendingWrites := m.pendingWrites + 1)];
  }

  lemma WriteInv(s: State, c: Id, k: Kind, o: Outcome)
    requires Inv(s) && c in s.active
    ensures Known(s, c) && Inv(Write(s, c, k, o)) && Write(s, c, k, o).active == s.active
  {
    ClosedInv(s, c);
    hide Inv, CloseAndFree;
    match o
    case NoMemory =>
    case Refused => WriteRefusedInv(s, c, k);
    case Queued => WriteQueuedInv(s, c, k);
  }

  /** An owed write callback always finds its connection active: it was neither recycled
      nor freed. */
  lemma OwedIsActive(s: State, c: Id)
    requires Inv(s) && c in s.owed
    ensures s.owed[c].inFlight > 0 ==> c in s.active
    ensures s.owed[c].closeDue && c !in s.active ==> Orphan(s.conns[c], s.owed[c]) && c !in s.pool
  {
  }

  lemma DeliveredInv(s: State, c: Id)
    requires Inv(s) && c in s.owed && s.owed[c].inFlight > 0
    ensures c in s.active && Known(s, c) && InvBut(Delivered(s, c), Some(c))
    ensures Delivered(s, c).active == s.active
    ensures !Delivered(s, c).conns[c].finalized
  {
    hide Lists;
    OwedIsActive(s, c);
    InvWeaken(s, c);
    KnownActive(s);
    UpdateInv(s, c, s.conns[c].(pendingWrites := s.conns[c].pendingWrites - 1),
              s.owed[c].(inFlight := s.owed[c].inFlight - 1));
  }

  lemma KnownActive(s: State)
    requires Domains(s)
    ensures forall c | c in s.active :: Known(s, c)
  {
  }

  lemma SetDeadlineInv(s: State, c: Id, at: int)
    requires InvBut(s, Some(c)) && c in s.active && !s.conns[c].closing
    ensures Inv(SetDeadline(s, c, at))
  {
    hide Lists;
    UpdateInv(s, c, s.conns[c].(deadline := at), s.owed[c]);
    assert s.owed[c := s.owed[c]] == s.owed;
  }

  lemma ResponseWrittenInv(s: State, c: Id, hasReq: bool, ok: bool, deadline: int)
    requires Inv(s) && c in s.owed && s.owed[c].inFlight > 0
    ensures Known(s, c) && Inv(ResponseWritten(s, c, hasReq, ok, deadline))
  {
    DeliveredInv(s, c);
    hide Inv, InvBut, Lists, MaybeFinalize, CloseAndFree, Delivered;
    var t := Delivered(s, c);
    if hasReq && !ok {
      CloseAndFreeInv(t, c);
      var u := CloseAndFree(t, c);
      KnownIn(u, c);
      MaybeFinalizeInv(u, c);
    } else if hasReq && !t.conns[c].closing {
      SetDeadlineInv(t, c, deadline);
    } else {
      MaybeFinalizeInv(t, c);
    }
  }

  lemma KnownIn(s: State, c: Id)
    requires InvBut(s, Some(c)) && c in s.active
    ensures Known(s, c)
  {
  }

  lemma SimpleWrittenInv(s: State, c: Id, ok: bool, deadline: int)
    requires Inv(s) && c in s.owed && s.owed[c].inFlight > 0
    ensures Known(s, c) && Inv(SimpleWritten(s, c, ok, deadline))
  {
    DeliveredInv(s, c);
    hide Inv, InvBut, Lists, MaybeFinalize, CloseAndFree, Delivered;
    var t := Delivered(s, c);
    if t.conns[c].closing {
      MaybeFinalizeInv(t, c);
    } else if !ok {
      CloseAndFreeInv(t, c);
    } else {
      SetDeadlineInv(t, c, deadline);
    }
  }

  lemma SseWrittenInv(s: State, c: Id, ok: bool)
    requires Inv(s) && c in s.owed && s.owed[c].inFlight > 0
    ensures Known(s, c) && Inv(SseWritten(s, c, ok))
  {
    DeliveredInv(s, c);
    hide Inv, InvBut, Lists, MaybeFinalize, CloseAndFree, Delivered;
    var t := Delivered(s, c);
    if !ok && !t.conns[c].closing {
      CloseAndFreeInv(t, c);
    } else {
      MaybeFinalizeInv(t, c);
    }
  }

  lemma StreamClosedInv(s: State, c: Id)
    requires Inv(s) && c in s.owed && s.owed[c].closeDue
    ensures Known(s, c) && Inv(StreamClosed(s, c))
  {
    OwedIsActive(s, c);
    hide Lists;
    if c in s.active {
      var n, o := s.conns[c].(closeCbDone := true), s.owed[c].(closeDue := false);
      InvWeaken(s, c);
      UpdateInv(s, c, n, o);
      hide InvBut;
      MaybeFinalizeInv(s.(conns := s.conns[c := n], owed := s.owed[c := o]), c);
    } else {
      OrphanClosed(s, c);
    }
  }

  /** The close callback of a connection whose accept failed changes nothing else. */
  lemma OrphanClosed(s: State, c: Id)
    requires Inv(s) && c in s.conns && c !in s.active && c !in s.pool && Orphan(s.conns[c], s.owed[c])
    ensures Inv(StreamClosed(s, c))
  {
    hide Chain, FreeChain;
    var t := StreamClosed(s, c);
    assert t.conns[c] == s.conns[c].(closeCbDone := true) && t.owed[c] == s.owed[c].(closeDue := false);
    assert Lists(t);
  }

  // ----------------------------------------------------- the remaining events

  /** All of the invariant, with one connection `c` in nobody's hands. */
  ghost predicate InvBeside(s: State, c: Id)
  {
    Beside(s, c) == true
  }

  ghost predicate Beside(s: State, c: Id)
  {
    && Lists(s)
    && c !in s.active && c !in s.pool && c !in s.sses
    && (forall x | x in s.active :: x !in s.pool)
    && (forall x | x in s.active :: Known(s, x)) && (forall x | x in s.pool :: Known(s, x))
    && s.conns.Keys + {c} == s.owed.Keys + {c}
    && (forall x | x in s.active :: Live(s.conns[x], s.owed[x]) && !Settled(s.conns[x]))
    && (forall x | x in s.sses :: x in s.active && s.conns[x].sse)
    && (forall x | x in s.active && s.conns[x].sse :: x in s.sses)
    && (forall x | x in s.pool :: AtRest(s.owed[x]))
    && (forall o | o in s.retired :: o == Owed(0, 1, false, 1))
    && (forall x | x in s.conns && x != c && x !in s.active && x !in s.pool ::
          x in s.owed && Orphan(s.conns[x], s.owed[x]))
  }

  lemma ObtainInv(s: State, newAddr: Id)
    requires Inv(s) && newAddr !in s.conns
    ensures InvBeside(Obtain(s, newAddr).0, Obtain(s, newAddr).1)
  {
    hide Chain, FreeChain;
    FreeInLinks(s.list.(head := s.free), s.pool);
    FreeHead(s.list.(head := s.free), s.pool);
    if s.pool != [] {
      FreePop(s.list.(head := s.free), s.pool);
      var (t, c) := Obtain(s, newAddr);
      assert t.pool == s.pool[1..] && c == s.pool[0];
      assert forall x | x in s.pool :: x == c || x in t.pool;
    }
  }

  lemma FreeHead(l: List, s: seq<Id>)
    requires FreeChain(l, s)
    ensures l.head == At(s, 0)
  {
  }

  lemma LinkingLists(s: State, c: Id, deadline: int)
    requires Lists(s) && c !in s.active && c !in s.pool && (forall x | x in s.active :: x !in s.pool)
    ensures Lists(Linked(s, c, deadline))
  {
    hide Chain, FreeChain;
    var t := Linked(s, c, deadline);
    PushFrontChain(s.list, s.active, c);
    PushFrontFrame(s.list, s.active, c);
    FreeInLinks(s.list.(head := s.free), s.pool);
    FreeDisjoint(s, t);
  }

  lemma FreeDisjoint(s: State, t: State)
    requires FreeChain(s.list.(head := s.free), s.pool)
    requires forall x | x in s.pool :: x in t.list.links && t.list.links[x] == s.list.links[x]
    ensures FreeChain(t.list.(head := s.free), s.pool)
  {
    FreeChainFrame(s.list.(head := s.free), t.list.(head := s.free), s.pool);
  }

  lemma LinkedInv(s: State, c: Id, deadline: int)
    requires InvBeside(s, c)
    ensures Inv(Linked(s, c, deadline))
  {
    hide Lists, AtRest, Orphan;
    LinkingLists(s, c, deadline);
  }

  lemma RecycleLists(s: State, c: Id)
    requires Lists(s) && c !in s.pool && c !in s.active
    ensures Lists(Recycle(s, c))
  {
    hide Chain, FreeChain;
    var t := Recycle(s, c);
    if s.freeN < POOL_MAX {
      FreeInLinks(s.list.(head := s.free), s.pool);
      ChainInLinks(s.list, s.active);
      ChainFrame(s.list, t.list, s.active);
      FreeChainFrame(s.list.(head := s.free), t.list.(head := s.free), s.pool);
      FreePush(t.list.(head := s.free), s.pool, c);
    }
  }

  lemma RecycleInv(s: State, c: Id)
    requires InvBeside(s, c) && Known(s, c) && AtRest(s.owed[c])
    ensures Inv(Recycle(s, c))
  {
    hide Lists, Live, Settled, AtRest, Orphan;
    RecycleLists(s, c);
    var t := Recycle(s, c);
    assert forall x | x in t.pool :: x == c || x in s.pool;
  }

  lemma AcceptInv(s: State, newAddr: Id, initOk: bool, acceptOk: bool, maxConns: int, reply: Outcome, deadline: int)
    requires Inv(s) && newAddr !in s.conns
    ensures Inv(Accept(s, newAddr, initOk, acceptOk, maxConns, reply, deadline))
  {
    ObtainInv(s, newAddr);
    hide Lists, Obtain, Write, Recycle, Inv, InvBut, InvBeside, Linked;
    var (t, c) := Obtain(s, newAddr);
    if !initOk {
      PutBackInv(t, c);
    } else if !acceptOk {
      OrphanInv(t, c);
    } else {
      LinkedInv(t, c, deadline);
      LinkedActive(t, c, deadline);
      WriteInv(Linked(t, c, deadline), c, Simple(true), reply);
    }
  }

  lemma LinkedActive(s: State, c: Id, deadline: int)
    ensures c in Linked(s, c, deadline).active
  {
  }

  lemma BesideUpdate(s: State, c: Id, n: Conn, o: Owed)
    requires InvBeside(s, c)
    ensures InvBeside(s.(conns := s.conns[c := n], owed := s.owed[c := o]), c)
  {
    hide Lists, Live, Settled, Orphan, AtRest;
    ListsOf(s, s.(conns := s.conns[c := n], owed := s.owed[c := o]));
  }

  lemma PutBackInv(s: State, c: Id)
    requires InvBeside(s, c)
    ensures Inv(Recycle(s.(conns := s.conns[c := ZEROED], owed := s.owed[c := Owed(0, 0, false, 0)]), c))
  {
    BesideUpdate(s, c, ZEROED, Owed(0, 0, false, 0));
    hide InvBeside, Recycle, Inv;
    RecycleInv(s.(conns := s.conns[c := ZEROED], owed := s.owed[c := Owed(0, 0, false, 0)]), c);
  }

  lemma ListsOf(s: State, t: State)
    requires Lists(s)
    requires t.list == s.list && t.nConns == s.nConns && t.sseList == s.sseList && t.free == s.free && t.freeN == s.freeN
    requires t.active == s.active && t.sses == s.sses && t.pool == s.pool
    ensures Lists(t)
  {
  }

  lemma AdoptOrphan(s: State, c: Id)
    requires InvBeside(s, c) && Known(s, c) && Orphan(s.conns[c], s.owed[c])
    ensures Inv(s)
  {
    hide Lists, Live, Settled, AtRest, Orphan;
  }

  lemma OrphanInv(s: State, c: Id)
    requires InvBeside(s, c)
    ensures Inv(s.(conns := s.conns[c := ZEROED], owed := s.owed[c := Owed(0, 1, true, 0)]))
  {
    BesideUpdate(s, c, ZEROED, Owed(0, 1, true, 0));
    hide InvBeside, Inv;
    AdoptOrphan(s.(conns := s.conns[c := ZEROED], owed := s.owed[c := Owed(0, 1, true, 0)]), c);
  }

  lemma SweepOneInv(s: State, c: Id, now: int)
    requires Inv(s) && c in s.active
    ensures Inv(SweepOne(s, c, now)) && SweepOne(s, c, now).active == s.active
  {
    KnownActive(s);
    hide Lists, Inv, InvBut, CloseAndFree, Settled;
    var n := s.conns[c].(forceClose := true);
    FieldInv(s, c, n);
    CloseAndFreeInv(s.(conns := s.conns[c := n]), c);
  }

  lemma {:induction false} SweepInv(s: State, todo: seq<Id>, now: int)
    requires Inv(s) && forall c | c in todo :: c in s.active
    ensures Inv(SweepAll(s, todo, now)) && SweepAll(s, todo, now).active == s.active
    decreases todo
  {
    hide Inv, SweepOne;
    if todo != [] {
      SweepOneInv(s, todo[0], now);
      SweepInv(SweepOne(s, todo[0], now), todo[1..], now);
    }
  }

  lemma OpenSseInv(s: State, c: Id, header: Outcome, first: Outcome)
    requires Inv(s) && c in s.active && !s.conns[c].closing && !s.conns[c].sse
    ensures Known(s, c) && Inv(OpenSse(s, c, header, first))
  {
    KnownActive(s);
    WriteInv(s, c, Sse, header);
    if header.Queued? {
      var t := Write(s, c, Sse, Queued);
      WriteInv(s, c, Sse, Queued);
      var u := t.(conns := t.conns[c := t.conns[c].(sse := true)],
                  sseList := PushFront(t.sseList, c), sses := [c] + t.sses);
      SubscribeInv(t, c);
      WriteInv(u, c, Sse, first);
    }
  }

  lemma SubscribeInv(s: State, c: Id)
    requires Inv(s) && c in s.active && !s.conns[c].closing && !s.conns[c].sse
    ensures Inv(s.(conns := s.conns[c := s.conns[c].(sse := true)],
                   sseList := PushFront(s.sseList, c), sses := [c] + s.sses))
  {
    hide Chain, FreeChain;
    PushFrontChain(s.sseList, s.sses, c);
  }

  lemma {:induction false} ReloadInv(s: State, todo: seq<Id>, outcomes: seq<Outcome>)
    requires Inv(s) && forall c | c in todo :: c in s.active
    ensures Inv(ReloadAll(s, todo, outcomes)) && ReloadAll(s, todo, outcomes).active == s.active
    decreases todo
  {
    if todo != [] && outcomes != [] {
      KnownActive(s);
      hide Inv, Write;
      WriteInv(s, todo[0], Sse, outcomes[0]);
      var t := if !s.conns[todo[0]].closing then Write(s, todo[0], Sse, outcomes[0]) else s;
      ReloadInv(t, todo[1..], outcomes[1..]);
    }
  }

  // --------------------------------------------------------------------- runs

  lemma InvDomains(s: State)
    requires Inv(s)
    ensures s.conns.Keys == s.owed.Keys && (forall c | c in s.active :: Known(s, c))
    ensures forall c | c in s.sses :: c in s.active
  {
  }

  lemma StepInv(s: State, e: Event)
    requires Inv(s)
    ensures s.conns.Keys == s.owed.Keys && (forall c | c in s.active :: Known(s, c))
    ensures Inv(Step(s, e))
  {
    InvDomains(s);
    hide Inv, Step;
    if Enabled(s, e) {
      match e
      case Accepted(_, _, _, _, _, _) => AcceptStep(s, e);
      case Writes(_, _, _) => RequestStep(s, e);
      case ReadEnded(_) => RequestStep(s, e);
      case SseRequest(_, _, _) => SseStep(s, e);
      case Sweep(_) => LoopStep(s, e);
      case Reload(_) => LoopStep(s, e);
      case OnResponseWritten(_, _, _, _) => WrittenStep(s, e);
      case OnSimpleWritten(_, _, _) => WrittenStep(s, e);
      case OnSseWritten(_, _) => ClosedStep(s, e);
      case OnStreamClosed(_) => ClosedStep(s, e);
    }
  }

  /** `Step` may be taken. */
  ghost predicate Ready(s: State, e: Event)
  {
    && Inv(s) && Enabled(s, e)
    && s.conns.Keys == s.owed.Keys && (forall c | c in s.active :: Known(s, c))
    && (forall c | c in s.sses :: c in s.active)
  }

  lemma AcceptStep(s: State, e: Event)
    requires Ready(s, e) && e.Accepted?
    ensures Inv(Step(s, e))
  {
    hide Inv, Accept, Write, CloseAndFree, OpenSse, SweepAll, ReloadAll, ResponseWritten, SimpleWritten, SseWritten, StreamClosed;
    AcceptInv(s, e.newAddr, e.initOk, e.acceptOk, e.maxConns, e.reply, e.deadline);
  }

  lemma RequestStep(s: State, e: Event)
    requires Ready(s, e) && (e.Writes? || e.ReadEnded?)
    ensures Inv(Step(s, e))
  {
    hide Inv, Accept, Write, CloseAndFree, OpenSse, SweepAll, ReloadAll, ResponseWritten, SimpleWritten, SseWritten, StreamClosed;
    match e
    case Writes(c, k, o) => WriteInv(s, c, k, o);
    case ReadEnded(c) => ClosedInv(s, c);
  }

  lemma SseStep(s: State, e: Event)
    requires Ready(s, e) && e.SseRequest?
    ensures Inv(Step(s, e))
  {
    hide Inv, Accept, Write, CloseAndFree, OpenSse, SweepAll, ReloadAll, ResponseWritten, SimpleWritten, SseWritten, StreamClosed;
    OpenSseInv(s, e.c, e.header, e.first);
  }

  lemma LoopStep(s: State, e: Event)
    requires Ready(s, e) && (e.Sweep? || e.Reload?)
    ensures Inv(Step(s, e))
  {
    hide Inv, Accept, Write, CloseAndFree, OpenSse, SweepAll, ReloadAll, ResponseWritten, SimpleWritten, SseWritten, StreamClosed;
    match e
    case Sweep(now) => SweepInv(s, s.active, now);
    case Reload(outcomes) => ReloadInv(s, s.sses, outcomes);
  }

  lemma WrittenStep(s: State, e: Event)
    requires Ready(s, e) && (e.OnResponseWritten? || e.OnSimpleWritten?)
    ensures Inv(Step(s, e))
  {
    hide Inv, Accept, Write, CloseAndFree, OpenSse, SweepAll, ReloadAll, ResponseWritten, SimpleWritten, SseWritten, StreamClosed;
    match e
    case OnResponseWritten(c, hasReq, ok, deadline) => ResponseWrittenInv(s, c, hasReq, ok, deadline);
    case OnSimpleWritten(c, ok, deadline) => SimpleWrittenInv(s, c, ok, deadline);
  }

  lemma ClosedStep(s: State, e: Event)
    requires Ready(s, e) && (e.OnSseWritten? || e.OnStreamClosed?)
    ensures Inv(Step(s, e))
  {
    hide Inv, Accept, Write, CloseAndFree, OpenSse, SweepAll, ReloadAll, ResponseWritten, SimpleWritten, SseWritten, StreamClosed;
    match e
    case OnSseWritten(c, ok) => SseWrittenInv(s, c, ok);
    case OnStreamClosed(c) => StreamClosedInv(s, c);
  }

  ghost function Run(s: State, es: seq<Event>): (t: State)
    requires Inv(s)
    ensures Inv(t)
    decreases es
  {
    if es == [] then s else StepInv(s, es[0]); Run(Step(s, es[0]), es[1..])
  }

  lemma StartInv()
    ensures Inv(START)
  {
  }

  /** The teardown theorem: in every run of accepts, writes, write callbacks, closes,
      close callbacks and sweeps, `pending_writes` is the number of writes in flight; a
      stream is closed at most once and a connection finalized at most once, after its
      close callback and with no write in flight; every connection with a callback owed
      is still in memory and linked; `n_conns` is the length of the doubly linked list;
      and the SSE list holds only active connections that are not closing. */
  lemma TeardownSafe(es: seq<Event>)
    ensures Inv(START)
    ensures var s := Run(START, es);
            && Chain(s.list, s.active) && s.nConns == |s.active|
            && (forall c | c in s.active ::
                  Known(s, c) && s.conns[c].pendingWrites == s.owed[c].inFlight && !s.conns[c].finalized)
            && (forall c | c in s.owed :: s.owed[c].closes <= 1 && s.owed[c].finalizations <= 1)
            && (forall c | c in s.owed && s.owed[c].inFlight > 0 :: c in s.active)
            && (forall c | c in s.owed && s.owed[c].finalizations > 0 ::
                  c !in s.active && s.owed[c].inFlight == 0 && !s.owed[c].closeDue)
            && (forall o | o in s.retired :: o == Owed(0, 1, false, 1))
            && Chain(s.sseList, s.sses)
            && (forall c | c in s.sses :: c in s.active && !s.conns[c].closing)
  {
    StartInv();
    var s := Run(START, es);
    forall c | c in s.owed
      ensures s.owed[c].closes <= 1 && s.owed[c].finalizations <= 1
      ensures s.owed[c].inFlight > 0 ==> c in s.active
      ensures s.owed[c].finalizations > 0 ==> c !in s.active && s.owed[c].inFlight == 0 && !s.owed[c].closeDue
    {
      OwedIsActive(s, c);
    }
  }

  /** Nothing is left behind: a closing connection still in the list is waiting for its
      close callback or for a write callback. */
  lemma ClosingIsOwed(es: seq<Event>, c: Id)
    ensures Inv(START)
    ensures var s := Run(START, es);
            c in s.active ==>
              Known(s, c) && (s.conns[c].closing ==> s.owed[c].closeDue || s.owed[c].inFlight > 0)
  {
    StartInv();
    KnownActive(Run(START, es));
  }

  // ----------------------------------------------------------- the event loop

  /** The server's fields: the connection records, their list pointers and the list
      heads. The ghost fields carry what the library owes and what the lists contain. */
  class EventLoop {
    var conns: map<Id, Conn>
    var links: map<Id, Links>
    var head: Option<Id>
    var nConns: int
    var sseLinks: map<Id, Links>
    var sseHead: Option<Id>
    var free: Option<Id>
    var freeN: nat
    ghost var owed: map<Id, Owed>
    ghost var active: seq<Id>
    ghost var sses: seq<Id>
    ghost var pool: seq<Id>
    ghost var retired: seq<Owed>

    ghost function View(): State
      reads this
    {
      State(conns, owed, List(head, links), nConns, List(sseHead, sseLinks), free, freeN, active, sses, pool, retired)
    }

    constructor ()
      ensures View() == START
    {
      conns, links, head, nConns, sseLinks, sseHead, free, freeN := map[], map[], None, 0, map[], None, None, 0;
      owed, active, sses, pool, retired := map[], [], [], [], [];
    }

    /** `conn_unlink`: the code's own pointer surgery, on a well-formed list, is `Bypass`. */
    method Unlink(c: Id)
      requires c in active && Chain(List(head, links), active)
      modifies `links, `head
      ensures var b := Bypass(List(old(head), old(links)), c);
              head == b.head && links == b.links[c := Links(None, None)]
    {
      ChainInLinks(List(head, links), active);
      ghost var k: int := IndexOf(active, c);
      assert links[active[k]] == Links(At(active, k - 1), At(active, k + 1));
      var at := links[c];
      if at.prev.Some? {
        links := SetNext(links, at.prev.value, at.next);
      } else if head == Some(c) {
        head := at.next;
      }
      if at.next.Some? {
        links := SetPrev(links, at.next.value, at.prev);
      } else {
        // no second head test is needed: the head was moved off `c` above
        assert head != Some(c);
      }
      links := links[c := Links(None, None)];
    }

    /** `conn_put`. */
    method RecycleConn(c: Id)
      modifies this
      ensures View() == Recycle(old(View()), c)
    {
      if freeN < POOL_MAX {
        links := links[c := Links(None, free)];
        free := Some(c);
        freeN := freeN + 1;
        pool := [c] + pool;
      } else {
        conns := conns - {c};
        owed := owed - {c};
      }
    }

    method DetachConn(c: Id)
      requires Chain(List(head, links), active) && c in active && c in links && Known(View(), c)
      modifies this
      ensures View() == Detached(old(View()), c)
    {
      hide Bypass, Remove, Chain;
      Unlink(c);
      conns := conns[c := conns[c].(finalized := true)];
      owed := owed[c := owed[c].(finalizations := owed[c].finalizations + 1)];
      retired := retired + [owed[c]];
      nConns := nConns - 1;
      active := Remove(active, c);
    }

    method FinalizeConn(c: Id)
      requires Chain(List(head, links), active) && c in active && c in links && Known(View(), c)
      modifies this
      ensures View() == Finalize(old(View()), c)
    {
      hide Detached, Recycle, Chain;
      if conns[c].finalized {
        return;
      }
      DetachConn(c);
      RecycleConn(c);
    }

    method MaybeFinalizeConn(c: Id)
      requires InvBut(View(), Some(c)) && c in active
      modifies this
      ensures Known(old(View()), c) && View() == MaybeFinalize(old(View()), c) && Inv(View())
    {
      KnownIn(View(), c);
      MaybeFinalizeInv(View(), c);
      if !conns[c].closing || conns[c].finalized {
        return;
      }
      if !conns[c].closeCbDone {
        return;
      }
      if conns[c].pendingWrites > 0 {
        return;
      }
      ListsChain(View(), c);
      hide InvBut, Inv, Finalize;
      FinalizeConn(c);
    }

    method CloseConn(c: Id)
      requires Known(View(), c) && (conns[c].sse ==> c in sses && c in sseLinks)
      modifies `conns, `owed, `sseHead, `sseLinks, `sses
      ensures View() == Close(old(View()), c)
    {
      hide Bypass, Remove;
      var sse := conns[c].sse;
      conns := conns[c := conns[c].(closing := true, sse := false)];
      owed := owed[c := owed[c].(closes := owed[c].closes + 1, closeDue := true)];
      if sse {
        var l := Bypass(List(sseHead, sseLinks), c);
        sseHead, sseLinks := l.head, l.links;
        sses := Remove(sses, c);
      }
    }

    method CloseAndFreeConn(c: Id)
      requires InvBut(View(), Some(c)) && c in active
      modifies this
      ensures Known(old(View()), c) && View() == CloseAndFree(old(View()), c)
    {
      KnownIn(View(), c);
      if conns[c].closing {
        return;
      }
      SseInLinks(View(), c);
      CloseInv(View(), c);
      InvWeaken(Close(View(), c), c);
      hide InvBut, Inv, Close, MaybeFinalize;
      CloseConn(c);
      MaybeFinalizeConn(c);
    }

    /** The body of the sweep for one connection. */
    method SweepConn(c: Id, now: int)
      requires Inv(View()) && c in active
      modifies this
      ensures Inv(View()) && View() == SweepOne(old(View()), c, now) && active == old(active)
    {
      SweepReady(View(), c, now);
      hide SweepOne, Inv, InvBut, CloseAndFree;
      var n := conns[c];
      if !n.closing && !n.finalized && now >= n.deadline {
        ForceClose(c, n);
        hide View;
        CloseAndFreeConn(c);
      }
    }

    method ForceClose(c: Id, n: Conn)
      requires c in conns && n == conns[c]
      modifies `conns
      ensures View() == old(View()).(conns := old(conns)[c := n.(forceClose := true)])
    {
      conns := conns[c := n.(forceClose := true)];
    }

    /** The link to follow is read before the connection is closed. */
    method SweepAt(ghost i: nat, c: Id, now: int) returns (next: Option<Id>)
      requires Inv(View()) && i < |active| && c == active[i]
      modifies this
      ensures Inv(View()) && View() == SweepOne(old(View()), c, now) && active == old(active)
      ensures next == At(active, i + 1)
    {
      ChainAt(View(), i);
      hide SweepOne, Inv, InvBut;
      next := links[c].next;
      SweepConn(c, now);
    }

    /** `conn_sweep_deadlines`: walks the list by its `next` pointers, which closing
        leaves in place, and closes every connection past its deadline. */
    method SweepDeadlines(now: int)
      requires Inv(View())
      modifies this
      ensures Inv(View()) && View() == SweepAll(old(View()), old(active), now)
    {
      ChainAt(View(), 0);
      WholeList(active);
      hide SweepOne, SweepAll, InvBut, Inv, View;
      ghost var i := 0;
      var cur := head;
      while cur.Some?
        invariant Inv(View()) && 0 <= i <= |active| && active == old(active) && cur == At(active, i)
        invariant SweepAll(View(), active[i..], now) == SweepAll(old(View()), old(active), now)
        decreases |active| - i
      {
        SweepFirst(View(), active, i, now);
        cur := SweepAt(i, cur.value, now);
        i := i + 1;
      }
      SweepFirst(View(), active, i, now);
    }
  }

  lemma WholeList(s: seq<Id>)
    ensures s[0..] == s
  {
  }

  lemma SweepFirst(s: State, todo: seq<Id>, i: nat, now: int)
    requires i <= |todo|
    ensures SweepAll(s, todo[i..], now) ==
            if i == |todo| then s else SweepAll(SweepOne(s, todo[i], now), todo[i + 1..], now)
  {
    hide SweepOne;
    if i < |todo| {
      assert todo[i..][1..] == todo[i + 1..];
    }
  }

  lemma SweepReady(s: State, c: Id, now: int)
    requires Inv(s) && c in s.active
    ensures Known(s, c) && Inv(SweepOne(s, c, now)) && SweepOne(s, c, now).active == s.active
    ensures var n := s.conns[c];
            var forced := s.(conns := s.conns[c := n.(forceClose := true)]);
            && InvBut(forced, Some(c))
            && SweepOne(s, c, now) ==
               if !n.closing && !n.finalized && now >= n.deadline then CloseAndFree(forced, c) else s
  {
    KnownActive(s);
    SweepOneInv(s, c, now);
    SweepOneIs(s, c, now);
    var n := s.conns[c].(forceClose := true);
    FieldInv(s, c, n);
    InvWeaken(s.(conns := s.conns[c := n]), c);
  }

  lemma SweepOneIs(s: State, c: Id, now: int)
    requires Known(s, c)
    ensures var n := s.conns[c];
            SweepOne(s, c, now) ==
            if !n.closing && !n.finalized && now >= n.deadline
            then CloseAndFree(s.(conns := s.conns[c := n.(forceClose := true)]), c) else s
  {
    hide CloseAndFree;
  }

  lemma ListsChain(s: State, c: Id)
    requires InvBut(s, Some(c))
    ensures Chain(s.list, s.active) && forall x | x in s.active :: x in s.list.links
  {
    ChainInLinks(s.list, s.active);
  }

  lemma SseInLinks(s: State, c: Id)
    requires InvBut(s, Some(c)) && c in s.active && Known(s, c)
    ensures s.conns[c].sse ==> c in s.sses && c in s.sseList.links
  {
    ChainInLinks(s.sseList, s.sses);
  }

  lemma ChainAt(s: State, i: nat)
    requires Inv(s) && i <= |s.active|
    ensures i == 0 ==> s.list.head == At(s.active, 0)
    ensures i < |s.active| ==> s.active[i] in s.list.links && s.list.links[s.active[i]].next == At(s.active, i + 1)
  {
  }
}
