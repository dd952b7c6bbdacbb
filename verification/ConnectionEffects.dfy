/** What the callbacks bring about: when a connection is closed, who gets a reply, what a
    callback uses up; and that every step leaves the other connections alone. */
module ConnectionEffects {
  import opened Bytes
  import opened LinkedLists
  import opened Connections

  /** Every connection but `c` is as it was. */
  ghost predicate OthersKept(s: State, t: State, c: Id)
  {
    forall x | x != c && Known(s, x) :: Known(t, x) && t.conns[x] == s.conns[x] && t.owed[x] == s.owed[x]
  }

  /** Still linked, closing, with its close callback on the way, and off the SSE list. */
  ghost predicate IsClosing(t: State, c: Id)
  {
    c in t.active && Known(t, c) && t.conns[c].closing && t.owed[c].closeDue && c !in t.sses
  }

  /** A close takes effect at once, but for the finalization. */
  lemma CloseEffect(s: State, c: Id)
    requires InvBut(s, Some(c)) && c in s.active && Known(s, c) && !s.conns[c].closing
    ensures var t := CloseAndFree(s, c);
            && t.active == s.active && IsClosing(t, c) && OthersKept(s, t, c)
            && t.owed[c].inFlight == s.owed[c].inFlight && t.owed[c].closes == s.owed[c].closes + 1
            && (forall x | x in s.sses && x != c :: x in t.sses)
  {
    CloseShape(s, c);
    CloseInv(s, c);
    OffTheList(Close(s, c), c);
    hide InvBut, Lists;
  }

  lemma OffTheList(s: State, c: Id)
    requires Inv(s) && c in s.active && Known(s, c) && !s.conns[c].sse
    ensures c !in s.sses
  {
    hide Lists;
  }

  lemma CloseShape(s: State, c: Id)
    requires InvBut(s, Some(c)) && c in s.active && Known(s, c) && !s.conns[c].closing
    ensures var t := Close(s, c);
            && CloseAndFree(s, c) == t && t.active == s.active && OthersKept(s, t, c)
            && Known(t, c) && t.conns[c] == s.conns[c].(closing := true, sse := false)
            && t.owed[c] == s.owed[c].(closes := s.owed[c].closes + 1, closeDue := true)
            && (forall x | x in s.sses && x != c :: x in t.sses)
  {
    OpenConn(s, c);
    CloseSses(s, c);
    hide InvBut;
    CloseIs(s, c);
    CloseFields(s, c);
    hide Close, CloseAndFree, OthersKept;
  }

  lemma CloseIs(s: State, c: Id)
    requires Known(s, c) && !s.conns[c].closing && !s.conns[c].closeCbDone
    ensures CloseAndFree(s, c) == Close(s, c)
  {
    hide Bypass, Remove, Finalize;
  }

  lemma CloseFields(s: State, c: Id)
    requires Known(s, c)
    ensures var t := Close(s, c);
            && t.active == s.active && OthersKept(s, t, c)
            && Known(t, c) && t.conns[c] == s.conns[c].(closing := true, sse := false)
            && t.owed[c] == s.owed[c].(closes := s.owed[c].closes + 1, closeDue := true)
  {
    hide Bypass, Remove;
  }

  lemma CloseSses(s: State, c: Id)
    requires InvBut(s, Some(c)) && Known(s, c)
    ensures forall x | x in s.sses && x != c :: x in Close(s, c).sses
  {
    if c in s.sses {
      SseRemoved(s, c);
    }
    hide InvBut, Bypass, Remove;
  }

  lemma SseRemoved(s: State, c: Id)
    requires InvBut(s, Some(c)) && c in s.sses
    ensures forall x | x in s.sses && x != c :: x in Remove(s.sses, c)
  {
    RemoveFactsChain(s.sseList, s.sses, c);
  }

  lemma OthersTrans(s: State, t: State, u: State, c: Id)
    requires OthersKept(s, t, c) && OthersKept(t, u, c)
    ensures OthersKept(s, u, c)
  {
  }

  // ------------------------------------------------------------ failures close

  /** Something went wrong on `c`: a write failed, found no memory or was refused, or the
      peer is gone. */
  predicate Fails(e: Event, c: Id)
  {
    match e
    case OnResponseWritten(x, hasReq, ok, _) => x == c && hasReq && !ok
    case OnSimpleWritten(x, ok, _) => x == c && !ok
    case OnSseWritten(x, ok) => x == c && !ok
    case Writes(x, _, o) => x == c && !o.Queued?
    case ReadEnded(x) => x == c
    case _ => false
  }

  /** Every failure of an open connection closes it, and only it. */
  lemma FailureCloses(s: State, e: Event, c: Id)
    requires Inv(s) && Enabled(s, e) && Fails(e, c) && c in s.active && Known(s, c) && !s.conns[c].closing
    ensures s.conns.Keys == s.owed.Keys && (forall x | x in s.active :: Known(s, x))
    ensures IsClosing(Step(s, e), c) && Step(s, e).active == s.active && OthersKept(s, Step(s, e), c)
  {
    InvDomains(s);
    InvWeaken(s, c);
    hide Inv, InvBut, CloseAndFree, MaybeFinalize, Delivered, Accept, OpenSse, SweepAll, ReloadAll, StreamClosed;
    match e
    case OnResponseWritten(_, _, _, _) => DeliveredCloses(s, c);
    case OnSimpleWritten(_, _, _) => DeliveredCloses(s, c);
    case OnSseWritten(_, _) => DeliveredCloses(s, c);
    case Writes(_, k, o) => WriteCloses(s, c, k, o);
    case ReadEnded(_) => CloseEffect(s, c);
  }

  lemma DeliveredShape(s: State, c: Id)
    requires Known(s, c) && s.owed[c].inFlight > 0
    ensures var t := Delivered(s, c);
            && Known(t, c) && OthersKept(s, t, c) && t.active == s.active && t.sses == s.sses
            && t.conns[c] == s.conns[c].(pendingWrites := s.conns[c].pendingWrites - 1)
            && t.owed[c] == s.owed[c].(inFlight := s.owed[c].inFlight - 1)
  {
  }

  lemma DeliveredCloses(s: State, c: Id)
    requires Inv(s) && c in s.active && Known(s, c) && !s.conns[c].closing && s.owed[c].inFlight > 0
    ensures var t := Delivered(s, c);
            && Known(t, c) && !t.conns[c].closing && !t.conns[c].finalized
            && IsClosing(CloseAndFree(t, c), c) && IsClosing(AfterClose(t, c), c)
            && CloseAndFree(t, c).active == s.active && AfterClose(t, c).active == s.active
            && OthersKept(s, CloseAndFree(t, c), c) && OthersKept(s, AfterClose(t, c), c)
  {
    DeliveredInv(s, c);
    DeliveredShape(s, c);
    hide Inv, InvBut, Delivered;
    var t := Delivered(s, c);
    CloseEffect(t, c);
    CloseShape(t, c);
    OpenConn(t, c);
    hide Close, CloseAndFree, Finalize;
    assert MaybeFinalize(CloseAndFree(t, c), c) == CloseAndFree(t, c);
  }

  lemma WriteCloses(s: State, c: Id, k: Kind, o: Outcome)
    requires Inv(s) && c in s.active && Known(s, c) && !s.conns[c].closing && !o.Queued?
    ensures var t := Write(s, c, k, o);
            && IsClosing(t, c) && t.active == s.active && OthersKept(s, t, c)
            && t.owed[c].inFlight == s.owed[c].inFlight
            && (forall x | x in s.sses && x != c :: x in t.sses)
  {
    InvWeaken(s, c);
    hide Inv, InvBut, CloseAndFree, IsClosing;
    if o.NoMemory? {
      CloseEffect(s, c);
    } else {
      var m := Flagged(s.conns[c], k);
      FlagsShape(s, c, k);
      FieldInv(s, c, m);
      hide Flagged, OthersKept;
      var t := s.(conns := s.conns[c := m]);
      CloseEffect(t, c);
      OthersTrans(s, t, CloseAndFree(t, c), c);
    }
  }

  lemma FlagsShape(s: State, c: Id, k: Kind)
    requires Known(s, c)
    ensures var m := Flagged(s.conns[c], k);
            && m == s.conns[c].(deadline := m.deadline, keepAlive := m.keepAlive, forceClose := m.forceClose)
            && m.closing == s.conns[c].closing
            && OthersKept(s, s.(conns := s.conns[c := m]), c)
  {
  }

  /** A queued write is one more callback to come. */
  lemma WriteQueues(s: State, c: Id, k: Kind)
    requires Known(s, c)
    ensures var t := Write(s, c, k, Queued);
            && Known(t, c) && OthersKept(s, t, c) && t.active == s.active && t.sses == s.sses
            && t.conns[c] == Flagged(s.conns[c], k).(pendingWrites := s.conns[c].pendingWrites + 1)
            && t.owed[c] == s.owed[c].(inFlight := s.owed[c].inFlight + 1)
  {
  }

  // --------------------------------------------------------- callbacks count down

  /** A callback uses up what was owed: if the connection is still linked afterwards, one
      write fewer is in flight, or its close callback is no longer due. */
  lemma CallbackConsumed(s: State, e: Event, c: Id)
    requires Inv(s) && Enabled(s, e) && c in s.active && Known(s, c)
    requires (e.OnResponseWritten? || e.OnSimpleWritten? || e.OnSseWritten? || e.OnStreamClosed?) && e.c == c
    ensures s.conns.Keys == s.owed.Keys && (forall x | x in s.active :: Known(s, x))
    ensures var t := Step(s, e);
            && OthersKept(s, t, c)
            && (c in t.active ==>
                  && Known(t, c)
                  && t.owed[c].inFlight == s.owed[c].inFlight - (if e.OnStreamClosed? then 0 else 1)
                  && (e.OnStreamClosed? ==> !t.owed[c].closeDue))
  {
    InvDomains(s);
    hide Inv, InvBut, Delivered, CloseAndFree, MaybeFinalize, StreamClosed, OthersKept, Accept, OpenSse, SweepAll, ReloadAll, Write;
    if e.OnStreamClosed? {
      CloseCallback(s, c);
    } else {
      WrittenConsumed(s, c);
      WrittenIs(s, e, c);
    }
  }

  /** What a write callback comes to, besides a new deadline. */
  lemma WrittenIs(s: State, e: Event, c: Id)
    requires Known(s, c) && s.owed[c].inFlight > 0 && Known(Delivered(s, c), c)
    requires (e.OnResponseWritten? || e.OnSimpleWritten? || e.OnSseWritten?) && e.c == c
    requires s.conns.Keys == s.owed.Keys && (forall x | x in s.active :: Known(s, x))
    requires Known(CloseAndFree(Delivered(s, c), c), c)
    requires Delivered(s, c).conns[c].closing ==> CloseAndFree(Delivered(s, c), c) == Delivered(s, c)
    requires Enabled(s, e)
    ensures var t, d := Step(s, e), Delivered(s, c);
            || t == MaybeFinalize(d, c)
            || (!d.conns[c].closing && !d.conns[c].finalized
                && (t == CloseAndFree(d, c) || t == AfterClose(d, c) || exists at :: t == SetDeadline(d, c, at)))
  {
    hide Delivered, CloseAndFree, MaybeFinalize;
  }

  lemma WrittenConsumed(s: State, c: Id)
    requires Inv(s) && c in s.active && Known(s, c) && s.owed[c].inFlight > 0
    ensures var d := Delivered(s, c);
            && Known(d, c) && Known(CloseAndFree(d, c), c) && Consumed(s, MaybeFinalize(d, c), c)
            && (d.conns[c].closing ==> CloseAndFree(d, c) == d)
            && (!d.conns[c].closing ==>
                  Consumed(s, CloseAndFree(d, c), c) && Consumed(s, AfterClose(d, c), c)
                  && forall at :: Consumed(s, SetDeadline(d, c, at), c))
  {
    DeliveredInv(s, c);
    DeliveredShape(s, c);
    var d := Delivered(s, c);
    ActiveChain(d, c);
    hide Inv, InvBut, Delivered, Chain, OthersKept, MaybeFinalize, SetDeadline, Consumed;
    FinalizeConsumed(s, d, c);
    if d.conns[c].closing {
      assert CloseAndFree(d, c) == d;
    } else {
      hide CloseAndFree, AfterClose;
      OpenConsumed(s, d, c);
    }
  }

  lemma FinalizeConsumed(s: State, d: State, c: Id)
    requires Known(s, c) && Known(d, c) && c in d.active && Chain(d.list, d.active)
    requires OthersKept(s, d, c) && d.owed[c].inFlight == s.owed[c].inFlight - 1
    ensures Consumed(s, MaybeFinalize(d, c), c)
  {
    hide OthersKept, Chain;
    MaybeFinalizeEffect(d, c);
    hide MaybeFinalize;
    OthersTrans(s, d, MaybeFinalize(d, c), c);
  }

  lemma OpenConsumed(s: State, d: State, c: Id)
    requires Known(s, c) && InvBut(d, Some(c)) && c in d.active && Known(d, c) && !d.conns[c].closing
    requires OthersKept(s, d, c) && d.owed[c].inFlight == s.owed[c].inFlight - 1
    ensures Known(CloseAndFree(d, c), c) && Consumed(s, CloseAndFree(d, c), c) && Consumed(s, AfterClose(d, c), c)
    ensures forall at :: Consumed(s, SetDeadline(d, c, at), c)
  {
    CloseEffect(d, c);
    StillClosing(d, c);
    hide InvBut, CloseAndFree, AfterClose, OthersKept;
    OthersTrans(s, d, CloseAndFree(d, c), c);
    forall at
      ensures Consumed(s, SetDeadline(d, c, at), c)
    {
      DeadlineShape(d, c, at);
      OthersTrans(s, d, SetDeadline(d, c, at), c);
    }
  }

  lemma DeadlineShape(s: State, c: Id, at: int)
    requires Known(s, c)
    ensures var t := SetDeadline(s, c, at);
            Known(t, c) && OthersKept(s, t, c) && t.owed == s.owed && t.active == s.active
  {
  }

  /** One write fewer in flight, unless the connection left the list; the others as before. */
  ghost predicate Consumed(s: State, t: State, c: Id)
    requires Known(s, c)
  {
    OthersKept(s, t, c) && (c in t.active ==> Known(t, c) && t.owed[c].inFlight == s.owed[c].inFlight - 1)
  }

  lemma StillClosing(s: State, c: Id)
    requires InvBut(s, Some(c)) && c in s.active && Known(s, c) && !s.conns[c].closing
    ensures AfterClose(s, c) == CloseAndFree(s, c)
  {
    CloseShape(s, c);
    OpenConn(s, c);
    hide Close, InvBut, Finalize;
  }

  lemma ActiveChain(s: State, c: Id)
    requires InvBut(s, Some(c))
    ensures Chain(s.list, s.active)
  {
  }

  lemma CloseCallback(s: State, c: Id)
    requires Inv(s) && c in s.active && Known(s, c)
    ensures var t := StreamClosed(s, c);
            && OthersKept(s, t, c)
            && (c in t.active ==> Known(t, c) && t.owed[c] == s.owed[c].(closeDue := false))
  {
    InvWeaken(s, c);
    ActiveChain(s, c);
    hide Inv, InvBut, Chain;
    var n, o := s.conns[c].(closeCbDone := true), s.owed[c].(closeDue := false);
    var u := s.(conns := s.conns[c := n], owed := s.owed[c := o]);
    OwnFields(s, c, n, o);
    hide OthersKept;
    MaybeFinalizeEffect(u, c);
    hide MaybeFinalize;
    OthersTrans(s, u, StreamClosed(s, c), c);
  }

  lemma OwnFields(s: State, c: Id, n: Conn, o: Owed)
    ensures OthersKept(s, s.(conns := s.conns[c := n], owed := s.owed[c := o]), c)
  {
  }

  lemma ChainDistinct(s: State, c: Id)
    requires Chain(s.list, s.active) && c in s.active
    ensures c !in Remove(s.active, c)
  {
    RemoveFactsChain(s.list, s.active, c);
  }

  /** Finalizing touches one connection, which it takes off the list. */
  lemma MaybeFinalizeEffect(s: State, c: Id)
    requires Known(s, c) && c in s.active && Chain(s.list, s.active)
    ensures var t := MaybeFinalize(s, c);
            OthersKept(s, t, c) && (t == s || c !in t.active)
  {
    ChainDistinct(s, c);
    hide Remove, Bypass, Chain;
  }

  // ------------------------------------------------------------------- accepts

  /** A connection whose accept went through is the first of the list, with nothing sent
      and its deadline set - unless the list is now longer than `maxConns`: then it gets one
      reply that closes it afterwards, or is closed at once when that cannot be sent. The
      others stay as they are. */
  lemma AcceptEffect(s: State, newAddr: Id, maxConns: int, reply: Outcome, deadline: int) returns (c: Id)
    requires Inv(s) && newAddr !in s.conns
    ensures var t := Accept(s, newAddr, true, true, maxConns, reply, deadline);
            && c !in s.active && t.active == [c] + s.active && Known(t, c) && OthersKept(s, t, c)
            && if |s.active| + 1 <= maxConns then
                 t.conns[c] == Conn(false, false, false, 0, deadline, true, false, false) && t.owed[c].inFlight == 0
               else if reply.Queued? then
                 !t.conns[c].closing && t.conns[c].forceClose && !t.conns[c].keepAlive && t.owed[c].inFlight == 1
               else IsClosing(t, c) && t.owed[c].inFlight == 0
  {
    ObtainInv(s, newAddr);
    ObtainShape(s, newAddr);
    hide Inv, InvBut, InvBeside, OthersKept;
    var t := Obtain(s, newAddr).0;
    c := Obtain(s, newAddr).1;
    hide Obtain;
    LinkedInv(t, c, deadline);
    LinkedShape(t, c, deadline);
    var u := Linked(t, c, deadline);
    CountIs(u);
    hide Linked;
    OthersTrans(s, t, u, c);
    if |s.active| + 1 > maxConns {
      OverflowReply(u, c, reply);
      hide Write, IsClosing;
      OthersTrans(s, u, Write(u, c, Simple(true), reply), c);
    }
  }

  lemma OverflowReply(s: State, c: Id, reply: Outcome)
    requires Inv(s) && c in s.active && Known(s, c) && !s.conns[c].closing
    ensures var t := Write(s, c, Simple(true), reply);
            && t.active == s.active && Known(t, c) && OthersKept(s, t, c)
            && if reply.Queued? then
                 && t.conns[c].closing == s.conns[c].closing && t.conns[c].forceClose && !t.conns[c].keepAlive
                 && t.owed[c].inFlight == s.owed[c].inFlight + 1
               else IsClosing(t, c) && t.owed[c].inFlight == s.owed[c].inFlight
  {
    hide Inv, OthersKept;
    if reply.Queued? {
      WriteQueues(s, c, Simple(true));
    } else {
      WriteCloses(s, c, Simple(true), reply);
      hide Write;
    }
  }

  lemma ObtainShape(s: State, newAddr: Id)
    requires Inv(s) && newAddr !in s.conns
    ensures var (t, c) := Obtain(s, newAddr);
            t.active == s.active && t.conns == s.conns && t.owed == s.owed && OthersKept(s, t, c) && c !in s.active
  {
    ObtainInv(s, newAddr);
    hide Inv;
    NotActive(Obtain(s, newAddr).0, Obtain(s, newAddr).1);
    hide InvBeside;
    ObtainSame(s, newAddr);
    hide Obtain;
  }

  lemma ObtainSame(s: State, newAddr: Id)
    ensures var t := Obtain(s, newAddr).0;
            t.active == s.active && t.conns == s.conns && t.owed == s.owed
  {
  }

  lemma NotActive(s: State, c: Id)
    requires InvBeside(s, c)
    ensures c !in s.active
  {
  }

  /** A new connection is the one pooled last, and a new allocation only if none is pooled. */
  lemma PoolReused(s: State, newAddr: Id)
    requires Inv(s) && newAddr !in s.conns
    ensures var (t, c) := Obtain(s, newAddr);
            if s.pool == [] then c == newAddr && t == s
            else c == s.pool[0] && t.pool == s.pool[1..] && t.freeN == |t.pool|
  {
    hide Chain, FreeChain;
    FreeInLinks(s.list.(head := s.free), s.pool);
    FreeHead(s.list.(head := s.free), s.pool);
  }

  lemma LinkedShape(s: State, c: Id, deadline: int)
    ensures var t := Linked(s, c, deadline);
            && t.active == [c] + s.active && t.sses == s.sses && Known(t, c) && OthersKept(s, t, c)
            && t.conns[c] == ZEROED.(deadline := deadline) && t.owed[c] == Owed(0, 0, false, 0)
  {
  }

  lemma CountIs(s: State)
    requires Inv(s)
    ensures s.nConns == |s.active|
  {
  }

  /** An accept that failed adds nothing to the list: without a stream the connection goes
      back to the pool, otherwise it is closed. */
  lemma FailedAcceptEffect(s: State, newAddr: Id, initOk: bool, maxConns: int, reply: Outcome, deadline: int)
    requires Inv(s) && newAddr !in s.conns
    ensures var (t, c) := (Accept(s, newAddr, initOk, false, maxConns, reply, deadline), Obtain(s, newAddr).1);
            && t.active == s.active && OthersKept(s, t, c)
            && (initOk ==> Known(t, c) && t.owed[c] == Owed(0, 1, true, 0))
            && (!initOk ==> if Obtain(s, newAddr).0.freeN < POOL_MAX then t.pool == [c] + Obtain(s, newAddr).0.pool
                            else !Known(t, c))
  {
    ObtainShape(s, newAddr);
    hide Inv, OthersKept;
    var t, c := Obtain(s, newAddr).0, Obtain(s, newAddr).1;
    hide Obtain;
    var o := if initOk then Owed(0, 1, true, 0) else Owed(0, 0, false, 0);
    var u := t.(conns := t.conns[c := ZEROED], owed := t.owed[c := o]);
    OwnFields(t, c, ZEROED, o);
    OthersTrans(s, t, u, c);
    if !initOk {
      RecycleShape(u, c);
      hide Recycle;
      OthersTrans(s, u, Recycle(u, c), c);
    }
  }

  lemma RecycleShape(s: State, c: Id)
    ensures var t := Recycle(s, c);
            && t.active == s.active && OthersKept(s, t, c)
            && if s.freeN < POOL_MAX then t.pool == [c] + s.pool else !Known(t, c)
  {
  }

  // -------------------------------------------------------------------- sweeps

  lemma SweepOneEffect(s: State, c: Id, now: int)
    requires Inv(s) && c in s.active && Known(s, c)
    ensures var t := SweepOne(s, c, now);
            && t.active == s.active && OthersKept(s, t, c) && Known(t, c)
            && (t.conns[c].closing <==> s.conns[c].closing || now >= s.conns[c].deadline)
            && t.owed[c].inFlight == s.owed[c].inFlight
  {
    SweepReady(s, c, now);
    ActiveOpen(s, c);
    hide Inv, InvBut, SweepOne;
    var n := s.conns[c];
    var forced := s.(conns := s.conns[c := n.(forceClose := true)]);
    hide OthersKept;
    FieldOthers(s, c, n.(forceClose := true));
    if !n.closing && now >= n.deadline {
      CloseEffect(forced, c);
      hide CloseAndFree;
      OthersTrans(s, forced, CloseAndFree(forced, c), c);
    } else {
      OthersSame(s, c);
    }
  }

  lemma FieldOthers(s: State, c: Id, n: Conn)
    ensures OthersKept(s, s.(conns := s.conns[c := n]), c)
  {
  }

  lemma OthersSame(s: State, c: Id)
    ensures OthersKept(s, s, c)
  {
  }

  lemma ActiveOpen(s: State, c: Id)
    requires Inv(s) && c in s.active && Known(s, c)
    ensures !s.conns[c].finalized
  {
  }

  /** The sweep closes exactly the connections past their deadlines. */
  lemma {:induction false} SweepEffect(s: State, todo: seq<Id>, now: int)
    requires Inv(s) && (forall c | c in todo :: c in s.active) && (forall c | c in s.active :: Known(s, c))
    ensures var t := SweepAll(s, todo, now);
            && t.active == s.active && (forall c | c in s.active :: Known(t, c))
            && forall c | c in s.active ::
                 if c in todo then t.conns[c].closing <==> s.conns[c].closing || now >= s.conns[c].deadline
                 else t.conns[c] == s.conns[c]
    decreases todo
  {
    hide Inv, SweepOne;
    if todo != [] {
      var c := todo[0];
      var u := SweepOne(s, c, now);
      SweepOneEffect(s, c, now);
      SweepOneInv(s, c, now);
      SweepEffect(u, todo[1..], now);
      if c in todo[1..] {
        SameDeadline(s, c, now);
      }
    }
  }

  lemma SameDeadline(s: State, c: Id, now: int)
    requires Inv(s) && c in s.active && Known(s, c)
    ensures Known(SweepOne(s, c, now), c) && SweepOne(s, c, now).conns[c].deadline == s.conns[c].deadline
  {
    SweepReady(s, c, now);
    var forced := s.(conns := s.conns[c := s.conns[c].(forceClose := true)]);
    hide Inv, InvBut, SweepOne;
    if !s.conns[c].closing && !s.conns[c].finalized && now >= s.conns[c].deadline {
      CloseShape(forced, c);
      hide Close;
    }
  }

  // ----------------------------------------------------------- event streams

  lemma SseOthers(s: State, t: State, c: Id, n: Conn)
    requires t.owed == s.owed && t.conns == s.conns[c := n]
    ensures OthersKept(s, t, c)
  {
  }

  /** A stream request whose header is queued puts the connection at the front of the
      event-stream list and sends it a first event; if that cannot be sent, or the header
      cannot, the connection is closed and off the list. */
  lemma OpenSseEffect(s: State, c: Id, header: Outcome, first: Outcome)
    requires Inv(s) && c in s.active && Known(s, c) && !s.conns[c].closing && !s.conns[c].sse
    ensures var t := OpenSse(s, c, header, first);
            && t.active == s.active && OthersKept(s, t, c)
            && if header.Queued? && first.Queued? then
                 && t.sses == [c] + s.sses && Known(t, c) && !t.conns[c].closing
                 && t.owed[c].inFlight == s.owed[c].inFlight + 2
               else IsClosing(t, c)
  {
    WriteEffect(s, c, header);
    hide Inv, OthersKept, IsClosing;
    if header.Queued? {
      hide Write;
      SubscribedEffect(s, c, first);
      hide PushFront;
    }
  }

  /** One write to an open connection. */
  lemma WriteEffect(s: State, c: Id, o: Outcome)
    requires Inv(s) && c in s.active && Known(s, c) && !s.conns[c].closing
    ensures var t := Write(s, c, Sse, o);
            && t.active == s.active && OthersKept(s, t, c) && Known(t, c)
            && if o.Queued? then
                 && t.sses == s.sses && !t.conns[c].closing && t.conns[c].sse == s.conns[c].sse
                 && t.owed[c].inFlight == s.owed[c].inFlight + 1
               else IsClosing(t, c)
  {
    hide Inv, OthersKept;
    if o.Queued? {
      WriteQueues(s, c, Sse);
    } else {
      WriteCloses(s, c, Sse, o);
      hide Write;
    }
  }

  lemma SubscribedEffect(s: State, c: Id, first: Outcome)
    requires Inv(s) && c in s.active && Known(s, c) && !s.conns[c].closing && !s.conns[c].sse
    ensures var t := Write(s, c, Sse, Queued);
            Known(t, c) &&
            var u := t.(conns := t.conns[c := t.conns[c].(sse := true)],
                        sseList := PushFront(t.sseList, c), sses := [c] + t.sses);
            var v := Write(u, c, Sse, first);
            && v.active == s.active && OthersKept(s, v, c)
            && if first.Queued? then
                 && v.sses == [c] + s.sses && Known(v, c) && !v.conns[c].closing
                 && v.owed[c].inFlight == s.owed[c].inFlight + 2
               else IsClosing(v, c)
  {
    WriteEffect(s, c, Queued);
    WriteInv(s, c, Sse, Queued);
    hide Inv, OthersKept, PushFront, IsClosing, Write;
    var t := Write(s, c, Sse, Queued);
    var u := t.(conns := t.conns[c := t.conns[c].(sse := true)],
                sseList := PushFront(t.sseList, c), sses := [c] + t.sses);
    SubscribeInv(t, c);
    SseOthers(t, u, c, t.conns[c].(sse := true));
    WriteEffect(u, c, first);
    OthersTrans(s, t, u, c);
    OthersTrans(s, u, Write(u, c, Sse, first), c);
  }

  /** What a reload does to a client: an open one has one more event in flight, or is
      closed. */
  ghost predicate Told(s: State, t: State, c: Id, o: Outcome)
    requires Known(s, c)
  {
    && Known(t, c)
    && (!s.conns[c].closing ==>
          if o.Queued? then !t.conns[c].closing && t.owed[c].inFlight == s.owed[c].inFlight + 1
          else t.conns[c].closing)
  }

  ghost predicate Kept(s: State, t: State, c: Id)
    requires Known(s, c)
  {
    Known(t, c) && t.conns[c] == s.conns[c] && t.owed[c] == s.owed[c]
  }

  lemma ReloadOne(s: State, c: Id, o: Outcome)
    requires Inv(s) && c in s.active && Known(s, c)
    ensures var t := if s.conns[c].closing then s else Write(s, c, Sse, o);
            && Inv(t) && t.active == s.active && Told(s, t, c, o)
            && forall x | x != c && Known(s, x) :: Kept(s, t, x)
  {
    WriteInv(s, c, Sse, o);
    hide Inv, Write, OthersKept, Kept, Told;
    if s.conns[c].closing {
      OthersSame(s, c);
      OthersAreKept(s, s, c);
      ClosedTold(s, c, o);
    } else {
      ReloadOpen(s, c, o);
      OthersAreKept(s, Write(s, c, Sse, o), c);
    }
  }

  lemma ClosedTold(s: State, c: Id, o: Outcome)
    requires Known(s, c) && s.conns[c].closing
    ensures Told(s, s, c, o)
  {
  }

  lemma ReloadOpen(s: State, c: Id, o: Outcome)
    requires Inv(s) && c in s.active && Known(s, c) && !s.conns[c].closing
    ensures Told(s, Write(s, c, Sse, o), c, o) && OthersKept(s, Write(s, c, Sse, o), c)
    ensures Write(s, c, Sse, o).active == s.active
  {
    WriteEffect(s, c, o);
    hide Inv, Write, OthersKept;
  }

  lemma OthersAreKept(s: State, t: State, c: Id)
    requires OthersKept(s, t, c)
    ensures forall x | x != c && Known(s, x) :: Kept(s, t, x)
  {
  }

  /** A reload sends every open client of the list one event each, or closes it. */
  lemma {:induction false} ReloadEffect(s: State, todo: seq<Id>, outcomes: seq<Outcome>)
    requires Inv(s) && |todo| == |outcomes| && Distinct(todo)
    requires (forall c | c in todo :: c in s.active) && (forall c | c in s.active :: Known(s, c))
    ensures var t := ReloadAll(s, todo, outcomes);
            && t.active == s.active
            && (forall c | c in s.active && c !in todo :: Kept(s, t, c))
            && forall i | 0 <= i < |todo| :: Told(s, t, todo[i], outcomes[i])
    decreases todo
  {
    hide Inv, Write, Told, Kept;
    if todo == [] {
      forall c | c in s.active
        ensures Kept(s, s, c)
      {
        KeptSame(s, c);
      }
    } else {
      var c := todo[0];
      assert c in todo;
      var u := if s.conns[c].closing then s else Write(s, c, Sse, outcomes[0]);
      ReloadOne(s, c, outcomes[0]);
      DistinctTail(todo);
      hide Distinct;
      forall x | x in s.active
        ensures Known(u, x)
      {
        KeptKnown(s, u, x, c, outcomes[0]);
      }
      ReloadEffect(u, todo[1..], outcomes[1..]);
      var t := ReloadAll(s, todo, outcomes);
      ToldThenKept(s, u, t, c, outcomes[0]);
      forall x | x in s.active && x !in todo
        ensures Kept(s, t, x)
      {
        KeptTwice(s, u, t, x);
      }
      forall i | 0 < i < |todo|
        ensures Told(s, t, todo[i], outcomes[i])
      {
        assert todo[i] == todo[1..][i - 1] && outcomes[i] == outcomes[1..][i - 1] && todo[i] in todo[1..];
        KeptThenTold(s, u, t, todo[i], outcomes[i]);
      }
    }
  }

  lemma KeptSame(s: State, c: Id)
    requires Known(s, c)
    ensures Kept(s, s, c)
  {
  }

  lemma KeptKnown(s: State, u: State, x: Id, c: Id, o: Outcome)
    requires Known(s, x) && Known(s, c) && Told(s, u, c, o) && (x != c ==> Kept(s, u, x))
    ensures Known(u, x)
  {
  }

  lemma KeptTwice(s: State, u: State, t: State, c: Id)
    requires Known(s, c) && Kept(s, u, c) && Known(u, c) && Kept(u, t, c)
    ensures Kept(s, t, c)
  {
  }

  lemma ToldThenKept(s: State, u: State, t: State, c: Id, o: Outcome)
    requires Known(s, c) && Told(s, u, c, o) && Known(u, c) && Kept(u, t, c)
    ensures Told(s, t, c, o)
  {
  }

  lemma KeptThenTold(s: State, u: State, t: State, c: Id, o: Outcome)
    requires Known(s, c) && Kept(s, u, c) && Known(u, c) && Told(u, t, c, o)
    ensures Told(s, t, c, o)
  {
  }

  lemma DistinctTail(s: seq<Id>)
    requires Distinct(s) && s != []
    ensures Distinct(s[1..]) && s[0] !in s[1..]
  {
    assert forall i | 0 <= i < |s| - 1 :: s[1..][i] == s[i + 1];
  }
}
