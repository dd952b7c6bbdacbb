/** Callbacks of server-function calls: the table of pending calls and the table of fetches
    they share with every other request of the client. */
module CallTable {
  import opened Bytes

  /** `SF_PENDING_MAX` and `MAX_PENDING_FETCHES`. */
  const SLOTS := 32

  /** A fetch in flight, with the pending slot its callback will look at. */
  datatype Fetch = Free | ForCall(slot: nat) | ForOther

  /** Calls are numbered in the order they are accepted. `answered` lists the calls whose
      callback ran, `stranded` those that were accepted while no fetch was free. */
  datatype State = State(pending: seq<Option<nat>>, fetches: seq<Fetch>,
                         accepted: nat, answered: seq<nat>, stranded: set<nat>)

  const START := State(seq(SLOTS, _ => None), seq(SLOTS, _ => Free), 0, [], {})

  function FirstNone(p: seq<Option<nat>>): (k: nat)
    ensures k <= |p| && (forall i | 0 <= i < k :: p[i].Some?) && (k < |p| ==> p[k].None?)
  {
    if p == [] || p[0].None? then 0 else 1 + FirstNone(p[1..])
  }

  function FirstFree(f: seq<Fetch>): (k: nat)
    ensures k <= |f| && (forall i | 0 <= i < k :: !f[i].Free?) && (k < |f| ==> f[k].Free?)
  {
    if f == [] || f[0].Free? then 0 else 1 + FirstFree(f[1..])
  }

  // -------------------------------------------------------------------- steps

  datatype Event = Submit | OtherRequest | Done(i: nat)

  /** A call takes the first free slot, then the first free fetch; without a fetch it is
      left where it is. */
  function Submitted(s: State): State
  {
    var k, i := FirstNone(s.pending), FirstFree(s.fetches);
    if k == |s.pending| then s
    else
      var t := s.(pending := s.pending[k := Some(s.accepted)], accepted := s.accepted + 1);
      if i == |s.fetches| then t.(stranded := s.stranded + {s.accepted})
      else t.(fetches := s.fetches[i := ForCall(k)])
  }

  function Requested(s: State): State
  {
    var i := FirstFree(s.fetches);
    if i == |s.fetches| then s else s.(fetches := s.fetches[i := ForOther])
  }

  /** The host reports a fetch; each is reported once, a report for a free one is ignored. */
  function Reported(s: State, i: nat): State
  {
    if i >= |s.fetches| || s.fetches[i].Free? then s
    else
      var t := s.(fetches := s.fetches[i := Free]);
      if s.fetches[i].ForOther? || s.fetches[i].slot >= |s.pending| then t
      else
        var k := s.fetches[i].slot;
        if s.pending[k].None? then t
        else t.(pending := s.pending[k := None], answered := s.answered + [s.pending[k].value])
  }

  function Step(s: State, e: Event): State
  {
    match e
    case Submit => Submitted(s)
    case OtherRequest => Requested(s)
    case Done(i) => Reported(s, i)
  }

  function Run(s: State, es: seq<Event>): State
    decreases es
  {
    if es == [] then s else Run(Step(s, es[0]), es[1..])
  }

  // ---------------------------------------------------------------- invariant

  predicate Waits(s: State, k: nat, c: nat) { k < |s.pending| && s.pending[k] == Some(c) }

  predicate Carries(s: State, i: nat, k: nat) { i < |s.fetches| && s.fetches[i] == ForCall(k) }

  ghost predicate Waiting(s: State, c: nat) { exists k: nat :: Waits(s, k, c) }

  ghost predicate Carried(s: State, k: nat) { exists i: nat :: Carries(s, i, k) }

  /** A call in slot `k` has a fetch on its way. */
  ghost predicate InFlight(s: State, c: nat) { exists k: nat :: Waits(s, k, c) && Carried(s, k) }

  predicate Distinct(xs: seq<nat>) { forall i, j | 0 <= i < j < |xs| :: xs[i] != xs[j] }

  ghost predicate Slots(s: State)
  {
    && |s.pending| == SLOTS && |s.fetches| == SLOTS
    && (forall k: nat, c: nat | Waits(s, k, c) :: c < s.accepted && c !in s.answered)
    && (forall k: nat, j: nat, c: nat | Waits(s, k, c) && Waits(s, j, c) :: k == j)
    && Distinct(s.answered) && (forall c | c in s.answered :: c < s.accepted)
    && (forall c: nat | c < s.accepted && c !in s.answered :: Waiting(s, c))
  }

  ghost predicate Fetches(s: State)
  {
    && (forall i: nat, k: nat | Carries(s, i, k) :: k < |s.pending| && s.pending[k].Some? && s.pending[k].value !in s.stranded)
    && (forall i: nat, j: nat, k: nat | Carries(s, i, k) && Carries(s, j, k) :: i == j)
    && (forall k: nat, c: nat | Waits(s, k, c) && c !in s.stranded :: Carried(s, k))
    && (forall c | c in s.stranded :: Waiting(s, c))
  }

  ghost predicate Inv(s: State) { Slots(s) && Fetches(s) }

  lemma StartInv()
    ensures Inv(START)
  {
  }

  lemma SubmitSlots(s: State)
    requires Slots(s)
    ensures Slots(Submitted(s))
  {
    var k, t := FirstNone(s.pending), Submitted(s);
    if k < |s.pending| {
      assert Waits(t, k, s.accepted);
      forall c: nat | c < t.accepted && c !in t.answered
        ensures Waiting(t, c)
      {
        if c < s.accepted {
          var j: nat :| Waits(s, j, c);
          assert Waits(t, j, c);
        }
      }
      forall j: nat, c: nat | Waits(t, j, c)
        ensures j == k || Waits(s, j, c)
      {
      }
    }
  }

  lemma SubmitFetches(s: State)
    requires Inv(s)
    ensures Fetches(Submitted(s))
  {
    var k, i, t := FirstNone(s.pending), FirstFree(s.fetches), Submitted(s);
    if k < |s.pending| {
      forall j: nat, c: nat | Waits(t, j, c)
        ensures j == k || Waits(s, j, c)
      {
      }
      forall j: nat, c: nat | Waits(s, j, c)
        ensures Waits(t, j, c)
      {
      }
      forall m: nat, j: nat | Carries(t, m, j)
        ensures Carries(s, m, j) || (m == i && j == k && i < |s.fetches|)
      {
      }
      forall m: nat, j: nat | Carries(s, m, j)
        ensures Carries(t, m, j) && j != k && s.pending[j].value < s.accepted
      {
        assert Waits(s, j, s.pending[j].value);
      }
      if i < |s.fetches| {
        assert Carries(t, i, k);
      } else {
        assert Waits(t, k, s.accepted);
      }
      forall j: nat, c: nat | Waits(t, j, c) && c !in t.stranded
        ensures Carried(t, j)
      {
        if j != k {
          assert Waits(s, j, c);
          var m: nat :| Carries(s, m, j);
          assert Carries(t, m, j);
        }
      }
      forall c | c in t.stranded
        ensures Waiting(t, c)
      {
        if c in s.stranded {
          var j: nat :| Waits(s, j, c);
          assert Waits(t, j, c);
        }
      }
    }
  }

  lemma RequestInv(s: State)
    requires Inv(s)
    ensures Inv(Requested(s))
  {
    var t := Requested(s);
    forall j: nat, c: nat
      ensures Waits(t, j, c) <==> Waits(s, j, c)
    {
    }
    forall m: nat, j: nat
      ensures Carries(t, m, j) <==> Carries(s, m, j)
    {
    }
    forall c: nat | Waiting(s, c)
      ensures Waiting(t, c)
    {
      var j: nat :| Waits(s, j, c);
      assert Waits(t, j, c);
    }
    forall k: nat | Carried(s, k)
      ensures Carried(t, k)
    {
      var m: nat :| Carries(s, m, k);
      assert Carries(t, m, k);
    }
  }

  lemma ReportInv(s: State, i: nat)
    requires Inv(s)
    ensures Inv(Reported(s, i))
  {
    var t := Reported(s, i);
    if i < |s.fetches| && !s.fetches[i].Free? {
      forall m: nat, j: nat
        ensures Carries(t, m, j) <==> m != i && Carries(s, m, j)
      {
      }
      if s.fetches[i].ForCall? {
        assert Carries(s, i, s.fetches[i].slot);
        AnsweredInv(s, i);
      } else {
        OtherReportedInv(s, i);
      }
    }
  }

  lemma OtherReportedInv(s: State, i: nat)
    requires Inv(s) && i < |s.fetches| && s.fetches[i].ForOther?
    ensures Inv(Reported(s, i))
  {
    var t := Reported(s, i);
    forall j: nat, c: nat
      ensures Waits(t, j, c) <==> Waits(s, j, c)
    {
    }
    forall c: nat | Waiting(s, c)
      ensures Waiting(t, c)
    {
      var j: nat :| Waits(s, j, c);
      assert Waits(t, j, c);
    }
    forall m: nat, j: nat
      ensures Carries(t, m, j) <==> Carries(s, m, j)
    {
    }
    forall k: nat | Carried(s, k)
      ensures Carried(t, k)
    {
      var m: nat :| Carries(s, m, k);
      assert Carries(t, m, k);
    }
  }

  lemma AnsweredInv(s: State, i: nat)
    requires Inv(s) && i < |s.fetches| && s.fetches[i].ForCall?
    ensures Inv(Reported(s, i))
  {
    var k, t := s.fetches[i].slot, Reported(s, i);
    assert Carries(s, i, k);
    var c0 := s.pending[k].value;
    assert Waits(s, k, c0);
    forall j: nat, c: nat
      ensures Waits(t, j, c) <==> j != k && Waits(s, j, c)
    {
    }
    forall c: nat | Waiting(s, c) && c != c0
      ensures Waiting(t, c)
    {
      var j: nat :| Waits(s, j, c);
      assert Waits(t, j, c);
    }
    forall m: nat, j: nat
      ensures Carries(t, m, j) <==> m != i && Carries(s, m, j)
    {
    }
    forall j: nat | Carried(s, j) && j != k
      ensures Carried(t, j)
    {
      var m: nat :| Carries(s, m, j);
      assert Carries(t, m, j);
    }
    assert t.answered == s.answered + [c0];
  }

  lemma StepInv(s: State, e: Event)
    requires Inv(s)
    ensures Inv(Step(s, e))
  {
    match e
    case Submit =>
      SubmitSlots(s);
      SubmitFetches(s);
    case OtherRequest => RequestInv(s);
    case Done(i) => ReportInv(s, i);
  }

  lemma {:induction false} RunInv(s: State, es: seq<Event>)
    requires Inv(s)
    ensures Inv(Run(s, es))
    decreases es
  {
    hide Inv, Step;
    if es != [] {
      StepInv(s, es[0]);
      RunInv(Step(s, es[0]), es[1..]);
    }
  }

  // ----------------------------------------------------------------- theorems

  /** Where an accepted call is: in every run it is answered, once, or on its way, or
      stranded, and never two of these. When nothing is on its way any more, the calls that
      got their one callback are exactly those that were not stranded. */
  lemma OneCallbackOrStranded(es: seq<Event>)
    ensures var s := Run(START, es);
            && Distinct(s.answered)
            && (forall c: nat | c < s.accepted ::
                  && (c in s.answered || InFlight(s, c) || c in s.stranded)
                  && !(c in s.answered && InFlight(s, c)) && !(c in s.answered && c in s.stranded)
                  && !(InFlight(s, c) && c in s.stranded))
            && ((forall i | 0 <= i < |s.fetches| :: !s.fetches[i].ForCall?) ==>
                  forall c: nat | c < s.accepted :: c in s.answered <==> c !in s.stranded)
  {
    StartInv();
    RunInv(START, es);
    var s := Run(START, es);
    forall c: nat | c < s.accepted
      ensures c in s.answered || InFlight(s, c) || c in s.stranded
      ensures InFlight(s, c) ==> c !in s.answered && c !in s.stranded
      ensures c in s.stranded ==> c !in s.answered
    {
      if c !in s.answered && c !in s.stranded {
        var k: nat :| Waits(s, k, c);
        assert Carried(s, k);
      }
      if InFlight(s, c) {
        var k: nat :| Waits(s, k, c) && Carried(s, k);
        var i: nat :| Carries(s, i, k);
      }
      if c in s.stranded {
        var k: nat :| Waits(s, k, c);
      }
    }
    forall c: nat | InFlight(s, c)
      ensures exists i: nat, k: nat :: Carries(s, i, k)
    {
      var k: nat :| Waits(s, k, c) && Carried(s, k);
    }
  }

  lemma {:induction false} StrandedGrows(s: State, es: seq<Event>)
    ensures s.stranded <= Run(s, es).stranded && s.accepted <= Run(s, es).accepted
    ensures forall c | c in Run(s, es).stranded && c < s.accepted :: c in s.stranded
    decreases es
  {
    if es != [] {
      StrandedGrows(Step(s, es[0]), es[1..]);
    }
  }

  /** When exactly a call is stranded: it was accepted and at that moment no fetch was
      free, however the run goes on. */
  lemma StrandedIff(before: seq<Event>, later: seq<Event>)
    requires FirstNone(Run(START, before).pending) < SLOTS
    ensures var s := Run(START, before);
            var t := Run(Step(s, Submit), later);
            s.accepted in t.stranded <==> forall i | 0 <= i < |s.fetches| :: !s.fetches[i].Free?
  {
    hide Run;
    StartInv();
    RunInv(START, before);
    var s := Run(START, before);
    StrandedGrows(Step(s, Submit), later);
    forall c | c in s.stranded
      ensures c != s.accepted
    {
      var k: nat :| Waits(s, k, c);
    }
  }

  /** A stranded call keeps its slot for good. */
  lemma {:induction false} StrandedKeepsSlot(s: State, es: seq<Event>, k: nat, c: nat)
    requires Inv(s) && Waits(s, k, c) && c in s.stranded
    ensures Waits(Run(s, es), k, c) && c in Run(s, es).stranded
    decreases es
  {
    if es != [] {
      StepInv(s, es[0]);
      var t := Step(s, es[0]);
      if es[0].Done? && es[0].i < |s.fetches| && s.fetches[es[0].i].ForCall? {
        assert Carries(s, es[0].i, s.fetches[es[0].i].slot);
      }
      assert Waits(t, k, c);
      hide Step, Inv;
      StrandedKeepsSlot(t, es[1..], k, c);
    }
  }

  /** A call is accepted if and only if a slot is free; it is then on its way, or stranded if
      no fetch is free. */
  lemma SubmitEffect(s: State)
    requires Inv(s)
    ensures var t := Step(s, Submit);
            if exists k :: 0 <= k < |s.pending| && s.pending[k].None? then
              && t.accepted == s.accepted + 1 && t.answered == s.answered && Waiting(t, s.accepted)
              && if exists i :: 0 <= i < |s.fetches| && s.fetches[i].Free?
                 then InFlight(t, s.accepted) && t.stranded == s.stranded
                 else t.stranded == s.stranded + {s.accepted}
            else t == s
  {
    var k, i, t := FirstNone(s.pending), FirstFree(s.fetches), Step(s, Submit);
    if k < |s.pending| {
      assert s.pending[k].None? && Waits(t, k, s.accepted);
      if i < |s.fetches| {
        assert s.fetches[i].Free? && Carries(t, i, k);
      }
    }
  }

  /** The report of a call's fetch answers that call and frees its slot and the fetch; every
      other call stays where it is. */
  lemma ReportEffect(s: State, i: nat, k: nat, c: nat)
    requires Inv(s) && Carries(s, i, k) && Waits(s, k, c)
    ensures var t := Step(s, Done(i));
            && t.answered == s.answered + [c] && !Waiting(t, c) && t.fetches[i].Free?
            && t.accepted == s.accepted && t.stranded == s.stranded
            && (forall j: nat, d: nat | d != c :: Waits(t, j, d) <==> Waits(s, j, d))
            && (forall m: nat, j: nat | m != i :: Carries(t, m, j) <==> Carries(s, m, j))
  {
    var t := Step(s, Done(i));
    forall j: nat, d: nat
      ensures Waits(t, j, d) <==> j != k && Waits(s, j, d)
    {
    }
  }

  // --------------------------------------------------------------- the object

  /** `g_sf_pending` and the `used` flags of `g_fetches`. */
  class Tables {
    var pending: seq<Option<nat>>
    var fetches: seq<Fetch>
    ghost var accepted: nat
    ghost var answered: seq<nat>
    ghost var stranded: set<nat>

    ghost function View(): State reads this { State(pending, fetches, accepted, answered, stranded) }

    constructor ()
      ensures View() == START
    {
      pending, fetches := seq(SLOTS, _ => None), seq(SLOTS, _ => Free);
      accepted, answered, stranded := 0, [], {};
    }

    /** `fetch_reserve` */
    method FetchReserve(f: Fetch) returns (i: int)
      requires !f.Free?
      modifies `fetches
      ensures var k := FirstFree(old(fetches));
              if k == |old(fetches)| then i == -1 && fetches == old(fetches)
              else i == k && fetches == old(fetches)[k := f]
    {
      var n := 0;
      while n < |fetches|
        invariant n <= |fetches| && fetches == old(fetches) && forall j | 0 <= j < n :: !fetches[j].Free?
      {
        if fetches[n].Free? {
          fetches := fetches[n := f];
          return n;
        }
        n := n + 1;
      }
      return -1;
    }

    /** `cerco_sf_submit_raw` and `cerco_http_post`, as far as the tables go; the call's
        number stands for its callback. */
    method SubmitCall(call: nat) returns (slot: int)
      requires call == accepted
      modifies this
      ensures View() == Submitted(old(View()))
      ensures slot == if FirstNone(old(pending)) == |old(pending)| then -1 else FirstNone(old(pending))
    {
      slot := 0;
      while slot < |pending| && pending[slot].Some?
        invariant 0 <= slot <= |pending| && forall j | 0 <= j < slot :: pending[j].Some?
      {
        slot := slot + 1;
      }
      if slot == |pending| {
        return -1;
      }
      pending := pending[slot := Some(call)];
      accepted := accepted + 1;
      var i := FetchReserve(ForCall(slot));
      if i < 0 {
        stranded := stranded + {call};
      }
    }

    /** `cerco_fetch_done`, with the callback of a call looking at its slot. */
    method FetchDone(i: nat) returns (call: Option<nat>)
      modifies this
      ensures View() == Reported(old(View()), i)
      ensures answered == old(answered) + if call.Some? then [call.value] else []
    {
      call := None;
      if i >= |fetches| || fetches[i].Free? {
        return;
      }
      var f := fetches[i];
      fetches := fetches[i := Free];
      if f.ForCall? && f.slot < |pending| {
        call := pending[f.slot];
        pending := pending[f.slot := None];
        if call.Some? {
          answered := answered + [call.value];
        }
      }
    }
  }
}
