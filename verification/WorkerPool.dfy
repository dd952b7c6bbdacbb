/** The bounded worker pool: a job ring, a completion ring, N workers and one event
    loop, as interleaved steps. Each mutex section is one step. */
module WorkerPool {
  import opened Sequences

  type Req = nat

  // -------------------------------------------------------------------- rings

  /** `count` is not bounded by the capacity: the completion ring is pushed unchecked. */
  datatype Ring = Ring(slots: seq<Req>, head: nat, tail: nat, count: nat)

  predicate WellFormed(r: Ring)
  {
    |r.slots| > 0 && r.head < |r.slots| && r.tail < |r.slots|
  }

  function Empty(cap: nat): Ring { Ring(seq(cap, _ => 0), 0, 0, 0) }

  /** A slot position less than two laps out. */
  function Wrap(x: nat, n: nat): nat { if x < n then x else x - n }

  /** Not over-full, and the tail sits `count` slots behind the head. */
  predicate Aligned(r: Ring)
  {
    WellFormed(r) && r.count <= |r.slots| && r.tail == Wrap(r.head + r.count, |r.slots|)
  }

  function Push(r: Ring, x: Req): (p: Ring)
    requires WellFormed(r)
    ensures WellFormed(p) && p.count == r.count + 1 && |p.slots| == |r.slots|
  {
    Ring(r.slots[r.tail := x], r.head, (r.tail + 1) % |r.slots|, r.count + 1)
  }

  function Pop(r: Ring): (p: Ring)
    requires WellFormed(r) && r.count > 0
    ensures WellFormed(p) && p.count == r.count - 1 && |p.slots| == |r.slots|
  {
    Ring(r.slots, (r.head + 1) % |r.slots|, r.tail, r.count - 1)
  }

  /** The queued entries, oldest first. */
  function Contents(r: Ring): (s: seq<Req>)
    requires Aligned(r)
    ensures |s| == r.count
    ensures forall i | 0 <= i < r.count :: s[i] == r.slots[Wrap(r.head + i, |r.slots|)]
  {
    seq(r.count, i requires 0 <= i < r.count => r.slots[Wrap(r.head + i, |r.slots|)])
  }

  lemma NextSlot(t: nat, n: nat)
    requires t < n
    ensures (t + 1) % n == Wrap(t + 1, n)
  {
    if t + 1 < n {
      assert (t + 1) % n == t + 1;
    }
  }

  lemma PushAppends(r: Ring, x: Req)
    requires Aligned(r) && r.count < |r.slots|
    ensures Aligned(Push(r, x)) && Contents(Push(r, x)) == Contents(r) + [x]
  {
    NextSlot(r.tail, |r.slots|);
  }

  lemma PopRemoves(r: Ring)
    requires Aligned(r) && r.count > 0
    ensures Aligned(Pop(r)) && Contents(r) == [r.slots[r.head]] + Contents(Pop(r))
  {
    NextSlot(r.head, |r.slots|);
    assert Contents(r)[1..] == Contents(Pop(r));
  }

  // ------------------------------------------------------------------- states

  /** Between taking a job and pushing its completion a worker first holds it, then has
      run its handler. */
  datatype Worker = Idle | Holding(req: Req) | Ran(req: Req) | Exited

  /** What has happened so far, in order. */
  datatype Log = Log(submitted: seq<Req>, taken: seq<Req>, ran: seq<Req>, pushed: seq<Req>, drained: seq<Req>)

  datatype State = State(jobs: Ring, done: Ring, shutdown: bool, workers: seq<Worker>, log: Log)

  datatype Event =
    | Submit(req: Req)
    | TakeJob(w: nat)
    | RunHandler(w: nat)
    | PushDone(w: nat)
    | DrainOne
    | BeginShutdown
    | Exit(w: nat)

  function Start(cap: nat, workers: nat): State
  {
    State(Empty(cap), Empty(cap), false, seq(workers, _ => Idle), Log([], [], [], [], []))
  }

  predicate Enabled(s: State, e: Event)
  {
    match e
    case Submit(_) => !s.shutdown && s.jobs.count < |s.jobs.slots|
    case TakeJob(w) => w < |s.workers| && s.workers[w].Idle? && s.jobs.count > 0
    case RunHandler(w) => w < |s.workers| && s.workers[w].Holding?
    case PushDone(w) => w < |s.workers| && s.workers[w].Ran?
    case DrainOne => s.done.count > 0
    case BeginShutdown => true
    case Exit(w) => w < |s.workers| && s.workers[w].Idle? && s.jobs.count == 0 && s.shutdown
  }

  predicate RingsOk(s: State) { WellFormed(s.jobs) && WellFormed(s.done) }

  /** One step; an event that is not enabled (a rejected submit, say) changes nothing. */
  function Step(s: State, e: Event): (t: State)
    requires RingsOk(s)
    ensures RingsOk(t)
  {
    if !Enabled(s, e) then s
    else match e
      case Submit(x) => s.(jobs := Push(s.jobs, x), log := s.log.(submitted := s.log.submitted + [x]))
      case TakeJob(w) =>
        var x := s.jobs.slots[s.jobs.head];
        s.(jobs := Pop(s.jobs), workers := s.workers[w := Holding(x)], log := s.log.(taken := s.log.taken + [x]))
      case RunHandler(w) =>
        var x := s.workers[w].req;
        s.(workers := s.workers[w := Ran(x)], log := s.log.(ran := s.log.ran + [x]))
      case PushDone(w) =>
        var x := s.workers[w].req;
        s.(done := Push(s.done, x), workers := s.workers[w := Idle], log := s.log.(pushed := s.log.pushed + [x]))
      case DrainOne =>
        s.(done := Pop(s.done), log := s.log.(drained := s.log.drained + [s.done.slots[s.done.head]]))
      case BeginShutdown => s.(shutdown := true)
      case Exit(w) => s.(workers := s.workers[w := Exited])
  }

  function Run(s: State, es: seq<Event>): (t: State)
    requires RingsOk(s)
    ensures RingsOk(t)
    decreases es
  {
    if es == [] then s else Run(Step(s, es[0]), es[1..])
  }

  // ------------------------------------------------------------ workers' hands

  function HeldBy(w: Worker): multiset<Req> { if w.Holding? then multiset{w.req} else multiset{} }
  function RanBy(w: Worker): multiset<Req> { if w.Ran? then multiset{w.req} else multiset{} }

  function Held(ws: seq<Worker>): multiset<Req>
  {
    if ws == [] then multiset{} else HeldBy(ws[0]) + Held(ws[1..])
  }

  function Unpushed(ws: seq<Worker>): multiset<Req>
  {
    if ws == [] then multiset{} else RanBy(ws[0]) + Unpushed(ws[1..])
  }

  /** Workers with a job in hand. */
  function Busy(ws: seq<Worker>): (n: nat)
  {
    if ws == [] then 0 else BusyOne(ws[0]) + Busy(ws[1..])
  }

  lemma AddFront<T>(h: multiset<T>, x: multiset<T>, p: multiset<T>, y: multiset<T>, q: multiset<T>)
    requires x + p == y + q
    ensures h + x + p == h + y + q
  {
    assert h + x + p == h + (x + p);
    assert h + y + q == h + (y + q);
  }

  lemma SwapTerms<T>(a: multiset<T>, x: multiset<T>, b: multiset<T>)
    ensures a + x + b == b + x + a
  {
  }

  lemma {:induction false} HeldUpdate(ws: seq<Worker>, i: nat, w: Worker)
    requires i < |ws|
    ensures Held(ws[i := w]) + HeldBy(ws[i]) == Held(ws) + HeldBy(w)
  {
    hide HeldBy;
    var rest := ws[1..];
    if i == 0 {
      assert ws[0 := w][1..] == rest;
      SwapTerms(HeldBy(w), Held(rest), HeldBy(ws[0]));
    } else {
      assert ws[i := w][1..] == rest[i - 1 := w] && ws[i := w][0] == ws[0];
      HeldUpdate(rest, i - 1, w);
      AddFront(HeldBy(ws[0]), Held(rest[i - 1 := w]), HeldBy(ws[i]), Held(rest), HeldBy(w));
    }
  }

  lemma {:induction false} UnpushedUpdate(ws: seq<Worker>, i: nat, w: Worker)
    requires i < |ws|
    ensures Unpushed(ws[i := w]) + RanBy(ws[i]) == Unpushed(ws) + RanBy(w)
  {
    hide RanBy;
    var rest := ws[1..];
    if i == 0 {
      assert ws[0 := w][1..] == rest;
      SwapTerms(RanBy(w), Unpushed(rest), RanBy(ws[0]));
    } else {
      assert ws[i := w][1..] == rest[i - 1 := w] && ws[i := w][0] == ws[0];
      UnpushedUpdate(rest, i - 1, w);
      AddFront(RanBy(ws[0]), Unpushed(rest[i - 1 := w]), RanBy(ws[i]), Unpushed(rest), RanBy(w));
    }
  }

  function BusyOne(w: Worker): nat { if w.Holding? || w.Ran? then 1 else 0 }

  lemma {:induction false} BusyUpdate(ws: seq<Worker>, i: nat, w: Worker)
    requires i < |ws|
    ensures Busy(ws[i := w]) + BusyOne(ws[i]) == Busy(ws) + BusyOne(w)
  {
    if i == 0 {
      assert ws[0 := w][1..] == ws[1..];
    } else {
      assert ws[i := w][1..] == ws[1..][i - 1 := w];
      BusyUpdate(ws[1..], i - 1, w);
    }
  }

  lemma NoneMoves(ws: seq<Worker>, i: nat, w: Worker)
    requires i < |ws| && HeldBy(ws[i]) == multiset{} && RanBy(ws[i]) == multiset{} && BusyOne(ws[i]) == 0
    ensures Held(ws[i := w]) == Held(ws) + HeldBy(w)
    ensures Unpushed(ws[i := w]) == Unpushed(ws) + RanBy(w)
    ensures Busy(ws[i := w]) == Busy(ws) + BusyOne(w)
  {
    HeldUpdate(ws, i, w);
    UnpushedUpdate(ws, i, w);
    BusyUpdate(ws, i, w);
    assert Held(ws[i := w]) == Held(ws[i := w]) + HeldBy(ws[i]);
    assert Unpushed(ws[i := w]) == Unpushed(ws[i := w]) + RanBy(ws[i]);
  }

  lemma HandlerMoves(ws: seq<Worker>, i: nat, x: Req)
    requires i < |ws| && ws[i] == Holding(x)
    ensures Held(ws) == Held(ws[i := Ran(x)]) + multiset{x}
    ensures Unpushed(ws[i := Ran(x)]) == Unpushed(ws) + multiset{x}
    ensures Busy(ws[i := Ran(x)]) == Busy(ws)
  {
    var w := Ran(x);
    HeldUpdate(ws, i, w);
    UnpushedUpdate(ws, i, w);
    BusyUpdate(ws, i, w);
    assert Held(ws) == Held(ws) + HeldBy(w);
    assert Unpushed(ws[i := w]) == Unpushed(ws[i := w]) + RanBy(ws[i]);
  }

  lemma PushMoves(ws: seq<Worker>, i: nat, x: Req)
    requires i < |ws| && ws[i] == Ran(x)
    ensures Held(ws[i := Idle]) == Held(ws)
    ensures Unpushed(ws) == Unpushed(ws[i := Idle]) + multiset{x}
    ensures Busy(ws[i := Idle]) + 1 == Busy(ws)
  {
    var w := Idle;
    HeldUpdate(ws, i, w);
    UnpushedUpdate(ws, i, w);
    BusyUpdate(ws, i, w);
    assert Held(ws) == Held(ws) + HeldBy(w);
    assert Held(ws[i := w]) == Held(ws[i := w]) + HeldBy(ws[i]);
    assert Unpushed(ws) == Unpushed(ws) + RanBy(w);
  }

  lemma {:induction false} HandsEmpty(ws: seq<Worker>)
    requires forall w | w in ws :: w.Idle? || w.Exited?
    ensures Held(ws) == multiset{} && Unpushed(ws) == multiset{} && Busy(ws) == 0
  {
    if ws != [] {
      assert ws[0] in ws;
      assert HeldBy(ws[0]) == RanBy(ws[0]) == multiset{};
      HandsEmpty(ws[1..]);
    }
  }

  // ------------------------------------------------------------ what runs keep

  /** Submitted but not yet drained. */
  function InFlight(s: State): nat { s.jobs.count + Busy(s.workers) + s.done.count }

  /** What every run keeps, with no side condition. */
  ghost predicate Inv(s: State)
  {
    && RingsOk(s) && Aligned(s.jobs)
    && s.log.submitted == s.log.taken + Contents(s.jobs)
    && multiset(s.log.taken) == multiset(s.log.ran) + Held(s.workers)
    && multiset(s.log.ran) == multiset(s.log.pushed) + Unpushed(s.workers)
    && |s.log.submitted| == |s.log.drained| + InFlight(s)
    && (HasExited(s.workers) ==> s.shutdown && s.jobs.count == 0)
  }

  predicate HasExited(ws: seq<Worker>) { exists i | 0 <= i < |ws| :: ws[i].Exited? }

  /** Completions still in the ring are exactly those pushed and not drained. */
  ghost predicate NoneLost(s: State)
  {
    Aligned(s.done) && s.log.pushed == s.log.drained + Contents(s.done)
  }

  /** The step pushes into a full completion ring, over an undrained completion. */
  predicate Overwrites(s: State, e: Event)
  {
    e.PushDone? && Enabled(s, e) && s.done.count >= |s.done.slots|
  }

  lemma StartInv(cap: nat, workers: nat)
    requires cap > 0
    ensures Inv(Start(cap, workers)) && NoneLost(Start(cap, workers))
  {
    HandsEmpty(Start(cap, workers).workers);
  }

  lemma SubmitInv(s: State, x: Req)
    requires Inv(s) && Enabled(s, Submit(x))
    ensures Inv(Step(s, Submit(x)))
  {
    hide Push, Contents;
    PushAppends(s.jobs, x);
    assert s.log.taken + (Contents(s.jobs) + [x]) == s.log.submitted + [x];
  }

  lemma TakeInv(s: State, w: nat)
    requires Inv(s) && Enabled(s, TakeJob(w))
    ensures Inv(Step(s, TakeJob(w)))
  {
    hide Pop, Contents, Held, Unpushed, Busy;
    var x, t := s.jobs.slots[s.jobs.head], Step(s, TakeJob(w));
    PopRemoves(s.jobs);
    NoneMoves(s.workers, w, Holding(x));
    assert s.log.taken + ([x] + Contents(t.jobs)) == (s.log.taken + [x]) + Contents(t.jobs);
    BagSnoc(s.log.taken, x);
    BagAssoc(multiset(s.log.ran), Held(s.workers), multiset{x});
    assert Unpushed(t.workers) == Unpushed(s.workers);
    ExitedUpdate(s.workers, w, Holding(x));
  }

  lemma HandlerInv(s: State, w: nat)
    requires Inv(s) && Enabled(s, RunHandler(w))
    ensures Inv(Step(s, RunHandler(w)))
  {
    hide Contents, Held, Unpushed, Busy;
    var x, t := s.workers[w].req, Step(s, RunHandler(w));
    HandlerMoves(s.workers, w, x);
    BagSnoc(s.log.ran, x);
    assert multiset(s.log.ran) + (Held(t.workers) + multiset{x}) == (multiset(s.log.ran) + multiset{x}) + Held(t.workers);
    BagAssoc(multiset(s.log.pushed), Unpushed(s.workers), multiset{x});
    ExitedUpdate(s.workers, w, Ran(x));
  }

  lemma PushDoneInv(s: State, w: nat)
    requires Inv(s) && Enabled(s, PushDone(w))
    ensures Inv(Step(s, PushDone(w)))
  {
    hide Contents, Push, Held, Unpushed, Busy;
    var x, t := s.workers[w].req, Step(s, PushDone(w));
    PushMoves(s.workers, w, x);
    BagSnoc(s.log.pushed, x);
    assert multiset(s.log.pushed) + (Unpushed(t.workers) + multiset{x}) ==
           (multiset(s.log.pushed) + multiset{x}) + Unpushed(t.workers);
    ExitedUpdate(s.workers, w, Idle);
  }

  lemma BagSnoc(s: seq<Req>, x: Req)
    ensures multiset(s + [x]) == multiset(s) + multiset{x}
  {
  }

  lemma BagAssoc(a: multiset<Req>, b: multiset<Req>, c: multiset<Req>)
    ensures (a + b) + c == a + (b + c)
  {
  }

  lemma ExitedUpdate(ws: seq<Worker>, i: nat, w: Worker)
    requires i < |ws| && !w.Exited?
    ensures HasExited(ws[i := w]) ==> HasExited(ws)
  {
    if HasExited(ws[i := w]) {
      var k :| 0 <= k < |ws| && ws[i := w][k].Exited?;
      assert ws[k].Exited?;
    }
  }

  lemma ExitInv(s: State, w: nat)
    requires Inv(s) && Enabled(s, Exit(w))
    ensures Inv(Step(s, Exit(w)))
  {
    hide Contents, Held, Unpushed, Busy;
    NoneMoves(s.workers, w, Exited);
    assert Held(s.workers) + multiset{} == Held(s.workers);
    assert Unpushed(s.workers) + multiset{} == Unpushed(s.workers);
  }

  lemma StepInv(s: State, e: Event)
    requires Inv(s)
    ensures Inv(Step(s, e))
  {
    if Enabled(s, e) {
      match e
      case Submit(x) => SubmitInv(s, x);
      case TakeJob(w) => TakeInv(s, w);
      case RunHandler(w) => HandlerInv(s, w);
      case PushDone(w) => PushDoneInv(s, w);
      case DrainOne =>
      case BeginShutdown =>
      case Exit(w) => ExitInv(s, w);
    }
  }

  lemma StepNoneLost(s: State, e: Event)
    requires RingsOk(s) && NoneLost(s) && !Overwrites(s, e)
    ensures NoneLost(Step(s, e))
  {
    hide Push, Pop, Contents;
    match e
    case PushDone(w) =>
      if Enabled(s, e) {
        var x := s.workers[w].req;
        PushAppends(s.done, x);
        assert s.log.drained + (Contents(s.done) + [x]) == s.log.pushed + [x];
      }
    case DrainOne =>
      if Enabled(s, e) {
        PopRemoves(s.done);
        var x := s.done.slots[s.done.head];
        assert s.log.drained + ([x] + Contents(Pop(s.done))) == (s.log.drained + [x]) + Contents(Pop(s.done));
      }
    case Submit(_) =>
    case TakeJob(_) =>
    case RunHandler(_) =>
    case BeginShutdown =>
    case Exit(_) =>
  }

  /** In every interleaving, from any state with the invariant. */
  lemma {:induction false} RunInv(s: State, es: seq<Event>)
    requires Inv(s)
    ensures Inv(Run(s, es))
    decreases es
  {
    if es != [] {
      StepInv(s, es[0]);
      RunInv(Step(s, es[0]), es[1..]);
    }
  }

  /** No step of the run pushes into a full completion ring. */
  predicate NoOverwrite(s: State, es: seq<Event>)
    requires RingsOk(s)
    decreases es
  {
    es == [] || (!Overwrites(s, es[0]) && NoOverwrite(Step(s, es[0]), es[1..]))
  }

  lemma {:induction false} RunNoneLost(s: State, es: seq<Event>)
    requires RingsOk(s) && NoneLost(s) && NoOverwrite(s, es)
    ensures NoneLost(Run(s, es))
    decreases es
  {
    hide NoneLost;
    if es != [] {
      StepNoneLost(s, es[0]);
      RunNoneLost(Step(s, es[0]), es[1..]);
    }
  }

  // -------------------------------------------------------------- main results

  /** At every moment of every interleaving: jobs have been taken in submission order,
      submitted minus drained is what the rings and the workers hold, and no handler has
      run more often than its job was submitted. */
  lemma PoolAccounting(cap: nat, workers: nat, es: seq<Event>)
    requires cap > 0
    ensures var s := Run(Start(cap, workers), es);
            && Aligned(s.jobs) && s.log.submitted == s.log.taken + Contents(s.jobs)
            && |s.log.submitted| - |s.log.drained| == InFlight(s)
            && multiset(s.log.ran) <= multiset(s.log.submitted)
  {
    StartInv(cap, workers);
    RunInv(Start(cap, workers), es);
    var s := Run(Start(cap, workers), es);
    assert multiset(s.log.submitted) == multiset(s.log.taken) + multiset(Contents(s.jobs));
  }

  /** While no completion is overwritten, every accepted request is in exactly one
      place: the job ring, a worker's hands before or after its handler, the completion
      ring, or drained. */
  lemma ExactlyOnePlace(cap: nat, workers: nat, es: seq<Event>)
    requires cap > 0 && NoOverwrite(Start(cap, workers), es)
    ensures var s := Run(Start(cap, workers), es);
            && Aligned(s.jobs) && Aligned(s.done)
            && multiset(s.log.submitted) ==
               multiset(Contents(s.jobs)) + Held(s.workers) + Unpushed(s.workers)
               + multiset(Contents(s.done)) + multiset(s.log.drained)
  {
    StartInv(cap, workers);
    RunInv(Start(cap, workers), es);
    RunNoneLost(Start(cap, workers), es);
    var s := Run(Start(cap, workers), es);
    assert multiset(s.log.submitted) == multiset(s.log.taken) + multiset(Contents(s.jobs));
    assert multiset(s.log.pushed) == multiset(s.log.drained) + multiset(Contents(s.done));
  }

  /** When the joins of shutdown return, every accepted request has run, exactly as
      often as it was accepted. */
  lemma ShutdownRunsEverything(cap: nat, workers: nat, es: seq<Event>)
    requires cap > 0 && workers > 0
    requires forall w | w in Run(Start(cap, workers), es).workers :: w.Exited?
    ensures var s := Run(Start(cap, workers), es);
            && s.log.taken == s.log.submitted
            && multiset(s.log.ran) == multiset(s.log.submitted) == multiset(s.log.pushed)
  {
    var s0 := Start(cap, workers);
    StartInv(cap, workers);
    RunInv(s0, es);
    WorkerCount(s0, es);
    var s := Run(s0, es);
    HandsEmpty(s.workers);
    assert s.workers[0] in s.workers;
    assert HasExited(s.workers);
    assert s.log.taken + Contents(s.jobs) == s.log.taken;
  }

  lemma {:induction false} WorkerCount(s: State, es: seq<Event>)
    requires RingsOk(s)
    ensures |Run(s, es).workers| == |s.workers| && |Run(s, es).done.slots| == |s.done.slots|
    decreases es
  {
    if es != [] {
      WorkerCount(Step(s, es[0]), es[1..]);
    }
  }

  // -------------------------------------------- when completions can be lost

  /** In-flight work never exceeds the completion ring. */
  predicate Bounded(s: State, es: seq<Event>)
    requires RingsOk(s)
    decreases es
  {
    InFlight(s) <= |s.done.slots| && (es == [] || Bounded(Step(s, es[0]), es[1..]))
  }

  lemma {:induction false} BusyPositive(ws: seq<Worker>, i: nat)
    requires i < |ws| && BusyOne(ws[i]) == 1
    ensures Busy(ws) > 0
  {
    if i > 0 {
      BusyPositive(ws[1..], i - 1);
    }
  }

  /** The side condition behind the unchecked push: a run that keeps in-flight work
      within the completion ring overwrites nothing. */
  lemma {:induction false} BoundedNeverOverwrites(s: State, es: seq<Event>)
    requires RingsOk(s) && Bounded(s, es)
    ensures NoOverwrite(s, es)
    decreases es
  {
    if es != [] {
      if es[0].PushDone? && Enabled(s, es[0]) {
        BusyPositive(s.workers, es[0].w);
      }
      BoundedNeverOverwrites(Step(s, es[0]), es[1..]);
    }
  }

  predicate WorkerStep(e: Event) { e.TakeJob? || e.RunHandler? || e.PushDone? }

  predicate WorkerSteps(es: seq<Event>) { forall i | 0 <= i < |es| :: WorkerStep(es[i]) }

  lemma WorkerStepInFlight(s: State, e: Event)
    requires Inv(s) && WorkerStep(e)
    ensures InFlight(Step(s, e)) == InFlight(s)
  {
    if Enabled(s, e) {
      match e
      case TakeJob(w) => BusyUpdate(s.workers, w, Holding(s.jobs.slots[s.jobs.head]));
      case RunHandler(w) => BusyUpdate(s.workers, w, Ran(s.workers[w].req));
      case PushDone(w) => BusyUpdate(s.workers, w, Idle);
    }
  }

  lemma {:induction false} WorkerRunInFlight(s: State, es: seq<Event>)
    requires Inv(s) && WorkerSteps(es)
    ensures InFlight(Run(s, es)) == InFlight(s)
    decreases es
  {
    hide InFlight, Contents, Held, Unpushed;
    if es != [] {
      assert WorkerStep(es[0]);
      StepInv(s, es[0]);
      WorkerStepInFlight(s, es[0]);
      WorkerRunInFlight(Step(s, es[0]), es[1..]);
    }
  }

  /** Worker steps left before everything in flight sits in the completion ring. */
  function Remaining(s: State): nat { 3 * s.jobs.count + 2 * |Held(s.workers)| + |Unpushed(s.workers)| }

  /** A worker that can act, if there is any work at all. */
  lemma SomeWorker(s: State) returns (e: Event)
    requires Inv(s) && |s.workers| > 0 && InFlight(s) > s.done.count
    ensures WorkerStep(e) && Enabled(s, e) && Remaining(Step(s, e)) < Remaining(s)
  {
    if i :| 0 <= i < |s.workers| && s.workers[i].Ran? {
      e := PushDone(i);
      PushMoves(s.workers, i, s.workers[i].req);
    } else if i :| 0 <= i < |s.workers| && s.workers[i].Holding? {
      e := RunHandler(i);
      HandlerMoves(s.workers, i, s.workers[i].req);
    } else {
      HandsEmpty(s.workers);
      assert !HasExited(s.workers);
      e := TakeJob(0);
      NoneMoves(s.workers, 0, Holding(s.jobs.slots[s.jobs.head]));
    }
  }

  /** With more in flight than the completion ring holds, the workers alone can run into
      an overwrite. */
  lemma {:induction false} OverwriteReachable(s: State) returns (es: seq<Event>, e: Event)
    requires Inv(s) && |s.workers| > 0 && s.done.count <= |s.done.slots| < InFlight(s)
    ensures WorkerSteps(es) && Overwrites(Run(s, es), e)
    decreases Remaining(s)
  {
    var step := SomeWorker(s);
    if Overwrites(s, step) {
      es, e := [], step;
    } else {
      hide Inv, InFlight, Remaining, Overwrites, Step, Run, WorkerSteps;
      InvRings(s);
      StepInv(s, step);
      WorkerStepInFlight(s, step);
      RoomKept(s, step);
      var rest;
      rest, e := OverwriteReachable(Step(s, step));
      es := [step] + rest;
      PrependStep(s, step, rest, e);
    }
  }

  lemma PrependStep(s: State, step: Event, rest: seq<Event>, e: Event)
    requires RingsOk(s) && WorkerStep(step) && WorkerSteps(rest) && Overwrites(Run(Step(s, step), rest), e)
    ensures WorkerSteps([step] + rest) && Overwrites(Run(s, [step] + rest), e)
  {
    hide Step, Overwrites;
    assert ([step] + rest)[1..] == rest;
    assert forall i | 1 <= i < |rest| + 1 :: ([step] + rest)[i] == rest[i - 1];
  }

  lemma InvRings(s: State)
    requires Inv(s)
    ensures RingsOk(s)
  {
  }

  lemma RoomKept(s: State, e: Event)
    requires RingsOk(s) && WorkerStep(e) && !Overwrites(s, e) && s.done.count <= |s.done.slots|
    ensures Step(s, e).done.count <= |Step(s, e).done.slots| == |s.done.slots|
    ensures |Step(s, e).workers| == |s.workers|
  {
  }

  // ----------------------------------------------------------------- shutdown

  /** A submit is accepted if and only if there is room and no shutdown; a refused one
      changes nothing. */
  lemma SubmitIff(s: State, x: Req)
    requires RingsOk(s)
    ensures var t := Step(s, Submit(x));
            if !s.shutdown && s.jobs.count < |s.jobs.slots| then t.log.submitted == s.log.submitted + [x]
            else t == s
  {
  }

  lemma {:induction false} StaysShut(s: State, es: seq<Event>)
    requires RingsOk(s) && s.shutdown
    ensures Run(s, es).shutdown && Run(s, es).log.submitted == s.log.submitted
    decreases es
  {
    if es != [] {
      StaysShut(Step(s, es[0]), es[1..]);
    }
  }

  /** From the start of a shutdown on, whatever happens, nothing more is accepted. */
  lemma ShutdownRefuses(s: State, es: seq<Event>)
    requires RingsOk(s)
    ensures Run(Step(s, BeginShutdown), es).log.submitted == s.log.submitted
  {
    StaysShut(Step(s, BeginShutdown), es);
  }

  /** What a worker does on its own. */
  predicate OwnStep(e: Event) { WorkerStep(e) || e.Exit? }

  predicate AllExited(ws: seq<Worker>) { forall w | w in ws :: w.Exited? }

  lemma NextExits(s: State, k: nat)
    requires RingsOk(s) && s.shutdown && s.jobs.count == 0 && k < |s.workers|
    requires (forall i | 0 <= i < k :: s.workers[i].Exited?) && forall i | 0 <= i < |s.workers| :: s.workers[i].Idle? || s.workers[i].Exited?
    ensures var t := Step(s, Exit(k));
            && t.shutdown && t.jobs.count == 0 && |t.workers| == |s.workers|
            && (forall i | 0 <= i <= k :: t.workers[i].Exited?)
            && forall i | 0 <= i < |t.workers| :: t.workers[i].Idle? || t.workers[i].Exited?
  {
  }

  lemma {:induction false} ExitAll(s: State, k: nat) returns (es: seq<Event>)
    requires RingsOk(s) && s.shutdown && s.jobs.count == 0 && k <= |s.workers|
    requires (forall i | 0 <= i < k :: s.workers[i].Exited?) && forall i | 0 <= i < |s.workers| :: s.workers[i].Idle? || s.workers[i].Exited?
    ensures AllExited(Run(s, es).workers) && forall e | e in es :: OwnStep(e)
    decreases |s.workers| - k
  {
    if k == |s.workers| {
      es := [];
    } else {
      NextExits(s, k);
      hide Step;
      var rest := ExitAll(Step(s, Exit(k)), k + 1);
      es := [Exit(k)] + rest;
      assert es[1..] == rest;
    }
  }

  lemma {:induction false} AllIdle(ws: seq<Worker>)
    requires Busy(ws) == 0
    ensures forall i | 0 <= i < |ws| :: ws[i].Idle? || ws[i].Exited?
  {
    if ws != [] {
      AllIdle(ws[1..]);
      assert forall i | 0 < i < |ws| :: ws[i] == ws[1..][i - 1];
    }
  }

  /** A shutdown can always finish: from every reachable state there are steps of the
      workers alone after which all have exited, and none of them waits for anything but
      the jobs already accepted. */
  lemma ShutdownCanFinish(s: State) returns (es: seq<Event>)
    requires Inv(s) && |s.workers| > 0
    ensures var t := Run(Step(s, BeginShutdown), es);
            AllExited(t.workers) && t.log.submitted == s.log.submitted
    ensures forall e | e in es :: OwnStep(e)
  {
    StepInv(s, BeginShutdown);
    es := WorkersFinish(Step(s, BeginShutdown));
  }

  lemma {:induction false} WorkersFinish(s: State) returns (es: seq<Event>)
    requires Inv(s) && s.shutdown && |s.workers| > 0
    ensures AllExited(Run(s, es).workers) && Run(s, es).log.submitted == s.log.submitted
    ensures forall e | e in es :: OwnStep(e)
    decreases Remaining(s)
  {
    if InFlight(s) > s.done.count {
      var step := SomeWorker(s);
      StepInv(s, step);
      StepKeepsShutdown(s, step);
      var rest := WorkersFinish(Step(s, step));
      es := [step] + rest;
      assert es[1..] == rest;
    } else {
      AllIdle(s.workers);
      es := ExitAll(s, 0);
    }
    StaysShut(s, es);
  }

  lemma StepKeepsShutdown(s: State, e: Event)
    requires RingsOk(s) && s.shutdown
    ensures Step(s, e).shutdown && |Step(s, e).workers| == |s.workers|
  {
  }

  ghost predicate WorkersCanOverwrite(s: State)
    requires RingsOk(s)
  {
    exists es, e :: WorkerSteps(es) && Overwrites(Run(s, es), e)
  }

  /** The exact condition: between drains the workers can lose a completion if and only
      if more work is in flight than the completion ring has slots. Submit checks the
      job ring only, so nothing enforces it. */
  lemma OverwriteIffOverCommitted(s: State)
    requires Inv(s) && |s.workers| > 0 && s.done.count <= |s.done.slots|
    ensures WorkersCanOverwrite(s) <==> InFlight(s) > |s.done.slots|
  {
    if InFlight(s) > |s.done.slots| {
      var es, e := OverwriteReachable(s);
    }
    if WorkersCanOverwrite(s) {
      var es, e :| WorkerSteps(es) && Overwrites(Run(s, es), e);
      WorkerRunInFlight(s, es);
      WorkerCount(s, es);
      BusyPositive(Run(s, es).workers, e.w);
    }
  }

  lemma {:induction false} SubmitMany(s: State, k: nat) returns (es: seq<Event>)
    requires Inv(s) && !s.shutdown && s.jobs.count + k <= |s.jobs.slots|
    ensures InFlight(Run(s, es)) == InFlight(s) + k
    decreases k
  {
    if k == 0 {
      es := [];
    } else {
      StepInv(s, Submit(k));
      var rest := SubmitMany(Step(s, Submit(k)), k - 1);
      es := [Submit(k)] + rest;
      assert es[1..] == rest;
    }
  }

  /** Over-commitment happens with every ring size: one job in a worker's hands and a
      full job ring are all accepted. */
  lemma SubmitOverCommits(cap: nat, workers: nat) returns (es: seq<Event>)
    requires cap > 0 && workers > 0
    ensures InFlight(Run(Start(cap, workers), es)) == cap + 1
  {
    var s0 := Start(cap, workers);
    StartInv(cap, workers);
    var s1 := Step(s0, Submit(0));
    StepInv(s0, Submit(0));
    var s2 := Step(s1, TakeJob(0));
    StepInv(s1, TakeJob(0));
    HandsEmpty(s0.workers);
    BusyUpdate(s1.workers, 0, Holding(s1.jobs.slots[s1.jobs.head]));
    var rest := SubmitMany(s2, cap);
    es := [Submit(0), TakeJob(0)] + rest;
    assert es[1..] == [TakeJob(0)] + rest && es[1..][1..] == rest;
    assert Run(s0, es) == Run(s1, es[1..]) == Run(s2, rest);
  }

  /** One slot and one worker: while a completion waits, a second job is accepted. */
  lemma SecondJobAccepted(a: Req, b: Req)
    ensures Run(Start(1, 1), [Submit(a), TakeJob(0), Submit(b), RunHandler(0), PushDone(0)]) ==
            State(Ring([b], 0, 0, 1), Ring([a], 0, 0, 1), false, [Idle], Log([a, b], [a], [a], [a], []))
  {
    RunFive(Start(1, 1), Submit(a), TakeJob(0), Submit(b), RunHandler(0), PushDone(0));
    var s2 := Step(Step(Start(1, 1), Submit(a)), TakeJob(0));
    assert s2 == State(Ring([a], 0, 0, 0), Empty(1), false, [Holding(a)], Log([a], [a], [], [], []));
  }

  /** Its completion then lands on the first one. */
  lemma SecondCompletionOverwrites(a: Req, b: Req)
    ensures Run(State(Ring([b], 0, 0, 1), Ring([a], 0, 0, 1), false, [Idle], Log([a, b], [a], [a], [a], [])),
                [TakeJob(0), RunHandler(0), PushDone(0), DrainOne, DrainOne]).log ==
            Log([a, b], [a, b], [a, b], [a, b], [b, b])
  {
    var s0 := State(Ring([b], 0, 0, 1), Ring([a], 0, 0, 1), false, [Idle], Log([a, b], [a], [a], [a], []));
    RunFive(s0, TakeJob(0), RunHandler(0), PushDone(0), DrainOne, DrainOne);
    var s3 := Step(Step(Step(s0, TakeJob(0)), RunHandler(0)), PushDone(0));
    assert s3 == State(Ring([b], 0, 0, 0), Ring([b], 0, 0, 2), false, [Idle], Log([a, b], [a, b], [a, b], [a, b], []));
    var s4 := Step(s3, DrainOne);
    assert s4.done == Ring([b], 0, 0, 1) && s4.log == Log([a, b], [a, b], [a, b], [a, b], [b]);
  }

  /** And it loses work: the first request is never drained and the second is drained
      twice. */
  lemma CompletionLost(a: Req, b: Req)
    ensures var es := [Submit(a), TakeJob(0), Submit(b), RunHandler(0), PushDone(0),
                       TakeJob(0), RunHandler(0), PushDone(0), DrainOne, DrainOne];
            var s := Run(Start(1, 1), es);
            s.log.submitted == [a, b] && s.log.drained == [b, b]
  {
    hide Run;
    var xs := [Submit(a), TakeJob(0), Submit(b), RunHandler(0), PushDone(0)];
    var ys := [TakeJob(0), RunHandler(0), PushDone(0), DrainOne, DrainOne];
    SecondJobAccepted(a, b);
    SecondCompletionOverwrites(a, b);
    RunConcat(Start(1, 1), xs, ys);
    assert xs + ys == [Submit(a), TakeJob(0), Submit(b), RunHandler(0), PushDone(0),
                       TakeJob(0), RunHandler(0), PushDone(0), DrainOne, DrainOne];
  }

  lemma RunFive(s: State, e1: Event, e2: Event, e3: Event, e4: Event, e5: Event)
    requires RingsOk(s)
    ensures Run(s, [e1, e2, e3, e4, e5]) == Step(Step(Step(Step(Step(s, e1), e2), e3), e4), e5)
  {
    hide Step;
    assert [e1, e2, e3, e4, e5][1..] == [e2, e3, e4, e5];
    assert [e2, e3, e4, e5][1..] == [e3, e4, e5];
    assert [e3, e4, e5][1..] == [e4, e5];
    assert [e4, e5][1..] == [e5];
    var t := Step(Step(Step(s, e1), e2), e3);
    assert Run(t, [e4, e5]) == Run(Step(t, e4), [e5]) == Step(Step(t, e4), e5);
    assert Run(Step(s, e1), [e2, e3, e4, e5]) == Run(Step(Step(s, e1), e2), [e3, e4, e5]) == Run(t, [e4, e5]);
  }

  lemma {:induction false} RunConcat(s: State, xs: seq<Event>, ys: seq<Event>)
    requires RingsOk(s)
    ensures Run(s, xs + ys) == Run(Run(s, xs), ys)
    decreases xs
  {
    hide Step;
    if xs == [] {
      assert xs + ys == ys;
    } else {
      assert (xs + ys)[1..] == xs[1..] + ys;
      RunConcat(Step(s, xs[0]), xs[1..], ys);
    }
  }

  lemma EmptyContents(r: Ring)
    requires Aligned(r) && r.count == 0
    ensures Contents(r) == []
  {
  }

  // ------------------------------------------------------------------ the pool

  /** `cerco_wpool`: two rings in arrays and a shutdown flag. Each method is one mutex
      section of the event loop or of a worker. */
  class Pool {
    const jobs: array<Req>
    const done: array<Req>
    var jobHead: nat
    var jobTail: nat
    var jobCount: nat
    var doneHead: nat
    var doneTail: nat
    var doneCount: nat
    var shutdown: bool

    ghost function Jobs(): Ring reads this, jobs { Ring(jobs[..], jobHead, jobTail, jobCount) }
    ghost function Completions(): Ring reads this, done { Ring(done[..], doneHead, doneTail, doneCount) }

    ghost predicate Valid()
      reads this, jobs, done
    {
      jobs != done && Aligned(Jobs()) && WellFormed(Completions())
    }

    constructor (cap: nat)
      requires cap > 0
      ensures Valid() && Jobs() == Empty(cap) && Completions() == Empty(cap) && !shutdown
    {
      jobs := new Req[cap](_ => 0);
      done := new Req[cap](_ => 0);
      jobHead, jobTail, jobCount := 0, 0, 0;
      doneHead, doneTail, doneCount := 0, 0, 0;
      shutdown := false;
    }

    /** Never blocks: a full ring or a shutdown rejects the job. */
    method TrySubmit(req: Req) returns (ok: bool)
      requires Valid()
      modifies `jobTail, `jobCount, jobs
      ensures Valid() && ok == (!shutdown && old(jobCount) < jobs.Length)
      ensures Jobs() == if ok then Push(old(Jobs()), req) else old(Jobs())
    {
      ok := !shutdown && jobCount < jobs.Length;
      if ok {
        PushAppends(Jobs(), req);
        jobs[jobTail] := req;
        jobTail := (jobTail + 1) % jobs.Length;
        jobCount := jobCount + 1;
        assert Jobs() == Push(old(Jobs()), req);
      }
    }

    /** A worker's section: the oldest job, or nothing when the ring is empty. */
    method Take() returns (req: Req, ok: bool)
      requires Valid()
      modifies `jobHead, `jobCount
      ensures Valid() && ok == (old(jobCount) > 0)
      ensures ok ==> req == Contents(old(Jobs()))[0] && Jobs() == Pop(old(Jobs()))
      ensures !ok ==> Jobs() == old(Jobs())
    {
      ok := jobCount > 0;
      req := 0;
      if ok {
        PopRemoves(Jobs());
        req := jobs[jobHead];
        jobHead := (jobHead + 1) % jobs.Length;
        jobCount := jobCount - 1;
      }
    }

    method PushCompletion(req: Req)
      requires Valid()
      modifies `doneTail, `doneCount, done
      ensures Valid() && Completions() == Push(old(Completions()), req)
      ensures Aligned(old(Completions())) && old(doneCount) < done.Length ==>
                Aligned(Completions()) && Contents(Completions()) == Contents(old(Completions())) + [req]
    {
      if Aligned(Completions()) && doneCount < done.Length {
        PushAppends(Completions(), req);
      }
      done[doneTail] := req;
      doneTail := (doneTail + 1) % done.Length;
      doneCount := doneCount + 1;
      assert Completions() == Push(old(Completions()), req);
    }

    /** The event loop's drain: everything in the ring, oldest first. */
    method DrainCompletions() returns (drained: seq<Req>)
      requires Valid() && Aligned(Completions())
      modifies `doneHead, `doneCount
      ensures Valid() && Aligned(Completions()) && doneCount == 0
      ensures drained == Contents(old(Completions()))
    {
      hide Contents;
      drained := [];
      assert drained + Contents(Completions()) == Contents(Completions());
      while doneCount != 0
        invariant Valid() && Aligned(Completions())
        invariant Contents(old(Completions())) == drained + Contents(Completions())
        decreases doneCount
      {
        PopRemoves(Completions());
        ghost var before := Completions();
        drained := drained + [done[doneHead]];
        doneHead := (doneHead + 1) % done.Length;
        doneCount := doneCount - 1;
        assert Completions() == Pop(before);
        ConcatAssoc(drained[..|drained| - 1], [before.slots[before.head]], Contents(Completions()));
      }
      EmptyContents(Completions());
      assert drained + [] == drained;
    }
  }
}
