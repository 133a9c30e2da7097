/** What every step of a run keeps about channels, WaitGroup, worker pool and mutants in
    flight: the WaitGroup protocol, the pool's stop protocol and conservation. */
module EngineRun {
  import opened Mutation
  import opened Counting
  import opened EngineModel

  // ---- Measures over the workers ----

  ghost function One(b: bool): nat { if b then 1 else 0 }

  predicate IsBusy(w: Worker) { w.Busy? }

  predicate Runs(w: Worker, m: Mutant) {
    w.Busy? && !w.phase.Sent? && w.job == m
  }

  /** Apply has failed, but the executor has not ended. */
  predicate GivesUp(w: Worker, m: Mutant) {
    w.Busy? && (w.phase.Abort? || w.phase.Failed?) && w.job == m
  }

  function Running(m: Mutant): Worker -> bool { (w: Worker) => Runs(w, m) }

  function GivingUp(m: Mutant): Worker -> bool { (w: Worker) => GivesUp(w, m) }

  lemma CountAfterUpdate(ws: seq<Worker>, w: nat, x: Worker, p: Worker -> bool)
    requires w < |ws|
    ensures CountIf(ws[w := x], p) + One(p(ws[w])) == CountIf(ws, p) + One(p(x))
  {
    CountIfWithout(ws, w, p);
    CountIfWithout(ws[w := x], w, p);
    assert ws[w := x][..w] == ws[..w] && ws[w := x][w + 1..] == ws[w + 1..];
  }

  lemma NobodyBusy(ws: seq<Worker>)
    ensures CountIf(ws, IsBusy) == 0 <==> forall w :: 0 <= w < |ws| ==> !ws[w].Busy?
  {
    CountIfNone(ws, IsBusy);
    assert forall w :: 0 <= w < |ws| ==> ws[w] in ws;
  }

  lemma IdleRunNothing(ws: seq<Worker>, m: Mutant)
    requires forall w :: 0 <= w < |ws| ==> !ws[w].Busy?
    ensures CountIf(ws, Running(m)) == CountIf(ws, GivingUp(m)) == 0
  {
    CountIfNone(ws, Running(m));
    CountIfNone(ws, GivingUp(m));
  }

  lemma RunningHasJob(ws: seq<Worker>, w: nat)
    requires w < |ws| && ws[w].Busy? && !ws[w].phase.Sent?
    ensures CountIf(ws, Running(ws[w].job)) > 0
  {
    CountIfNone(ws, Running(ws[w].job));
    assert ws[w] in ws;
  }

  ghost function Originals(rs: seq<Result>): seq<Mutant> {
    seq(|rs|, i requires 0 <= i < |rs| => rs[i].mutant)
  }

  ghost predicate Holds(d: Dispatcher, m: Mutant) {
    (d.Checking? || d.Counting? || d.Appending?) && d.m == m
  }

  // ---- The invariant ----

  /** The counter is the dispatcher's own share plus every executor counted but not done. */
  ghost predicate WaitGroupExact(s: State) {
    s.wg == One(!s.dispatcher.Exited?) + One(s.dispatcher.Appending?) + |s.queue| + CountIf(s.workers, IsBusy)
  }

  ghost predicate CloseProtocol(s: State) {
    && (s.outClosed <==> s.closer.Finished?)
    && (s.returned ==> s.outClosed)
    && (!s.closer.Waiting? ==> s.wg == 0)
  }

  /** The queue is closed only on a cancel, after the one discarded mutant; workers leave
      only through the closed and empty queue; Stop returns after all of them. */
  ghost predicate StopProtocol(c: Config, s: State) {
    && |s.workers| == c.workers
    && |s.queue| <= 1
    && (s.queueClosed ==> s.dispatcher.Joining? || s.dispatcher.Leaving? || s.dispatcher.Exited?)
    && (s.dispatcher.Joining? ==> s.queueClosed && s.dispatcher.spawned <= |s.workers|)
    && (s.queueClosed || s.dispatcher.ClosingQueue? ==> s.cancelled && |s.discarded| == 1)
    && (!s.queueClosed && !s.dispatcher.ClosingQueue? ==> s.discarded == multiset{})
    && (forall w :: 0 <= w < |s.workers| && (s.workers[w].Quitting? || s.workers[w].Gone?)
         ==> s.queueClosed && s.queue == [])
    && (forall w :: 0 <= w < |s.workers| && s.workers[w].Gone? && s.dispatcher.Joining? ==> w < s.dispatcher.spawned)
    && (s.dispatcher.Leaving? || s.dispatcher.Exited? ==>
         if s.queueClosed then forall w :: 0 <= w < |s.workers| ==> s.workers[w].Gone?
         else s.walker.StreamClosed?)
  }

  /** Every copy of m sent on the stream is in exactly one place. */
  ghost predicate Balanced(s: State, m: Mutant) {
    multiset(s.offered)[m] == One(Holds(s.dispatcher, m)) + multiset(s.queue)[m] + CountIf(s.workers, Running(m))
                              + multiset(Originals(s.collected))[m] + s.dropped[m] + s.discarded[m]
  }

  ghost predicate Conserved(s: State) {
    forall m :: Balanced(s, m)
  }

  /** How often Apply failed for m. */
  ghost function Lost(mem: Memory, m: Mutant): nat {
    multiset(mem.failed)[m] + multiset(mem.absent)[m] + multiset(mem.unread)[m]
  }

  /** Every mutant whose Apply failed, for whatever reason, is dropped or about to be, and no
      other. */
  ghost predicate Accounted(s: State, m: Mutant) {
    Lost(s.mem, m) == s.dropped[m] + CountIf(s.workers, GivingUp(m))
  }

  ghost predicate DropsExplained(s: State) {
    forall m :: Accounted(s, m)
  }

  ghost predicate RunInv(c: Config, s: State) {
    && WaitGroupExact(s)
    && CloseProtocol(s)
    && StopProtocol(c, s)
    && Conserved(s)
    && DropsExplained(s)
  }

  // ---- Consequences used by the steps ----

  /** A counter of zero leaves nobody who could add to it, send or finish. */
  lemma ZeroMeansQuiet(s: State)
    requires WaitGroupExact(s) && s.wg == 0
    ensures s.dispatcher.Exited? && s.queue == [] && forall w :: 0 <= w < |s.workers| ==> !s.workers[w].Busy?
  {
    NobodyBusy(s.workers);
  }

  // ---- Preservation: counter and channels ----

  lemma CountersWalk(c: Config, s: State, a: WalkerAction)
    requires WaitGroupExact(s) && CloseProtocol(s) && CanWalk(c, s, a)
    ensures WaitGroupExact(Walk(c, s, a)) && CloseProtocol(Walk(c, s, a))
  {
  }

  lemma CountersDispatch(c: Config, s: State, a: DispatcherAction)
    requires WaitGroupExact(s) && CloseProtocol(s) && CanDispatch(c, s, a)
    ensures WaitGroupExact(Dispatch(c, s, a)) && CloseProtocol(Dispatch(c, s, a))
  {
    if s.wg == 0 { ZeroMeansQuiet(s); }
  }

  lemma CountersPool(c: Config, s: State, w: nat, a: PoolAction)
    requires WaitGroupExact(s) && CloseProtocol(s) && CanPool(c, s, w, a)
    ensures WaitGroupExact(Pool(c, s, w, a)) && CloseProtocol(Pool(c, s, w, a))
  {
    CountAfterUpdate(s.workers, w, Pool(c, s, w, a).workers[w], IsBusy);
    if s.wg == 0 { ZeroMeansQuiet(s); }
  }

  lemma CountersWork(c: Config, s: State, w: nat, op: Op)
    requires WaitGroupExact(s) && CloseProtocol(s) && CanWork(c, s, w, op)
    ensures WaitGroupExact(Work(c, s, w, op)) && CloseProtocol(Work(c, s, w, op))
  {
    CountAfterUpdate(s.workers, w, Work(c, s, w, op).workers[w], IsBusy);
  }

  // ---- Preservation: the stop protocol ----

  lemma StopWalk(c: Config, s: State, a: WalkerAction)
    requires StopProtocol(c, s) && CanWalk(c, s, a)
    ensures StopProtocol(c, Walk(c, s, a))
  {
  }

  lemma StopDispatch(c: Config, s: State, a: DispatcherAction)
    requires StopProtocol(c, s) && CanDispatch(c, s, a)
    ensures StopProtocol(c, Dispatch(c, s, a))
  {
  }

  lemma StopPool(c: Config, s: State, w: nat, a: PoolAction)
    requires StopProtocol(c, s) && CanPool(c, s, w, a)
    ensures StopProtocol(c, Pool(c, s, w, a))
  {
  }

  lemma StopWork(c: Config, s: State, w: nat, op: Op)
    requires StopProtocol(c, s) && CanWork(c, s, w, op)
    ensures StopProtocol(c, Work(c, s, w, op))
  {
  }

  // ---- Preservation: conservation, one mutant at a time ----

  lemma BalancedWalk(c: Config, s: State, a: WalkerAction, m: Mutant)
    requires Balanced(s, m) && CanWalk(c, s, a)
    ensures Balanced(Walk(c, s, a), m)
  {
  }

  lemma TailCount(q: seq<Mutant>, x: Mutant, m: Mutant)
    ensures multiset(q + [x])[m] == multiset(q)[m] + One(x == m)
  {
  }

  lemma BalancedAppend(c: Config, s: State, m: Mutant)
    requires Balanced(s, m) && CanDispatch(c, s, Append)
    ensures Balanced(Dispatch(c, s, Append), m)
  {
    TailCount(s.queue, s.dispatcher.m, m);
  }

  lemma BalancedCheck(c: Config, s: State, m: Mutant)
    requires Balanced(s, m) && CanDispatch(c, s, CheckDone)
    ensures Balanced(Dispatch(c, s, CheckDone), m)
  {
  }

  lemma BalancedDispatch(c: Config, s: State, a: DispatcherAction, m: Mutant)
    requires Balanced(s, m) && CanDispatch(c, s, a)
    ensures Balanced(Dispatch(c, s, a), m)
  {
    match a
    case Append => BalancedAppend(c, s, m);
    case CheckDone => BalancedCheck(c, s, m);
    case _ =>
  }

  lemma OriginalsAppend(rs: seq<Result>, r: Result)
    ensures Originals(rs + [r]) == Originals(rs) + [r.mutant]
  {
  }

  lemma HeadCount(q: seq<Mutant>, m: Mutant)
    requires q != []
    ensures multiset(q)[m] == One(q[0] == m) + multiset(q[1..])[m]
  {
    assert q == [q[0]] + q[1..];
  }

  lemma BalancedTake(c: Config, s: State, w: nat, m: Mutant)
    requires Balanced(s, m) && CanPool(c, s, w, Take)
    ensures Balanced(Pool(c, s, w, Take), m)
  {
    CountAfterUpdate(s.workers, w, Busy(s.queue[0], Fetch, None), Running(m));
    HeadCount(s.queue, m);
  }

  lemma BalancedDeliver(c: Config, s: State, w: nat, m: Mutant)
    requires Balanced(s, m) && CanPool(c, s, w, Deliver)
    ensures Balanced(Pool(c, s, w, Deliver), m)
  {
    var job := s.workers[w].job;
    CountAfterUpdate(s.workers, w, Busy(job, Sent, s.workers[w].setting), Running(m));
    OriginalsAppend(s.collected, Result(job, s.workers[w].phase.status, w, s.workers[w].setting));
    TailCount(Originals(s.collected), job, m);
  }

  lemma BalancedLeave(c: Config, s: State, w: nat, a: PoolAction, m: Mutant)
    requires Balanced(s, m) && CanPool(c, s, w, a) && !a.Take? && !a.Deliver?
    ensures Balanced(Pool(c, s, w, a), m)
  {
    CountAfterUpdate(s.workers, w, Pool(c, s, w, a).workers[w], Running(m));
  }

  lemma BalancedPool(c: Config, s: State, w: nat, a: PoolAction, m: Mutant)
    requires Balanced(s, m) && CanPool(c, s, w, a)
    ensures Balanced(Pool(c, s, w, a), m)
  {
    match a
    case Take => BalancedTake(c, s, w, m);
    case Deliver => BalancedDeliver(c, s, w, m);
    case _ => BalancedLeave(c, s, w, a, m);
  }

  lemma BalancedWork(c: Config, s: State, w: nat, op: Op, m: Mutant)
    requires Balanced(s, m) && CanWork(c, s, w, op)
    ensures Balanced(Work(c, s, w, op), m)
  {
    CountAfterUpdate(s.workers, w, Work(c, s, w, op).workers[w], Running(m));
  }

  lemma BalancedEnd(c: Config, s: State, a: EndAction, m: Mutant)
    requires Balanced(s, m) && CanEnd(c, s, a)
    ensures Balanced(End(c, s, a), m)
  {
  }

  lemma BalancedStep(c: Config, s: State, a: Action, m: Mutant)
    requires Balanced(s, m) && Enabled(c, s, a)
    ensures Balanced(Next(c, s, a), m)
  {
    match a
    case OfWalker(x) => BalancedWalk(c, s, x, m);
    case OfDispatcher(x) => BalancedDispatch(c, s, x, m);
    case OfPool(w, x) => BalancedPool(c, s, w, x, m);
    case OfExecutor(w, op) => BalancedWork(c, s, w, op, m);
    case OfEnd(x) => BalancedEnd(c, s, x, m);
  }

  lemma ConservedStep(c: Config, s: State, a: Action)
    requires Conserved(s) && Enabled(c, s, a)
    ensures Conserved(Next(c, s, a))
  {
    forall m ensures Balanced(Next(c, s, a), m) {
      BalancedStep(c, s, a, m);
    }
  }

  // ---- Preservation: dropped mutants ----

  lemma GaveUp(c: Config, s: State, w: nat, a: PoolAction, m: Mutant)
    requires CanPool(c, s, w, a)
    ensures Pool(c, s, w, a).dropped[m] + One(GivesUp(PoolWorker(s, s.workers[w], a), m))
         == s.dropped[m] + One(GivesUp(s.workers[w], m))
  {
  }

  lemma AccountedPool(c: Config, s: State, w: nat, a: PoolAction, m: Mutant)
    requires Accounted(s, m) && CanPool(c, s, w, a)
    ensures Accounted(Pool(c, s, w, a), m)
  {
    PoolTouches(c, s, w, a);
    GaveUp(c, s, w, a, m);
    CountAfterUpdate(s.workers, w, PoolWorker(s, s.workers[w], a), GivingUp(m));
  }

  ghost predicate FailsApply(c: Config, mem: Memory, w: nat, job: Mutant, op: Op) {
    op.WriteFault? || op.ReadFault? || (op.ReadFile? && WorkPath(c, job) !in Dir(mem, w))
  }

  lemma LostByFailure(c: Config, mem: Memory, w: nat, x: Worker, op: Op, m: Mutant)
    requires x.Busy? && CanExec(c, mem, w, x.job, x.phase, op) && FailsApply(c, mem, w, x.job, op)
    ensures Lost(ExecMemory(c, mem, w, x.job, x.phase, op), m) == Lost(mem, m) + One(x.job == m)
  {
    TailCount(mem.failed, x.job, m);
    TailCount(mem.absent, x.job, m);
    TailCount(mem.unread, x.job, m);
  }

  lemma LostByStep(c: Config, mem: Memory, w: nat, x: Worker, op: Op, m: Mutant)
    requires x.Busy? && CanExec(c, mem, w, x.job, x.phase, op)
    ensures Lost(ExecMemory(c, mem, w, x.job, x.phase, op), m) + One(GivesUp(x, m))
         == Lost(mem, m) + One(GivesUp(ExecWorker(c, mem, w, x, op), m))
  {
    if FailsApply(c, mem, w, x.job, op) {
      LostByFailure(c, mem, w, x, op, m);
    }
  }

  lemma AccountedWork(c: Config, s: State, w: nat, op: Op, m: Mutant)
    requires Accounted(s, m) && CanWork(c, s, w, op)
    ensures Accounted(Work(c, s, w, op), m)
  {
    LostByStep(c, s.mem, w, s.workers[w], op, m);
    CountAfterUpdate(s.workers, w, ExecWorker(c, s.mem, w, s.workers[w], op), GivingUp(m));
  }

  lemma AccountedStep(c: Config, s: State, a: Action, m: Mutant)
    requires Accounted(s, m) && Enabled(c, s, a)
    ensures Accounted(Next(c, s, a), m)
  {
    StepTouches(c, s, a);
    match a
    case OfPool(w, x) => AccountedPool(c, s, w, x, m);
    case OfExecutor(w, op) => AccountedWork(c, s, w, op, m);
    case _ =>
  }

  lemma DropsExplainedStep(c: Config, s: State, a: Action)
    requires DropsExplained(s) && Enabled(c, s, a)
    ensures DropsExplained(Next(c, s, a))
  {
    forall m ensures Accounted(Next(c, s, a), m) {
      AccountedStep(c, s, a, m);
    }
  }

  // ---- The whole invariant ----

  lemma RunInvInit(c: Config)
    ensures RunInv(c, Init(c))
  {
    var s := Init(c);
    NobodyBusy(s.workers);
    forall m ensures Balanced(s, m) && Accounted(s, m) {
      IdleRunNothing(s.workers, m);
    }
  }

  lemma RunInvStep(c: Config, s: State, a: Action)
    requires RunInv(c, s) && Enabled(c, s, a)
    ensures RunInv(c, Next(c, s, a))
  {
    ConservedStep(c, s, a);
    DropsExplainedStep(c, s, a);
    match a
    case OfWalker(a) => CountersWalk(c, s, a); StopWalk(c, s, a);
    case OfDispatcher(a) => CountersDispatch(c, s, a); StopDispatch(c, s, a);
    case OfPool(w, a) => CountersPool(c, s, w, a); StopPool(c, s, w, a);
    case OfExecutor(w, op) => CountersWork(c, s, w, op); StopWork(c, s, w, op);
    case OfEnd(a) =>
  }

  // ---- The safety properties of the protocol ----

  /** A worker about to send finds the result channel open and the collector still
      receiving: no send ever meets a closed channel. */
  lemma SendMeetsOpenChannel(c: Config, s: State, w: nat)
    requires RunInv(c, s) && w < |s.workers| && s.workers[w].Busy?
    ensures s.wg > 0 && s.closer.Waiting? && !s.outClosed && !s.returned
  {
    NobodyBusy(s.workers);
  }

  /** Add happens only while the counter is positive and Done never takes it below zero;
      once zero the counter stays zero and the result channel is closed once. */
  lemma WaitGroupNeverMisused(c: Config, s: State, a: Action)
    requires RunInv(c, s) && Enabled(c, s, a)
    ensures Next(c, s, a).wg >= 0
    ensures Next(c, s, a).wg > s.wg ==> s.wg > 0
    ensures s.wg == 0 ==> Next(c, s, a).wg == 0
    ensures a == OfEnd(CloseOut) ==> !s.outClosed
    ensures s.outClosed ==> Next(c, s, a).outClosed && Next(c, s, a).collected == s.collected
  {
    RunInvStep(c, s, a);
    if s.wg == 0 { ZeroMeansQuiet(s); }
  }
}
