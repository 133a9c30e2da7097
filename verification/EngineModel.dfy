/** One run of the engine as a transition system. A state holds the program point of every
    goroutine (walker, dispatcher, workers, closer, collector), the channels and the
    WaitGroup between them, and the memory they share: ASTs, file locks and work
    directories. Every action is one indivisible step of one goroutine, or one rendezvous
    on an unbuffered channel.
    (internal/engine/engine.go, internal/engine/workerpool/workerpool.go,
    internal/engine/executor.go, internal/engine/tokenmutator.go) */
module EngineModel {
  import opened Mutation
  import Coverage
  import Diff

  // ---- The input of a run ----

  datatype Node = Node(tok: Token, line: LineNumber, column: int)

  /** A parsed source file: its token nodes in preorder. */
  datatype SourceFile = SourceFile(name: Path, pkg: string, nodes: seq<Node>)

  type Tree = map<Path, Bytes>

  /** How `go test` came back. */
  datatype TestEnd = DeadlineExceeded | Exit(code: int) | NoExitError

  datatype Config = Config(
    files: seq<SourceFile>,                          // the files of the walk, in walk order
    source: Tree,                                    // what a fresh work directory holds
    callingDir: Path,                                // where file names start inside the tree
    enabled: set<Kind>,
    profile: Coverage.Profile,
    changes: Diff.Changes,
    render: (nat, seq<Token>) -> Bytes,              // go/printer on the AST of a file
    outcomes: (Tree, string) -> set<TestEnd>,        // go test in a directory on a package
    dryRun: bool,
    integrationMode: bool,
    workers: nat)

  datatype Mutant = Mutant(file: nat, node: nat, kind: Kind, status: Status)

  /** What a write of mutated source found: the mutants whose writes had failed before it, in
      order, and the foreign content that failures had left in its work directory. */
  datatype Setting = Setting(failed: seq<Mutant>, damage: Tree)

  /** What the collector receives: the mutant with its final status and work directory.
      setting only records history. */
  datatype Result = Result(mutant: Mutant, status: Status, worker: nat, setting: Option<Setting>)

  predicate HasNode(c: Config, f: nat, i: nat) {
    f < |c.files| && i < |c.files[f].nodes|
  }

  ghost function PositionOf(c: Config, f: nat, i: nat): Position
    requires HasNode(c, f, i)
  {
    Position(c.files[f].name, c.files[f].nodes[i].line, c.files[f].nodes[i].column)
  }

  function FileName(c: Config, f: nat): Path {
    if f < |c.files| then c.files[f].name else ""
  }

  /** The file inside a work directory. */
  function WorkPath(c: Config, m: Mutant): Path {
    c.callingDir + "/" + FileName(c, m.file)
  }

  function TestTarget(c: Config, m: Mutant): string {
    if c.integrationMode then "./..." else if m.file < |c.files| then c.files[m.file].pkg else ""
  }

  /** mutationStatus: a line outside the diff wins over coverage. */
  ghost function MutationStatus(c: Config, pos: Position): Status {
    if !Diff.Changed(c.changes, pos) then Skipped
    else if Coverage.Covered(c.profile, pos) then Runnable
    else NotCovered
  }

  ghost function NewMutant(c: Config, f: nat, i: nat, kind: Kind): Mutant
    requires HasNode(c, f, i)
  {
    Mutant(f, i, kind, MutationStatus(c, PositionOf(c, f, i)))
  }

  function TestFailedStatus(code: int): Status {
    if code == 1 then Killed else if code == 2 then NotViable else Lived
  }

  function TestStatus(end: TestEnd): Status {
    match end
    case DeadlineExceeded => TimedOut
    case Exit(code) => TestFailedStatus(code)
    case NoExitError => Lived
  }

  /** How each status comes about; the deadline wins over any exit code. */
  lemma TestStatusMeaning(end: TestEnd)
    ensures TestStatus(end) == TimedOut <==> end == DeadlineExceeded
    ensures TestStatus(end) == Killed <==> end == Exit(1)
    ensures TestStatus(end) == NotViable <==> end == Exit(2)
    ensures TestStatus(end) == Lived <==> end == NoExitError || (end.Exit? && end.code != 1 && end.code != 2)
  {
  }

  predicate SkipsTests(c: Config, m: Mutant) {
    m.status == NotCovered || m.status == Skipped || c.dryRun
  }

  /** The mutant is to be tested, but its file is not part of the tree that is copied, for example
      because it is a symbolic link: the walk follows it, the copy leaves it out. */
  ghost predicate Missing(c: Config, m: Mutant) {
    !SkipsTests(c, m) && WorkPath(c, m) !in c.source
  }

  /** Tokens of a file as parsed. */
  ghost function Parsed(c: Config, f: nat): seq<Token>
    requires f < |c.files|
  {
    seq(|c.files[f].nodes|, i requires 0 <= i < |c.files[f].nodes| => c.files[f].nodes[i].tok)
  }

  // ---- Program points ----

  datatype Walker =
    | AtNode(file: nat, node: nat)
    | Offering(file: nat, node: nat, kinds: seq<Kind>)
    | StreamClosed

  datatype Dispatcher =
    | Receiving
    | Checking(m: Mutant)          // received, before checkDone
    | Counting(m: Mutant)          // not cancelled, before wg.Add(1)
    | Appending(m: Mutant)         // before the queue send
    | ClosingQueue                 // cancelled, entering pool.Stop
    | Joining(spawned: nat)        // stop goroutines started for the workers below spawned
    | Leaving                      // before the deferred wg.Done
    | Exited

  datatype Phase =
    | Fetch
    | Decide
    | Acquire
    | Read
    | SetTok(orig: Bytes)
    | Write(orig: Bytes, actual: Token)
    | ResetTok(orig: Bytes, actual: Token)
    | Release(orig: Bytes)
    | Abort                        // error inside the critical section
    | Test(orig: Bytes)
    | Restore(orig: Bytes, status: Status)
    | Send(status: Status)
    | Failed                       // Apply returned an error
    | Sent

  /** setting only records history: what the write of the job found. */
  datatype Worker = Idle | Busy(job: Mutant, phase: Phase, setting: Option<Setting>) | Quitting | Gone

  datatype Closer = Waiting | ClosingOut | Finished

  /** The last four only record history: the mutants whose writes failed, in order, what failed
      writes left in each work directory, the mutants whose file was not there to be read, and
      those whose read failed. */
  datatype Memory = Memory(
    asts: seq<seq<Token>>,
    locks: map<Path, nat>,
    dirs: map<nat, Tree>,
    failed: seq<Mutant>,
    damage: map<nat, Tree>,
    absent: seq<Mutant>,
    unread: seq<Mutant>)

  /** offered, dropped and discarded only record history. */
  datatype State = State(
    walker: Walker,
    dispatcher: Dispatcher,
    queue: seq<Mutant>,
    queueClosed: bool,
    workers: seq<Worker>,
    wg: int,
    closer: Closer,
    outClosed: bool,
    collected: seq<Result>,
    returned: bool,
    cancelled: bool,
    panicked: bool,
    offered: seq<Mutant>,
    dropped: multiset<Mutant>,
    discarded: multiset<Mutant>,
    mem: Memory)

  ghost function Init(c: Config): State {
    State(AtNode(0, 0), Receiving, [], false, seq(c.workers, _ => Idle), 1, Waiting, false, [], false, false, false,
          [], multiset{}, multiset{},
          Memory(seq(|c.files|, f requires 0 <= f < |c.files| => Parsed(c, f)), map[], map[], [], map[], [], []))
  }

  // ---- Walker ----

  datatype WalkerAction = NextFile | ReadNode | SkipKind | NextNode | HandOver | CloseStream

  ghost predicate CanWalk(c: Config, s: State, a: WalkerAction) {
    match a
    case NextFile => s.walker.AtNode? && s.walker.file < |c.files| && s.walker.node >= |c.files[s.walker.file].nodes|
    case ReadNode => s.walker.AtNode? && HasNode(c, s.walker.file, s.walker.node)
                     && s.walker.file < |s.mem.asts| && s.walker.node < |s.mem.asts[s.walker.file]|
    case CloseStream => s.walker.AtNode? && s.walker.file >= |c.files|
    case NextNode => s.walker.Offering? && s.walker.kinds == []
    case SkipKind => s.walker.Offering? && s.walker.kinds != [] && s.walker.kinds[0] !in c.enabled
    case HandOver => s.walker.Offering? && s.walker.kinds != [] && s.walker.kinds[0] in c.enabled
                     && HasNode(c, s.walker.file, s.walker.node) && s.dispatcher.Receiving?
  }

  ghost function Walk(c: Config, s: State, a: WalkerAction): State
    requires CanWalk(c, s, a)
  {
    match a
    case NextFile => s.(walker := AtNode(s.walker.file + 1, 0))
    case ReadNode =>
      s.(walker := Offering(s.walker.file, s.walker.node, KindsOf(s.mem.asts[s.walker.file][s.walker.node])))
    case CloseStream => s.(walker := StreamClosed)
    case NextNode => s.(walker := AtNode(s.walker.file, s.walker.node + 1))
    case SkipKind => s.(walker := s.walker.(kinds := s.walker.kinds[1..]))
    case HandOver =>
      var m := NewMutant(c, s.walker.file, s.walker.node, s.walker.kinds[0]);
      s.(walker := s.walker.(kinds := s.walker.kinds[1..]), dispatcher := Checking(m), offered := s.offered + [m])
  }

  // ---- Dispatcher ----

  datatype DispatcherAction =
    | EndOfStream | CheckDone | Count | Append | CloseQueue | SpawnStop | StopReturns | DispatcherDone

  ghost predicate CanDispatch(c: Config, s: State, a: DispatcherAction) {
    match a
    case EndOfStream => s.dispatcher.Receiving? && s.walker.StreamClosed?
    case CheckDone => s.dispatcher.Checking?
    case Count => s.dispatcher.Counting?
    case Append => s.dispatcher.Appending? && |s.queue| < 1
    case CloseQueue => s.dispatcher.ClosingQueue?
    case SpawnStop => s.dispatcher.Joining? && s.dispatcher.spawned < |s.workers|
    case StopReturns => s.dispatcher.Joining? && s.dispatcher.spawned == |s.workers|
                        && forall w :: 0 <= w < |s.workers| ==> s.workers[w].Gone?
    case DispatcherDone => s.dispatcher.Leaving?
  }

  ghost function Dispatch(c: Config, s: State, a: DispatcherAction): State
    requires CanDispatch(c, s, a)
  {
    match a
    case EndOfStream => s.(dispatcher := Leaving)
    case CheckDone =>
      if s.cancelled
      then s.(dispatcher := ClosingQueue, discarded := s.discarded + multiset{s.dispatcher.m})
      else s.(dispatcher := Counting(s.dispatcher.m))
    case Count => s.(dispatcher := Appending(s.dispatcher.m), wg := s.wg + 1)
    case Append => s.(dispatcher := Receiving, queue := s.queue + [s.dispatcher.m])
    case CloseQueue => s.(dispatcher := Joining(0), queueClosed := true)
    case SpawnStop => s.(dispatcher := Joining(s.dispatcher.spawned + 1))
    case StopReturns => s.(dispatcher := Leaving)
    case DispatcherDone => s.(dispatcher := Exited, wg := s.wg - 1)
  }

  // ---- Worker loop: queue, stop channel, result channel, WaitGroup ----

  datatype PoolAction = Take | SeeClosed | Quit | Deliver | Done

  ghost predicate CanPool(c: Config, s: State, w: nat, a: PoolAction) {
    w < |s.workers| &&
    match a
    case Take => s.workers[w].Idle? && s.queue != []
    case SeeClosed => s.workers[w].Idle? && s.queue == [] && s.queueClosed
    case Quit => s.workers[w].Quitting? && s.dispatcher.Joining? && w < s.dispatcher.spawned
    case Deliver => s.workers[w].Busy? && s.workers[w].phase.Send? && !s.outClosed && !s.returned
    case Done => s.workers[w].Busy? && (s.workers[w].phase.Sent? || s.workers[w].phase.Failed?)
  }

  /** What the worker loop makes of its worker. */
  ghost function PoolWorker(s: State, x: Worker, a: PoolAction): Worker
    requires (a.Take? ==> s.queue != []) && (a.Deliver? ==> x.Busy?)
  {
    match a
    case Take => Busy(s.queue[0], Fetch, None)
    case SeeClosed => Quitting
    case Quit => Gone
    case Deliver => Busy(x.job, Sent, x.setting)
    case Done => Idle
  }

  ghost function Pool(c: Config, s: State, w: nat, a: PoolAction): State
    requires CanPool(c, s, w, a)
  {
    var x := s.workers[w];
    var t := s.(workers := s.workers[w := PoolWorker(s, x, a)]);
    match a
    case Take => t.(queue := s.queue[1..])
    case SeeClosed => t
    case Quit => t
    case Deliver => t.(collected := s.collected + [Result(x.job, x.phase.status, w, x.setting)])
    case Done =>
      t.(wg := s.wg - 1, dropped := if x.phase.Failed? then s.dropped + multiset{x.job} else s.dropped)
  }

  // ---- The body of an executor: Get, Apply, runTests, Rollback ----

  datatype Op =
    | Get
    | Branch
    | Lock
    | ReadFile
    | ReadFault
    | SetToken
    | WriteFile
    | WriteFault(residue: Option<Bytes>)       // None: the printer failed, the file was not touched
    | ResetToken
    | Unlock
    | EndTest(end: TestEnd)
    | RollBack
    | RollBackFault(rest: Bytes)

  ghost function Dir(mem: Memory, w: nat): Tree {
    if w in mem.dirs then mem.dirs[w] else map[]
  }

  ghost predicate Resolves(c: Config, mem: Memory, m: Mutant) {
    HasNode(c, m.file, m.node) && m.file < |mem.asts| && m.node < |mem.asts[m.file]|
  }

  ghost predicate CanExec(c: Config, mem: Memory, w: nat, job: Mutant, phase: Phase, op: Op) {
    Resolves(c, mem, job) &&
    match op
    case Get => phase.Fetch?
    case Branch => phase.Decide?
    case Lock => phase.Acquire? && FileName(c, job.file) !in mem.locks
    case ReadFile => phase.Read?
    case ReadFault => phase.Read?
    case SetToken => phase.SetTok?
    case WriteFile => phase.Write?
    case WriteFault(_) => phase.Write?
    case ResetToken => phase.ResetTok?
    case Unlock => phase.Release? || phase.Abort?
    case EndTest(end) => phase.Test? && end in c.outcomes(Dir(mem, w), TestTarget(c, job))
    case RollBack => phase.Restore?
    case RollBackFault(_) => phase.Restore?
  }

  ghost function SetNode(asts: seq<seq<Token>>, f: nat, i: nat, t: Token): seq<seq<Token>>
    requires f < |asts| && i < |asts[f]|
  {
    asts[f := asts[f][i := t]]
  }

  ghost function Put(mem: Memory, w: nat, p: Path, b: Bytes): Memory {
    mem.(dirs := mem.dirs[w := Dir(mem, w)[p := b]])
  }

  ghost function Damage(mem: Memory, w: nat): Tree {
    if w in mem.damage then mem.damage[w] else map[]
  }

  /** A failed write leaves foreign content behind. */
  ghost function Spoil(mem: Memory, w: nat, p: Path, b: Bytes): Memory {
    Put(mem, w, p, b).(damage := mem.damage[w := Damage(mem, w)[p := b]])
  }

  ghost function ExecPhase(c: Config, mem: Memory, w: nat, job: Mutant, phase: Phase, op: Op): Phase
    requires CanExec(c, mem, w, job, phase, op)
  {
    match op
    case Get => Decide
    case Branch => if SkipsTests(c, job) then Send(job.status) else Acquire
    case Lock => Read
    case ReadFile => if WorkPath(c, job) in Dir(mem, w) then SetTok(Dir(mem, w)[WorkPath(c, job)]) else Abort
    case ReadFault => Abort
    case SetToken => Write(phase.orig, mem.asts[job.file][job.node])
    case WriteFile => ResetTok(phase.orig, phase.actual)
    case WriteFault(_) => Abort
    case ResetToken => Release(phase.orig)
    case Unlock => if phase.Release? then Test(phase.orig) else Failed
    case EndTest(end) => Restore(phase.orig, TestStatus(end))
    case RollBack => Send(phase.status)
    case RollBackFault(_) => Send(phase.status)
  }

  ghost function ExecMemory(c: Config, mem: Memory, w: nat, job: Mutant, phase: Phase, op: Op): Memory
    requires CanExec(c, mem, w, job, phase, op)
  {
    match op
    case Get => if w in mem.dirs then mem else mem.(dirs := mem.dirs[w := c.source])
    case Lock => mem.(locks := mem.locks[FileName(c, job.file) := w])
    case ReadFile => if WorkPath(c, job) in Dir(mem, w) then mem else mem.(absent := mem.absent + [job])
    case ReadFault => mem.(unread := mem.unread + [job])
    case SetToken =>
      mem.(asts := SetNode(mem.asts, job.file, job.node, Replacement(job.kind, mem.asts[job.file][job.node])))
    case WriteFile => Put(mem, w, WorkPath(c, job), c.render(job.file, mem.asts[job.file]))
    case WriteFault(residue) =>
      var mem' := mem.(failed := mem.failed + [job]);
      if residue == None then mem' else Spoil(mem', w, WorkPath(c, job), residue.value)
    case ResetToken => mem.(asts := SetNode(mem.asts, job.file, job.node, phase.actual))
    case Unlock => mem.(locks := mem.locks - {FileName(c, job.file)})
    case RollBack => Put(mem, w, WorkPath(c, job), phase.orig)
    case RollBackFault(rest) => Spoil(mem, w, WorkPath(c, job), rest)
    case _ => mem
  }

  ghost function ExecWorker(c: Config, mem: Memory, w: nat, worker: Worker, op: Op): Worker
    requires worker.Busy? && CanExec(c, mem, w, worker.job, worker.phase, op)
  {
    Busy(worker.job, ExecPhase(c, mem, w, worker.job, worker.phase, op),
         if op.WriteFile? then Some(Setting(mem.failed, Damage(mem, w))) else worker.setting)
  }

  ghost predicate CanWork(c: Config, s: State, w: nat, op: Op) {
    w < |s.workers| && s.workers[w].Busy? && CanExec(c, s.mem, w, s.workers[w].job, s.workers[w].phase, op)
  }

  ghost function Work(c: Config, s: State, w: nat, op: Op): State
    requires CanWork(c, s, w, op)
  {
    s.(workers := s.workers[w := ExecWorker(c, s.mem, w, s.workers[w], op)],
       mem := ExecMemory(c, s.mem, w, s.workers[w].job, s.workers[w].phase, op))
  }

  // ---- Closer, collector and environment ----

  datatype EndAction = SeeZero | CloseOut | Return | Cancel | Panic(worker: nat)

  ghost predicate CanEnd(c: Config, s: State, a: EndAction) {
    match a
    case SeeZero => s.closer.Waiting? && s.wg == 0
    case CloseOut => s.closer.ClosingOut?
    case Return => s.outClosed && !s.returned
    case Cancel => !s.cancelled
    case Panic(w) => w < |s.workers| && s.workers[w].Busy? && s.workers[w].phase.Fetch?
  }

  ghost function End(c: Config, s: State, a: EndAction): State
    requires CanEnd(c, s, a)
  {
    match a
    case SeeZero => s.(closer := ClosingOut)
    case CloseOut => s.(closer := Finished, outClosed := true)
    case Return => s.(returned := true)
    case Cancel => s.(cancelled := true)
    case Panic(_) => s.(panicked := true)
  }

  // ---- Steps and runs ----

  datatype Action =
    | OfWalker(walk: WalkerAction)
    | OfDispatcher(dispatch: DispatcherAction)
    | OfPool(worker: nat, pool: PoolAction)
    | OfExecutor(worker: nat, op: Op)
    | OfEnd(end: EndAction)

  ghost predicate Enabled(c: Config, s: State, a: Action) {
    !s.panicked &&
    match a
    case OfWalker(a) => CanWalk(c, s, a)
    case OfDispatcher(a) => CanDispatch(c, s, a)
    case OfPool(w, a) => CanPool(c, s, w, a)
    case OfExecutor(w, op) => CanWork(c, s, w, op)
    case OfEnd(a) => CanEnd(c, s, a)
  }

  ghost function Next(c: Config, s: State, a: Action): State
    requires Enabled(c, s, a)
  {
    match a
    case OfWalker(a) => Walk(c, s, a)
    case OfDispatcher(a) => Dispatch(c, s, a)
    case OfPool(w, a) => Pool(c, s, w, a)
    case OfExecutor(w, op) => Work(c, s, w, op)
    case OfEnd(a) => End(c, s, a)
  }

  // ---- What each kind of step leaves alone ----

  lemma WalkTouches(c: Config, s: State, a: WalkerAction)
    requires CanWalk(c, s, a)
    ensures var t := Walk(c, s, a);
            t == s.(walker := t.walker, dispatcher := t.dispatcher, offered := t.offered)
  {
  }

  lemma DispatchTouches(c: Config, s: State, a: DispatcherAction)
    requires CanDispatch(c, s, a)
    ensures var t := Dispatch(c, s, a);
            t == s.(dispatcher := t.dispatcher, queue := t.queue, queueClosed := t.queueClosed, wg := t.wg,
                    discarded := t.discarded)
  {
  }

  lemma PoolTouches(c: Config, s: State, w: nat, a: PoolAction)
    requires CanPool(c, s, w, a)
    ensures var t := Pool(c, s, w, a);
            && t == s.(workers := t.workers, queue := t.queue, wg := t.wg, collected := t.collected,
                       dropped := t.dropped)
            && t.workers == s.workers[w := PoolWorker(s, s.workers[w], a)]
            && (!a.Deliver? ==> t.collected == s.collected)
  {
  }

  lemma EndTouches(c: Config, s: State, a: EndAction)
    requires CanEnd(c, s, a)
    ensures var t := End(c, s, a);
            t == s.(closer := t.closer, outClosed := t.outClosed, returned := t.returned, cancelled := t.cancelled,
                    panicked := t.panicked)
  {
  }

  lemma StepTouches(c: Config, s: State, a: Action)
    requires Enabled(c, s, a)
    ensures var t := Next(c, s, a);
            match a
            case OfWalker(_) => t == s.(walker := t.walker, dispatcher := t.dispatcher, offered := t.offered)
            case OfDispatcher(_) =>
              t == s.(dispatcher := t.dispatcher, queue := t.queue, queueClosed := t.queueClosed, wg := t.wg,
                      discarded := t.discarded)
            case OfPool(_, x) =>
              && t == s.(workers := t.workers, queue := t.queue, wg := t.wg, collected := t.collected,
                         dropped := t.dropped)
              && (!x.Deliver? ==> t.collected == s.collected)
            case OfExecutor(_, _) => t == s.(workers := t.workers, mem := t.mem)
            case OfEnd(_) =>
              t == s.(closer := t.closer, outClosed := t.outClosed, returned := t.returned,
                      cancelled := t.cancelled, panicked := t.panicked)
  {
    match a
    case OfWalker(x) => WalkTouches(c, s, x);
    case OfDispatcher(x) => DispatchTouches(c, s, x);
    case OfPool(w, x) => PoolTouches(c, s, w, x);
    case OfExecutor(_, _) =>
    case OfEnd(x) => EndTouches(c, s, x);
  }

  /** Only the walker's steps change its position and what it has offered. */
  lemma WalkerFrame(c: Config, s: State, a: Action)
    requires Enabled(c, s, a) && !a.OfWalker?
    ensures Next(c, s, a).walker == s.walker && Next(c, s, a).offered == s.offered
  {
    StepTouches(c, s, a);
  }

  /** Only the walker and the dispatcher move the dispatcher; only it discards. */
  lemma DispatcherFrame(c: Config, s: State, a: Action)
    requires Enabled(c, s, a) && !a.OfWalker? && !a.OfDispatcher?
    ensures Next(c, s, a).dispatcher == s.dispatcher && Next(c, s, a).discarded == s.discarded
  {
    StepTouches(c, s, a);
  }

  /** Only executors change the shared memory. */
  lemma MemoryFrame(c: Config, s: State, a: Action)
    requires Enabled(c, s, a) && !a.OfExecutor?
    ensures Next(c, s, a).mem == s.mem
  {
    StepTouches(c, s, a);
  }

  /** Only executors and the worker loops change the workers. */
  lemma WorkersFrame(c: Config, s: State, a: Action)
    requires Enabled(c, s, a) && !a.OfExecutor? && !a.OfPool?
    ensures Next(c, s, a).workers == s.workers
  {
    StepTouches(c, s, a);
  }

  /** Only the worker loops deliver. */
  lemma ResultsFrame(c: Config, s: State, a: Action)
    requires Enabled(c, s, a) && (a.OfPool? ==> !a.pool.Deliver?)
    ensures Next(c, s, a).collected == s.collected
  {
    StepTouches(c, s, a);
  }

  /** What the environment may do but nobody can rely on: a cancel, a panic, an I/O fault. */
  predicate Environmental(a: Action) {
    || (a.OfEnd? && (a.end.Cancel? || a.end.Panic?))
    || (a.OfExecutor? && (a.op.ReadFault? || a.op.WriteFault? || a.op.RollBackFault?))
  }

  ghost predicate Step(c: Config, s: State, s': State) {
    exists a :: Enabled(c, s, a) && s' == Next(c, s, a)
  }

  ghost predicate StepAt(c: Config, run: seq<State>, i: nat)
    requires i + 1 < |run|
  {
    Step(c, run[i], run[i + 1])
  }

  ghost predicate IsRun(c: Config, run: seq<State>) {
    && run != []
    && run[0] == Init(c)
    && forall i: nat :: i + 1 < |run| ==> StepAt(c, run, i)
  }

  /** A run of more than one state is a shorter run and one more action. */
  lemma LastAction(c: Config, run: seq<State>) returns (before: seq<State>, s: State, a: Action)
    requires IsRun(c, run) && |run| > 1
    ensures before == run[..|run| - 1] && IsRun(c, before) && s == before[|before| - 1]
    ensures Enabled(c, s, a) && run[|run| - 1] == Next(c, s, a)
  {
    before := run[..|run| - 1];
    s := run[|run| - 2];
    forall i: nat | i + 1 < |before| ensures StepAt(c, before, i) {
      assert StepAt(c, run, i);
    }
    assert StepAt(c, run, |run| - 2);
    a :| Enabled(c, s, a) && run[|run| - 1] == Next(c, s, a);
  }

  ghost predicate Reachable(c: Config, s: State) {
    exists run :: IsRun(c, run) && run[|run| - 1] == s
  }
}
