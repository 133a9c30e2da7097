/** What every step of a run keeps about the shared ASTs, the file locks and the private
    work directories. */
module EngineMemory {
  import opened Mutation
  import opened EngineModel

  // ---- The sequential meaning of a mutant ----

  /** The parsed tokens of the mutant's file with only its own token substituted. */
  ghost function MutatedTokens(c: Config, m: Mutant): seq<Token>
    requires HasNode(c, m.file, m.node)
  {
    Parsed(c, m.file)[m.node := Replacement(m.kind, c.files[m.file].nodes[m.node].tok)]
  }

  ghost function MutantText(c: Config, m: Mutant): Bytes
    requires HasNode(c, m.file, m.node)
  {
    c.render(m.file, MutatedTokens(c, m))
  }

  /** A pristine work directory with the mutant applied and nothing else. */
  ghost function AloneTree(c: Config, m: Mutant): Tree
    requires HasNode(c, m.file, m.node)
  {
    c.source[WorkPath(c, m) := MutantText(c, m)]
  }

  /** st is a status the mutant can get when it is applied alone to a pristine directory
      and the tests are run there. */
  ghost predicate IsFinal(c: Config, m: Mutant, st: Status) {
    HasNode(c, m.file, m.node) &&
    if SkipsTests(c, m) then st == m.status
    else exists end :: end in c.outcomes(AloneTree(c, m), TestTarget(c, m)) && st == TestStatus(end)
  }

  // ---- The meaning of a mutant after failed writes ----

  /** The token of a node that nobody is altering: a failed write leaves its replacement in
      the AST, and the next mutant of the node starts from there. */
  ghost function TokenAfter(c: Config, failed: seq<Mutant>, f: nat, i: nat): Token
    requires HasNode(c, f, i)
  {
    if |failed| == 0 then c.files[f].nodes[i].tok
    else
      var last := failed[|failed| - 1];
      var tok := TokenAfter(c, failed[..|failed| - 1], f, i);
      if last.file == f && last.node == i then Replacement(last.kind, tok) else tok
  }

  ghost function TokensAfter(c: Config, failed: seq<Mutant>, f: nat): seq<Token>
    requires f < |c.files|
  {
    seq(|c.files[f].nodes|, i requires 0 <= i < |c.files[f].nodes| => TokenAfter(c, failed, f, i))
  }

  /** What the printer gets for m. */
  ghost function PrintedTokens(c: Config, failed: seq<Mutant>, m: Mutant): seq<Token>
    requires HasNode(c, m.file, m.node)
  {
    TokensAfter(c, failed, m.file)[m.node := Replacement(m.kind, TokenAfter(c, failed, m.file, m.node))]
  }

  /** The directory a test of m runs in. */
  ghost function TestedTree(c: Config, m: Mutant, x: Setting): Tree
    requires HasNode(c, m.file, m.node)
  {
    (c.source + x.damage)[WorkPath(c, m) := c.render(m.file, PrintedTokens(c, x.failed, m))]
  }

  /** st is a status m can get from a write in setting x; None: it was not tested. */
  ghost predicate IsVerdict(c: Config, m: Mutant, st: Status, x: Option<Setting>) {
    HasNode(c, m.file, m.node) &&
    if SkipsTests(c, m) then st == m.status && x == None
    else
      && x.Some?
      && exists end :: end in c.outcomes(TestedTree(c, m, x.value), TestTarget(c, m)) && st == TestStatus(end)
  }

  lemma OneMoreFailure(c: Config, failed: seq<Mutant>, m: Mutant, f: nat, i: nat)
    requires HasNode(c, f, i)
    ensures TokenAfter(c, failed + [m], f, i)
         == if m.file == f && m.node == i then Replacement(m.kind, TokenAfter(c, failed, f, i))
            else TokenAfter(c, failed, f, i)
  {
    assert (failed + [m])[..|failed + [m]| - 1] == failed;
  }

  /** A node none of whose writes failed keeps its parsed token. */
  lemma {:induction false} UnfailedIsParsed(c: Config, failed: seq<Mutant>, f: nat, i: nat)
    requires HasNode(c, f, i) && forall m :: m in failed ==> !(m.file == f && m.node == i)
    ensures TokenAfter(c, failed, f, i) == c.files[f].nodes[i].tok
  {
    if |failed| > 0 {
      assert failed[|failed| - 1] in failed;
      UnfailedIsParsed(c, failed[..|failed| - 1], f, i);
    }
  }

  // ---- The invariant ----

  predicate InCriticalSection(w: Worker) {
    w.Busy? && (w.phase.Read? || w.phase.SetTok? || w.phase.Write? || w.phase.ResetTok? || w.phase.Release?
                || w.phase.Abort?)
  }

  predicate Alters(w: Worker, f: nat, i: nat) {
    w.Busy? && (w.phase.Write? || w.phase.ResetTok?) && w.job.file == f && w.job.node == i
  }

  /** The worker's own mutation is in its directory. */
  predicate Mutated(w: Worker) {
    w.Busy? && (w.phase.ResetTok? || w.phase.Release? || w.phase.Test? || w.phase.Restore?)
  }

  predicate HasOrig(p: Phase) {
    p.SetTok? || p.Write? || p.ResetTok? || p.Release? || p.Test? || p.Restore?
  }

  ghost predicate Shapes(c: Config, mem: Memory) {
    && |mem.asts| == |c.files|
    && forall f :: 0 <= f < |c.files| ==> |mem.asts[f]| == |c.files[f].nodes|
  }

  /** A file's lock is held by w exactly while w is in the critical section of that file. */
  ghost predicate LocksExact(c: Config, ws: seq<Worker>, locks: map<Path, nat>) {
    && (forall w :: 0 <= w < |ws| && InCriticalSection(ws[w]) ==>
          FileName(c, ws[w].job.file) in locks && locks[FileName(c, ws[w].job.file)] == w)
    && (forall k :: k in locks ==>
          locks[k] < |ws| && InCriticalSection(ws[locks[k]]) && FileName(c, ws[locks[k]].job.file) == k)
  }

  /** The token of a node right now: what failed writes left of it, under the replacement of
      the lock holder that is altering this very node. */
  ghost function TokenNow(c: Config, ws: seq<Worker>, mem: Memory, f: nat, i: nat): Token
    requires HasNode(c, f, i)
  {
    var tok, name := TokenAfter(c, mem.failed, f, i), c.files[f].name;
    if name in mem.locks && mem.locks[name] < |ws| && Alters(ws[mem.locks[name]], f, i)
    then Replacement(ws[mem.locks[name]].job.kind, tok)
    else tok
  }

  ghost predicate NodeOk(c: Config, ws: seq<Worker>, mem: Memory, f: nat, i: nat)
    requires Shapes(c, mem) && HasNode(c, f, i)
  {
    mem.asts[f][i] == TokenNow(c, ws, mem, f, i)
  }

  ghost predicate AstsOk(c: Config, ws: seq<Worker>, mem: Memory) {
    Shapes(c, mem) && forall f, i :: HasNode(c, f, i) ==> NodeOk(c, ws, mem, f, i)
  }

  /** The token a worker will put back is the one it found. */
  ghost predicate TokenOk(c: Config, mem: Memory, w: Worker) {
    w.Busy? && (w.phase.Write? || w.phase.ResetTok?) ==>
      Resolves(c, mem, w.job) && w.phase.actual == TokenAfter(c, mem.failed, w.job.file, w.job.node)
  }

  /** A work directory without the mutant its worker is on. */
  ghost function Ground(c: Config, mem: Memory, w: nat): Tree {
    c.source + Damage(mem, w)
  }

  /** A directory is its ground, with the worker's own mutant in it from write to rollback. */
  ghost predicate DirOk(c: Config, mem: Memory, w: nat, worker: Worker) {
    w in mem.dirs ==>
      if Mutated(worker) then
        && HasNode(c, worker.job.file, worker.job.node)
        && worker.setting.Some?
        && worker.setting.value.damage == Damage(mem, w)
        && mem.dirs[w] == TestedTree(c, worker.job, worker.setting.value)
      else mem.dirs[w] == Ground(c, mem, w)
  }

  /** What a write found is a first part of the failures up to now. */
  ghost predicate Before(x: Setting, mem: Memory, w: nat) {
    x.failed <= mem.failed && x.damage.Keys <= Damage(mem, w).Keys
  }

  ghost predicate WorkOk(c: Config, mem: Memory, w: nat, worker: Worker) {
    worker.Busy? ==>
      var job, phase, path := worker.job, worker.phase, WorkPath(c, worker.job);
      && (!phase.Fetch? ==> w in mem.dirs)
      && (InCriticalSection(worker) || HasOrig(phase) || phase.Acquire? || phase.Failed? ==> !SkipsTests(c, job))
      && (HasOrig(phase) ==> path in Ground(c, mem, w) && phase.orig == Ground(c, mem, w)[path])
      && (HasOrig(phase) || phase.Send? ==> !Missing(c, job))
      && (phase.Fetch? || phase.Decide? ==> worker.setting == None)
      && (worker.setting.Some? ==> Before(worker.setting.value, mem, w))
      && (phase.Restore? || phase.Send? ==> IsVerdict(c, job, phase.status, worker.setting))
  }

  ghost predicate WorkersOk(c: Config, ws: seq<Worker>, mem: Memory) {
    forall w :: 0 <= w < |ws| ==> TokenOk(c, mem, ws[w]) && WorkOk(c, mem, w, ws[w])
  }

  ghost predicate DirsOk(c: Config, ws: seq<Worker>, mem: Memory) {
    && (forall w :: w in mem.dirs ==> w < |ws|)
    && (forall w :: w in mem.damage ==> w in mem.dirs)
    && (forall w :: Damage(mem, w).Keys <= c.source.Keys)
    && (forall w :: 0 <= w < |ws| ==> DirOk(c, mem, w, ws[w]))
  }

  /** A file that was not there to be read was not in the source tree: faults remove nothing. */
  ghost predicate AbsentOk(c: Config, mem: Memory) {
    forall m :: m in mem.absent ==> Missing(c, m)
  }

  ghost predicate MemoryInv(c: Config, ws: seq<Worker>, mem: Memory) {
    && AstsOk(c, ws, mem)
    && LocksExact(c, ws, mem.locks)
    && WorkersOk(c, ws, mem)
    && DirsOk(c, ws, mem)
    && AbsentOk(c, mem)
  }

  // ---- What the invariant says while a worker prints ----

  /** The holder of a file's lock alters its own node of it and no other. */
  lemma HolderAltersOneNode(c: Config, ws: seq<Worker>, mem: Memory, w: nat, i: nat)
    requires LocksExact(c, ws, mem.locks) && w < |ws| && ws[w].Busy? && (ws[w].phase.Write? || ws[w].phase.ResetTok?)
    requires HasNode(c, ws[w].job.file, i)
    ensures var job := ws[w].job; var tok := TokenAfter(c, mem.failed, job.file, i);
            TokenNow(c, ws, mem, job.file, i) == if i == job.node then Replacement(job.kind, tok) else tok
  {
    assert InCriticalSection(ws[w]);
  }

  /** The printer sees the AST as failed writes have left it, with exactly the worker's own
      token substituted. */
  lemma PrinterSeesOwnMutation(c: Config, ws: seq<Worker>, mem: Memory, w: nat)
    requires AstsOk(c, ws, mem) && LocksExact(c, ws, mem.locks) && w < |ws| && ws[w].Busy?
    requires TokenOk(c, mem, ws[w]) && (ws[w].phase.Write? || ws[w].phase.ResetTok?)
    ensures HasNode(c, ws[w].job.file, ws[w].job.node)
    ensures mem.asts[ws[w].job.file] == PrintedTokens(c, mem.failed, ws[w].job)
  {
    var job := ws[w].job;
    forall i | 0 <= i < |c.files[job.file].nodes|
      ensures mem.asts[job.file][i] == PrintedTokens(c, mem.failed, job)[i]
    {
      assert NodeOk(c, ws, mem, job.file, i);
      HolderAltersOneNode(c, ws, mem, w, i);
    }
  }

  // ---- Preservation by the body of an executor ----

  ghost predicate CanDo(c: Config, ws: seq<Worker>, mem: Memory, w: nat, op: Op) {
    && w < |ws| && ws[w].Busy? && CanExec(c, mem, w, ws[w].job, ws[w].phase, op)
  }

  ghost function After(c: Config, ws: seq<Worker>, mem: Memory, w: nat, op: Op): seq<Worker>
    requires CanDo(c, ws, mem, w, op)
  {
    ws[w := ExecWorker(c, mem, w, ws[w], op)]
  }

  ghost function MemAfter(c: Config, ws: seq<Worker>, mem: Memory, w: nat, op: Op): Memory
    requires CanDo(c, ws, mem, w, op)
  {
    ExecMemory(c, mem, w, ws[w].job, ws[w].phase, op)
  }

  lemma LockTaken(c: Config, ws: seq<Worker>, locks: map<Path, nat>, w: nat, x: Worker)
    requires LocksExact(c, ws, locks) && w < |ws| && !InCriticalSection(ws[w]) && InCriticalSection(x)
    requires FileName(c, x.job.file) !in locks
    ensures LocksExact(c, ws[w := x], locks[FileName(c, x.job.file) := w])
  {
  }

  lemma LockGiven(c: Config, ws: seq<Worker>, locks: map<Path, nat>, w: nat, x: Worker)
    requires LocksExact(c, ws, locks) && w < |ws| && InCriticalSection(ws[w]) && !InCriticalSection(x)
    ensures LocksExact(c, ws[w := x], locks - {FileName(c, ws[w].job.file)})
  {
  }

  lemma LockStays(c: Config, ws: seq<Worker>, locks: map<Path, nat>, w: nat, x: Worker)
    requires LocksExact(c, ws, locks) && w < |ws| && ws[w].Busy? && x.Busy? && x.job == ws[w].job
    requires InCriticalSection(x) <==> InCriticalSection(ws[w])
    ensures LocksExact(c, ws[w := x], locks)
  {
  }

  lemma LocksKept(c: Config, ws: seq<Worker>, mem: Memory, w: nat, op: Op)
    requires LocksExact(c, ws, mem.locks) && CanDo(c, ws, mem, w, op)
    ensures LocksExact(c, After(c, ws, mem, w, op), MemAfter(c, ws, mem, w, op).locks)
  {
    var x := After(c, ws, mem, w, op)[w];
    match op
    case Lock => LockTaken(c, ws, mem.locks, w, x);
    case Unlock => LockGiven(c, ws, mem.locks, w, x);
    case _ => LockStays(c, ws, mem.locks, w, x);
  }

  lemma ShapesKept(c: Config, ws: seq<Worker>, mem: Memory, w: nat, op: Op)
    requires Shapes(c, mem) && CanDo(c, ws, mem, w, op)
    ensures Shapes(c, MemAfter(c, ws, mem, w, op))
  {
  }

  /** The failed write turns the holder's replacement into what failures have left. */
  lemma NodeKeptByFault(c: Config, ws: seq<Worker>, mem: Memory, w: nat, op: Op, f: nat, i: nat)
    requires AstsOk(c, ws, mem) && LocksExact(c, ws, mem.locks) && CanDo(c, ws, mem, w, op)
    requires HasNode(c, f, i) && NodeOk(c, ws, mem, f, i)
    requires op.WriteFault? && Shapes(c, MemAfter(c, ws, mem, w, op))
    ensures NodeOk(c, After(c, ws, mem, w, op), MemAfter(c, ws, mem, w, op), f, i)
  {
    OneMoreFailure(c, mem.failed, ws[w].job, f, i);
  }

  lemma NodeKeptByToken(c: Config, ws: seq<Worker>, mem: Memory, w: nat, op: Op, f: nat, i: nat)
    requires AstsOk(c, ws, mem) && LocksExact(c, ws, mem.locks) && CanDo(c, ws, mem, w, op)
    requires HasNode(c, f, i) && NodeOk(c, ws, mem, f, i)
    requires (op.SetToken? || op.ResetToken?) && TokenOk(c, mem, ws[w]) && Shapes(c, MemAfter(c, ws, mem, w, op))
    ensures NodeOk(c, After(c, ws, mem, w, op), MemAfter(c, ws, mem, w, op), f, i)
  {
    assert InCriticalSection(ws[w]);
  }

  lemma NodeKeptByOthers(c: Config, ws: seq<Worker>, mem: Memory, w: nat, op: Op, f: nat, i: nat)
    requires AstsOk(c, ws, mem) && LocksExact(c, ws, mem.locks) && CanDo(c, ws, mem, w, op)
    requires HasNode(c, f, i) && NodeOk(c, ws, mem, f, i)
    requires !op.WriteFault? && !op.SetToken? && !op.ResetToken? && Shapes(c, MemAfter(c, ws, mem, w, op))
    ensures NodeOk(c, After(c, ws, mem, w, op), MemAfter(c, ws, mem, w, op), f, i)
  {
  }

  lemma NodeKept(c: Config, ws: seq<Worker>, mem: Memory, w: nat, op: Op, f: nat, i: nat)
    requires AstsOk(c, ws, mem) && LocksExact(c, ws, mem.locks) && CanDo(c, ws, mem, w, op)
    requires TokenOk(c, mem, ws[w]) && HasNode(c, f, i) && Shapes(c, MemAfter(c, ws, mem, w, op))
    ensures NodeOk(c, After(c, ws, mem, w, op), MemAfter(c, ws, mem, w, op), f, i)
  {
    assert NodeOk(c, ws, mem, f, i);
    if op.WriteFault? {
      NodeKeptByFault(c, ws, mem, w, op, f, i);
    } else if op.SetToken? || op.ResetToken? {
      NodeKeptByToken(c, ws, mem, w, op, f, i);
    } else {
      NodeKeptByOthers(c, ws, mem, w, op, f, i);
    }
  }

  lemma AstsKept(c: Config, ws: seq<Worker>, mem: Memory, w: nat, op: Op)
    requires AstsOk(c, ws, mem) && LocksExact(c, ws, mem.locks) && CanDo(c, ws, mem, w, op)
    requires TokenOk(c, mem, ws[w])
    ensures AstsOk(c, After(c, ws, mem, w, op), MemAfter(c, ws, mem, w, op))
  {
    ShapesKept(c, ws, mem, w, op);
    forall f, i | HasNode(c, f, i)
      ensures NodeOk(c, After(c, ws, mem, w, op), MemAfter(c, ws, mem, w, op), f, i)
    {
      NodeKept(c, ws, mem, w, op, f, i);
    }
  }

  /** Two workers never alter the same node: they would hold the same lock. */
  lemma OneAltererPerNode(c: Config, ws: seq<Worker>, locks: map<Path, nat>, v: nat, w: nat)
    requires LocksExact(c, ws, locks) && v < |ws| && w < |ws|
    requires InCriticalSection(ws[v]) && InCriticalSection(ws[w])
    requires FileName(c, ws[v].job.file) == FileName(c, ws[w].job.file)
    ensures v == w
  {
  }

  lemma OtherTokenKept(c: Config, ws: seq<Worker>, mem: Memory, w: nat, op: Op, v: nat)
    requires AstsOk(c, ws, mem) && LocksExact(c, ws, mem.locks) && CanDo(c, ws, mem, w, op) && v < |ws| && v != w
    requires TokenOk(c, mem, ws[v])
    ensures TokenOk(c, MemAfter(c, ws, mem, w, op), ws[v])
  {
    if ws[v].Busy? && (ws[v].phase.Write? || ws[v].phase.ResetTok?) {
      if op.WriteFault? {
        OneMoreFailure(c, mem.failed, ws[w].job, ws[v].job.file, ws[v].job.node);
      }
      if InCriticalSection(ws[w]) && FileName(c, ws[v].job.file) == FileName(c, ws[w].job.file) {
        OneAltererPerNode(c, ws, mem.locks, v, w);
      }
    }
  }

  /** Failures are only added, and only to the worker's own directory. */
  lemma FaultsOnlyGrow(c: Config, ws: seq<Worker>, mem: Memory, w: nat, op: Op)
    requires CanDo(c, ws, mem, w, op)
    ensures mem.failed <= MemAfter(c, ws, mem, w, op).failed
    ensures Damage(mem, w).Keys <= Damage(MemAfter(c, ws, mem, w, op), w).Keys
    ensures forall v :: v != w ==> Damage(MemAfter(c, ws, mem, w, op), v) == Damage(mem, v)
  {
  }

  lemma OtherWorkKept(c: Config, ws: seq<Worker>, mem: Memory, w: nat, op: Op, v: nat)
    requires CanDo(c, ws, mem, w, op) && v < |ws| && v != w
    requires WorkOk(c, mem, v, ws[v])
    ensures WorkOk(c, MemAfter(c, ws, mem, w, op), v, ws[v])
  {
    FaultsOnlyGrow(c, ws, mem, w, op);
  }

  lemma OtherDirKept(c: Config, ws: seq<Worker>, mem: Memory, w: nat, op: Op, v: nat)
    requires CanDo(c, ws, mem, w, op) && v < |ws| && v != w && DirOk(c, mem, v, ws[v])
    ensures DirOk(c, MemAfter(c, ws, mem, w, op), v, ws[v])
  {
    FaultsOnlyGrow(c, ws, mem, w, op);
  }

  /** What a worker's own step has to keep of its token, its job and its directory. */
  ghost predicate Own(c: Config, mem: Memory, w: nat, x: Worker) {
    && TokenOk(c, mem, x) && WorkOk(c, mem, w, x) && DirOk(c, mem, w, x) && AbsentOk(c, mem)
    && (w in mem.damage ==> w in mem.dirs) && Damage(mem, w).Keys <= c.source.Keys
  }

  ghost predicate CanStep(c: Config, mem: Memory, w: nat, x: Worker, op: Op) {
    x.Busy? && CanExec(c, mem, w, x.job, x.phase, op)
  }

  ghost predicate OwnKept(c: Config, mem: Memory, w: nat, x: Worker, op: Op)
    requires CanStep(c, mem, w, x, op)
  {
    Own(c, ExecMemory(c, mem, w, x.job, x.phase, op), w, ExecWorker(c, mem, w, x, op))
  }

  lemma GetKeeps(c: Config, mem: Memory, w: nat, x: Worker)
    requires Own(c, mem, w, x) && CanStep(c, mem, w, x, Get)
    ensures OwnKept(c, mem, w, x, Get)
  {
    assert w !in mem.dirs ==> c.source + Damage(mem, w) == c.source;
  }

  /** Reading the file at the start of Apply finds what the ground holds. */
  lemma ReadKeeps(c: Config, mem: Memory, w: nat, x: Worker)
    requires Own(c, mem, w, x) && CanStep(c, mem, w, x, ReadFile)
    ensures OwnKept(c, mem, w, x, ReadFile)
  {
  }

  lemma SetTokenKeeps(c: Config, mem: Memory, w: nat, x: Worker)
    requires Own(c, mem, w, x) && CanStep(c, mem, w, x, SetToken)
    requires mem.asts[x.job.file][x.job.node] == TokenAfter(c, mem.failed, x.job.file, x.job.node)
    ensures OwnKept(c, mem, w, x, SetToken)
  {
  }

  lemma WriteKeeps(c: Config, mem: Memory, w: nat, x: Worker)
    requires Own(c, mem, w, x) && CanStep(c, mem, w, x, WriteFile)
    requires mem.asts[x.job.file] == PrintedTokens(c, mem.failed, x.job)
    ensures OwnKept(c, mem, w, x, WriteFile)
  {
  }

  lemma SpoiltGround(c: Config, mem: Memory, w: nat, p: Path, b: Bytes)
    ensures Ground(c, Spoil(mem, w, p, b), w) == Ground(c, mem, w)[p := b]
  {
  }

  /** What both kinds of failed write leave of everything but the directory. */
  lemma PrintFaultKeeps(c: Config, mem: Memory, w: nat, x: Worker)
    requires Own(c, mem, w, x) && CanStep(c, mem, w, x, WriteFault(None))
    ensures OwnKept(c, mem, w, x, WriteFault(None))
  {
  }

  lemma WriteFaultKeeps(c: Config, mem: Memory, w: nat, x: Worker, residue: Option<Bytes>)
    requires Own(c, mem, w, x) && CanStep(c, mem, w, x, WriteFault(residue))
    ensures OwnKept(c, mem, w, x, WriteFault(residue))
  {
    var failing := mem.(failed := mem.failed + [x.job]);
    PrintFaultKeeps(c, mem, w, x);
    if residue.Some? {
      SpoiltGround(c, failing, w, WorkPath(c, x.job), residue.value);
    }
  }

  lemma TestKeeps(c: Config, mem: Memory, w: nat, x: Worker, end: TestEnd)
    requires Own(c, mem, w, x) && CanStep(c, mem, w, x, EndTest(end))
    ensures OwnKept(c, mem, w, x, EndTest(end))
  {
  }

  ghost function PrintOf(c: Config, x: Worker): Bytes
    requires x.Busy? && HasNode(c, x.job.file, x.job.node) && x.setting.Some?
  {
    c.render(x.job.file, PrintedTokens(c, x.setting.value.failed, x.job))
  }

  lemma Rewritten(d: Tree, p: Path, b: Bytes, b': Bytes)
    ensures d[p := b][p := b'] == d[p := b']
    ensures p in d && d[p] == b' ==> d[p := b'] == d
  {
  }

  lemma RollBackKeeps(c: Config, mem: Memory, w: nat, x: Worker)
    requires Own(c, mem, w, x) && CanStep(c, mem, w, x, RollBack)
    ensures OwnKept(c, mem, w, x, RollBack)
  {
    Rewritten(Ground(c, mem, w), WorkPath(c, x.job), PrintOf(c, x), x.phase.orig);
  }

  lemma RollBackFaultKeeps(c: Config, mem: Memory, w: nat, x: Worker, rest: Bytes)
    requires Own(c, mem, w, x) && CanStep(c, mem, w, x, RollBackFault(rest))
    ensures OwnKept(c, mem, w, x, RollBackFault(rest))
  {
    SpoiltGround(c, mem, w, WorkPath(c, x.job), rest);
    Rewritten(Ground(c, mem, w), WorkPath(c, x.job), PrintOf(c, x), rest);
  }

  lemma ReadFaultKeeps(c: Config, mem: Memory, w: nat, x: Worker)
    requires Own(c, mem, w, x) && CanStep(c, mem, w, x, ReadFault)
    ensures OwnKept(c, mem, w, x, ReadFault)
  {
  }

  lemma BranchKeeps(c: Config, mem: Memory, w: nat, x: Worker)
    requires Own(c, mem, w, x) && CanStep(c, mem, w, x, Branch)
    ensures OwnKept(c, mem, w, x, Branch)
  {
  }

  /** These operations change neither the directory nor the failures. */
  lemma QuietKeeps(c: Config, mem: Memory, w: nat, x: Worker, op: Op)
    requires Own(c, mem, w, x) && CanStep(c, mem, w, x, op)
    requires op.Lock? || op.ResetToken? || op.Unlock?
    ensures OwnKept(c, mem, w, x, op)
  {
  }

  lemma OwnStepKeeps(c: Config, ws: seq<Worker>, mem: Memory, w: nat, op: Op)
    requires MemoryInv(c, ws, mem) && CanDo(c, ws, mem, w, op) && Own(c, mem, w, ws[w])
    ensures OwnKept(c, mem, w, ws[w], op)
  {
    var x := ws[w];
    match op
    case Get => GetKeeps(c, mem, w, x);
    case Branch => BranchKeeps(c, mem, w, x);
    case ReadFault => ReadFaultKeeps(c, mem, w, x);
    case ReadFile => ReadKeeps(c, mem, w, x);
    case SetToken => SetTokenFindsItsToken(c, ws, mem, w); SetTokenKeeps(c, mem, w, x);
    case WriteFile => PrinterSeesOwnMutation(c, ws, mem, w); WriteKeeps(c, mem, w, x);
    case WriteFault(residue) => WriteFaultKeeps(c, mem, w, x, residue);
    case EndTest(end) => TestKeeps(c, mem, w, x, end);
    case RollBack => RollBackKeeps(c, mem, w, x);
    case RollBackFault(rest) => RollBackFaultKeeps(c, mem, w, x, rest);
    case _ => QuietKeeps(c, mem, w, x, op);
  }

  lemma SetTokenFindsItsToken(c: Config, ws: seq<Worker>, mem: Memory, w: nat)
    requires MemoryInv(c, ws, mem) && CanDo(c, ws, mem, w, SetToken)
    ensures var job := ws[w].job; mem.asts[job.file][job.node] == TokenAfter(c, mem.failed, job.file, job.node)
  {
    assert NodeOk(c, ws, mem, ws[w].job.file, ws[w].job.node);
    assert InCriticalSection(ws[w]);
  }

  lemma MemoryKept(c: Config, ws: seq<Worker>, mem: Memory, w: nat, op: Op)
    requires MemoryInv(c, ws, mem) && CanDo(c, ws, mem, w, op)
    ensures MemoryInv(c, After(c, ws, mem, w, op), MemAfter(c, ws, mem, w, op))
  {
    var ws', mem' := After(c, ws, mem, w, op), MemAfter(c, ws, mem, w, op);
    assert TokenOk(c, mem, ws[w]) && WorkOk(c, mem, w, ws[w]) && DirOk(c, mem, w, ws[w]);
    assert Own(c, mem, w, ws[w]);
    LocksKept(c, ws, mem, w, op);
    AstsKept(c, ws, mem, w, op);
    OwnStepKeeps(c, ws, mem, w, op);
    forall v | 0 <= v < |ws'|
      ensures TokenOk(c, mem', ws'[v]) && WorkOk(c, mem', v, ws'[v]) && DirOk(c, mem', v, ws'[v])
    {
      if v != w {
        assert TokenOk(c, mem, ws[v]) && WorkOk(c, mem, v, ws[v]) && DirOk(c, mem, v, ws[v]);
        OtherTokenKept(c, ws, mem, w, op, v);
        OtherWorkKept(c, ws, mem, w, op, v);
        OtherDirKept(c, ws, mem, w, op, v);
      }
    }
    DirsStayKnown(c, ws, mem, w, op);
    DamageStaysInSource(c, ws, mem, w, op);
  }

  lemma DirsStayKnown(c: Config, ws: seq<Worker>, mem: Memory, w: nat, op: Op)
    requires DirsOk(c, ws, mem) && CanDo(c, ws, mem, w, op)
    ensures forall v :: v in MemAfter(c, ws, mem, w, op).dirs ==> v < |ws|
    ensures forall v :: v in MemAfter(c, ws, mem, w, op).damage ==> v in MemAfter(c, ws, mem, w, op).dirs
  {
  }

  lemma DamageStaysInSource(c: Config, ws: seq<Worker>, mem: Memory, w: nat, op: Op)
    requires DirsOk(c, ws, mem) && CanDo(c, ws, mem, w, op) && OwnKept(c, mem, w, ws[w], op)
    ensures forall v :: Damage(MemAfter(c, ws, mem, w, op), v).Keys <= c.source.Keys
  {
    FaultsOnlyGrow(c, ws, mem, w, op);
  }

  // ---- Preservation by the worker loop, which leaves the memory alone ----

  /** Outside the executor body a worker owns no lock, alters no node and dirties no file. */
  predicate Detached(w: Worker) {
    w.Busy? ==> w.phase.Fetch? || w.phase.Failed? || w.phase.Sent? || w.phase.Send?
  }

  lemma DetachedNode(c: Config, ws: seq<Worker>, mem: Memory, w: nat, x: Worker, f: nat, i: nat)
    requires w < |ws| && Detached(ws[w]) && Detached(x)
    requires Shapes(c, mem) && HasNode(c, f, i) && NodeOk(c, ws, mem, f, i)
    ensures NodeOk(c, ws[w := x], mem, f, i)
  {
  }

  lemma DetachedLocks(c: Config, ws: seq<Worker>, locks: map<Path, nat>, w: nat, x: Worker)
    requires w < |ws| && Detached(ws[w]) && Detached(x) && LocksExact(c, ws, locks)
    ensures LocksExact(c, ws[w := x], locks)
  {
    assert !InCriticalSection(x) && !InCriticalSection(ws[w]);
  }

  lemma DetachedDir(c: Config, mem: Memory, w: nat, y: Worker, x: Worker)
    requires Detached(y) && Detached(x) && DirOk(c, mem, w, y)
    ensures TokenOk(c, mem, x) && DirOk(c, mem, w, x)
  {
  }

  lemma DetachedSwap(c: Config, ws: seq<Worker>, mem: Memory, w: nat, x: Worker)
    requires MemoryInv(c, ws, mem) && w < |ws| && Detached(ws[w]) && Detached(x)
    requires WorkOk(c, mem, w, x)
    ensures MemoryInv(c, ws[w := x], mem)
  {
    var ws' := ws[w := x];
    forall f, i | HasNode(c, f, i) ensures NodeOk(c, ws', mem, f, i) {
      DetachedNode(c, ws, mem, w, x, f, i);
    }
    DetachedLocks(c, ws, mem.locks, w, x);
    assert DirOk(c, mem, w, ws[w]);
    DetachedDir(c, mem, w, ws[w], x);
    forall v | 0 <= v < |ws'|
      ensures TokenOk(c, mem, ws'[v]) && WorkOk(c, mem, v, ws'[v]) && DirOk(c, mem, v, ws'[v])
    {
      assert v != w ==> TokenOk(c, mem, ws[v]) && WorkOk(c, mem, v, ws[v]) && DirOk(c, mem, v, ws[v]);
    }
  }

  lemma MemoryInvInit(c: Config)
    ensures MemoryInv(c, Init(c).workers, Init(c).mem)
  {
    var s := Init(c);
    assert Shapes(c, s.mem);
    forall f, i | HasNode(c, f, i) ensures NodeOk(c, s.workers, s.mem, f, i) {
    }
  }
}
