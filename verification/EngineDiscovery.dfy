/** Discovery walks ASTs that workers are mutating at the same time and still offers the
    mutants of the parsed, untouched sources, in order (engine.go:129-157). */
module EngineDiscovery {
  import opened Mutation
  import opened EngineModel
  import opened EngineRun
  import opened EngineMemory

  // ---- Reference: the mutants of the parsed sources ----

  ghost function KindMutants(c: Config, f: nat, i: nat, ks: seq<Kind>): seq<Mutant>
    requires HasNode(c, f, i)
  {
    if ks == [] then []
    else (if ks[0] in c.enabled then [NewMutant(c, f, i, ks[0])] else []) + KindMutants(c, f, i, ks[1..])
  }

  /** Mutants of the nodes of file f from node i on. */
  ghost function FileMutants(c: Config, f: nat, i: nat): seq<Mutant>
    requires f < |c.files|
    decreases |c.files[f].nodes| - i
  {
    if i >= |c.files[f].nodes| then []
    else KindMutants(c, f, i, KindsOf(c.files[f].nodes[i].tok)) + FileMutants(c, f, i + 1)
  }

  ghost function MutantsFrom(c: Config, f: nat): seq<Mutant>
    decreases |c.files| - f
  {
    if f >= |c.files| then [] else FileMutants(c, f, 0) + MutantsFrom(c, f + 1)
  }

  /** Every file in walk order, every node in preorder, every enabled kind in table order. */
  ghost function Discover(c: Config): seq<Mutant> {
    MutantsFrom(c, 0)
  }

  /** What a discovered mutant is, said without the walk. */
  ghost predicate IsMutantOf(c: Config, m: Mutant) {
    && HasNode(c, m.file, m.node)
    && m.kind in KindsOf(c.files[m.file].nodes[m.node].tok)
    && m.kind in c.enabled
    && m == NewMutant(c, m.file, m.node, m.kind)
  }

  lemma {:induction false} KindMutantsMembers(c: Config, f: nat, i: nat, ks: seq<Kind>, m: Mutant)
    requires HasNode(c, f, i)
    ensures m in KindMutants(c, f, i, ks)
       <==> m.kind in ks && m.kind in c.enabled && m == NewMutant(c, f, i, m.kind)
  {
    if ks != [] {
      KindMutantsMembers(c, f, i, ks[1..], m);
    }
  }

  lemma {:induction false} FileMutantsMembers(c: Config, f: nat, i: nat, m: Mutant)
    requires f < |c.files|
    ensures m in FileMutants(c, f, i) <==> IsMutantOf(c, m) && m.file == f && m.node >= i
    decreases |c.files[f].nodes| - i
  {
    if i < |c.files[f].nodes| {
      KindMutantsMembers(c, f, i, KindsOf(c.files[f].nodes[i].tok), m);
      FileMutantsMembers(c, f, i + 1, m);
    }
  }

  lemma {:induction false} MutantsFromMembers(c: Config, f: nat, m: Mutant)
    ensures m in MutantsFrom(c, f) <==> IsMutantOf(c, m) && m.file >= f
    decreases |c.files| - f
  {
    if f < |c.files| {
      FileMutantsMembers(c, f, 0, m);
      MutantsFromMembers(c, f + 1, m);
    }
  }

  lemma {:induction false} KindMutantsOnce(c: Config, f: nat, i: nat, ks: seq<Kind>, m: Mutant)
    requires HasNode(c, f, i)
    requires forall j, k :: 0 <= j < k < |ks| ==> ks[j] != ks[k]
    ensures multiset(KindMutants(c, f, i, ks))[m] <= 1
  {
    if ks != [] {
      KindMutantsOnce(c, f, i, ks[1..], m);
      KindMutantsMembers(c, f, i, ks[1..], m);
    }
  }

  lemma {:induction false} FileMutantsOnce(c: Config, f: nat, i: nat, m: Mutant)
    requires f < |c.files|
    ensures multiset(FileMutants(c, f, i))[m] <= 1
    decreases |c.files[f].nodes| - i
  {
    if i < |c.files[f].nodes| {
      var ks := KindsOf(c.files[f].nodes[i].tok);
      KindMutantsOnce(c, f, i, ks, m);
      KindMutantsMembers(c, f, i, ks, m);
      FileMutantsOnce(c, f, i + 1, m);
      FileMutantsMembers(c, f, i + 1, m);
    }
  }

  lemma {:induction false} MutantsFromOnce(c: Config, f: nat, m: Mutant)
    ensures multiset(MutantsFrom(c, f))[m] <= 1
    decreases |c.files| - f
  {
    if f < |c.files| {
      FileMutantsOnce(c, f, 0, m);
      FileMutantsMembers(c, f, 0, m);
      MutantsFromOnce(c, f + 1, m);
      MutantsFromMembers(c, f + 1, m);
    }
  }

  /** The reference discovery finds each enabled mutant of each token node exactly once
      and nothing else. */
  lemma DiscoverIsExact(c: Config, m: Mutant)
    ensures multiset(Discover(c))[m] == if IsMutantOf(c, m) then 1 else 0
  {
    MutantsFromMembers(c, 0, m);
    MutantsFromOnce(c, 0, m);
  }

  // ---- The invariant ----

  ghost predicate WalkerOk(c: Config, w: Walker) {
    match w
    case AtNode(f, i) => f <= |c.files| && if f < |c.files| then i <= |c.files[f].nodes| else i == 0
    case Offering(f, i, ks) => HasNode(c, f, i)
    case StreamClosed => true
  }

  /** What the walker would still offer if no token ever changed. */
  ghost function Rest(c: Config, w: Walker): seq<Mutant>
    requires WalkerOk(c, w)
  {
    match w
    case AtNode(f, i) => if f < |c.files| then FileMutants(c, f, i) + MutantsFrom(c, f + 1) else []
    case Offering(f, i, ks) => KindMutants(c, f, i, ks) + FileMutants(c, f, i + 1) + MutantsFrom(c, f + 1)
    case StreamClosed => []
  }

  /** The walker has read the token of this node. */
  predicate Visited(w: Walker, f: nat, i: nat) {
    match w
    case AtNode(f0, i0) => f < f0 || (f == f0 && i < i0)
    case Offering(f0, i0, ks) => f < f0 || (f == f0 && i <= i0)
    case StreamClosed => true
  }

  ghost predicate OfferedVisited(c: Config, s: State) {
    && (forall m :: m in s.offered ==> HasNode(c, m.file, m.node) && Visited(s.walker, m.file, m.node))
    && (forall m :: m in s.mem.failed ==> HasNode(c, m.file, m.node) && Visited(s.walker, m.file, m.node))
  }

  ghost predicate DiscoveryInv(c: Config, s: State) {
    && WalkerOk(c, s.walker)
    && s.offered + Rest(c, s.walker) == Discover(c)
    && OfferedVisited(c, s)
  }

  // ---- Preservation ----

  /** A job a worker is on was offered before. */
  lemma JobWasOffered(s: State, w: nat)
    requires Conserved(s) && w < |s.workers| && s.workers[w].Busy? && !s.workers[w].phase.Sent?
    ensures s.workers[w].job in s.offered
  {
    RunningHasJob(s.workers, w);
    assert Balanced(s, s.workers[w].job);
  }

  /** A node the walker has not read yet still carries its parsed token. */
  lemma UnvisitedIsParsed(c: Config, s: State, f: nat, i: nat)
    requires Conserved(s) && AstsOk(c, s.workers, s.mem) && OfferedVisited(c, s)
    requires HasNode(c, f, i) && !Visited(s.walker, f, i)
    ensures s.mem.asts[f][i] == c.files[f].nodes[i].tok
  {
    assert NodeOk(c, s.workers, s.mem, f, i);
    var name := c.files[f].name;
    if name in s.mem.locks && s.mem.locks[name] < |s.workers| && Alters(s.workers[s.mem.locks[name]], f, i) {
      JobWasOffered(s, s.mem.locks[name]);
    }
    UnfailedIsParsed(c, s.mem.failed, f, i);
  }

  lemma NodeIsItsKindsFirst(c: Config, f: nat, i: nat)
    requires HasNode(c, f, i)
    ensures Rest(c, AtNode(f, i)) == Rest(c, Offering(f, i, KindsOf(c.files[f].nodes[i].tok)))
  {
    assert FileMutants(c, f, i) == KindMutants(c, f, i, KindsOf(c.files[f].nodes[i].tok)) + FileMutants(c, f, i + 1);
  }

  lemma ReadSteps(c: Config, s: State)
    requires Conserved(s) && AstsOk(c, s.workers, s.mem) && DiscoveryInv(c, s) && CanWalk(c, s, ReadNode)
    ensures WalkerOk(c, Walk(c, s, ReadNode).walker) && Rest(c, Walk(c, s, ReadNode).walker) == Rest(c, s.walker)
  {
    UnvisitedIsParsed(c, s, s.walker.file, s.walker.node);
    NodeIsItsKindsFirst(c, s.walker.file, s.walker.node);
  }

  lemma NextFileSteps(c: Config, s: State)
    requires WalkerOk(c, s.walker) && CanWalk(c, s, NextFile)
    ensures WalkerOk(c, Walk(c, s, NextFile).walker) && Rest(c, Walk(c, s, NextFile).walker) == Rest(c, s.walker)
  {
    assert FileMutants(c, s.walker.file, s.walker.node) == [];
    assert Rest(c, s.walker) == MutantsFrom(c, s.walker.file + 1);
  }

  lemma SkipSteps(c: Config, s: State)
    requires WalkerOk(c, s.walker) && CanWalk(c, s, SkipKind)
    ensures WalkerOk(c, Walk(c, s, SkipKind).walker) && Rest(c, Walk(c, s, SkipKind).walker) == Rest(c, s.walker)
  {
    assert KindMutants(c, s.walker.file, s.walker.node, s.walker.kinds)
        == KindMutants(c, s.walker.file, s.walker.node, s.walker.kinds[1..]);
  }

  lemma NextNodeSteps(c: Config, s: State)
    requires WalkerOk(c, s.walker) && CanWalk(c, s, NextNode)
    ensures WalkerOk(c, Walk(c, s, NextNode).walker) && Rest(c, Walk(c, s, NextNode).walker) == Rest(c, s.walker)
  {
    assert KindMutants(c, s.walker.file, s.walker.node, []) == [];
  }

  lemma FirstOfThree<T>(x: T, a: seq<T>, b: seq<T>, d: seq<T>)
    ensures ([x] + a) + b + d == [x] + (a + b + d)
  {
  }

  lemma OfferIsFirstOfRest(c: Config, f: nat, i: nat, ks: seq<Kind>)
    requires HasNode(c, f, i) && ks != [] && ks[0] in c.enabled
    ensures Rest(c, Offering(f, i, ks)) == [NewMutant(c, f, i, ks[0])] + Rest(c, Offering(f, i, ks[1..]))
  {
    FirstOfThree(NewMutant(c, f, i, ks[0]), KindMutants(c, f, i, ks[1..]), FileMutants(c, f, i + 1),
                 MutantsFrom(c, f + 1));
  }

  lemma OneMoved<T>(front: seq<T>, x: T, rest: seq<T>)
    ensures front + ([x] + rest) == (front + [x]) + rest
  {
  }

  lemma OfferSteps(c: Config, s: State)
    requires WalkerOk(c, s.walker) && CanWalk(c, s, HandOver)
    ensures WalkerOk(c, Walk(c, s, HandOver).walker)
    ensures Walk(c, s, HandOver).offered + Rest(c, Walk(c, s, HandOver).walker) == s.offered + Rest(c, s.walker)
  {
    var f, i, ks := s.walker.file, s.walker.node, s.walker.kinds;
    OfferIsFirstOfRest(c, f, i, ks);
    OneMoved(s.offered, NewMutant(c, f, i, ks[0]), Rest(c, Offering(f, i, ks[1..])));
  }

  lemma VisitedWalk(c: Config, s: State, a: WalkerAction)
    requires OfferedVisited(c, s) && CanWalk(c, s, a) && WalkerOk(c, s.walker)
    ensures OfferedVisited(c, Walk(c, s, a))
  {
  }

  lemma DiscoveryWalk(c: Config, s: State, a: WalkerAction)
    requires Conserved(s) && AstsOk(c, s.workers, s.mem) && DiscoveryInv(c, s) && CanWalk(c, s, a)
    ensures DiscoveryInv(c, Walk(c, s, a))
  {
    VisitedWalk(c, s, a);
    match a
    case ReadNode => ReadSteps(c, s);
    case HandOver => OfferSteps(c, s);
    case NextFile => NextFileSteps(c, s);
    case SkipKind => SkipSteps(c, s);
    case NextNode => NextNodeSteps(c, s);
    case CloseStream =>
  }

  lemma DiscoveryWork(c: Config, s: State, w: nat, op: Op)
    requires Conserved(s) && DiscoveryInv(c, s) && CanWork(c, s, w, op)
    ensures DiscoveryInv(c, Work(c, s, w, op))
  {
    if op.WriteFault? {
      JobWasOffered(s, w);
    }
  }

  lemma DiscoveryFrame(c: Config, s: State, s': State)
    requires DiscoveryInv(c, s)
    requires s'.walker == s.walker && s'.offered == s.offered && s'.mem == s.mem
    ensures DiscoveryInv(c, s')
  {
  }

  lemma DiscoveryStep(c: Config, s: State, a: Action)
    requires Conserved(s) && AstsOk(c, s.workers, s.mem) && DiscoveryInv(c, s) && Enabled(c, s, a)
    ensures DiscoveryInv(c, Next(c, s, a))
  {
    if a.OfWalker? {
      DiscoveryWalk(c, s, a.walk);
    } else if a.OfExecutor? {
      DiscoveryWork(c, s, a.worker, a.op);
    } else {
      WalkerFrame(c, s, a);
      MemoryFrame(c, s, a);
      DiscoveryFrame(c, s, Next(c, s, a));
    }
  }
}
