/** The table of per-file locks under any number of threads: each thread runs the locking
    part of Apply, that is fileLock(name).Lock(), then the evaluation of the deferred
    fileLock(name).Unlock(), the critical section, and the deferred call. Every access to
    the RWMutex, the map and the file mutexes is a step of its own.
    (internal/engine/tokenmutator.go:110-112, 156-186) */
module LockTable {
  import opened Mutation

  type Id = nat

  /** Program points of one call of fileLock; Returned carries its result. */
  datatype Point =
    | Enter                         // before RLock
    | Reading                       // RLock held, before the map read
    | Read(found: Option<Id>)       // RLock held, before the deferred RUnlock
    | Missed                        // before the write lock
    | Rechecking                    // write lock held, before the second map read
    | Inserting                     // write lock held, name was absent
    | Leaving(id: Id)               // before the deferred write unlock
    | Returned(id: Id)

  datatype Thread =
    | Idle
    | Calling(name: Path, locked: Option<Id>, at: Point)   // locked: None in the first call, the mutex in the second
    | Critical(name: Path, mutex: Id, deferred: Id)

  /** readers and writer are the state of the RWMutex; held maps a locked mutex to its thread;
      created counts the mutexes ever made. */
  datatype State = State(
    threads: seq<Thread>,
    table: map<Path, Id>,
    created: nat,
    readers: set<nat>,
    writer: Option<nat>,
    held: map<Id, nat>)

  datatype Action =
    | Begin(name: Path) | RLock | ReadMap | RUnlock | WLock | Recheck | Insert | WUnlock | LockMutex | UnlockMutex

  ghost function Init(n: nat): State {
    State(seq(n, _ => Idle), map[], 0, {}, None, map[])
  }

  ghost predicate Enabled(s: State, t: nat, a: Action) {
    t < |s.threads| &&
    var th := s.threads[t];
    match a
    case Begin(_) => th.Idle?
    case RLock => th.Calling? && th.at.Enter? && s.writer == None
    case ReadMap => th.Calling? && th.at.Reading?
    case RUnlock => th.Calling? && th.at.Read?
    case WLock => th.Calling? && th.at.Missed? && s.writer == None && s.readers == {}
    case Recheck => th.Calling? && th.at.Rechecking?
    case Insert => th.Calling? && th.at.Inserting?
    case WUnlock => th.Calling? && th.at.Leaving?
    case LockMutex => th.Calling? && th.at.Returned? && (th.locked == None ==> th.at.id !in s.held)
    case UnlockMutex => th.Critical?
  }

  ghost function Find(table: map<Path, Id>, name: Path): Option<Id> {
    if name in table then Some(table[name]) else None
  }

  ghost function Go(s: State, t: nat, at: Point): seq<Thread>
    requires t < |s.threads| && s.threads[t].Calling?
  {
    s.threads[t := s.threads[t].(at := at)]
  }

  /** LockMutex is the step that follows a return of fileLock: Lock() after the first call,
      entering the critical section after the second. */
  ghost function Next(s: State, t: nat, a: Action): State
    requires Enabled(s, t, a)
  {
    var th := s.threads[t];
    match a
    case Begin(name) => s.(threads := s.threads[t := Calling(name, None, Enter)])
    case RLock => s.(threads := Go(s, t, Reading), readers := s.readers + {t})
    case ReadMap => s.(threads := Go(s, t, Read(Find(s.table, th.name))))
    case RUnlock =>
      s.(threads := Go(s, t, if th.at.found.Some? then Returned(th.at.found.value) else Missed),
         readers := s.readers - {t})
    case WLock => s.(threads := Go(s, t, Rechecking), writer := Some(t))
    case Recheck =>
      s.(threads := Go(s, t, if th.name in s.table then Leaving(s.table[th.name]) else Inserting))
    case Insert =>
      s.(threads := Go(s, t, Leaving(s.created)), table := s.table[th.name := s.created], created := s.created + 1)
    case WUnlock => s.(threads := Go(s, t, Returned(th.at.id)), writer := None)
    case LockMutex =>
      if th.locked == None
      then s.(threads := s.threads[t := Calling(th.name, Some(th.at.id), Enter)], held := s.held[th.at.id := t])
      else s.(threads := s.threads[t := Critical(th.name, th.locked.value, th.at.id)])
    case UnlockMutex => s.(threads := s.threads[t := Idle], held := s.held - {th.deferred})
  }

  ghost predicate Step(s: State, s': State) {
    exists t: nat, a :: Enabled(s, t, a) && s' == Next(s, t, a)
  }

  ghost predicate StepAt(run: seq<State>, i: nat)
    requires i + 1 < |run|
  {
    Step(run[i], run[i + 1])
  }

  ghost predicate IsRun(n: nat, run: seq<State>) {
    && run != []
    && run[0] == Init(n)
    && forall i: nat :: i + 1 < |run| ==> StepAt(run, i)
  }

  // ---- Invariant ----

  predicate Reader(th: Thread) {
    th.Calling? && (th.at.Reading? || th.at.Read?)
  }

  predicate Writer(th: Thread) {
    th.Calling? && (th.at.Rechecking? || th.at.Inserting? || th.at.Leaving?)
  }

  /** The RWMutex admits many readers or one writer. */
  ghost predicate RWExact(s: State) {
    && (forall t :: t in s.readers <==> 0 <= t < |s.threads| && Reader(s.threads[t]))
    && (forall t :: 0 <= t < |s.threads| && Writer(s.threads[t]) ==> s.writer == Some(t))
    && (s.writer.Some? ==> s.writer.value < |s.threads| && Writer(s.threads[s.writer.value]) && s.readers == {})
  }

  /** Mutexes are numbered by creation; every one created is in the table, under one name. */
  ghost predicate TableOk(s: State) {
    && |s.table| == s.created
    && (forall name :: name in s.table ==> s.table[name] < s.created)
    && (forall name, name' :: name in s.table && name' in s.table && name != name' ==> s.table[name] != s.table[name'])
  }

  predicate Is(table: map<Path, Id>, name: Path, id: Id) {
    name in table && table[name] == id
  }

  /** Every mutex a thread has in hand is the one the table has for its file name. */
  ghost predicate ThreadOk(table: map<Path, Id>, th: Thread) {
    match th
    case Idle => true
    case Calling(name, locked, at) =>
      && (locked.Some? ==> Is(table, name, locked.value))
      && (match at
          case Read(found) => found.Some? ==> Is(table, name, found.value)
          case Inserting => name !in table
          case Leaving(id) => Is(table, name, id)
          case Returned(id) => Is(table, name, id)
          case _ => true)
    case Critical(name, mutex, deferred) => Is(table, name, mutex) && Is(table, name, deferred)
  }

  predicate Holds(th: Thread, id: Id) {
    (th.Calling? && th.locked == Some(id)) || (th.Critical? && th.mutex == id)
  }

  ghost predicate HeldExact(s: State) {
    && (forall t, id :: 0 <= t < |s.threads| && Holds(s.threads[t], id) ==> id in s.held && s.held[id] == t)
    && (forall id :: id in s.held ==> s.held[id] < |s.threads| && Holds(s.threads[s.held[id]], id))
  }

  ghost predicate Inv(s: State) {
    && RWExact(s)
    && TableOk(s)
    && HeldExact(s)
    && forall t :: 0 <= t < |s.threads| ==> ThreadOk(s.table, s.threads[t])
  }

  lemma RWStep(s: State, t: nat, a: Action)
    requires RWExact(s) && Enabled(s, t, a)
    ensures RWExact(Next(s, t, a))
  {
    if Writer(s.threads[t]) {
      assert s.writer == Some(t);
    }
  }

  lemma TableStep(s: State, t: nat, a: Action)
    requires TableOk(s) && Enabled(s, t, a) && ThreadOk(s.table, s.threads[t])
    ensures TableOk(Next(s, t, a))
    ensures forall name :: name in s.table ==> Is(Next(s, t, a).table, name, s.table[name])
  {
  }

  lemma HeldStep(s: State, t: nat, a: Action)
    requires HeldExact(s) && Enabled(s, t, a) && ThreadOk(s.table, s.threads[t])
    ensures HeldExact(Next(s, t, a))
  {
    assert forall id :: Holds(s.threads[t], id) ==> id in s.held && s.held[id] == t;
  }

  lemma ThreadStep(s: State, t: nat, a: Action, u: nat)
    requires Inv(s) && Enabled(s, t, a) && u < |s.threads|
    ensures ThreadOk(Next(s, t, a).table, Next(s, t, a).threads[u])
  {
    TableStep(s, t, a);
    assert ThreadOk(s.table, s.threads[u]) && ThreadOk(s.table, s.threads[t]);
    assert Writer(s.threads[u]) ==> s.writer == Some(u);
    assert Writer(s.threads[t]) ==> s.writer == Some(t);
  }

  lemma InvStep(s: State, t: nat, a: Action)
    requires Inv(s) && Enabled(s, t, a)
    ensures Inv(Next(s, t, a))
  {
    assert ThreadOk(s.table, s.threads[t]);
    RWStep(s, t, a);
    TableStep(s, t, a);
    HeldStep(s, t, a);
    forall u | 0 <= u < |s.threads| ensures ThreadOk(Next(s, t, a).table, Next(s, t, a).threads[u]) {
      ThreadStep(s, t, a, u);
    }
  }

  lemma {:induction false} RunKeepsInv(n: nat, run: seq<State>, k: nat)
    requires IsRun(n, run) && k < |run|
    ensures Inv(run[k])
  {
    if k > 0 {
      RunKeepsInv(n, run, k - 1);
      assert StepAt(run, k - 1);
      var t: nat, a :| Enabled(run[k - 1], t, a) && run[k] == Next(run[k - 1], t, a);
      InvStep(run[k - 1], t, a);
    }
  }

  lemma EntryStays(s: State, s': State, name: Path)
    requires Inv(s) && Step(s, s') && name in s.table
    ensures Is(s'.table, name, s.table[name])
  {
    var t: nat, a :| Enabled(s, t, a) && s' == Next(s, t, a);
    assert ThreadOk(s.table, s.threads[t]);
    TableStep(s, t, a);
  }

  /** A table entry never changes once it is there. */
  lemma {:induction false} EntriesAreForever(n: nat, run: seq<State>, i: nat, j: nat, name: Path)
    requires IsRun(n, run) && i <= j < |run| && name in run[i].table
    ensures Is(run[j].table, name, run[i].table[name])
    decreases j - i
  {
    if i < j {
      EntriesAreForever(n, run, i, j - 1, name);
      RunKeepsInv(n, run, j - 1);
      assert StepAt(run, j - 1);
      EntryStays(run[j - 1], run[j], name);
    }
  }

  /** Any two calls of fileLock for one name return the same mutex, at whatever times and in
      whatever threads they return. */
  lemma SameNameSameMutex(n: nat, run: seq<State>, i: nat, t: nat, j: nat, u: nat)
    requires IsRun(n, run) && i < |run| && j < |run|
    requires t < |run[i].threads| && run[i].threads[t].Calling? && run[i].threads[t].at.Returned?
    requires u < |run[j].threads| && run[j].threads[u].Calling? && run[j].threads[u].at.Returned?
    ensures run[i].threads[t].name == run[j].threads[u].name
       <==> run[i].threads[t].at.id == run[j].threads[u].at.id
  {
    RunKeepsInv(n, run, i);
    RunKeepsInv(n, run, j);
    assert ThreadOk(run[i].table, run[i].threads[t]);
    assert ThreadOk(run[j].table, run[j].threads[u]);
    if i <= j {
      EntriesAreForever(n, run, i, j, run[i].threads[t].name);
    } else {
      EntriesAreForever(n, run, j, i, run[j].threads[u].name);
    }
  }

  /** One mutex per name in the table and none beside it; two threads are never in the
      critical section of one file name; the deferred unlock releases the mutex that was
      locked, and it is locked by this thread. */
  lemma FilesAreLockedExclusively(n: nat, run: seq<State>)
    requires IsRun(n, run)
    ensures var s := run[|run| - 1];
            && s.created == |s.table|
            && (forall t, u | 0 <= t < |s.threads| && 0 <= u < |s.threads| && s.threads[t].Critical?
                              && s.threads[u].Critical? && s.threads[t].name == s.threads[u].name :: t == u)
            && (forall t :: 0 <= t < |s.threads| && s.threads[t].Critical? ==>
                  && s.threads[t].deferred == s.threads[t].mutex
                  && s.threads[t].deferred in s.held && s.held[s.threads[t].deferred] == t)
  {
    RunKeepsInv(n, run, |run| - 1);
    var s := run[|run| - 1];
    forall t | 0 <= t < |s.threads| && s.threads[t].Critical?
      ensures Is(s.table, s.threads[t].name, s.threads[t].mutex)
      ensures s.threads[t].deferred == s.threads[t].mutex
      ensures s.threads[t].mutex in s.held && s.held[s.threads[t].mutex] == t
    {
      assert ThreadOk(s.table, s.threads[t]);
      assert Holds(s.threads[t], s.threads[t].mutex);
    }
  }

  /** The map is written only by the single holder of the write lock, while nobody reads. */
  lemma MapWritesAreExclusive(n: nat, run: seq<State>, t: nat)
    requires IsRun(n, run)
    requires var s := run[|run| - 1]; t < |s.threads| && s.threads[t].Calling? && s.threads[t].at.Inserting?
    ensures var s := run[|run| - 1];
            forall u :: 0 <= u < |s.threads| && u != t ==> !Reader(s.threads[u]) && !Writer(s.threads[u])
  {
    RunKeepsInv(n, run, |run| - 1);
    var s := run[|run| - 1];
    assert Writer(s.threads[t]);
  }

  /** The next step of a call that waits for nobody. */
  ghost function OwnStep(s: State, t: nat): (a: Action)
    requires t < |s.threads| && (s.threads[t].Critical? || Reader(s.threads[t]) || Writer(s.threads[t]))
    ensures Enabled(s, t, a)
  {
    if s.threads[t].Critical? then UnlockMutex
    else match s.threads[t].at
      case Reading => ReadMap
      case Read(_) => RUnlock
      case Rechecking => Recheck
      case Inserting => Insert
      case Leaving(_) => WUnlock
  }

  /** Whoever waits for the RWMutex waits for a thread that can move. */
  lemma CallProgress(s: State, t: nat) returns (u: nat, a: Action)
    requires Inv(s) && t < |s.threads| && s.threads[t].Calling?
    requires s.threads[t].at.Returned? ==> s.threads[t].locked.Some?
    ensures Enabled(s, u, a) && !s.threads[u].Idle?
  {
    if Reader(s.threads[t]) || Writer(s.threads[t]) {
      return t, OwnStep(s, t);
    }
    if s.writer.Some? {
      return s.writer.value, OwnStep(s, s.writer.value);
    }
    if s.threads[t].at.Enter? {
      return t, RLock;
    }
    if s.threads[t].at.Returned? {
      return t, LockMutex;
    }
    if s.readers == {} {
      return t, WLock;
    }
    u :| u in s.readers;
    a := OwnStep(s, u);
  }

  /** No deadlock: while some thread is inside Apply's locking, one such thread can move. */
  lemma LockingNeverDeadlocks(n: nat, run: seq<State>, t: nat) returns (u: nat, a: Action)
    requires IsRun(n, run) && t < |run[|run| - 1].threads| && !run[|run| - 1].threads[t].Idle?
    ensures Enabled(run[|run| - 1], u, a) && !run[|run| - 1].threads[u].Idle?
  {
    RunKeepsInv(n, run, |run| - 1);
    var s := run[|run| - 1];
    if s.threads[t].Critical? {
      return t, UnlockMutex;
    }
    if !s.threads[t].at.Returned? || s.threads[t].locked.Some? {
      u, a := CallProgress(s, t);
      return;
    }
    var id := s.threads[t].at.id;
    if id !in s.held {
      return t, LockMutex;
    }
    var v := s.held[id];
    if s.threads[v].Critical? {
      return v, UnlockMutex;
    }
    u, a := CallProgress(s, v);
  }

  // ---- Refinement of one lock per file name ----

  /** The file names that are locked, with their holders: what EngineModel calls locks. */
  ghost function LockedNames(s: State): map<Path, nat> {
    Locked(s.table, s.held)
  }

  ghost function Locked(table: map<Path, Id>, held: map<Id, nat>): map<Path, nat> {
    map name | name in table && table[name] in held :: held[table[name]]
  }

  lemma LockIsAcquire(s: State, t: nat)
    requires Inv(s) && Enabled(s, t, LockMutex) && s.threads[t].locked == None
    ensures var name := s.threads[t].name;
            name !in LockedNames(s) && LockedNames(Next(s, t, LockMutex)) == LockedNames(s)[name := t]
  {
    assert ThreadOk(s.table, s.threads[t]);
  }

  lemma ReleaseOne(table: map<Path, Id>, held: map<Id, nat>, name: Path)
    requires forall x, y :: x in table && y in table && x != y ==> table[x] != table[y]
    requires name in table
    ensures Locked(table, held - {table[name]}) == Locked(table, held) - {name}
  {
    forall x | x in table && x != name ensures table[x] != table[name] {
    }
  }

  lemma UnlockIsRelease(s: State, t: nat)
    requires Inv(s) && Enabled(s, t, UnlockMutex)
    ensures var name := s.threads[t].name;
            && name in LockedNames(s) && LockedNames(s)[name] == t
            && LockedNames(Next(s, t, UnlockMutex)) == LockedNames(s) - {name}
  {
    assert ThreadOk(s.table, s.threads[t]);
    assert Holds(s.threads[t], s.threads[t].mutex);
    ReleaseOne(s.table, s.held, s.threads[t].name);
  }

  lemma HeldWasCreated(s: State)
    requires Inv(s)
    ensures forall id :: id in s.held ==> id < s.created
  {
    forall id | id in s.held ensures id < s.created {
      assert ThreadOk(s.table, s.threads[s.held[id]]);
    }
  }

  lemma InsertOne(table: map<Path, Id>, held: map<Id, nat>, name: Path, id: Id)
    requires name !in table && id !in held
    ensures Locked(table[name := id], held) == Locked(table, held)
  {
  }

  /** A new mutex is not held by anybody. */
  lemma InsertLocksNothing(s: State, t: nat)
    requires Inv(s) && Enabled(s, t, Insert)
    ensures LockedNames(Next(s, t, Insert)) == LockedNames(s)
  {
    assert ThreadOk(s.table, s.threads[t]);
    HeldWasCreated(s);
    InsertOne(s.table, s.held, s.threads[t].name, s.created);
  }

  /** Seen through the locked file names, every step of the double-checked table is nothing, the
      acquisition of a free name, or its release by the holder: the one lock per file name of
      EngineModel. */
  lemma TableRefinesOneLockPerName(s: State, t: nat, a: Action)
    requires Inv(s) && Enabled(s, t, a)
    ensures var now, next, name := LockedNames(s), LockedNames(Next(s, t, a)),
                                   if a.LockMutex? || a.UnlockMutex? then s.threads[t].name else "";
            if a.LockMutex? && s.threads[t].locked == None then name !in now && next == now[name := t]
            else if a.UnlockMutex? then name in now && now[name] == t && next == now - {name}
            else next == now
  {
    match a
    case LockMutex =>
      if s.threads[t].locked == None {
        LockIsAcquire(s, t);
      }
    case UnlockMutex => UnlockIsRelease(s, t);
    case Insert => InsertLocksNothing(s, t);
    case _ =>
  }
}
