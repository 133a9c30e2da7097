/** The make-up of the worker pool (internal/engine/workerpool/workerpool.go:67-104). What
    its workers do is part of EngineModel. */
module WorkerPool {

  class Worker {
    const name: string
    const id: int

    constructor (id: int, name: string)
      ensures this.id == id && this.name == name
    {
      this.id, this.name := id, name;
    }
  }

  /** Zero means one worker per CPU; integration mode halves. */
  function Size(wNum: int, intMode: bool, cpus: int): int {
    var n := if wNum == 0 then cpus else wNum;
    if intMode && n > 1 then n / 2 else n
  }

  /** The pool has a worker exactly for a worker count that is not negative. Integration mode
      leaves half of them, but never none. */
  lemma SizeIsPositiveIff(wNum: int, intMode: bool, cpus: int)
    requires cpus >= 1
    ensures Size(wNum, intMode, cpus) >= 1 <==> wNum >= 0
    ensures Size(wNum, false, cpus) == (if wNum == 0 then cpus else wNum)
    ensures Size(wNum, false, cpus) <= 1 ==> Size(wNum, true, cpus) == Size(wNum, false, cpus)
    ensures Size(wNum, false, cpus) > 1 ==>
              2 * Size(wNum, true, cpus) <= Size(wNum, false, cpus) <= 2 * Size(wNum, true, cpus) + 1
  {
  }

  // ---- Names of workers ----

  function Digit(n: nat): char
    requires n < 10
  {
    ('0' as int + n) as char
  }

  function Decimal(n: nat): (s: string)
    ensures s != []
  {
    if n < 10 then [Digit(n)] else Decimal(n / 10) + [Digit(n % 10)]
  }

  /** The identifier under which a worker gets its directory. */
  function WorkerName(pool: string, id: nat): string {
    pool + "-" + Decimal(id)
  }

  /** The number that a row of digits stands for. */
  function Value(s: string): int {
    if s == [] then 0 else 10 * Value(s[..|s| - 1]) + (s[|s| - 1] as int - '0' as int)
  }

  lemma {:induction false} DecimalHasValue(n: nat)
    ensures Value(Decimal(n)) == n
  {
    if n < 10 {
      assert Value([]) == 0;
      assert Decimal(n)[..0] == [];
    } else {
      DecimalHasValue(n / 10);
      assert Decimal(n)[..|Decimal(n)| - 1] == Decimal(n / 10);
    }
  }

  /** A worker's name is that of its pool, a dash and its number. */
  lemma WorkerNameReads(pool: string, id: nat)
    ensures var name, n := WorkerName(pool, id), |pool|;
            |name| > n + 1 && name[..n] == pool && name[n] == '-' && Value(name[n + 1..]) == id
  {
    DecimalHasValue(id);
    assert WorkerName(pool, id)[|pool| + 1..] == Decimal(id);
  }

  /** Workers of one pool have different names. */
  lemma WorkerNamesDiffer(pool: string, a: nat, b: nat)
    requires WorkerName(pool, a) == WorkerName(pool, b)
    ensures a == b
  {
    WorkerNameReads(pool, a);
    WorkerNameReads(pool, b);
  }

  class Pool {
    const name: string
    var size: int
    var workers: seq<Worker>

    /** One worker per identifier below the size; none for a negative size. */
    constructor Initialize(name: string, wNum: int, intMode: bool, cpus: int)
      ensures size == Size(wNum, intMode, cpus) && this.name == name
      ensures |workers| == if size < 0 then 0 else size
      ensures forall i :: 0 <= i < |workers| ==> workers[i].id == i && workers[i].name == name
      ensures fresh(workers)
    {
      this.name := name;
      size := Size(wNum, intMode, cpus);
      workers := [];
      new;
      var i := 0;
      while i < size
        invariant 0 <= i && if size < 0 then i == 0 else i <= size
        invariant |workers| == i && size == Size(wNum, intMode, cpus)
        invariant fresh(workers)
        invariant forall j :: 0 <= j < |workers| ==> workers[j].id == j && workers[j].name == name
      {
        var w := new Worker(i, name);
        workers := workers + [w];
        i := i + 1;
      }
    }
  }
}
