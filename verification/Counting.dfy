/** Counting in sequences, independent of their order. */
module Counting {

  function CountIf<T>(s: seq<T>, p: T -> bool): (n: nat)
    ensures n <= |s|
  {
    if |s| == 0 then 0 else CountIf(s[..|s| - 1], p) + if p(s[|s| - 1]) then 1 else 0
  }

  /** The positions whose element has p. */
  ghost function Where<T>(s: seq<T>, p: T -> bool): set<int> {
    set i | 0 <= i < |s| && p(s[i])
  }

  /** The count is the number of positions. */
  lemma {:induction false} CountIfIsCardinality<T>(s: seq<T>, p: T -> bool)
    ensures CountIf(s, p) == |Where(s, p)|
  {
    if |s| > 0 {
      var init, n := s[..|s| - 1], |s| - 1;
      CountIfIsCardinality(init, p);
      assert Where(s, p) == Where(init, p) + if p(s[n]) then {n} else {};
    }
  }

  lemma {:induction false} CountIfConcat<T>(a: seq<T>, b: seq<T>, p: T -> bool)
    ensures CountIf(a + b, p) == CountIf(a, p) + CountIf(b, p)
  {
    if |b| == 0 {
      assert a + b == a;
    } else {
      var x := b[|b| - 1];
      assert (a + b)[..|a + b| - 1] == a + b[..|b| - 1];
      CountIfConcat(a, b[..|b| - 1], p);
    }
  }

  lemma CountIfCons<T>(x: T, b: seq<T>, p: T -> bool)
    ensures CountIf([x] + b, p) == CountIf(b, p) + if p(x) then 1 else 0
  {
    assert [x][..0] == [];
    CountIfConcat([x], b, p);
  }

  lemma CountIfMiddle<T>(a: seq<T>, x: T, b: seq<T>, p: T -> bool)
    ensures CountIf(a + ([x] + b), p) == CountIf(a + b, p) + if p(x) then 1 else 0
  {
    CountIfConcat(a, [x] + b, p);
    CountIfConcat(a, b, p);
    CountIfCons(x, b, p);
  }

  lemma Rejoin<T>(s: seq<T>, k: nat)
    requires k < |s|
    ensures s == s[..k] + ([s[k]] + s[k + 1..])
  {
  }

  function Without<T>(s: seq<T>, k: nat): seq<T>
    requires k < |s|
  {
    s[..k] + s[k + 1..]
  }

  /** Taking out one element takes out its count. */
  lemma CountIfWithout<T>(s: seq<T>, k: nat, p: T -> bool)
    requires k < |s|
    ensures CountIf(s, p) == CountIf(Without(s, k), p) + if p(s[k]) then 1 else 0
  {
    Rejoin(s, k);
    CountIfMiddle(s[..k], s[k], s[k + 1..], p);
  }

  lemma MultisetWithout<T>(s: seq<T>, k: nat)
    requires k < |s|
    ensures multiset(s) == multiset{s[k]} + multiset(Without(s, k))
  {
    assert s == s[..k] + [s[k]] + s[k + 1..];
  }

  /** Permuted sequences have the same counts. */
  lemma {:induction false} CountIfPermuted<T>(a: seq<T>, b: seq<T>, p: T -> bool)
    requires multiset(a) == multiset(b)
    ensures CountIf(a, p) == CountIf(b, p)
    decreases |a|
  {
    assert |multiset(a)| == |a| && |multiset(b)| == |b|;
    if |a| > 0 {
      var init, x := a[..|a| - 1], a[|a| - 1];
      assert a == init + [x];
      assert x in multiset(b);
      var k :| 0 <= k < |b| && b[k] == x;
      var rest := Without(b, k);
      MultisetWithout(b, k);
      assert multiset(init) == multiset(a) - multiset{x};
      CountIfPermuted(init, rest, p);
      CountIfWithout(b, k, p);
    }
  }

  lemma {:induction false} CountIfNone<T>(s: seq<T>, p: T -> bool)
    ensures CountIf(s, p) == 0 <==> forall x :: x in s ==> !p(x)
  {
    if |s| > 0 {
      CountIfNone(s[..|s| - 1], p);
      assert s == s[..|s| - 1] + [s[|s| - 1]];
    }
  }

  // ---- Filtering ----

  /** The elements with p, in order. */
  ghost function Filter<T(!new)>(s: seq<T>, p: T -> bool): seq<T> {
    if |s| == 0 then []
    else Filter(s[..|s| - 1], p) + if p(s[|s| - 1]) then [s[|s| - 1]] else []
  }

  lemma {:induction false} FilterCounts<T(!new)>(s: seq<T>, p: T -> bool, x: T)
    ensures multiset(Filter(s, p))[x] == if p(x) then multiset(s)[x] else 0
  {
    if |s| > 0 {
      FilterCounts(s[..|s| - 1], p, x);
      assert s == s[..|s| - 1] + [s[|s| - 1]];
    }
  }

  lemma {:induction false} FilterAgrees<T(!new)>(s: seq<T>, p: T -> bool, q: T -> bool)
    requires forall x :: x in s ==> (p(x) <==> q(x))
    ensures Filter(s, p) == Filter(s, q)
  {
    if |s| > 0 {
      FilterAgrees(s[..|s| - 1], p, q);
    }
  }

  /** Among elements that occur once, taking out those of a part leaves the rest. */
  lemma FilterOut<T(!new)>(s: seq<T>, out: multiset<T>)
    requires out <= multiset(s) && forall x :: multiset(s)[x] <= 1
    ensures multiset(Filter(s, x => x !in out)) == multiset(s) - out
  {
    forall x ensures multiset(Filter(s, y => y !in out))[x] == (multiset(s) - out)[x] {
      FilterCounts(s, y => y !in out, x);
    }
  }
}
