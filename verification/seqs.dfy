/**
 Sequence utilities the reconciliation engine is built from: a stable filter
 (the reference definition of Java's `Collectors.partitioningBy`), an
 accumulating one-pass partition, element-wise mapping and
 order-preserving de-duplication (Guava's `ImmutableSet.copyOf`).
 */
module Seqs {

  /** The elements `x` of `xs` with `ok(x) == keep`, in their original order. */
  function Select<T>(xs: seq<T>, ok: T -> bool, keep: bool): (r: seq<T>)
    ensures |r| <= |xs|
    ensures forall i :: 0 <= i < |r| ==> r[i] in xs && ok(r[i]) == keep
    ensures forall i :: 0 <= i < |xs| && ok(xs[i]) == keep ==> xs[i] in r
  {
    if xs == [] then []
    else (if ok(xs[0]) == keep then [xs[0]] else []) + Select(xs[1..], ok, keep)
  }

  lemma InSelect<T>(xs: seq<T>, ok: T -> bool, keep: bool, x: T)
    ensures x in Select(xs, ok, keep) <==> x in xs && ok(x) == keep
  {
    if x in xs && ok(x) == keep {
      var i :| 0 <= i < |xs| && xs[i] == x;
    }
  }

  lemma {:induction false} SelectAppend<T>(a: seq<T>, b: seq<T>, ok: T -> bool, keep: bool)
    ensures Select(a + b, ok, keep) == Select(a, ok, keep) + Select(b, ok, keep)
  {
    if a == [] {
      assert a + b == b;
    } else {
      assert (a + b)[1..] == a[1..] + b;
      SelectAppend(a[1..], b, ok, keep);
    }
  }

  /** The two halves of a partition together hold every element exactly as often as the input. */
  lemma {:induction false} SelectSplits<T>(xs: seq<T>, ok: T -> bool)
    ensures multiset(Select(xs, ok, true)) + multiset(Select(xs, ok, false)) == multiset(xs)
    ensures |Select(xs, ok, true)| + |Select(xs, ok, false)| == |xs|
  {
    if xs != [] {
      SelectSplits(xs[1..], ok);
      assert xs == [xs[0]] + xs[1..];
    }
  }

  /** Selecting by a predicate every element already satisfies keeps the sequence unchanged. */
  lemma {:induction false} SelectKeepsAll<T>(xs: seq<T>, ok: T -> bool)
    requires forall i :: 0 <= i < |xs| ==> ok(xs[i])
    ensures Select(xs, ok, true) == xs
  {
    if xs != [] {
      SelectKeepsAll(xs[1..], ok);
    }
  }

  /** Left-to-right partition into an accepted and a rejected list, appending to
      the lists built so far, as a stream collector does. */
  function PartitionFrom<T>(xs: seq<T>, ok: T -> bool, accepted: seq<T>, rejected: seq<T>): (r: (seq<T>, seq<T>))
    ensures r.0 == accepted + Select(xs, ok, true)
    ensures r.1 == rejected + Select(xs, ok, false)
    decreases |xs|
  {
    if xs == [] then (accepted, rejected)
    else
      SelectStep(xs, ok, true, accepted);
      SelectStep(xs, ok, false, rejected);
      if ok(xs[0]) then PartitionFrom(xs[1..], ok, accepted + [xs[0]], rejected)
      else PartitionFrom(xs[1..], ok, accepted, rejected + [xs[0]])
  }

  /** One step of a partition: the head joins the side it is selected for. */
  lemma {:induction false} SelectStep<T>(xs: seq<T>, ok: T -> bool, keep: bool, a: seq<T>)
    requires xs != []
    ensures a + Select(xs, ok, keep) == (if ok(xs[0]) == keep then a + [xs[0]] else a) + Select(xs[1..], ok, keep)
  {
    var rest := Select(xs[1..], ok, keep);
    if ok(xs[0]) == keep {
      assert Select(xs, ok, keep) == [xs[0]] + rest;
      assert a + ([xs[0]] + rest) == (a + [xs[0]]) + rest;
    } else {
      assert Select(xs, ok, keep) == rest;
    }
  }

  /** `partitionByOkAndNotOk`: the accepted and the rejected elements, each in
      input order; every element lands in exactly one of the two. */
  function Partition<T>(xs: seq<T>, ok: T -> bool): (r: (seq<T>, seq<T>))
    ensures r.0 == Select(xs, ok, true) && r.1 == Select(xs, ok, false)
    ensures forall i :: 0 <= i < |r.0| ==> ok(r.0[i])
    ensures forall i :: 0 <= i < |r.1| ==> !ok(r.1[i])
    ensures multiset(r.0) + multiset(r.1) == multiset(xs)
    ensures |r.0| + |r.1| == |xs|
  {
    SelectSplits(xs, ok);
    PartitionFrom(xs, ok, [], [])
  }

  function Map<T, U>(f: T -> U, xs: seq<T>): (r: seq<U>)
    ensures |r| == |xs|
    ensures forall i :: 0 <= i < |xs| ==> r[i] == f(xs[i])
  {
    if xs == [] then [] else [f(xs[0])] + Map(f, xs[1..])
  }

  lemma InMap<T, U>(f: T -> U, xs: seq<T>, y: U)
    ensures y in Map(f, xs) <==> exists i :: 0 <= i < |xs| && y == f(xs[i])
  {
    if y in Map(f, xs) {
      var j :| 0 <= j < |Map(f, xs)| && Map(f, xs)[j] == y;
    }
  }

  lemma {:induction false} MapAppend<T, U>(f: T -> U, a: seq<T>, b: seq<T>)
    ensures Map(f, a + b) == Map(f, a) + Map(f, b)
  {
    assert |Map(f, a + b)| == |Map(f, a) + Map(f, b)|;
    forall i | 0 <= i < |a + b|
      ensures Map(f, a + b)[i] == (Map(f, a) + Map(f, b))[i]
    {
      if i < |a| {
        assert (a + b)[i] == a[i];
      } else {
        assert (a + b)[i] == b[i - |a|];
      }
    }
  }

  /** Mapping two permutations of one another gives two permutations of one another. */
  lemma {:induction false} MapPermutation<T, U>(f: T -> U, a: seq<T>, b: seq<T>)
    requires multiset(a) == multiset(b)
    ensures multiset(Map(f, a)) == multiset(Map(f, b))
    decreases |a|
  {
    if a == [] {
      assert |b| == |multiset(b)| == 0;
    } else {
      var x := a[0];
      assert x in multiset(b);
      var j :| 0 <= j < |b| && b[j] == x;
      var rest := b[..j] + b[j + 1..];
      assert b == b[..j] + [x] + b[j + 1..];
      assert a == [x] + a[1..];
      assert multiset(b) == multiset(b[..j]) + multiset([x]) + multiset(b[j + 1..]);
      assert multiset(a) == multiset([x]) + multiset(a[1..]);
      assert multiset(rest) == multiset(b[..j]) + multiset(b[j + 1..]);
      calc {
        multiset(a[1..]);
        multiset(a) - multiset([x]);
        multiset(b) - multiset([x]);
        multiset(rest);
      }
      MapPermutation(f, a[1..], rest);
      MapAppend(f, b[..j], b[j + 1..]);
      MapAppend(f, b[..j] + [x], b[j + 1..]);
      MapAppend(f, b[..j], [x]);
      MapAppend(f, [x], a[1..]);
    }
  }

  /** The four pieces of a concatenation are recovered by slicing; the last
      two are compared with `c'` and `d'` up to order. */
  lemma ConcatPieces<T>(a: seq<T>, b: seq<T>, c: seq<T>, d: seq<T>, c': seq<T>, d': seq<T>, lc: nat, ld: nat)
    requires |c| == lc && multiset(c) == multiset(c')
    requires |d| == ld && multiset(d) == multiset(d')
    ensures var r := a + b + c + d;
            var n := |a| + |b|;
            && |r| == n + lc + ld
            && r[..|a|] == a
            && r[|a|..n] == b
            && multiset(r[n..n + lc]) == multiset(c')
            && multiset(r[n + lc..]) == multiset(d')
  {
    var r := a + b + c + d;
    assert r[..|a|] == a;
    assert r[|a|..|a| + |b|] == b;
    assert r[|a| + |b|..|a| + |b| + lc] == c;
    assert r[|a| + |b| + lc..] == d;
  }

  lemma InPermutation<T>(a: seq<T>, b: seq<T>, x: T)
    requires multiset(a) == multiset(b)
    ensures x in a <==> x in b
  {
    assert x in a <==> x in multiset(a);
    assert x in b <==> x in multiset(b);
  }

  lemma InPieces<T>(rs: seq<T>, i: nat, j: nat, k: nat, x: T)
    requires i <= j <= k <= |rs|
    ensures x in rs <==> x in rs[..i] || x in rs[i..j] || x in rs[j..k] || x in rs[k..]
  {
    assert rs == rs[..i] + rs[i..j] + rs[j..k] + rs[k..];
  }

  lemma InDedup<T>(xs: seq<T>, x: T)
    ensures x in Dedup(xs) <==> x in xs
  {
    if x in Dedup(xs) {
      var j :| 0 <= j < |Dedup(xs)| && Dedup(xs)[j] == x;
    }
    if x in xs {
      var j :| 0 <= j < |xs| && xs[j] == x;
    }
  }

  predicate Distinct<T(==)>(xs: seq<T>)
  {
    forall i, j :: 0 <= i < j < |xs| ==> xs[i] != xs[j]
  }

  /** The distinct elements of `xs` in the order of their first occurrence,
      as Guava's `ImmutableSet.copyOf` keeps them (`DedupOrder`). */
  function Dedup<T(==)>(xs: seq<T>): (r: seq<T>)
    ensures Distinct(r)
    ensures forall i :: 0 <= i < |r| ==> r[i] in xs
    ensures forall i :: 0 <= i < |xs| ==> xs[i] in r
  {
    if xs == [] then []
    else
      var r := Dedup(xs[..|xs| - 1]);
      if xs[|xs| - 1] in r then r else r + [xs[|xs| - 1]]
  }

  /** `Dedup` keeps first-occurrence order: for two kept elements, some
      occurrence of the earlier one precedes every occurrence of the later. */
  lemma {:induction false} DedupOrder<T>(xs: seq<T>, i: nat, j: nat)
    requires i < j < |Dedup(xs)|
    ensures exists a :: 0 <= a < |xs| && xs[a] == Dedup(xs)[i]
              && forall b :: 0 <= b < |xs| && xs[b] == Dedup(xs)[j] ==> a < b
  {
    var n := |xs|;
    var ys := xs[..n - 1];
    var d := Dedup(ys);
    if j < |d| {
      DedupOrder(ys, i, j);
      var a :| 0 <= a < |ys| && ys[a] == d[i]
                && forall b :: 0 <= b < |ys| && ys[b] == d[j] ==> a < b;
      assert xs[a] == Dedup(xs)[i];
      forall b | 0 <= b < n && xs[b] == Dedup(xs)[j]
        ensures a < b
      {
        if b < n - 1 {
          assert ys[b] == xs[b];
        }
      }
    } else {
      assert Dedup(xs)[j] == xs[n - 1];
      assert xs[n - 1] !in ys;
      var a :| 0 <= a < |ys| && ys[a] == d[i];
      assert xs[a] == Dedup(xs)[i];
      assert forall b :: 0 <= b < n - 1 ==> xs[b] == ys[b];
    }
  }
}
