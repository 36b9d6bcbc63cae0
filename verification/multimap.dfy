/**
 A one-key-to-many-values index over a sequence, as Guava's `Multimaps.index`
 builds it, plus the "not yet found" bookkeeping of a reconciliation pass: the
 index minus the keys consumed during the pass, and a sweep that emits the
 values still filed under the remaining keys.
 */
module Multimap {
  import opened Seqs

  /** The elements of `xs` whose key is (`inside`) or is not (`!inside`) in `ks`, in order. */
  function KeyFilter<T, K(==,!new)>(xs: seq<T>, key: T -> K, ks: set<K>, inside: bool): (r: seq<T>)
    ensures |r| <= |xs|
    ensures forall i :: 0 <= i < |r| ==> r[i] in xs && (key(r[i]) in ks) == inside
    ensures forall i :: 0 <= i < |xs| && (key(xs[i]) in ks) == inside ==> xs[i] in r
  {
    if xs == [] then []
    else (if (key(xs[0]) in ks) == inside then [xs[0]] else []) + KeyFilter(xs[1..], key, ks, inside)
  }

  lemma InKeyFilter<T, K(!new)>(xs: seq<T>, key: T -> K, ks: set<K>, inside: bool, x: T)
    ensures x in KeyFilter(xs, key, ks, inside) <==> x in xs && (key(x) in ks) == inside
  {
    if x in KeyFilter(xs, key, ks, inside) {
      var j :| 0 <= j < |KeyFilter(xs, key, ks, inside)| && KeyFilter(xs, key, ks, inside)[j] == x;
    }
    if x in xs {
      var j :| 0 <= j < |xs| && xs[j] == x;
    }
  }

  /** The elements of `xs` filed under key `k`, in order. */
  function Matching<T, K(==,!new)>(xs: seq<T>, key: T -> K, k: K): seq<T>
  {
    KeyFilter(xs, key, {k}, true)
  }

  function KeySet<T, K(==,!new)>(xs: seq<T>, key: T -> K): set<K>
  {
    set i | 0 <= i < |xs| :: key(xs[i])
  }

  /** The values filed under `k`, or none when `k` is absent (`ImmutableListMultimap.get`). */
  function Get<K(==,!new), V>(m: map<K, seq<V>>, k: K): seq<V>
  {
    if k in m then m[k] else []
  }

  /** Files the elements of `xs` one after the other into `acc`, appending each
      to the list of its key. */
  function IndexFrom<T, K(==,!new)>(xs: seq<T>, key: T -> K, acc: map<K, seq<T>>): (m: map<K, seq<T>>)
    ensures m.Keys == acc.Keys + KeySet(xs, key)
    ensures forall k :: Get(m, k) == Get(acc, k) + Matching(xs, key, k)
    decreases |xs|
  {
    if xs == [] then acc
    else
      var x := xs[0];
      var acc' := acc[key(x) := Get(acc, key(x)) + [x]];
      var m := IndexFrom(xs[1..], key, acc');
      KeySetCons(xs, key);
      IndexStep(xs, key, acc, m);
      m
  }

  lemma KeySetCons<T, K(!new)>(xs: seq<T>, key: T -> K)
    requires xs != []
    ensures KeySet(xs, key) == {key(xs[0])} + KeySet(xs[1..], key)
  {
    forall i | 0 <= i < |xs[1..]| ensures key(xs[1..][i]) in KeySet(xs, key) {
      assert xs[1..][i] == xs[i + 1];
    }
    forall k | k in KeySet(xs, key) ensures k in {key(xs[0])} + KeySet(xs[1..], key) {
      var i :| 0 <= i < |xs| && key(xs[i]) == k;
      if i > 0 {
        assert xs[i] == xs[1..][i - 1];
      }
    }
  }

  lemma IndexStep<T, K(!new)>(xs: seq<T>, key: T -> K, acc: map<K, seq<T>>, m: map<K, seq<T>>)
    requires xs != []
    requires forall k :: Get(m, k) == Get(acc[key(xs[0]) := Get(acc, key(xs[0])) + [xs[0]]], k) + Matching(xs[1..], key, k)
    ensures forall k :: Get(m, k) == Get(acc, k) + Matching(xs, key, k)
  {
    forall k ensures Get(m, k) == Get(acc, k) + Matching(xs, key, k) {
      IndexStepAt(xs, key, acc, k);
    }
  }

  /** Filing the head first and the tail after it files, under every key, what filing the whole list does. */
  lemma IndexStepAt<T, K(!new)>(xs: seq<T>, key: T -> K, acc: map<K, seq<T>>, k: K)
    requires xs != []
    ensures Get(acc[key(xs[0]) := Get(acc, key(xs[0])) + [xs[0]]], k) + Matching(xs[1..], key, k)
         == Get(acc, k) + Matching(xs, key, k)
  {
    var x := xs[0];
    assert Matching(xs, key, k) == (if key(x) == k then [x] else []) + Matching(xs[1..], key, k);
    if key(x) == k {
      assert Get(acc[key(x) := Get(acc, key(x)) + [x]], k) == Get(acc, k) + [x];
    }
  }

  /** `Multimaps.index`: every key of an element maps to the elements carrying
      it, in their original order; no other key is present. */
  function Index<T, K(==,!new)>(xs: seq<T>, key: T -> K): (m: map<K, seq<T>>)
    ensures m.Keys == KeySet(xs, key)
    ensures forall k :: Get(m, k) == Matching(xs, key, k)
  {
    IndexFrom(xs, key, map[])
  }

  lemma InIndex<T, K(!new)>(xs: seq<T>, key: T -> K, k: K, x: T)
    ensures x in Get(Index(xs, key), k) <==> x in xs && key(x) == k
  {
    InKeyFilter(xs, key, {k}, true, x);
  }

  lemma {:induction false} KeyFilterNone<T, K(!new)>(xs: seq<T>, key: T -> K, ks: set<K>)
    requires forall i :: 0 <= i < |xs| ==> key(xs[i]) !in ks
    ensures KeyFilter(xs, key, ks, true) == []
  {
    if xs != [] {
      KeyFilterNone(xs[1..], key, ks);
    }
  }

  /** Nothing is filed under a key no element carries. */
  lemma NothingFiled<T, K(!new)>(xs: seq<T>, key: T -> K, k: K)
    requires forall i :: 0 <= i < |xs| ==> key(xs[i]) != k
    ensures Get(Index(xs, key), k) == []
  {
    KeyFilterNone(xs, key, {k});
  }

  /** Removes the key of every element of `xs` from `m`, one after the other,
      as the reconciliation loop does with `HashMap.remove`. */
  function Consume<T, K(==,!new), V>(m: map<K, V>, xs: seq<T>, key: T -> K): (r: map<K, V>)
    ensures r == m - KeySet(xs, key)
    decreases |xs|
  {
    if xs == [] then m
    else
      KeySetCons(xs, key);
      assert m - KeySet(xs, key) == (m - {key(xs[0])}) - KeySet(xs[1..], key);
      Consume(m - {key(xs[0])}, xs[1..], key)
  }

  /** The values filed under the keys of `order` that are still present in `m`, key after key. */
  function Sweep<K(==,!new), V>(m: map<K, seq<V>>, order: seq<K>): seq<V>
  {
    if order == [] then [] else Get(m, order[0]) + Sweep(m, order[1..])
  }

  /** The keys of `xs` in the order in which they first occur. */
  function KeyOrder<T, K(==,!new)>(xs: seq<T>, key: T -> K): (r: seq<K>)
    ensures Distinct(r)
    ensures forall k :: k in r <==> k in KeySet(xs, key)
  {
    var r := Dedup(Map(key, xs));
    assert forall k :: k in r ==> k in KeySet(xs, key) by {
      forall k | k in r ensures k in KeySet(xs, key) {
        var i :| 0 <= i < |Map(key, xs)| && Map(key, xs)[i] == k;
      }
    }
    assert forall k :: k in KeySet(xs, key) ==> k in r by {
      forall k | k in KeySet(xs, key) ensures k in r {
        var i :| 0 <= i < |xs| && key(xs[i]) == k;
        assert Map(key, xs)[i] == k;
      }
    }
    r
  }

  /** Elements whose keys lie in two disjoint sets are those whose key lies in either. */
  lemma {:induction false} KeyFilterUnion<T, K(!new)>(xs: seq<T>, key: T -> K, a: set<K>, b: set<K>)
    requires a !! b
    ensures multiset(KeyFilter(xs, key, a + b, true))
         == multiset(KeyFilter(xs, key, a, true)) + multiset(KeyFilter(xs, key, b, true))
  {
    if xs != [] {
      KeyFilterUnion(xs[1..], key, a, b);
    }
  }

  /** Over elements whose keys all lie in `all`, "key in all minus c" and "key not in c" select alike. */
  lemma {:induction false} KeyFilterComplement<T, K(!new)>(xs: seq<T>, key: T -> K, all: set<K>, c: set<K>)
    requires forall i :: 0 <= i < |xs| ==> key(xs[i]) in all
    ensures KeyFilter(xs, key, all - c, true) == KeyFilter(xs, key, c, false)
  {
    if xs != [] {
      KeyFilterComplement(xs[1..], key, all, c);
    }
  }

  lemma {:induction false} SweepSelects<T, K(!new)>(xs: seq<T>, key: T -> K, c: set<K>, order: seq<K>)
    requires Distinct(order)
    ensures multiset(Sweep(Index(xs, key) - c, order))
         == multiset(KeyFilter(xs, key, (set k | k in order) - c, true))
  {
    if order == [] {
      assert (set k | k in order) - c == {};
      EmptyKeyFilter(xs, key);
    } else {
      var k := order[0];
      var rest := (set j | j in order[1..]) - c;
      SweepSelects(xs, key, c, order[1..]);
      SweepHead(xs, key, c, order);
      KeysAhead(order, c);
      if k !in c {
        KeyFilterUnion(xs, key, {k}, rest);
      }
    }
  }

  /** The first swept key contributes its own elements unless it was consumed. */
  lemma SweepHead<T, K(!new)>(xs: seq<T>, key: T -> K, c: set<K>, order: seq<K>)
    requires order != []
    ensures Sweep(Index(xs, key) - c, order)
         == (if order[0] in c then [] else Matching(xs, key, order[0])) + Sweep(Index(xs, key) - c, order[1..])
  {
    var m := Index(xs, key) - c;
    var k := order[0];
    assert Get(Index(xs, key), k) == Matching(xs, key, k);
    assert Get(m, k) == if k in c then [] else Matching(xs, key, k);
  }

  /** The keys still to sweep: the first one (unless consumed) and those after it. */
  lemma KeysAhead<K>(order: seq<K>, c: set<K>)
    requires order != [] && Distinct(order)
    ensures order[0] !in (set j | j in order[1..])
    ensures order[0] in c ==> (set j | j in order) - c == (set j | j in order[1..]) - c
    ensures order[0] !in c ==> (set j | j in order) - c == {order[0]} + ((set j | j in order[1..]) - c)
  {
    var tail := set j | j in order[1..];
    forall i | 0 <= i < |order[1..]| ensures order[1..][i] != order[0] {
      assert order[1..][i] == order[i + 1];
    }
    assert (set j | j in order) == {order[0]} + tail;
  }

  lemma {:induction false} EmptyKeyFilter<T, K(!new)>(xs: seq<T>, key: T -> K)
    ensures KeyFilter(xs, key, {}, true) == []
  {
    if xs != [] {
      EmptyKeyFilter(xs[1..], key);
    }
  }

  /** Sweeping what is left of an index once the keys in `c` have been consumed
      yields, up to order, exactly the elements whose key was never consumed. */
  lemma SweepRemaining<T, K(!new)>(xs: seq<T>, key: T -> K, c: set<K>)
    ensures multiset(Sweep(Index(xs, key) - c, KeyOrder(xs, key))) == multiset(KeyFilter(xs, key, c, false))
  {
    var order := KeyOrder(xs, key);
    SweepSelects(xs, key, c, order);
    assert (set k | k in order) == KeySet(xs, key) by {
      forall k ensures k in order <==> k in KeySet(xs, key) { }
    }
    KeyFilterComplement(xs, key, KeySet(xs, key), c);
  }

  /** The reconciliation tail: the index of `xs` is copied, the keys of `ys`
      are struck off the copy, and what is still filed under the remaining
      keys is swept out and mapped by `f`. Up to order, that is exactly the
      elements of `xs` whose key no element of `ys` carries. */
  function Leftovers<T, S, K(==,!new), U>(xs: seq<T>, key: T -> K, ys: seq<S>, ykey: S -> K, f: T -> U): (r: seq<U>)
    ensures |r| == |KeyFilter(xs, key, KeySet(ys, ykey), false)|
    ensures multiset(r) == multiset(Map(f, KeyFilter(xs, key, KeySet(ys, ykey), false)))
  {
    var rest := Sweep(Consume(Index(xs, key), ys, ykey), KeyOrder(xs, key));
    var orphans := KeyFilter(xs, key, KeySet(ys, ykey), false);
    SweepRemaining(xs, key, KeySet(ys, ykey));
    assert |rest| == |orphans| by {
      assert |multiset(rest)| == |rest| && |multiset(orphans)| == |orphans|;
    }
    MapPermutation(f, rest, orphans);
    Map(f, rest)
  }
}
