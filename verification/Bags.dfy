/** The values of a finite map as a multiset. */
module Bags {
  /** The values of a finite map, each as often as it occurs. */
  ghost function Bag<K, T>(m: map<K, T>): multiset<T>
    decreases |m|
  {
    if m == map[] then multiset{}
    else
      var s :| s in m;
      multiset{m[s]} + Bag(m - {s})
  }

  lemma RemoveBoth<K, T>(m: map<K, T>, a: K, b: K)
    ensures m - {a} - {b} == m - {b} - {a}
  {
  }

  lemma SwapFirst<T>(x: T, y: T, rest: multiset<T>)
    ensures multiset{x} + (multiset{y} + rest) == multiset{y} + (multiset{x} + rest)
  {
  }

  lemma BagTake<K, T>(m: map<K, T>) returns (c: K)
    requires m != map[]
    ensures c in m && Bag(m) == multiset{m[c]} + Bag(m - {c})
  {
    c :| c in m && Bag(m) == multiset{m[c]} + Bag(m - {c});
  }

  lemma {:induction false} BagRemove<K, T>(m: map<K, T>, s: K)
    requires s in m
    ensures Bag(m) == multiset{m[s]} + Bag(m - {s})
    decreases |m|
  {
    var c := BagTake(m);
    if c != s {
      BagRemove(m - {c}, s);
      BagRemove(m - {s}, c);
      RemoveBoth(m, c, s);
      SwapFirst(m[c], m[s], Bag(m - {c} - {s}));
    }
  }

  lemma ReplaceThenRemove<K, T>(m: map<K, T>, s: K, x: T)
    ensures m[s := x] - {s} == m - {s}
    ensures s !in m ==> m - {s} == m
  {
  }

  lemma BagInsert<K, T>(m: map<K, T>, s: K, x: T)
    ensures Bag(m[s := x]) == multiset{x} + Bag(m - {s})
  {
    ReplaceThenRemove(m, s, x);
    BagRemove(m[s := x], s);
  }

  lemma {:induction false} BagSize<K, T>(m: map<K, T>)
    ensures |Bag(m)| == |m|
    decreases |m|
  {
    if m != map[] {
      var s := BagTake(m);
      BagSize(m - {s});
      assert m.Keys == (m - {s}).Keys + {s};
    }
  }
}
