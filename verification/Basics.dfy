/** Small definitions shared by the models: options, unsigned widths and finite sums. */
module Basics {

  datatype Option<+T> = None | Some(value: T)

  /** Rust's `u64`. */
  type u64 = x: int | 0 <= x < 0x1_0000_0000_0000_0000

  /** Rust's `u8`. */
  type byte = x: int | 0 <= x < 0x100

  function Min(a: int, b: int): int { if a <= b then a else b }

  function Max(a: int, b: int): int { if a <= b then b else a }

  /** `usize::saturating_sub` and `u64::saturating_sub`. */
  function SatSub(a: nat, b: nat): nat { if b <= a then a - b else 0 }

  lemma TimesGrows(a: int, b: int, d: nat)
    requires a <= b
    ensures a * d <= b * d
  {
  }

  /** Euclidean division is determined by its equation. */
  lemma QuotientIs(v: int, d: nat, q: int, r: nat)
    requires v == q * d + r && r < d
    ensures v / d == q && v % d == r
  {
    var e := v / d - q;
    assert e * d == r - v % d;
    if 1 <= e {
      TimesGrows(1, e, d);
    } else if e <= -1 {
      TimesGrows(e, -1, d);
    }
  }

  /** For proofs: a non-empty set has an element. */
  lemma SomeElement<T>(s: set<T>) returns (x: T)
    requires s != {}
    ensures x in s
  {
    x :| x in s;
  }

  lemma CardUnion<T>(a: set<T>, b: set<T>)
    requires a !! b
    ensures |a + b| == |a| + |b|
  {
  }

  /** Takes some element of a set, as iterating over a hash table does. */
  method Pick<T(==)>(s: set<T>) returns (x: T)
    requires s != {}
    ensures x in s
  {
    x :| x in s;
  }

  /** Every non-empty finite set of integers has a least element. */
  lemma Least(s: set<int>) returns (k: int)
    requires s != {}
    ensures k in s && forall j :: j in s ==> k <= j
  {
    k := SomeElement(s);
    if s != {k} {
      var m := Least(s - {k});
      assert forall j :: j in s ==> j == k || j in s - {k};
      if m < k { k := m; }
    }
  }

  // ---- Sums over the values of a finite map ------------------------------------------------

  ghost function MapSum<K>(m: map<K, nat>): nat
    decreases |m|
  {
    if m == map[] then 0
    else
      var k :| k in m;
      m[k] + MapSum(m - {k})
  }

  /** The sum does not depend on the order in which the keys are taken. */
  lemma {:induction false} MapSumRemove<K>(m: map<K, nat>, k: K)
    requires k in m
    ensures MapSum(m) == m[k] + MapSum(m - {k})
    decreases |m|
  {
    var c :| c in m && MapSum(m) == m[c] + MapSum(m - {c});
    if c != k {
      MapSumRemove(m - {c}, k);
      MapSumRemove(m - {k}, c);
      assert m - {c} - {k} == m - {k} - {c};
    }
  }

  lemma MapSumUpdate<K>(m: map<K, nat>, k: K, v: nat)
    ensures MapSum(m[k := v]) == MapSum(m - {k}) + v
    ensures k !in m ==> MapSum(m[k := v]) == MapSum(m) + v
    ensures k in m ==> MapSum(m[k := v]) == MapSum(m) - m[k] + v
  {
    MapSumRemove(m[k := v], k);
    assert m[k := v] - {k} == m - {k};
    if k in m {
      MapSumRemove(m, k);
    } else {
      assert m - {k} == m;
    }
  }
}
