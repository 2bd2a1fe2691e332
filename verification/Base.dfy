/** Small shared vocabulary: optional values and sums over finite maps. */
module Base {

  datatype Option<+T> = None | Some(value: T)

  datatype Result<+T, +E> = Ok(value: T) | Err(error: E)

  function Min(a: int, b: int): int { if a <= b then a else b }

  function Max(a: int, b: int): int { if a <= b then b else a }

  /** The sum of all values of a finite map, in any order. */
  ghost function Sum<K>(m: map<K, nat>): nat
    decreases m.Keys
  {
    if m.Keys == {} then 0
    else
      var k :| k in m.Keys;
      m[k] + Sum(m - {k})
  }

  lemma {:induction false} SumRemove<K>(m: map<K, nat>, k: K)
    requires k in m
    ensures Sum(m) == m[k] + Sum(m - {k})
    decreases m.Keys
  {
    var c :| c in m.Keys && Sum(m) == m[c] + Sum(m - {c});
    if c != k {
      SumRemove(m - {c}, k);
      SumRemove(m - {k}, c);
      assert m - {c} - {k} == m - {k} - {c};
    }
  }

  /** If no value grows, and those at the keys of `dropped` shrink, the sum shrinks by at least their number. */
  lemma {:induction false} SumDrops<K>(m: map<K, nat>, m': map<K, nat>, dropped: set<K>)
    requires m'.Keys == m.Keys && dropped <= m.Keys
    requires forall k | k in m :: m'[k] + (if k in dropped then 1 else 0) <= m[k]
    ensures Sum(m') + |dropped| <= Sum(m)
    decreases m.Keys
  {
    if m.Keys == {} {
      assert dropped == {};
    } else {
      var k :| k in m.Keys;
      SumRemove(m, k);
      SumRemove(m', k);
      SumDrops(m - {k}, m' - {k}, dropped - {k});
    }
  }

  /** If only the value at `k` may grow, and to at most `d`, the sum grows by at most `d`. */
  lemma SumGrowsAt<K>(m: map<K, nat>, m': map<K, nat>, k: K, d: nat)
    requires m'.Keys == m.Keys + {k}
    requires m'[k] <= d
    requires forall x | x in m && x != k :: m'[x] <= m[x]
    ensures Sum(m') <= Sum(m) + d
  {
    hide Sum;
    SumRemove(m', k);
    var rest, rest' := m - {k}, m' - {k};
    assert rest'.Keys == rest.Keys;
    SumDrops(rest, rest', {});
    if k in m {
      SumRemove(m, k);
    } else {
      assert rest == m;
    }
  }

  function ElementsOf<T>(s: seq<T>): set<T> { set x | x in s }

  lemma {:induction false} DistinctCount<T>(s: seq<T>)
    requires forall i, j | 0 <= i < j < |s| :: s[i] != s[j]
    ensures |ElementsOf(s)| == |s|
  {
    if s != [] {
      var front, last := s[..|s| - 1], s[|s| - 1];
      DistinctCount(front);
      assert ElementsOf(s) == ElementsOf(front) + {last};
      assert last !in front;
    }
  }
}
