/** Sums over per-symbol tables of money amounts. */
module TableSums {
  type Table = map<string, real>

  /** The entry for `k`, zero when there is none (`dict.get(k, 0.0)`). */
  function Get(m: Table, k: string): real {
    if k in m then m[k] else 0.0
  }

  function Added(m: Table, k: string, x: real): Table {
    m[k := Get(m, k) + x]
  }

  lemma AddedTwice(m: Table, k: string, x: real, y: real)
    ensures Get(Added(m, k, x), k) == Get(m, k) + x
    ensures Added(Added(m, k, x), k, y) == Added(m, k, x + y)
  {}

  ghost function Pick(m: Table): (k: string)
    requires m != map[]
    ensures k in m
  {
    var k :| k in m;
    k
  }

  ghost function Total(m: Table): real {
    if m == map[] then 0.0 else var k := Pick(m); m[k] + Total(m - {k})
  }

  /** The sum does not depend on which key is taken out first. */
  lemma {:induction false} TotalSplit(m: Table, k: string)
    requires k in m
    ensures Total(m) == m[k] + Total(m - {k})
    decreases |m|
  {
    var p := Pick(m);
    if p != k {
      TotalSplit(m - {p}, k);
      TotalSplit(m - {k}, p);
      assert m - {p} - {k} == m - {k} - {p};
    }
  }

  lemma TotalDrop(m: Table, k: string)
    ensures Total(m - {k}) == Total(m) - Get(m, k)
  {
    if k in m {
      TotalSplit(m, k);
    } else {
      assert m - {k} == m;
    }
  }

  lemma TotalPut(m: Table, k: string, v: real)
    ensures Total(m[k := v]) == Total(m) - Get(m, k) + v
  {
    TotalSplit(m[k := v], k);
    assert m[k := v] - {k} == m - {k};
    TotalDrop(m, k);
  }

  lemma TotalAdded(m: Table, k: string, x: real)
    ensures Total(Added(m, k, x)) == Total(m) + x
  {
    TotalPut(m, k, Get(m, k) + x);
  }

  /** A table that is the pointwise sum of two others has the sum of their totals. */
  lemma {:induction false} TotalAdd(a: Table, b: Table, c: Table)
    requires a.Keys == b.Keys == c.Keys
    requires forall k :: k in c ==> c[k] == a[k] + b[k]
    ensures Total(c) == Total(a) + Total(b)
    decreases |c|
  {
    if c == map[] {
      assert a == map[] && b == map[];
    } else {
      var k := Pick(c);
      TotalSplit(a, k);
      TotalSplit(b, k);
      TotalAdd(a - {k}, b - {k}, c - {k});
    }
  }
}
