/** Small vocabulary shared by every component model. */
module Common {

  datatype Option<+T> = None | Some(value: T)

  /** A 256-bit content hash. The source keeps it as 64 lower-case hex digits, so
      comparing two of those strings is comparing the numbers they denote. */
  type Id = nat

  /** As many as 64 hexadecimal digits can tell apart. */
  const AddressLimit: nat := 0x1_0000000000000000_0000000000000000_0000000000000000_0000000000000000

  /** An address that is written down: the theorems about hashing leave the digest unbounded. */
  type Address = id: Id | id < AddressLimit

  type Byte = b: nat | b < 256

  function Min(a: int, b: int): int {
    if a <= b then a else b
  }

  /** The numbers below `n`. */
  function Below(n: nat): (s: set<nat>)
    ensures forall i :: i in s <==> 0 <= i < n
  {
    if n == 0 then {} else Below(n - 1) + {n - 1}
  }

  /** The sum of the values of a finite map, in whatever order it is walked. */
  ghost function Total<K>(m: map<K, nat>): nat {
    if m == map[] then 0 else
      var k :| k in m;
      m[k] + Total(m - {k})
  }

  lemma TotalEmpty<K>()
    ensures Total<K>(map[]) == 0
  {
  }

  lemma {:induction false} TotalRemove<K>(m: map<K, nat>, k: K)
    requires k in m
    ensures Total(m) == m[k] + Total(m - {k})
    decreases |m|
  {
    var j :| j in m && Total(m) == m[j] + Total(m - {j});
    if j != k {
      TotalRemove(m - {j}, k);
      TotalRemove(m - {k}, j);
      assert m - {j} - {k} == m - {k} - {j};
    }
  }

  lemma TotalInsert<K>(m: map<K, nat>, k: K, v: nat)
    requires k !in m
    ensures Total(m[k := v]) == Total(m) + v
  {
    TotalRemove(m[k := v], k);
    assert m[k := v] - {k} == m;
  }

  lemma {:induction false} TotalMonotone<K>(small: map<K, nat>, large: map<K, nat>)
    requires forall k :: k in small ==> k in large && small[k] == large[k]
    ensures Total(small) <= Total(large)
    decreases |large|
  {
    if large != small {
      var k :| k in large && k !in small;
      TotalRemove(large, k);
      TotalMonotone(small, large - {k});
    }
  }

  lemma {:induction false} TotalBounded<K>(small: map<K, nat>, large: map<K, nat>)
    requires forall k :: k in small ==> k in large && small[k] <= large[k]
    ensures Total(small) <= Total(large)
    decreases |small|
  {
    if small == map[] {
      TotalEmpty<K>();
    } else {
      var k :| k in small;
      TotalRemove(small, k);
      TotalRemove(large, k);
      TotalBounded(small - {k}, large - {k});
    }
  }

  lemma CardinalityInsert<T>(s: set<T>, x: T)
    requires x !in s
    ensures |s + {x}| == |s| + 1
  {
  }

  lemma {:induction false} CardinalitySubset<T>(a: set<T>, b: set<T>)
    requires a <= b
    ensures |a| <= |b|
  {
    assert b == a + (b - a);
  }
}
