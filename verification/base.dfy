/** Vocabulary shared by every component of the node: bytes, machine widths, optional values. */
module Base {

  type Byte = x: int | 0 <= x < 256

  type Bytes = seq<Byte>

  const U32_LIMIT: int := 0x1_0000_0000
  const U64_LIMIT: int := 0x1_0000_0000_0000_0000

  type U64 = x: int | 0 <= x < 0x1_0000_0000_0000_0000

  datatype Option<+T> = None | Some(value: T)

  /** The digest of a block of bytes. SHA-256 itself stays abstract. */
  type Digest = Bytes -> Bytes

  const DIGEST_LENGTH: nat := 32

  ghost predicate HasDigestLength(sha: Digest) {
    forall data: Bytes :: |sha(data)| == DIGEST_LENGTH
  }

  /** No two different members of `data` have the same digest: all that is ever assumed of SHA-256. */
  ghost predicate CollisionFreeOn(sha: Digest, data: set<Bytes>) {
    forall x, y :: x in data && y in data && sha(x) == sha(y) ==> x == y
  }

  predicate NoDuplicates<T(==)>(s: seq<T>) {
    forall i, j :: 0 <= i < j < |s| ==> s[i] != s[j]
  }

  // ---------------------------------------------------------------- sums over maps

  ghost function SumBy<K(!new), V>(m: map<K, V>, weight: V -> nat): nat
    decreases |m|
  {
    if m == map[] then 0
    else
      var k :| k in m;
      RemovalShrinks(m, k);
      weight(m[k]) + SumBy(m - {k}, weight)
  }

  lemma RemovalShrinks<K, V>(m: map<K, V>, k: K)
    requires k in m
    ensures |m - {k}| < |m|
  {
    assert (m - {k}).Keys == m.Keys - {k};
  }

  /** The order in which a sum visits its keys does not matter. */
  lemma {:induction false} SumPick<K(!new), V>(m: map<K, V>, weight: V -> nat, k: K)
    requires k in m
    ensures SumBy(m, weight) == weight(m[k]) + SumBy(m - {k}, weight)
    decreases |m|
  {
    var first :| first in m && SumBy(m, weight) == weight(m[first]) + SumBy(m - {first}, weight);
    if first != k {
      RemovalShrinks(m, first);
      RemovalShrinks(m, k);
      SumPick(m - {first}, weight, k);
      SumPick(m - {k}, weight, first);
      assert m - {first} - {k} == m - {k} - {first};
    }
  }

  lemma SumUpdate<K(!new), V>(m: map<K, V>, weight: V -> nat, k: K, v: V)
    ensures SumBy(m[k := v], weight) + (if k in m then weight(m[k]) else 0) == SumBy(m, weight) + weight(v)
  {
    SumPick(m[k := v], weight, k);
    assert m[k := v] - {k} == m - {k};
    if k in m {
      SumPick(m, weight, k);
    } else {
      assert m - {k} == m;
    }
  }

  /** Two different keys never weigh more than the whole. */
  lemma SumOfTwo<K(!new), V>(m: map<K, V>, weight: V -> nat, j: K, k: K)
    requires j in m && k in m && j != k
    ensures weight(m[j]) + weight(m[k]) <= SumBy(m, weight)
  {
    SumPick(m, weight, j);
    SumPick(m - {j}, weight, k);
  }
}
