/** Tables keyed by generated ids: scans in key order and first-match lookups. */
module Tables {
  import opened Wrappers

  /** The rows whose key is below `n`, in key order (`findAll()`). */
  function RowsBelow<V(!new)>(m: map<nat, V>, n: nat): (r: seq<V>)
    ensures forall v :: v in r <==> exists k :: k < n && k in m && m[k] == v
    ensures |r| <= n
  {
    if n == 0 then []
    else
      var prefix := RowsBelow(m, n - 1);
      if n - 1 in m then prefix + [m[n - 1]] else prefix
  }

  /** When every key is below `n`, the scan holds every row of the table and nothing else. */
  lemma RowsBelowAll<V(!new)>(m: map<nat, V>, n: nat)
    requires forall k :: k in m ==> k < n
    ensures forall v :: v in RowsBelow(m, n) <==> v in m.Values
  {
  }

  /** Every row of `r` occurs once in it, and no two of its rows share a key. */
  ghost predicate OncePerKey<V(!new)>(r: seq<V>, key: V -> nat) {
    && (forall x :: multiset(r)[x] <= 1)
    && (forall a, b :: a in r && b in r && key(a) == key(b) ==> a == b)
  }

  /** The positions of `r` hold rows with pairwise distinct keys. */
  ghost predicate DistinctKeys<V>(r: seq<V>, key: V -> nat) {
    forall i, j :: 0 <= i < j < |r| ==> key(r[i]) != key(r[j])
  }

  /** A scan of a table whose rows carry their own key lists each row once. */
  lemma {:induction false} RowsBelowOnce<V(!new)>(m: map<nat, V>, n: nat, key: V -> nat)
    requires forall k :: k in m ==> key(m[k]) == k
    ensures OncePerKey(RowsBelow(m, n), key)
    ensures forall v :: v in RowsBelow(m, n) ==> key(v) < n
  {
    if n > 0 {
      RowsBelowOnce(m, n - 1, key);
      var prefix := RowsBelow(m, n - 1);
      if n - 1 in m {
        var v := m[n - 1];
        assert v !in prefix;
        var r := prefix + [v];
        forall x ensures multiset(r)[x] <= 1 {
          assert multiset(r) == multiset(prefix) + multiset{v};
        }
      }
    }
  }

  /** Any selection of rows from a list that has each row once keeps that property. */
  lemma OncePerKeyOfSelection<V(!new)>(r: seq<V>, s: seq<V>, key: V -> nat)
    requires OncePerKey(s, key) && multiset(r) <= multiset(s)
    ensures OncePerKey(r, key)
  {
    forall x ensures multiset(r)[x] <= 1 {
      assert multiset(r)[x] <= multiset(s)[x];
    }
    forall a | a in r ensures a in s {
      assert multiset(r)[a] > 0;
    }
  }

  /** A list with each row once has rows with distinct keys at distinct positions. */
  lemma OncePerKeyDistinct<V(!new)>(r: seq<V>, key: V -> nat)
    requires OncePerKey(r, key)
    ensures DistinctKeys(r, key)
  {
    forall i, j | 0 <= i < j < |r| ensures key(r[i]) != key(r[j]) {
      RepeatCounted(r, i, j);
    }
  }

  /** A row at two positions of a list occurs at least twice in its multiset. */
  lemma RepeatCounted<V>(r: seq<V>, i: nat, j: nat)
    requires i < j < |r|
    ensures r[i] == r[j] ==> multiset(r)[r[j]] >= 2
  {
    assert r == r[..j] + r[j..];
    assert r[i] == r[..j][i];
    assert r[j] == r[j..][0];
  }

  /** The smallest key below `n` whose row satisfies `p`, or none. */
  function FindKey<V>(m: map<nat, V>, p: V -> bool, n: nat): (r: Option<nat>)
    ensures r.Some? ==> r.value < n && r.value in m && p(m[r.value])
    ensures r.Some? ==> forall k :: k < r.value && k in m ==> !p(m[k])
    ensures r.None? ==> forall k :: k < n && k in m ==> !p(m[k])
  {
    if n == 0 then None
    else match FindKey(m, p, n - 1)
      case Some(k) => Some(k)
      case None => if n - 1 in m && p(m[n - 1]) then Some(n - 1) else None
  }

  /** The row found under a key, or null (`findById(...).orElse(null)`). */
  function Lookup<V>(m: map<nat, V>, k: nat): (r: Option<V>)
    ensures r.Some? <==> k in m
    ensures k in m ==> r.value == m[k]
  {
    if k in m then Some(m[k]) else None
  }

  /** `Lookup` of a nullable key: null when the key is null. */
  function LookupOpt<V>(m: map<nat, V>, k: Option<nat>): (r: Option<V>)
    ensures r.Some? <==> k.Some? && k.value in m
    ensures r.Some? ==> r.value == m[k.value]
  {
    if k.Some? && k.value in m then Some(m[k.value]) else None
  }
}
