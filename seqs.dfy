/** Stream-style operations over lists: `filter`, `count` and `ORDER BY ... DESC`. */
module Seqs {

  /**
   * `stream().filter(p)`: the elements satisfying `p`, in their original order; the lemmas
   * `FilterKeepsOrder` and `FilterKeepsDistinct` state what that order preserves.
   */
  function Filter<T(!new)>(s: seq<T>, p: T -> bool): (r: seq<T>)
    ensures |r| <= |s|
    ensures forall x :: x in r <==> x in s && p(x)
    ensures multiset(r) <= multiset(s)
  {
    if s == [] then []
    else
      var rest := Filter(s[1..], p);
      assert s == [s[0]] + s[1..];
      if p(s[0]) then [s[0]] + rest else rest
  }

  /** `stream().filter(p).count()`, or a `COUNT(*) ... WHERE p` query. */
  function CountWhere<T(!new)>(s: seq<T>, p: T -> bool): nat {
    if s == [] then 0 else (if p(s[0]) then 1 else 0) + CountWhere(s[1..], p)
  }

  /** A count query returns the size of the matching find query. */
  lemma {:induction false} CountIsFilterSize<T(!new)>(s: seq<T>, p: T -> bool)
    ensures CountWhere(s, p) == |Filter(s, p)|
  {
    if s != [] {
      CountIsFilterSize(s[1..], p);
    }
  }

  /** Narrowing the condition can only lower the count. */
  lemma {:induction false} CountMonotone<T(!new)>(s: seq<T>, p: T -> bool, q: T -> bool)
    requires forall x :: p(x) ==> q(x)
    ensures CountWhere(s, p) <= CountWhere(s, q)
  {
    if s != [] {
      CountMonotone(s[1..], p, q);
    }
  }

  /** Counting `q` among the elements satisfying `p` is counting `p && q` among all. */
  lemma {:induction false} CountOfFilter<T(!new)>(s: seq<T>, p: T -> bool, q: T -> bool, pq: T -> bool)
    requires forall x :: pq(x) == (p(x) && q(x))
    ensures CountWhere(Filter(s, p), q) == CountWhere(s, pq)
  {
    if s != [] {
      CountOfFilter(s[1..], p, q, pq);
      if p(s[0]) {
        assert Filter(s, p) == [s[0]] + Filter(s[1..], p);
        assert ([s[0]] + Filter(s[1..], p))[1..] == Filter(s[1..], p);
      }
    }
  }

  /** `map(f)` over a list, keeping length and order. */
  function Map<T(!new), U>(s: seq<T>, f: T -> U): (r: seq<U>)
    ensures |r| == |s|
    ensures forall i :: 0 <= i < |s| ==> r[i] == f(s[i])
  {
    if s == [] then [] else [f(s[0])] + Map(s[1..], f)
  }

  /** The list is ordered by `key`, largest first (`ORDER BY key DESC`). */
  ghost predicate Descending<T(!new)>(s: seq<T>, key: T -> int) {
    forall i, j :: 0 <= i < j < |s| ==> key(s[i]) >= key(s[j])
  }

  /** Inserts `x` before the first element whose key is not larger than its own. */
  function Insert<T(!new)>(x: T, s: seq<T>, key: T -> int): (r: seq<T>)
    ensures multiset(r) == multiset(s) + multiset{x}
    ensures forall y :: y in r <==> y == x || y in s
  {
    if s == [] then [x]
    else if key(x) >= key(s[0]) then [x] + s
    else
      assert s == [s[0]] + s[1..];
      [s[0]] + Insert(x, s[1..], key)
  }

  /** An element no smaller than every element of an ordered list can go in front of it. */
  lemma ConsKeepsOrder<T(!new)>(h: T, rest: seq<T>, key: T -> int)
    requires Descending(rest, key)
    requires forall y :: y in rest ==> key(y) <= key(h)
    ensures Descending([h] + rest, key)
  {
    var r := [h] + rest;
    forall i, j | 0 <= i < j < |r| ensures key(r[i]) >= key(r[j]) {
      if i == 0 {
        assert r[j] == rest[j - 1];
      } else {
        assert r[i] == rest[i - 1] && r[j] == rest[j - 1];
      }
    }
  }

  /** Inserting into a list ordered largest-key-first keeps it ordered. */
  lemma {:induction false} InsertKeepsOrder<T(!new)>(x: T, s: seq<T>, key: T -> int)
    requires Descending(s, key)
    ensures Descending(Insert(x, s, key), key)
  {
    if s == [] {
    } else if key(x) >= key(s[0]) {
      ConsKeepsOrder(x, s, key);
    } else {
      var tail := s[1..];
      InsertKeepsOrder(x, tail, key);
      forall y | y in tail ensures key(y) <= key(s[0]) {
        var j :| 0 <= j < |tail| && tail[j] == y;
        assert s[j + 1] == y;
      }
      ConsKeepsOrder(s[0], Insert(x, tail, key), key);
    }
  }

  /** `ORDER BY key DESC`: the same elements, largest key first. */
  function SortDescending<T(!new)>(s: seq<T>, key: T -> int): (r: seq<T>)
    ensures multiset(r) == multiset(s)
    ensures |r| == |s|
    ensures Descending(r, key)
  {
    if s == [] then []
    else
      assert s == [s[0]] + s[1..];
      InsertKeepsOrder(s[0], SortDescending(s[1..], key), key);
      Insert(s[0], SortDescending(s[1..], key), key)
  }

  /** A sorted result holds exactly the elements of its input. */
  lemma SameElements<T(!new)>(r: seq<T>, s: seq<T>)
    requires multiset(r) == multiset(s)
    ensures forall x :: x in r <==> x in s
  {
    forall x ensures x in r <==> x in s {
      assert x in r <==> x in multiset(r);
      assert x in s <==> x in multiset(s);
    }
  }

  /** Filtering an ordered list keeps it ordered. */
  lemma {:induction false} FilterKeepsOrder<T(!new)>(s: seq<T>, p: T -> bool, key: T -> int)
    requires Descending(s, key)
    ensures Descending(Filter(s, p), key)
  {
    if s != [] {
      FilterKeepsOrder(s[1..], p, key);
      if p(s[0]) {
        var rest := Filter(s[1..], p);
        forall y | y in rest ensures key(s[0]) >= key(y) {
          var j :| 0 <= j < |s[1..]| && s[1..][j] == y;
          assert s[j + 1] == y;
        }
      }
    }
  }

  /** No two positions of `s` hold elements with the same key. */
  ghost predicate DistinctBy<T(!new)>(s: seq<T>, key: T -> int) {
    forall i, j :: 0 <= i < j < |s| ==> key(s[i]) != key(s[j])
  }

  /** An element whose key no element of a list shares can go in front of it. */
  lemma ConsKeepsDistinct<T(!new)>(h: T, rest: seq<T>, key: T -> int)
    requires DistinctBy(rest, key)
    requires forall y :: y in rest ==> key(y) != key(h)
    ensures DistinctBy([h] + rest, key)
  {
    var r := [h] + rest;
    forall i, j | 0 <= i < j < |r| ensures key(r[i]) != key(r[j]) {
      if i == 0 {
        assert r[j] == rest[j - 1];
      } else {
        assert r[i] == rest[i - 1] && r[j] == rest[j - 1];
      }
    }
  }

  /** Filtering a list whose elements have pairwise distinct keys keeps them distinct. */
  lemma {:induction false} FilterKeepsDistinct<T(!new)>(s: seq<T>, p: T -> bool, key: T -> int)
    requires DistinctBy(s, key)
    ensures DistinctBy(Filter(s, p), key)
  {
    if s != [] {
      assert DistinctBy(s[1..], key) by {
        forall i, j | 0 <= i < j < |s[1..]| ensures key(s[1..][i]) != key(s[1..][j]) {
          assert s[1..][i] == s[i + 1] && s[1..][j] == s[j + 1];
        }
      }
      FilterKeepsDistinct(s[1..], p, key);
      if p(s[0]) {
        var rest := Filter(s[1..], p);
        forall y | y in rest ensures key(y) != key(s[0]) {
          var j :| 0 <= j < |s[1..]| && s[1..][j] == y;
          assert s[j + 1] == y;
        }
        ConsKeepsDistinct(s[0], rest, key);
      }
    }
  }

  /** Reordering a list does not change how many of its elements satisfy a condition. */
  lemma {:induction false} CountPermutationInvariant<T(!new)>(s: seq<T>, r: seq<T>, p: T -> bool)
    requires multiset(r) == multiset(s)
    ensures CountWhere(r, p) == CountWhere(s, p)
    decreases |s|
  {
    if s != [] {
      var x := s[0];
      assert x in multiset(s);
      assert x in r;
      var i :| 0 <= i < |r| && r[i] == x;
      SameWithoutHead(s, r, i);
      CountPermutationInvariant(s[1..], r[..i] + r[i + 1..], p);
      CountWithout(r, i, p);
    }
  }

  /** Taking the head of `s` out of its permutation `r`, at `i`, leaves a permutation of the tail. */
  lemma SameWithoutHead<T>(s: seq<T>, r: seq<T>, i: nat)
    requires multiset(r) == multiset(s) && s != [] && i < |r| && r[i] == s[0]
    ensures multiset(r[..i] + r[i + 1..]) == multiset(s[1..])
  {
    var a, b := r[..i], r[i + 1..];
    assert r == a + ([r[i]] + b);
    assert s == [s[0]] + s[1..];
    assert multiset(r) == multiset(a) + (multiset{r[i]} + multiset(b));
    assert multiset(a + b) == multiset(a) + multiset(b);
    assert multiset(s) == multiset{s[0]} + multiset(s[1..]);
    assert multiset(a + b) + multiset{s[0]} == multiset(r);
    assert multiset(s[1..]) + multiset{s[0]} == multiset(s);
    forall y ensures multiset(a + b)[y] == multiset(s[1..])[y] {
      assert (multiset(a + b) + multiset{s[0]})[y] == (multiset(s[1..]) + multiset{s[0]})[y];
    }
  }

  /** Removing the element at `i` lowers the count by one exactly when it satisfies the condition. */
  lemma {:induction false} CountWithout<T(!new)>(r: seq<T>, i: nat, p: T -> bool)
    requires i < |r|
    ensures CountWhere(r, p) == CountWhere(r[..i] + r[i + 1..], p) + (if p(r[i]) then 1 else 0)
  {
    assert r == r[..i] + ([r[i]] + r[i + 1..]);
    CountSplit(r[..i], [r[i]] + r[i + 1..], p);
    CountSplit(r[..i], r[i + 1..], p);
    assert ([r[i]] + r[i + 1..])[1..] == r[i + 1..];
  }

  /** Counting distributes over concatenation. */
  lemma {:induction false} CountSplit<T(!new)>(a: seq<T>, b: seq<T>, p: T -> bool)
    ensures CountWhere(a + b, p) == CountWhere(a, p) + CountWhere(b, p)
  {
    if a != [] {
      CountSplit(a[1..], b, p);
      assert (a + b)[0] == a[0];
      assert (a + b)[1..] == a[1..] + b;
    } else {
      assert a + b == b;
    }
  }

  /** Every row either satisfies a condition or its negation. */
  lemma {:induction false} CountComplement<T(!new)>(s: seq<T>, p: T -> bool, q: T -> bool)
    requires forall x :: q(x) == !p(x)
    ensures CountWhere(s, p) + CountWhere(s, q) == |s|
  {
    if s != [] {
      CountComplement(s[1..], p, q);
    }
  }
}
