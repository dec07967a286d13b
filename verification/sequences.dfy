/** Generic sequence operations shared by the server and the client models:
    order-preserving filtering, counting, a stable sort by an integer key,
    first-match search and keyed upsert. */
module Sequences {

  import opened Common

  /** The elements of `s` that satisfy `p`, in their original order. */
  function Filter<T(!new)>(s: seq<T>, p: T -> bool): (r: seq<T>)
    ensures |r| <= |s|
    ensures forall i :: 0 <= i < |r| ==> p(r[i])
    ensures forall x :: multiset(r)[x] == if p(x) then multiset(s)[x] else 0
    ensures forall x :: x in r <==> x in s && p(x)
  {
    if |s| == 0 then []
    else if p(s[0]) then
      assert s == [s[0]] + s[1..];
      [s[0]] + Filter(s[1..], p)
    else
      assert s == [s[0]] + s[1..];
      Filter(s[1..], p)
  }

  /** Filtering distributes over concatenation, so the survivors keep their
      relative order. */
  lemma {:induction false} FilterConcat<T(!new)>(a: seq<T>, b: seq<T>, p: T -> bool)
    ensures Filter(a + b, p) == Filter(a, p) + Filter(b, p)
  {
    if |a| == 0 {
      assert a + b == b;
    } else {
      assert (a + b)[0] == a[0];
      assert (a + b)[1..] == a[1..] + b;
      FilterConcat(a[1..], b, p);
    }
  }

  /** Number of elements of `s` satisfying `p`. */
  function Count<T(!new)>(s: seq<T>, p: T -> bool): nat
  {
    |Filter(s, p)|
  }

  lemma CountConcat<T(!new)>(a: seq<T>, b: seq<T>, p: T -> bool)
    ensures Count(a + b, p) == Count(a, p) + Count(b, p)
  {
    FilterConcat(a, b, p);
  }

  /** A count is zero exactly when no element satisfies the predicate. */
  lemma CountZero<T(!new)>(s: seq<T>, p: T -> bool)
    ensures Count(s, p) == 0 <==> forall i :: 0 <= i < |s| ==> !p(s[i])
  {
    if Count(s, p) != 0 {
      var x := Filter(s, p)[0];
      assert x in Filter(s, p);
      var i :| 0 <= i < |s| && s[i] == x;
    }
  }

  /** Every element of `s` satisfies `p`, so all of them are counted. */
  lemma {:induction false} CountAll<T(!new)>(s: seq<T>, p: T -> bool)
    requires forall i :: 0 <= i < |s| ==> p(s[i])
    ensures Count(s, p) == |s|
  {
    if |s| > 0 {
      CountAll(s[1..], p);
    }
  }

  /** Counting does not depend on the order of the elements. */
  lemma {:induction false} CountPermutation<T(!new)>(a: seq<T>, b: seq<T>, p: T -> bool)
    requires multiset(a) == multiset(b)
    ensures Count(a, p) == Count(b, p)
    decreases |a|
  {
    if |a| > 0 {
      var x := a[0];
      assert x in multiset(b);
      var i :| 0 <= i < |b| && b[i] == x;
      var rest := b[..i] + b[i + 1..];
      assert b == b[..i] + [x] + b[i + 1..];
      assert a == [x] + a[1..];
      assert multiset(b) == multiset(b[..i]) + multiset{x} + multiset(b[i + 1..]);
      assert multiset(a) == multiset{x} + multiset(a[1..]);
      assert multiset(rest) == multiset(b[..i]) + multiset(b[i + 1..]);
      assert multiset(a[1..]) == multiset(a) - multiset{x};
      assert multiset(rest) == multiset(b) - multiset{x};
      CountPermutation(a[1..], rest, p);
      CountConcat(b[..i] + [x], b[i + 1..], p);
      CountConcat(b[..i], [x], p);
      CountConcat(b[..i], b[i + 1..], p);
      CountConcat([x], a[1..], p);
    }
  }

  /** `s` is in ascending order of `key`. */
  ghost predicate SortedBy<T>(s: seq<T>, key: T -> int)
  {
    forall i, j :: 0 <= i < j < |s| ==> key(s[i]) <= key(s[j])
  }

  /** Inserts `x` before the first element whose key is not smaller, so
      that equal keys keep their original relative order. */
  function Insert<T(!new)>(x: T, s: seq<T>, key: T -> int): (r: seq<T>)
    ensures multiset(r) == multiset(s) + multiset{x}
    ensures forall y :: y in r <==> y == x || y in s
    ensures |r| == |s| + 1
  {
    if |s| == 0 || key(x) <= key(s[0]) then [x] + s
    else
      assert s == [s[0]] + s[1..];
      [s[0]] + Insert(x, s[1..], key)
  }

  /** Inserting into a sorted sequence keeps it sorted. */
  lemma {:induction false} InsertSorted<T(!new)>(x: T, s: seq<T>, key: T -> int)
    requires SortedBy(s, key)
    ensures SortedBy(Insert(x, s, key), key)
  {
    if |s| == 0 || key(x) <= key(s[0]) {
      forall y | y in s ensures key(x) <= key(y) {
        var k :| 0 <= k < |s| && s[k] == y;
        assert key(s[0]) <= key(s[k]);
      }
      InsertFrontSorted(x, s, key);
    } else {
      var tail := Insert(x, s[1..], key);
      InsertSorted(x, s[1..], key);
      forall y | y in tail ensures key(s[0]) <= key(y) {
        if y != x {
          var k :| 0 <= k < |s[1..]| && s[1..][k] == y;
          assert s[k + 1] == y;
        }
      }
      InsertFrontSorted(s[0], tail, key);
    }
  }

  lemma InsertFrontSorted<T>(x: T, s: seq<T>, key: T -> int)
    requires SortedBy(s, key)
    requires forall y :: y in s ==> key(x) <= key(y)
    ensures SortedBy([x] + s, key)
  {
    var r := [x] + s;
    forall i, j | 0 <= i < j < |r| ensures key(r[i]) <= key(r[j]) {
      assert r[j] == s[j - 1];
      if i > 0 {
        assert r[i] == s[i - 1];
      }
    }
  }

  /** A stable insertion sort by `key`, the order Python's `sorted(…, key=…)`
      produces. */
  function SortBy<T(!new)>(s: seq<T>, key: T -> int): (r: seq<T>)
    ensures SortedBy(r, key)
    ensures multiset(r) == multiset(s)
    ensures |r| == |s|
  {
    if |s| == 0 then []
    else
      assert s == [s[0]] + s[1..];
      InsertSorted(s[0], SortBy(s[1..], key), key);
      Insert(s[0], SortBy(s[1..], key), key)
  }

  /** Index of the first element satisfying `p` (JavaScript's `findIndex`,
      SQL's `.first()` over table order), or None. */
  function FindFirst<T>(s: seq<T>, p: T -> bool): (r: Option<nat>)
    ensures r.Some? ==> r.value < |s| && p(s[r.value])
    ensures r.Some? ==> forall k :: 0 <= k < r.value ==> !p(s[k])
    ensures r.None? ==> forall k :: 0 <= k < |s| ==> !p(s[k])
  {
    if |s| == 0 then None
    else if p(s[0]) then Some(0)
    else match FindFirst(s[1..], p)
      case None => None
      case Some(k) => Some(k + 1)
  }

  /** A prefix holds no element more often than the whole sequence. */
  lemma PrefixSubMultiset<T>(s: seq<T>, n: nat)
    requires n <= |s|
    ensures multiset(s[..n]) <= multiset(s)
  {
    assert s == s[..n] + s[n..];
  }

  /** The first element of `a` occurs in any permutation `b` of it; removing
      it from both leaves permutations of each other. */
  lemma PermutationSplit<T>(a: seq<T>, b: seq<T>) returns (k: nat)
    requires |a| > 0 && multiset(a) == multiset(b)
    ensures k < |b| && b[k] == a[0]
    ensures b == b[..k] + [a[0]] + b[k + 1..]
    ensures multiset(a[1..]) == multiset(b[..k] + b[k + 1..])
  {
    assert a[0] in multiset(b);
    k :| 0 <= k < |b| && b[k] == a[0];
    var rest := b[..k] + b[k + 1..];
    assert b == b[..k] + [a[0]] + b[k + 1..];
    assert a == [a[0]] + a[1..];
    assert multiset(b) == multiset(b[..k]) + multiset{a[0]} + multiset(b[k + 1..]);
    assert multiset(a) == multiset{a[0]} + multiset(a[1..]);
    assert multiset(rest) == multiset(b[..k]) + multiset(b[k + 1..]);
    assert multiset(a[1..]) == multiset(a) - multiset{a[0]};
    assert multiset(rest) == multiset(b) - multiset{a[0]};
  }

  /** The smallest key in a non-empty sequence. */
  function MinBy<T>(s: seq<T>, key: T -> int): (m: int)
    requires |s| > 0
    ensures exists i :: 0 <= i < |s| && key(s[i]) == m
    ensures forall i :: 0 <= i < |s| ==> m <= key(s[i])
  {
    if |s| == 1 then key(s[0])
    else
      var rest := MinBy(s[1..], key);
      assert forall i :: 1 <= i < |s| ==> s[i] == s[1..][i - 1];
      if key(s[0]) <= rest then key(s[0]) else rest
  }

  /** The largest key in a non-empty sequence. */
  function MaxBy<T>(s: seq<T>, key: T -> int): (m: int)
    requires |s| > 0
    ensures exists i :: 0 <= i < |s| && key(s[i]) == m
    ensures forall i :: 0 <= i < |s| ==> key(s[i]) <= m
  {
    if |s| == 1 then key(s[0])
    else
      var rest := MaxBy(s[1..], key);
      assert forall i :: 1 <= i < |s| ==> s[i] == s[1..][i - 1];
      if rest <= key(s[0]) then key(s[0]) else rest
  }

  /** No two elements share a key. */
  ghost predicate UniqueKeys<T, K>(s: seq<T>, key: T -> K)
  {
    forall i, j :: 0 <= i < j < |s| ==> key(s[i]) != key(s[j])
  }

  /** Replaces the first element whose key equals `key(x)` by `x`, or appends
      `x` when there is none. */
  function Upsert<T, K(==)>(s: seq<T>, x: T, key: T -> K): (r: seq<T>)
    ensures |r| == |s| || |r| == |s| + 1
    ensures |r| == |s| <==> exists i :: 0 <= i < |s| && key(s[i]) == key(x)
    ensures |r| == |s| + 1 ==> r == s + [x]
    ensures x in r
    ensures forall i :: 0 <= i < |s| && key(s[i]) != key(x) ==> r[i] == s[i]
    ensures forall i, j :: 0 <= i < j < |s| && key(s[i]) == key(x) && key(s[j]) == key(x) ==> r[j] == s[j]
    ensures forall i :: 0 <= i < |r| && key(r[i]) == key(x) && r[i] != x ==> i < |s| && r[i] == s[i]
    ensures forall i :: 0 <= i < |r| && key(r[i]) == key(x) && r[i] != x ==> exists j :: 0 <= j < i && r[j] == x
    ensures forall k :: 0 <= k < |s| && key(s[k]) == key(x) && (forall i :: 0 <= i < k ==> key(s[i]) != key(x)) ==> r[k] == x
  {
    match FindFirst(s, y => key(y) == key(x))
    case Some(k) =>
      assert s[k := x][k] == x;
      s[k := x]
    case None => s + [x]
  }

  /** Upsert keeps keys unique, and afterwards the only element carrying
      `key(x)` is `x` itself. */
  lemma UpsertKeepsKeysUnique<T, K>(s: seq<T>, x: T, key: T -> K)
    requires UniqueKeys(s, key)
    ensures UniqueKeys(Upsert(s, x, key), key)
    ensures forall i :: 0 <= i < |Upsert(s, x, key)| && key(Upsert(s, x, key)[i]) == key(x) ==> Upsert(s, x, key)[i] == x
  {
    var r := Upsert(s, x, key);
    if |r| == |s| {
      var k :| 0 <= k < |s| && key(s[k]) == key(x);
      assert r[k] == x;
    }
  }

  /** Upserting the same element a second time changes nothing. */
  lemma UpsertIdempotent<T, K>(s: seq<T>, x: T, key: T -> K)
    ensures Upsert(Upsert(s, x, key), x, key) == Upsert(s, x, key)
  {
    var r := Upsert(s, x, key);
    var r2 := Upsert(r, x, key);
    var m :| 0 <= m < |r| && r[m] == x;
    assert |r2| == |r|;
    forall i | 0 <= i < |r| ensures r2[i] == r[i] {
      if key(r[i]) == key(x) && r[i] != x {
        var j :| 0 <= j < i && r[j] == x;
        assert key(r[j]) == key(x);
      }
    }
  }
}
