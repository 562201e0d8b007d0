// Sequence operations shared by several parts of the system: Python's
// stable `sort(key=..., reverse=True)`, order-preserving de-duplication and
// per-value occurrence counts.
module Collections {

  /** Highest key first. */
  predicate SortedDesc<T>(s: seq<T>, key: T -> real) {
    forall i, j :: 0 <= i < j < |s| ==> key(s[i]) >= key(s[j])
  }

  /** Inserts x after every element whose key is at least x's key. */
  function InsertDesc<T>(x: T, s: seq<T>, key: T -> real): (r: seq<T>)
    ensures |r| == |s| + 1
  {
    if s == [] then [x]
    else if key(s[0]) >= key(x) then [s[0]] + InsertDesc(x, s[1..], key)
    else [x] + s
  }

  /** Python's `sorted(s, key=key, reverse=True)`: a stable insertion sort
      that keeps equal-key elements in their input order. */
  function SortDesc<T>(s: seq<T>, key: T -> real): (r: seq<T>)
    ensures |r| == |s|
  {
    if s == [] then [] else InsertDesc(s[|s| - 1], SortDesc(s[..|s| - 1], key), key)
  }

  /** The elements of s whose key is v, in order. */
  function KeyClass<T>(s: seq<T>, key: T -> real, v: real): seq<T> {
    if s == [] then []
    else KeyClass(s[..|s| - 1], key, v) + (if key(s[|s| - 1]) == v then [s[|s| - 1]] else [])
  }

  lemma {:induction false} KeyClassAppend<T>(a: seq<T>, b: seq<T>, key: T -> real, v: real)
    ensures KeyClass(a + b, key, v) == KeyClass(a, key, v) + KeyClass(b, key, v)
    decreases |b|
  {
    if b == [] {
      assert a + b == a;
    } else {
      var b' := b[..|b| - 1];
      assert (a + b)[..|a + b| - 1] == a + b';
      KeyClassAppend(a, b', key, v);
    }
  }

  lemma {:induction false} KeyClassBelow<T>(s: seq<T>, key: T -> real, v: real)
    requires forall i :: 0 <= i < |s| ==> key(s[i]) < v
    ensures KeyClass(s, key, v) == []
    decreases |s|
  {
    if s != [] {
      KeyClassBelow(s[..|s| - 1], key, v);
    }
  }

  lemma {:induction false} InsertDescPerm<T>(x: T, s: seq<T>, key: T -> real)
    ensures multiset(InsertDesc(x, s, key)) == multiset(s) + multiset{x}
  {
    if s == [] {
    } else if key(s[0]) >= key(x) {
      var t := s[1..];
      InsertDescPerm(x, t, key);
      assert InsertDesc(x, s, key) == [s[0]] + InsertDesc(x, t, key);
      assert s == [s[0]] + t;
      assert multiset(s) == multiset{s[0]} + multiset(t);
    } else {
      assert InsertDesc(x, s, key) == [x] + s;
    }
  }

  lemma {:induction false} InsertDescSorted<T>(x: T, s: seq<T>, key: T -> real)
    requires SortedDesc(s, key)
    ensures SortedDesc(InsertDesc(x, s, key), key)
  {
    if s == [] {
    } else if key(s[0]) >= key(x) {
      var t := s[1..];
      InsertDescSorted(x, t, key);
      InsertDescBounded(x, t, key, key(s[0]));
      assert InsertDesc(x, s, key) == [s[0]] + InsertDesc(x, t, key);
      ConsSorted(s[0], InsertDesc(x, t, key), key);
    } else {
      assert InsertDesc(x, s, key) == [x] + s;
      ConsSorted(x, s, key);
    }
  }

  /** Inserting below a bound keeps every key below it. */
  lemma {:induction false} InsertDescBounded<T>(x: T, s: seq<T>, key: T -> real, b: real)
    requires key(x) <= b && forall i :: 0 <= i < |s| ==> key(s[i]) <= b
    ensures forall i :: 0 <= i < |InsertDesc(x, s, key)| ==> key(InsertDesc(x, s, key)[i]) <= b
    decreases |s|
  {
    if s != [] && key(s[0]) >= key(x) {
      InsertDescBounded(x, s[1..], key, b);
      var r := InsertDesc(x, s, key);
      assert r == [s[0]] + InsertDesc(x, s[1..], key);
      assert forall i :: 1 <= i < |r| ==> r[i] == InsertDesc(x, s[1..], key)[i - 1];
    }
  }

  /** A head no lower than every key of a sorted tail keeps it sorted. */
  lemma ConsSorted<T>(h: T, t: seq<T>, key: T -> real)
    requires SortedDesc(t, key) && forall i :: 0 <= i < |t| ==> key(t[i]) <= key(h)
    ensures SortedDesc([h] + t, key)
  {
    var r := [h] + t;
    forall i, j | 0 <= i < j < |r| ensures key(r[i]) >= key(r[j]) {
      assert r[j] == t[j - 1];
      if i > 0 {
        assert r[i] == t[i - 1];
      }
    }
  }

  lemma {:induction false} InsertDescKeyClass<T>(x: T, s: seq<T>, key: T -> real, v: real)
    requires SortedDesc(s, key)
    ensures KeyClass(InsertDesc(x, s, key), key, v)
         == KeyClass(s, key, v) + (if key(x) == v then [x] else [])
  {
    var cx := if key(x) == v then [x] else [];
    assert KeyClass([x], key, v) == cx;
    if s == [] {
    } else if key(s[0]) >= key(x) {
      var t := s[1..];
      assert InsertDesc(x, s, key) == [s[0]] + InsertDesc(x, t, key);
      InsertDescKeyClass(x, t, key, v);
      KeyClassAppend([s[0]], InsertDesc(x, t, key), key, v);
      KeyClassAppend([s[0]], t, key, v);
      assert s == [s[0]] + t;
    } else {
      assert InsertDesc(x, s, key) == [x] + s;
      KeyClassAppend([x], s, key, v);
      if key(x) == v {
        KeyClassBelow(s, key, v);
      }
    }
  }

  /** The sort puts the highest key first and keeps every element. */
  lemma {:induction false} SortDescCorrect<T>(s: seq<T>, key: T -> real)
    ensures SortedDesc(SortDesc(s, key), key)
    ensures multiset(SortDesc(s, key)) == multiset(s)
    decreases |s|
  {
    if s != [] {
      var p := s[..|s| - 1];
      SortDescCorrect(p, key);
      InsertDescSorted(s[|s| - 1], SortDesc(p, key), key);
      InsertDescPerm(s[|s| - 1], SortDesc(p, key), key);
      assert s == p + [s[|s| - 1]];
    }
  }

  /** Stability: among elements with equal keys the input order is kept. */
  lemma {:induction false} SortDescStable<T>(s: seq<T>, key: T -> real, v: real)
    ensures KeyClass(SortDesc(s, key), key, v) == KeyClass(s, key, v)
    decreases |s|
  {
    if s != [] {
      var p := s[..|s| - 1];
      var x := s[|s| - 1];
      SortDescCorrect(p, key);
      SortDescStable(p, key, v);
      InsertDescKeyClass(x, SortDesc(p, key), key, v);
    }
  }

  predicate NoDuplicates<T(==)>(s: seq<T>) {
    forall i, j :: 0 <= i < j < |s| ==> s[i] != s[j]
  }

  /** Index of the first occurrence of x in s. */
  function FirstIndex<T(==)>(s: seq<T>, x: T): (i: nat)
    requires x in s
    ensures i < |s| && s[i] == x
    ensures forall j :: 0 <= j < i ==> s[j] != x
  {
    if s[0] == x then 0 else 1 + FirstIndex(s[1..], x)
  }

  /** Order-preserving de-duplication: each element at its first
      occurrence. */
  function Distinct<T(==,!new)>(xs: seq<T>): (r: seq<T>)
    ensures forall x :: x in r <==> x in xs
  {
    if xs == [] then []
    else
      var p := Distinct(xs[..|xs| - 1]);
      var x := xs[|xs| - 1];
      assert xs == xs[..|xs| - 1] + [x];
      if x in p then p else p + [x]
  }

  lemma {:induction false} FirstIndexPrefix<T>(xs: seq<T>, x: T, n: nat)
    requires n <= |xs| && x in xs[..n]
    ensures FirstIndex(xs, x) == FirstIndex(xs[..n], x)
  {
    var i := FirstIndex(xs[..n], x);
    assert forall t :: 0 <= t < n ==> xs[..n][t] == xs[t];
  }

  /** The result has no duplicates and lists elements in the order of their
      first occurrence. */
  lemma {:induction false} DistinctOrder<T(!new)>(xs: seq<T>)
    ensures NoDuplicates(Distinct(xs))
    ensures forall i, j :: 0 <= i < j < |Distinct(xs)| ==>
      FirstIndex(xs, Distinct(xs)[i]) < FirstIndex(xs, Distinct(xs)[j])
    decreases |xs|
  {
    if xs != [] {
      var n := |xs| - 1;
      var pre := xs[..n];
      var p := Distinct(pre);
      var x := xs[n];
      DistinctOrder(pre);
      forall y | y in p ensures FirstIndex(xs, y) == FirstIndex(pre, y) {
        FirstIndexPrefix(xs, y, n);
      }
      if x !in p {
        assert x !in pre;
        assert FirstIndex(xs, x) == n;
        var r := p + [x];
        assert Distinct(xs) == r;
        forall i, j | 0 <= i < j < |r| ensures FirstIndex(xs, r[i]) < FirstIndex(xs, r[j]) {
          assert r[i] in p;
          if j < |p| {
            assert r[j] in p;
          }
        }
      }
    }
  }

  /** Number of elements of xs equal to x. */
  function Count<T(==)>(xs: seq<T>, x: T): nat {
    multiset(xs)[x]
  }

  /** The per-value counts of xs, as a Python dict built with
      `d[x] = d.get(x, 0) + 1`. */
  function Tally<T(==,!new)>(xs: seq<T>): (m: map<T, nat>)
    ensures forall x :: x in m <==> x in xs
  {
    map x | x in xs :: Count(xs, x)
  }

  /** Every element of a slice is an element of the sequence. */
  lemma SliceMembers<T>(s: seq<T>, a: int, b: int)
    requires 0 <= a <= b <= |s|
    ensures forall x :: x in s[a..b] ==> x in s
  {
    forall x | x in s[a..b]
      ensures x in s
    {
      var k :| 0 <= k < b - a && s[a..b][k] == x;
      assert s[a + k] == x;
    }
  }

  /** A prefix of a duplicate-free sequence is duplicate-free and holds
      only elements of the sequence. */
  lemma PrefixDistinct<T>(s: seq<T>, n: int)
    requires NoDuplicates(s) && 0 <= n <= |s|
    ensures NoDuplicates(s[..n])
    ensures forall x :: x in s[..n] ==> x in s
  {
    SliceMembers(s, 0, n);
  }

  /** A duplicate-free sequence holds each value at most once. */
  lemma {:induction false} NoDuplicatesCount<T>(s: seq<T>, x: T)
    requires NoDuplicates(s)
    ensures multiset(s)[x] <= 1
  {
    if s != [] {
      var p := s[..|s| - 1];
      assert s == p + [s[|s| - 1]];
      assert forall i :: 0 <= i < |p| ==> p[i] == s[i];
      NoDuplicatesCount(p, x);
      if x == s[|s| - 1] {
        assert x !in p;
      }
    }
  }

  /** Two equal entries make a value occur at least twice. */
  lemma RepeatCount<T>(s: seq<T>, i: int, j: int)
    requires 0 <= i < j < |s|
    ensures s[i] == s[j] ==> multiset(s)[s[i]] >= 2
  {
    assert s == s[..j] + [s[j]] + s[j + 1..];
    assert s[..j][i] == s[i];
  }

  /** A permutation of a duplicate-free sequence is duplicate-free. */
  lemma PermutationNoDuplicates<T>(a: seq<T>, b: seq<T>)
    requires multiset(a) == multiset(b) && NoDuplicates(a)
    ensures NoDuplicates(b)
  {
    forall i, j | 0 <= i < j < |b| ensures b[i] != b[j] {
      RepeatCount(b, i, j);
      NoDuplicatesCount(a, b[i]);
    }
  }

  /** A prefix one longer is the prefix with the next element appended. */
  lemma PrefixSnoc<T>(s: seq<T>, i: int)
    requires 0 <= i < |s|
    ensures s[..i + 1] == s[..i] + [s[i]]
    ensures s[i] in s
  {
  }

  /** One more element adds one to its own count and to nothing else. */
  lemma TallySnoc<T(!new)>(xs: seq<T>, x: T)
    ensures Tally(xs + [x]) == Tally(xs)[x := if x in Tally(xs) then Tally(xs)[x] + 1 else 1]
  {
    var l := Tally(xs + [x]);
    var r := Tally(xs)[x := if x in Tally(xs) then Tally(xs)[x] + 1 else 1];
    assert multiset(xs + [x]) == multiset(xs) + multiset{x};
    assert l.Keys == r.Keys;
  }

  /** The dict increment `d[x] = d.get(x, 0) + 1` keeps a tally. */
  method Bump<T(!new)>(d: map<T, nat>, ghost xs: seq<T>, x: T) returns (d': map<T, nat>)
    requires d == Tally(xs)
    ensures d' == Tally(xs + [x])
  {
    TallySnoc(xs, x);
    d' := d[x := (if x in d then d[x] else 0) + 1];
  }

  /** Sum of the counts of the given keys. */
  function SumCounts<T(==)>(keys: seq<T>, m: multiset<T>): nat {
    if keys == [] then 0 else SumCounts(keys[..|keys| - 1], m) + m[keys[|keys| - 1]]
  }

  lemma {:induction false} SumCountsAdd<T>(keys: seq<T>, m: multiset<T>, x: T)
    requires NoDuplicates(keys)
    ensures SumCounts(keys, m + multiset{x}) == SumCounts(keys, m) + (if x in keys then 1 else 0)
    decreases |keys|
  {
    if keys != [] {
      var pre := keys[..|keys| - 1];
      SumCountsAdd(pre, m, x);
      assert x in keys <==> x in pre || x == keys[|keys| - 1];
      if x == keys[|keys| - 1] {
        assert x !in pre;
      }
    }
  }

  lemma {:induction false} SumCountsAbsent<T>(keys: seq<T>, m: multiset<T>, x: T)
    requires m[x] == 0
    ensures SumCounts(keys + [x], m) == SumCounts(keys, m)
  {
    assert (keys + [x])[..|keys|] == keys;
  }

  /** The counts of the distinct values add up to the number of elements. */
  lemma {:induction false} TallyTotal<T(!new)>(xs: seq<T>)
    ensures SumCounts(Distinct(xs), multiset(xs)) == |xs|
    decreases |xs|
  {
    if xs != [] {
      var pre := xs[..|xs| - 1];
      var x := xs[|xs| - 1];
      var p := Distinct(pre);
      TallyTotal(pre);
      DistinctOrder(pre);
      assert xs == pre + [x];
      assert multiset(xs) == multiset(pre) + multiset{x};
      SumCountsAdd(p, multiset(pre), x);
      if x !in p {
        assert multiset(pre)[x] == 0;
        SumCountsAbsent(p, multiset(pre), x);
        SumCountsAdd(p + [x], multiset(pre), x);
        DistinctOrder(xs);
        assert (p + [x])[..|p|] == p;
      }
    }
  }

  /** Some element of a non-empty set. */
  lemma Pick<K>(s: set<K>) returns (x: K)
    requires s != {}
    ensures x in s
  {
    x :| x in s;
  }

  lemma {:induction false} MaxExists<K>(s: set<K>, score: K -> real) returns (m: K)
    requires s != {}
    ensures m in s && forall k :: k in s ==> score(k) <= score(m)
    decreases |s|
  {
    var x :| x in s;
    if s - {x} == {} {
      m := x;
      assert forall k :: k in s && k != x ==> k in s - {x};
    } else {
      var m' := MaxExists(s - {x}, score);
      m := if score(x) <= score(m') then m' else x;
      forall k | k in s ensures score(k) <= score(m) {
        if k != x {
          assert k in s - {x};
        }
      }
    }
  }

  /** `ORDER BY score DESC LIMIT limit` over a set of rows: the rows with
      the highest scores, highest first, where a negative limit means no
      limit; ties are broken arbitrarily, as SQL leaves them. */
  method SelectTop<K(==)>(keys: set<K>, score: K -> real, limit: int) returns (out: seq<K>)
    ensures NoDuplicates(out)
    ensures forall i :: 0 <= i < |out| ==> out[i] in keys
    ensures |out| == if 0 <= limit < |keys| then limit else |keys|
    ensures SortedDesc(out, score)
    ensures forall k, i :: k in keys && k !in out && 0 <= i < |out| ==> score(k) <= score(out[i])
  {
    var n := if 0 <= limit < |keys| then limit else |keys|;
    out := [];
    var rest := keys;
    while |out| < n
      invariant forall k :: k in keys <==> k in rest || k in out
      invariant forall k :: k in rest ==> k !in out
      invariant |rest| + |out| == |keys| && |out| <= n
      invariant NoDuplicates(out)
      invariant SortedDesc(out, score)
      invariant forall k, i :: k in rest && 0 <= i < |out| ==> score(k) <= score(out[i])
      decreases n - |out|
    {
      var m0 := MaxExists(rest, score);
      var m :| m in rest && forall k :: k in rest ==> score(k) <= score(m);
      rest := rest - {m};
      out := out + [m];
    }
  }

  /** A sequence has at least as many slots as it has distinct elements. */
  lemma {:induction false} ElementsCard<T>(xs: seq<T>)
    ensures |set x | x in xs| <= |xs|
    ensures NoDuplicates(xs) ==> |set x | x in xs| == |xs|
    decreases |xs|
  {
    if xs != [] {
      var pre := xs[..|xs| - 1];
      var x := xs[|xs| - 1];
      ElementsCard(pre);
      assert (set y | y in xs) == (set y | y in pre) + {x};
      if NoDuplicates(xs) {
        assert x !in pre;
      }
    }
  }

  lemma {:induction false} SubsetCardinality<T>(a: set<T>, b: set<T>)
    requires a <= b
    ensures |a| <= |b|
    ensures |a| == |b| ==> a == b
    decreases |b|
  {
    if b != {} {
      var x := Pick(b);
      SubsetCardinality(a - {x}, b - {x});
      if x in a {
        assert a == (a - {x}) + {x} && b == (b - {x}) + {x};
      } else {
        assert a - {x} == a;
      }
    }
  }

  /** A duplicate-free selection from a set that is as large as the set
      holds every element of it. */
  lemma SelectedAll<K>(out: seq<K>, keys: set<K>)
    requires NoDuplicates(out) && (forall x :: x in out ==> x in keys) && |out| == |keys|
    ensures forall k :: k in keys ==> k in out
  {
    ElementsCard(out);
    SubsetCardinality((set x | x in out), keys);
  }
}
