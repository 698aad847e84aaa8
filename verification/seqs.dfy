/** List operations the backend performs through Python built-ins: slicing `s[:n]`, keeping the
    first item per key (the `seen`-set loops), and `sorted(..., key=..., reverse=True)`, which is
    a stable sort in descending order of the key. */
module Seqs {

  // ---------------------------------------------------------------------------------------------
  // Slicing

  /** Python's `s[:n]`, including its meaning for a negative `n` (all but the last `-n` items). */
  function SliceTo<T>(s: seq<T>, n: int): (r: seq<T>)
    ensures |r| <= |s| && r == s[..|r|]
    ensures n >= 0 ==> |r| == (if n <= |s| then n else |s|)
    ensures n < 0 ==> |r| == (if |s| + n >= 0 then |s| + n else 0)
  {
    if n >= 0 then (if n <= |s| then s[..n] else s)
    else if |s| + n >= 0 then s[..|s| + n] else []
  }

  /** Cutting a list at `n` and gluing the halves back gives the list. */
  lemma TakeDrop<T>(s: seq<T>, n: nat)
    requires n <= |s|
    ensures s[..n] + s[n..] == s
  {
  }

  // ---------------------------------------------------------------------------------------------
  // Subsequences

  /** `a` is obtained from `b` by deleting items (order kept). */
  predicate IsSubseq<T(==)>(a: seq<T>, b: seq<T>)
    decreases |b|
  {
    if a == [] then true
    else if b == [] then false
    else if a[|a| - 1] == b[|b| - 1] then IsSubseq(a[..|a| - 1], b[..|b| - 1])
    else IsSubseq(a, b[..|b| - 1])
  }

  lemma {:induction false} SubseqDropLast<T>(a: seq<T>, b: seq<T>)
    requires a != [] && IsSubseq(a, b)
    ensures IsSubseq(a[..|a| - 1], b)
    decreases |b|, 0
  {
    var a' := a[..|a| - 1];
    if a' != [] && b != [] {
      if a[|a| - 1] == b[|b| - 1] {
        SubseqExtend(a', b[..|b| - 1], b[|b| - 1]);
        assert b[..|b| - 1] + [b[|b| - 1]] == b;
      } else {
        SubseqDropLast(a, b[..|b| - 1]);
        SubseqExtend(a', b[..|b| - 1], b[|b| - 1]);
        assert b[..|b| - 1] + [b[|b| - 1]] == b;
      }
    }
  }

  /** A subsequence of `b` is a subsequence of any extension of `b`. */
  lemma {:induction false} SubseqExtend<T>(a: seq<T>, b: seq<T>, x: T)
    requires IsSubseq(a, b)
    ensures IsSubseq(a, b + [x])
    decreases |b|, 1
  {
    var b' := b + [x];
    assert b'[..|b'| - 1] == b;
    if a != [] && a[|a| - 1] == x {
      SubseqDropLast(a, b);
    }
  }

  lemma {:induction false} SubseqSelf<T>(a: seq<T>)
    ensures IsSubseq(a, a)
  {
    if a != [] {
      SubseqSelf(a[..|a| - 1]);
    }
  }

  lemma {:induction false} PrefixSubseq<T>(s: seq<T>, n: nat)
    requires n <= |s|
    ensures IsSubseq(s[..n], s)
    decreases |s|
  {
    if n == |s| {
      assert s[..n] == s;
      SubseqSelf(s);
    } else {
      var s' := s[..|s| - 1];
      assert s'[..n] == s[..n];
      PrefixSubseq(s', n);
      SubseqExtend(s[..n], s', s[|s| - 1]);
      assert s' + [s[|s| - 1]] == s;
    }
  }

  lemma {:induction false} SubseqTrans<T>(a: seq<T>, b: seq<T>, c: seq<T>)
    requires IsSubseq(a, b) && IsSubseq(b, c)
    ensures IsSubseq(a, c)
    decreases |c|
  {
    if a != [] {
      var b', c' := b[..|b| - 1], c[..|c| - 1];
      assert c' + [c[|c| - 1]] == c;
      if b[|b| - 1] == c[|c| - 1] {
        if a[|a| - 1] == b[|b| - 1] {
          SubseqTrans(a[..|a| - 1], b', c');
        } else {
          SubseqTrans(a, b', c');
          SubseqExtend(a, c', c[|c| - 1]);
        }
      } else {
        SubseqTrans(a, b, c');
        SubseqExtend(a, c', c[|c| - 1]);
      }
    }
  }

  /** A subsequence has no more items than the sequence and only items of it. */
  lemma {:induction false} SubseqBounds<T>(a: seq<T>, b: seq<T>)
    requires IsSubseq(a, b)
    ensures |a| <= |b|
    ensures forall x :: x in a ==> x in b
    decreases |b|
  {
    if a != [] {
      var b' := b[..|b| - 1];
      if a[|a| - 1] == b[|b| - 1] {
        SubseqBounds(a[..|a| - 1], b');
        assert a == a[..|a| - 1] + [b[|b| - 1]];
      } else {
        SubseqBounds(a, b');
      }
      assert b == b' + [b[|b| - 1]];
    }
  }

  /** `a` is an initial part of `b`. */
  predicate IsPrefix<T(==)>(a: seq<T>, b: seq<T>) {
    |a| <= |b| && a == b[..|a|]
  }

  /** An item at two positions occurs at least twice. */
  lemma CountTwo<T>(a: seq<T>, i: int, j: int)
    requires 0 <= i < j < |a| && a[i] == a[j]
    ensures multiset(a)[a[i]] >= 2
  {
    assert a == a[..j] + [a[j]] + a[j + 1..];
    assert a[..j][i] == a[i];
    assert multiset(a[..j])[a[i]] >= 1;
  }

  /** An item that occurs at least twice sits at two different positions. */
  lemma TwoPositions<T>(b: seq<T>, x: T)
    requires multiset(b)[x] >= 2
    ensures exists k1, k2 :: 0 <= k1 < k2 < |b| && b[k1] == x && b[k2] == x
  {
    var k :| 0 <= k < |b| && b[k] == x;
    var rest := b[..k] + b[k + 1..];
    assert b == b[..k] + [b[k]] + b[k + 1..];
    assert multiset(rest)[x] >= 1;
    var m :| 0 <= m < |rest| && rest[m] == x;
    if m < k {
      assert b[m] == x;
    } else {
      assert b[m + 1] == x;
    }
  }

  /** Items drawn from a list whose keys are pairwise distinct have pairwise distinct keys. */
  lemma DistinctKeysSub<T, K>(a: seq<T>, b: seq<T>, key: T -> K)
    requires multiset(a) <= multiset(b)
    requires forall i, j :: 0 <= i < j < |b| ==> key(b[i]) != key(b[j])
    ensures forall i, j :: 0 <= i < j < |a| ==> key(a[i]) != key(a[j])
  {
    forall i, j | 0 <= i < j < |a| ensures key(a[i]) != key(a[j]) {
      if a[i] == a[j] {
        CountTwo(a, i, j);
        TwoPositions(b, a[i]);
      } else {
        assert a[i] in multiset(a) && a[j] in multiset(a);
        var k1 :| 0 <= k1 < |b| && b[k1] == a[i];
        var k2 :| 0 <= k2 < |b| && b[k2] == a[j];
        assert k1 != k2;
      }
    }
  }

  // ---------------------------------------------------------------------------------------------
  // Keeping the first item per key

  /** The keys of the items of `s`. */
  function Id<T>(x: T): T { x }

  /** `[f(x) for x in s]`. */
  function Map<A, B>(s: seq<A>, f: A -> B): (r: seq<B>)
    ensures |r| == |s|
    ensures forall i :: 0 <= i < |s| ==> r[i] == f(s[i])
  {
    seq(|s|, i requires 0 <= i < |s| => f(s[i]))
  }

  /** Mapping one more item appends its image. */
  lemma MapStep<A, B>(s: seq<A>, i: nat, f: A -> B)
    requires i < |s|
    ensures Map(s[..i + 1], f) == Map(s[..i], f) + [f(s[i])]
  {
    var a, b := Map(s[..i + 1], f), Map(s[..i], f) + [f(s[i])];
    forall k | 0 <= k < |a| ensures a[k] == b[k] {
      assert s[..i + 1][k] == s[k];
      if k < i { assert s[..i][k] == s[k]; }
    }
  }

  function KeySet<T(==), K>(s: seq<T>, key: T -> K): set<K> {
    set x | x in s :: key(x)
  }

  /** `s[i]` is the first item of `s` with its key. */
  predicate IsFirstOfKey<T, K(==)>(s: seq<T>, key: T -> K, i: int) {
    0 <= i < |s| && forall m :: 0 <= m < i ==> key(s[m]) != key(s[i])
  }

  /** The loop `for x in s: if key(x) in seen: continue; seen.add(key(x)); result.append(x)`,
      written as a function of the input. */
  function DedupeBy<T(==), K(==)>(s: seq<T>, key: T -> K): seq<T>
    decreases |s|
  {
    if s == [] then []
    else
      var d := DedupeBy(s[..|s| - 1], key);
      var x := s[|s| - 1];
      if key(x) in KeySet(d, key) then d else d + [x]
  }

  /** One step of the loop: the next item is kept exactly when its key is new. */
  lemma DedupeStep<T, K>(s: seq<T>, x: T, key: T -> K)
    ensures DedupeBy(s + [x], key) ==
      if key(x) in KeySet(DedupeBy(s, key), key) then DedupeBy(s, key) else DedupeBy(s, key) + [x]
  {
    assert (s + [x])[..|s + [x]| - 1] == s;
  }

  lemma KeySetAppend<T, K>(s: seq<T>, x: T, key: T -> K)
    ensures KeySet(s + [x], key) == KeySet(s, key) + {key(x)}
  {
    var l, r := KeySet(s + [x], key), KeySet(s, key) + {key(x)};
    forall k | k in r ensures k in l {
      if k != key(x) {
        var y :| y in s && key(y) == k;
        assert y in s + [x];
      }
    }
  }

  /** The result keeps only items of the input, in input order. */
  lemma {:induction false} DedupeSubseq<T, K>(s: seq<T>, key: T -> K)
    ensures IsSubseq(DedupeBy(s, key), s)
    ensures |DedupeBy(s, key)| <= |s|
    decreases |s|
  {
    var r := DedupeBy(s, key);
    if s == [] {
    } else {
      var s' := s[..|s| - 1];
      var x := s[|s| - 1];
      var d := DedupeBy(s', key);
      DedupeSubseq(s', key);
      assert s == s' + [x];
      if key(x) in KeySet(d, key) {
        SubseqExtend(d, s', x);
      } else {
        assert (d + [x])[..|d|] == d;
      }
    }
    SubseqBounds(r, s);
  }

  /** No two items of the result share a key. */
  lemma {:induction false} DedupeUniqueKeys<T, K>(s: seq<T>, key: T -> K)
    ensures forall i, j :: 0 <= i < j < |DedupeBy(s, key)| ==> key(DedupeBy(s, key)[i]) != key(DedupeBy(s, key)[j])
    decreases |s|
  {
    if s != [] {
      var s' := s[..|s| - 1];
      var x := s[|s| - 1];
      var d := DedupeBy(s', key);
      DedupeUniqueKeys(s', key);
      if key(x) !in KeySet(d, key) {
        var r := d + [x];
        forall i | 0 <= i < |d| ensures key(r[i]) != key(x) {
          assert r[i] in d;
        }
      }
    }
  }

  /** The result has exactly the keys of the input. */
  lemma {:induction false} DedupeKeySet<T, K>(s: seq<T>, key: T -> K)
    ensures KeySet(DedupeBy(s, key), key) == KeySet(s, key)
    decreases |s|
  {
    if s != [] {
      var s' := s[..|s| - 1];
      var x := s[|s| - 1];
      var d := DedupeBy(s', key);
      DedupeKeySet(s', key);
      assert s == s' + [x];
      KeySetAppend(s', x, key);
      KeySetAppend(d, x, key);
    }
  }

  lemma NotFirstKeyAbsent<T, K>(s: seq<T>, key: T -> K)
    requires s != [] && IsFirstOfKey(s, key, |s| - 1)
    ensures key(s[|s| - 1]) !in KeySet(s[..|s| - 1], key)
  {
    var s' := s[..|s| - 1];
    forall y | y in s' ensures key(y) != key(s[|s| - 1]) {
      var m :| 0 <= m < |s'| && s'[m] == y;
    }
  }

  /** Every item that is the first of its key is kept. */
  lemma {:induction false} DedupeKeepsFirst<T, K>(s: seq<T>, key: T -> K)
    ensures forall i :: IsFirstOfKey(s, key, i) ==> s[i] in DedupeBy(s, key)
    decreases |s|
  {
    if s != [] {
      var s' := s[..|s| - 1];
      var x := s[|s| - 1];
      var d := DedupeBy(s', key);
      var r := DedupeBy(s, key);
      assert r == d || r == d + [x];
      assert forall z :: z in d ==> z in r;
      DedupeKeepsFirst(s', key);
      forall i | IsFirstOfKey(s, key, i) ensures s[i] in r {
        if i < |s'| {
          assert IsFirstOfKey(s', key, i);
          assert s[i] == s'[i];
        } else {
          NotFirstKeyAbsent(s, key);
          DedupeKeySet(s', key);
          assert r == d + [x];
        }
      }
    }
  }

  /** Every kept item is the first of its key. */
  lemma {:induction false} DedupeOnlyFirst<T, K>(s: seq<T>, key: T -> K)
    ensures forall y :: y in DedupeBy(s, key) ==> exists i :: IsFirstOfKey(s, key, i) && s[i] == y
    decreases |s|
  {
    if s != [] {
      var s' := s[..|s| - 1];
      var x := s[|s| - 1];
      var d := DedupeBy(s', key);
      DedupeOnlyFirst(s', key);
      DedupeKeySet(s', key);
      forall y | y in DedupeBy(s, key) ensures exists i :: IsFirstOfKey(s, key, i) && s[i] == y {
        if y in d {
          var i :| IsFirstOfKey(s', key, i) && s'[i] == y;
          assert IsFirstOfKey(s, key, i);
        } else {
          assert y == x && key(x) !in KeySet(s', key);
          forall m | 0 <= m < |s'| ensures key(s[m]) != key(x) {
            assert s'[m] in s';
          }
          assert IsFirstOfKey(s, key, |s'|);
        }
      }
    }
  }

  /** The kept items follow the order in which their keys first appear: whenever an item of
      the input has the key of a later kept item, an earlier kept item already occurs before it. */
  lemma {:induction false} DedupeFirstOrder<T, K>(s: seq<T>, key: T -> K)
    ensures var d := DedupeBy(s, key);
      forall i, j, k :: 0 <= i < j < |d| && 0 <= k < |s| && key(s[k]) == key(d[j]) ==> d[i] in s[..k]
    decreases |s|
  {
    if s != [] {
      var s' := s[..|s| - 1];
      var x := s[|s| - 1];
      var d' := DedupeBy(s', key);
      var d := DedupeBy(s, key);
      DedupeFirstOrder(s', key);
      DedupeKeySet(s', key);
      forall i, j, k | 0 <= i < j < |d| && 0 <= k < |s| && key(s[k]) == key(d[j]) ensures d[i] in s[..k] {
        if k < |s'| {
          assert s[k] == s'[k] && s[..k] == s'[..k];
          if j >= |d'| {
            assert false;
          }
          assert d[i] == d'[i] && d[j] == d'[j];
        } else {
          assert s[..k] == s';
          assert d[i] == d'[i] && d'[i] in d';
          DedupeOnlyFirst(s', key);
        }
      }
    }
  }

  /** `DedupeFirstOrder` for one pair of kept items and one input position. */
  lemma DedupeFirstOrderAt<T, K>(s: seq<T>, key: T -> K, i: int, j: int, k: int)
    requires 0 <= i < j < |DedupeBy(s, key)| && 0 <= k < |s| && key(s[k]) == key(DedupeBy(s, key)[j])
    ensures DedupeBy(s, key)[i] in s[..k]
  {
    DedupeFirstOrder(s, key);
  }

  /** The result for a prefix of the input is a prefix of the result for the whole input: the
      loop that stops early has built an initial part of what the full loop builds. */
  lemma {:induction false} DedupePrefix<T, K>(a: seq<T>, b: seq<T>, key: T -> K)
    ensures |DedupeBy(a, key)| <= |DedupeBy(a + b, key)|
    ensures DedupeBy(a, key) == DedupeBy(a + b, key)[..|DedupeBy(a, key)|]
    decreases |b|
  {
    if b == [] {
      assert a + b == a;
    } else {
      var b' := b[..|b| - 1];
      DedupePrefix(a, b', key);
      assert (a + b)[..|a + b| - 1] == a + b';
    }
  }

  /** An input whose keys are already pairwise distinct is kept whole. */
  lemma {:induction false} DedupeOfDistinct<T, K>(s: seq<T>, key: T -> K)
    requires forall i, j :: 0 <= i < j < |s| ==> key(s[i]) != key(s[j])
    ensures DedupeBy(s, key) == s
    decreases |s|
  {
    if s != [] {
      var s' := s[..|s| - 1];
      var x := s[|s| - 1];
      assert forall i :: 0 <= i < |s'| ==> s'[i] == s[i];
      DedupeOfDistinct(s', key);
      forall y | y in s' ensures key(y) != key(x) {
        var m :| 0 <= m < |s'| && s'[m] == y;
        assert key(s[m]) != key(s[|s| - 1]);
      }
      assert key(x) !in KeySet(s', key);
      assert DedupeBy(s, key) == s' + [x];
      assert s' + [x] == s;
    }
  }

  // ---------------------------------------------------------------------------------------------
  // Stable sort in descending order of a key

  /** Inserts `x` before the first item whose score is not above its own. */
  function InsertDesc<T>(x: T, s: seq<T>, score: T -> real): (r: seq<T>)
    ensures |r| == |s| + 1
    ensures multiset(r) == multiset(s) + multiset{x}
  {
    if s == [] || score(s[0]) <= score(x) then [x] + s
    else
      assert s == [s[0]] + s[1..];
      [s[0]] + InsertDesc(x, s[1..], score)
  }

  /** Python's `sorted(s, key=score, reverse=True)`, as an insertion sort. */
  function SortDesc<T>(s: seq<T>, score: T -> real): (r: seq<T>)
    ensures multiset(r) == multiset(s)
    ensures |r| == |s|
  {
    if s == [] then []
    else
      assert s == [s[0]] + s[1..];
      InsertDesc(s[0], SortDesc(s[1..], score), score)
  }

  predicate SortedDesc<T>(s: seq<T>, score: T -> real) {
    forall i, j :: 0 <= i < j < |s| ==> score(s[i]) >= score(s[j])
  }

  /** The items of `s` whose score is `v`, in order. */
  function WithScore<T>(s: seq<T>, score: T -> real, v: real): seq<T> {
    if s == [] then [] else (if score(s[0]) == v then [s[0]] else []) + WithScore(s[1..], score, v)
  }

  /** `WithScore` of a sequence with a known first item. */
  lemma WithScoreCons<T>(x: T, t: seq<T>, score: T -> real, v: real)
    ensures WithScore([x] + t, score, v) == (if score(x) == v then [x] else []) + WithScore(t, score, v)
  {
    assert ([x] + t)[0] == x;
    assert ([x] + t)[1..] == t;
  }

  lemma {:induction false} WithScoreAppend<T>(a: seq<T>, b: seq<T>, score: T -> real, v: real)
    ensures WithScore(a + b, score, v) == WithScore(a, score, v) + WithScore(b, score, v)
  {
    if a == [] {
      assert a + b == b;
    } else {
      var h, t := a[0], a[1..];
      assert a == [h] + t;
      assert a + b == [h] + (t + b);
      WithScoreAppend(t, b, score, v);
      WithScoreCons(h, t + b, score, v);
      WithScoreCons(h, t, score, v);
    }
  }

  /** Prepending an item scoring at least as high as every item keeps a sequence sorted. */
  lemma SortedCons<T>(h: T, t: seq<T>, score: T -> real)
    requires SortedDesc(t, score)
    requires forall y :: y in t ==> score(y) <= score(h)
    ensures SortedDesc([h] + t, score)
  {
    var r := [h] + t;
    forall i, j | 0 <= i < j < |r| ensures score(r[i]) >= score(r[j]) {
      assert r[j] == t[j - 1];
      if i > 0 {
        assert r[i] == t[i - 1];
      } else {
        assert t[j - 1] in t;
      }
    }
  }

  /** Inserting an item under a bound that every item meets keeps every item under it. */
  lemma {:induction false} InsertDescBound<T>(x: T, s: seq<T>, score: T -> real, b: real)
    requires score(x) <= b
    requires forall y :: y in s ==> score(y) <= b
    ensures forall y :: y in InsertDesc(x, s, score) ==> score(y) <= b
  {
    if s != [] && score(s[0]) > score(x) {
      assert forall y :: y in s[1..] ==> y in s;
      InsertDescBound(x, s[1..], score, b);
    }
  }

  lemma {:induction false} InsertDescSorted<T>(x: T, s: seq<T>, score: T -> real)
    requires SortedDesc(s, score)
    ensures SortedDesc(InsertDesc(x, s, score), score)
  {
    if s == [] || score(s[0]) <= score(x) {
      forall y | y in s ensures score(y) <= score(x) {
        var j :| 0 <= j < |s| && s[j] == y;
      }
      SortedCons(x, s, score);
    } else {
      var t := s[1..];
      assert SortedDesc(t, score) by {
        forall i, j | 0 <= i < j < |t| ensures score(t[i]) >= score(t[j]) {
          assert t[i] == s[i + 1] && t[j] == s[j + 1];
        }
      }
      InsertDescSorted(x, t, score);
      forall y | y in t ensures score(y) <= score(s[0]) {
        var j :| 0 <= j < |t| && t[j] == y;
        assert y == s[j + 1];
      }
      InsertDescBound(x, t, score, score(s[0]));
      SortedCons(s[0], InsertDesc(x, t, score), score);
    }
  }

  lemma {:induction false} InsertDescWithScore<T>(x: T, s: seq<T>, score: T -> real, v: real)
    ensures WithScore(InsertDesc(x, s, score), score, v)
         == (if score(x) == v then [x] else []) + WithScore(s, score, v)
  {
    if s != [] && score(s[0]) > score(x) {
      var t := s[1..];
      assert s == [s[0]] + t;
      InsertDescWithScore(x, t, score, v);
      WithScoreCons(s[0], InsertDesc(x, t, score), score, v);
      WithScoreCons(s[0], t, score, v);
    } else {
      WithScoreCons(x, s, score, v);
    }
  }

  /** The sort puts higher scores first. */
  lemma {:induction false} SortDescSorted<T>(s: seq<T>, score: T -> real)
    ensures SortedDesc(SortDesc(s, score), score)
  {
    if s != [] {
      SortDescSorted(s[1..], score);
      InsertDescSorted(s[0], SortDesc(s[1..], score), score);
    }
  }

  /** The sort is stable: the items sharing a score keep their relative order. */
  lemma {:induction false} SortDescStable<T>(s: seq<T>, score: T -> real, v: real)
    ensures WithScore(SortDesc(s, score), score, v) == WithScore(s, score, v)
  {
    if s != [] {
      SortDescStable(s[1..], score, v);
      InsertDescWithScore(s[0], SortDesc(s[1..], score), score, v);
    }
  }

  /** The `n` highest-scoring items: `sorted(s, key=score, reverse=True)[:n]`. */
  function TopBy<T>(s: seq<T>, score: T -> real, n: int): seq<T> {
    SliceTo(SortDesc(s, score), n)
  }

  /** In a sorted sequence, every item before position `k` scores at least as high as every
      item from `k` on. */
  lemma SortedSplit<T>(t: seq<T>, k: nat, score: T -> real)
    requires SortedDesc(t, score) && k <= |t|
    ensures forall x, y :: x in t[..k] && y in t[k..] ==> score(x) >= score(y)
  {
    forall x, y | x in t[..k] && y in t[k..] ensures score(x) >= score(y) {
      var i :| 0 <= i < k && t[..k][i] == x;
      var j :| 0 <= j < |t| - k && t[k..][j] == y;
      assert t[i] == x && t[k + j] == y;
    }
  }

  /** Removing a prefix's items from a sequence's items leaves the rest's. */
  lemma MultisetDropPrefix<T>(t: seq<T>, k: nat)
    requires k <= |t|
    ensures multiset(t) - multiset(t[..k]) == multiset(t[k..])
  {
    assert t == t[..k] + t[k..];
  }

  /** The top items are the highest-scoring ones: exactly `min(n, |s|)` of them (all but the
      last `-n` when `n` is negative), and every item kept scores at least as high as every
      item left out. */
  /** A prefix of a sorted sequence outscores everything the sequence holds beyond it. */
  lemma PrefixDominates<T>(t: seq<T>, k: nat, score: T -> real)
    requires SortedDesc(t, score) && k <= |t|
    ensures multiset(t[..k]) <= multiset(t)
    ensures forall x, y :: x in t[..k] && y in multiset(t) - multiset(t[..k]) ==> score(x) >= score(y)
  {
    assert multiset(t[..k]) <= multiset(t) by {
      assert t == t[..k] + t[k..];
    }
    MultisetDropPrefix(t, k);
    SortedSplit(t, k, score);
    forall x, y | x in t[..k] && y in multiset(t) - multiset(t[..k]) ensures score(x) >= score(y) {
      assert y in multiset(t[k..]);
      assert y in t[k..];
    }
  }

  lemma TopByKeepsHighest<T>(s: seq<T>, score: T -> real, n: int)
    ensures var r := TopBy(s, score, n);
      && multiset(r) <= multiset(s)
      && forall x, y :: x in r && y in multiset(s) - multiset(r) ==> score(x) >= score(y)
  {
    var sorted := SortDesc(s, score);
    var r := SliceTo(sorted, n);
    SortDescSorted(s, score);
    PrefixDominates(sorted, |r|, score);
  }

  /** The top items are in non-increasing score order. */
  lemma TopBySorted<T>(s: seq<T>, score: T -> real, n: int)
    ensures SortedDesc(TopBy(s, score, n), score)
  {
    var sorted := SortDesc(s, score);
    SortDescSorted(s, score);
    var r := SliceTo(sorted, n);
    forall i, j | 0 <= i < j < |r| ensures score(r[i]) >= score(r[j]) {
      assert r[i] == sorted[i] && r[j] == sorted[j];
    }
  }

  /** The top items number exactly `min(n, |s|)` (fewer by `-n` from the end when `n` is
      negative), all come from `s`, outscore every item left out, are in non-increasing score
      order, and items of equal score keep their order in `s`. */
  lemma TopBySpec<T>(s: seq<T>, score: T -> real, n: int)
    ensures var r := TopBy(s, score, n);
      && (n >= 0 ==> |r| == (if n <= |s| then n else |s|))
      && (n < 0 ==> |r| == (if |s| + n >= 0 then |s| + n else 0))
      && multiset(r) <= multiset(s)
      && (forall x, y :: x in r && y in multiset(s) - multiset(r) ==> score(x) >= score(y))
      && SortedDesc(r, score)
      && forall v :: IsPrefix(WithScore(r, score, v), WithScore(s, score, v))
  {
    var sorted := SortDesc(s, score);
    var r := TopBy(s, score, n);
    TopByKeepsHighest(s, score, n);
    assert r == sorted[..|r|];
    SortDescSorted(s, score);
    forall v ensures IsPrefix(WithScore(r, score, v), WithScore(s, score, v)) {
      SortDescStable(s, score, v);
      WithScorePrefix(sorted, |r|, score, v);
    }
  }

  /** A prefix of a sequence keeps, for every score, a prefix of the items with that score. */
  lemma WithScorePrefix<T>(s: seq<T>, k: nat, score: T -> real, v: real)
    requires k <= |s|
    ensures WithScore(s, score, v) == WithScore(s[..k], score, v) + WithScore(s[k..], score, v)
  {
    assert s == s[..k] + s[k..];
    WithScoreAppend(s[..k], s[k..], score, v);
  }
}
