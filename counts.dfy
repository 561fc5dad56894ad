/** Python dictionaries from keys to counts (`dict`, `collections.Counter`), kept in insertion order
    as a sequence of (key, count) pairs, together with the ranking views the program builds on them:
    a stable sort by count, descending (`sorted(..., key=count, reverse=True)`, `Counter.most_common`)
    and a top-N slice. */
module Counts {

  predicate UniqueKeys<K(==)>(c: seq<(K, int)>)
  {
    forall i, j :: 0 <= i < j < |c| ==> c[i].0 != c[j].0
  }

  predicate HasKey<K(==)>(c: seq<(K, int)>, k: K)
  {
    exists i | 0 <= i < |c| :: c[i].0 == k
  }

  /** `c.get(k, 0)`, which is also what `Counter.__getitem__` returns for a missing key. */
  function Get<K(==)>(c: seq<(K, int)>, k: K): int
  {
    if c == [] then 0 else if c[0].0 == k then c[0].1 else Get(c[1..], k)
  }

  /** `c[k] += 1` on a Counter (or `c[k] = c.get(k, 0) + 1` on a dict): an existing key keeps its
      place, a new key is appended. */
  function Incr<K(==)>(c: seq<(K, int)>, k: K): (r: seq<(K, int)>)
    ensures |r| == if HasKey(c, k) then |c| else |c| + 1
    ensures forall i :: 0 <= i < |c| ==> r[i].0 == c[i].0
    ensures !HasKey(c, k) ==> r[|c|] == (k, 1)
  {
    if c == [] then [(k, 1)]
    else if c[0].0 == k then [(k, c[0].1 + 1)] + c[1..]
    else
      assert HasKey(c, k) <==> HasKey(c[1..], k) by {
        if HasKey(c, k) { var i :| 0 <= i < |c| && c[i].0 == k; assert c[1..][i - 1].0 == k; }
        if HasKey(c[1..], k) { var i :| 0 <= i < |c| - 1 && c[1..][i].0 == k; assert c[i + 1].0 == k; }
      }
      [c[0]] + Incr(c[1..], k)
  }

  /** `sum(c.values())`. */
  function Total<K>(c: seq<(K, int)>): int
  {
    if c == [] then 0 else c[0].1 + Total(c[1..])
  }

  lemma {:induction false} IncrGet<K>(c: seq<(K, int)>, k: K, other: K)
    ensures Get(Incr(c, k), k) == Get(c, k) + 1
    ensures other != k ==> Get(Incr(c, k), other) == Get(c, other)
  {
    if c != [] && c[0].0 != k {
      IncrGet(c[1..], k, other);
    }
  }

  lemma {:induction false} IncrTotal<K>(c: seq<(K, int)>, k: K)
    ensures Total(Incr(c, k)) == Total(c) + 1
  {
    if c != [] && c[0].0 != k {
      IncrTotal(c[1..], k);
    }
  }

  lemma IncrUnique<K>(c: seq<(K, int)>, k: K)
    requires UniqueKeys(c)
    ensures UniqueKeys(Incr(c, k)) && HasKey(Incr(c, k), k)
  {
    var r := Incr(c, k);
    if HasKey(c, k) {
      var i :| 0 <= i < |c| && c[i].0 == k;
      assert r[i].0 == k;
    } else {
      assert r[|c|].0 == k;
      forall a, b | 0 <= a < b < |r| ensures r[a].0 != r[b].0 {
        assert r[a].0 == c[a].0;
      }
    }
  }

  /** `for k in ks: c[k] += 1`, one key after the other. */
  function IncrAll<K(==)>(c: seq<(K, int)>, ks: seq<K>): seq<(K, int)>
  {
    if ks == [] then c else Incr(IncrAll(c, ks[..|ks| - 1]), ks[|ks| - 1])
  }

  /** The loop `for k in ks: c[k] = c.get(k, 0) + 1`. */
  method CountEach<K(==)>(c: seq<(K, int)>, ks: seq<K>) returns (r: seq<(K, int)>)
    ensures r == IncrAll(c, ks)
  {
    r := c;
    for i := 0 to |ks|
      invariant r == IncrAll(c, ks[..i])
    {
      assert ks[..i + 1][..i] == ks[..i];
      r := Incr(r, ks[i]);
    }
    assert ks[..|ks|] == ks;
  }

  /** Counting a list of keys adds its length to the total. */
  lemma {:induction false} IncrAllTotal<K>(c: seq<(K, int)>, ks: seq<K>)
    ensures Total(IncrAll(c, ks)) == Total(c) + |ks|
  {
    if ks != [] {
      IncrAllTotal(c, ks[..|ks| - 1]);
      IncrTotal(IncrAll(c, ks[..|ks| - 1]), ks[|ks| - 1]);
    }
  }

  /** Each key's count grows by the number of times it occurs in the list. */
  lemma {:induction false} IncrAllGet<K>(c: seq<(K, int)>, ks: seq<K>, k: K)
    ensures Get(IncrAll(c, ks), k) == Get(c, k) + multiset(ks)[k]
  {
    if ks != [] {
      var init := ks[..|ks| - 1];
      IncrAllGet(c, init, k);
      IncrGet(IncrAll(c, init), ks[|ks| - 1], k);
      assert ks == init + [ks[|ks| - 1]];
      assert multiset(ks) == multiset(init) + multiset{ks[|ks| - 1]};
    }
  }

  /** Counting keeps keys unique, keeps every existing key, and records every counted key. */
  lemma {:induction false} IncrAllUnique<K>(c: seq<(K, int)>, ks: seq<K>)
    requires UniqueKeys(c)
    ensures UniqueKeys(IncrAll(c, ks))
    ensures forall k :: HasKey(c, k) ==> HasKey(IncrAll(c, ks), k)
    ensures forall k :: k in ks ==> HasKey(IncrAll(c, ks), k)
  {
    if ks != [] {
      var init := ks[..|ks| - 1];
      var prev := IncrAll(c, init);
      IncrAllUnique(c, init);
      IncrUnique(prev, ks[|ks| - 1]);
      IncrKeepsKeys(prev, ks[|ks| - 1]);
      forall k | k in ks ensures HasKey(IncrAll(c, ks), k) {
        if k != ks[|ks| - 1] {
          assert k in init;
        }
      }
    }
  }

  lemma IncrKeepsKeys<K>(c: seq<(K, int)>, k: K)
    ensures forall j :: HasKey(c, j) ==> HasKey(Incr(c, k), j)
  {
    forall j | HasKey(c, j) ensures HasKey(Incr(c, k), j) {
      var i :| 0 <= i < |c| && c[i].0 == j;
      assert Incr(c, k)[i].0 == j;
    }
  }

  /** All counts are at least `t` (every entry passed a threshold filter). */
  predicate AllAtLeast<K>(c: seq<(K, int)>, t: int)
  {
    forall i :: 0 <= i < |c| ==> c[i].1 >= t
  }

  /** Sorted by count, largest first. */
  predicate NonIncreasing<K>(c: seq<(K, int)>)
  {
    forall i, j :: 0 <= i < j < |c| ==> c[i].1 >= c[j].1
  }

  /** The entries whose count equals `n`, in their order in `c`. */
  function WithCount<K>(c: seq<(K, int)>, n: int): seq<(K, int)>
  {
    if c == [] then [] else (if c[0].1 == n then [c[0]] else []) + WithCount(c[1..], n)
  }

  /** The entries whose count is at least `t`, in their order in `c`. */
  function AtLeast<K>(c: seq<(K, int)>, t: int): (r: seq<(K, int)>)
    ensures AllAtLeast(r, t)
    ensures |r| <= |c|
    ensures multiset(r) <= multiset(c)
  {
    if c == [] then []
    else
      var rest := AtLeast(c[1..], t);
      assert c == [c[0]] + c[1..];
      if c[0].1 >= t then [c[0]] + rest else rest
  }

  /** Places `x` in front of the first entry whose count does not exceed its own. */
  function Insert<K>(x: (K, int), s: seq<(K, int)>): (r: seq<(K, int)>)
    ensures multiset(r) == multiset(s) + multiset{x}
    ensures |r| == |s| + 1
  {
    if s == [] || x.1 >= s[0].1 then [x] + s
    else
      assert s == [s[0]] + s[1..];
      [s[0]] + Insert(x, s[1..])
  }

  /** A stable sort by count, descending: what Python's `list.sort(key=..., reverse=True)` computes. */
  function SortDesc<K>(c: seq<(K, int)>): (r: seq<(K, int)>)
    ensures multiset(r) == multiset(c)
    ensures |r| == |c|
  {
    if c == [] then []
    else
      assert c == [c[0]] + c[1..];
      Insert(c[0], SortDesc(c[1..]))
  }

  /** `c[:n]`. */
  function Take<T>(c: seq<T>, n: nat): (r: seq<T>)
    ensures |r| == (if |c| <= n then |c| else n) && r == c[..|r|]
  {
    if |c| <= n then c else c[..n]
  }

  /** The keys of the entries, in order. */
  function KeysOf<K>(c: seq<(K, int)>): (r: seq<K>)
    ensures |r| == |c|
    ensures forall i :: 0 <= i < |c| ==> r[i] == c[i].0
  {
    if c == [] then [] else [c[0].0] + KeysOf(c[1..])
  }

  /** What `Insert` returns holds the inserted entry and the old ones, nothing else. */
  lemma InsertMembers<K>(x: (K, int), s: seq<(K, int)>)
    ensures forall e :: e in Insert(x, s) ==> e == x || e in s
  {
    forall e | e in Insert(x, s) ensures e == x || e in s {
      assert e in multiset(Insert(x, s));
    }
  }

  lemma {:induction false} InsertSorted<K>(x: (K, int), s: seq<(K, int)>)
    requires NonIncreasing(s)
    ensures NonIncreasing(Insert(x, s))
  {
    if s == [] || x.1 >= s[0].1 {
    } else {
      InsertSorted(x, s[1..]);
      var t := Insert(x, s[1..]);
      InsertMembers(x, s[1..]);
      forall e | e in t ensures e.1 <= s[0].1 {
        if e != x {
          var k :| 0 <= k < |s[1..]| && s[1..][k] == e;
          assert s[k + 1] == e;
        }
      }
      var r := [s[0]] + t;
      forall i, j | 0 <= i < j < |r| ensures r[i].1 >= r[j].1 {
        if i > 0 {
          assert r[i] == t[i - 1] && r[j] == t[j - 1];
        } else {
          assert r[j] == t[j - 1] && r[j] in t;
        }
      }
    }
  }

  /** The sort's output is ordered by count, largest first. */
  lemma {:induction false} SortDescSorted<K>(c: seq<(K, int)>)
    ensures NonIncreasing(SortDesc(c))
  {
    if c != [] {
      SortDescSorted(c[1..]);
      InsertSorted(c[0], SortDesc(c[1..]));
    }
  }

  lemma WithCountCons<K>(x: (K, int), s: seq<(K, int)>, n: int)
    ensures WithCount([x] + s, n) == (if x.1 == n then [x] else []) + WithCount(s, n)
  {
    assert ([x] + s)[1..] == s;
  }

  lemma {:induction false} InsertWithCount<K>(x: (K, int), s: seq<(K, int)>, n: int)
    ensures WithCount(Insert(x, s), n) == (if x.1 == n then [x] else []) + WithCount(s, n)
  {
    if s == [] || x.1 >= s[0].1 {
      WithCountCons(x, s, n);
    } else {
      var t := Insert(x, s[1..]);
      InsertWithCount(x, s[1..], n);
      WithCountCons(s[0], t, n);
      assert s == [s[0]] + s[1..];
      WithCountCons(s[0], s[1..], n);
      assert s[0].1 != x.1;
    }
  }

  /** Stability: for every count, the entries with that count keep their input order. Together
      with `SortDescSorted` this pins the output down to Python's stable descending sort. */
  lemma {:induction false} SortDescStable<K>(c: seq<(K, int)>, n: int)
    ensures WithCount(SortDesc(c), n) == WithCount(c, n)
  {
    if c != [] {
      SortDescStable(c[1..], n);
      InsertWithCount(c[0], SortDesc(c[1..]), n);
    }
  }

  lemma {:induction false} AtLeastWithCount<K>(c: seq<(K, int)>, t: int, n: int)
    ensures WithCount(AtLeast(c, t), n) == if n >= t then WithCount(c, n) else []
  {
    if c != [] {
      AtLeastWithCount(c[1..], t, n);
      var rest := AtLeast(c[1..], t);
      if c[0].1 >= t {
        assert ([c[0]] + rest)[1..] == rest;
      }
    }
  }

  lemma {:induction false} AtLeastUnique<K>(c: seq<(K, int)>, t: int)
    requires UniqueKeys(c)
    ensures UniqueKeys(AtLeast(c, t))
  {
    if c != [] {
      AtLeastUnique(c[1..], t);
      var rest := AtLeast(c[1..], t);
      if c[0].1 >= t {
        forall e | e in rest ensures e.0 != c[0].0 {
          assert e in multiset(c[1..]);
          var k :| 0 <= k < |c[1..]| && c[1..][k] == e;
          assert c[k + 1] == e;
        }
        var r := [c[0]] + rest;
        forall i, j | 0 <= i < j < |r| ensures r[i].0 != r[j].0 {
          assert r[j] == rest[j - 1];
          if i > 0 { assert r[i] == rest[i - 1]; }
        }
      }
    }
  }

  lemma {:induction false} InsertUnique<K>(x: (K, int), s: seq<(K, int)>)
    requires UniqueKeys(s)
    requires forall e :: e in s ==> e.0 != x.0
    ensures UniqueKeys(Insert(x, s))
  {
    if s == [] || x.1 >= s[0].1 {
      var r := [x] + s;
      forall i, j | 0 <= i < j < |r| ensures r[i].0 != r[j].0 {
        assert r[j] == s[j - 1];
        if i > 0 { assert r[i] == s[i - 1]; }
      }
    } else {
      InsertUnique(x, s[1..]);
      var t := Insert(x, s[1..]);
      forall e | e in t ensures e.0 != s[0].0 {
        assert e in multiset(t);
        if e != x {
          assert e in multiset(s[1..]);
          var k :| 0 <= k < |s[1..]| && s[1..][k] == e;
          assert s[k + 1] == e;
        }
      }
      var r := [s[0]] + t;
      forall i, j | 0 <= i < j < |r| ensures r[i].0 != r[j].0 {
        assert r[j] == t[j - 1];
        if i > 0 { assert r[i] == t[i - 1]; }
      }
    }
  }

  /** Sorting a dictionary's items keeps the keys distinct. */
  lemma {:induction false} SortDescUnique<K>(c: seq<(K, int)>)
    requires UniqueKeys(c)
    ensures UniqueKeys(SortDesc(c))
  {
    if c != [] {
      SortDescUnique(c[1..]);
      var t := SortDesc(c[1..]);
      forall e | e in t ensures e.0 != c[0].0 {
        assert e in multiset(c[1..]);
        var k :| 0 <= k < |c[1..]| && c[1..][k] == e;
        assert c[k + 1] == e;
      }
      InsertUnique(c[0], t);
    }
  }
}
