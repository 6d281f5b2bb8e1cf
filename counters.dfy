/**
 * `collections.Counter` as the crawlers and the preprocessor use it: a list of
 * (key, count) items in insertion order, `c[k] += n`, `c.update(tokens)`,
 * adding one counter into another key by key, and `c.most_common(n)`.
 */
module Counters {
  import opened Seqs

  /** The items of a `Counter` (or of the `dict` made from it), in insertion order. */
  type Counter<K> = seq<(K, nat)>

  function Keys<K>(c: Counter<K>): seq<K> {
    seq(|c|, i requires 0 <= i < |c| => c[i].0)
  }

  /** A counter built only by `Add` never lists a key twice. */
  predicate WellFormed<K(==)>(c: Counter<K>) {
    Distinct(Keys(c))
  }

  /** `c[k]`: the count of `k`, 0 when absent (the total over all entries for `k`). */
  function Get<K(==)>(c: Counter<K>, k: K): nat {
    if c == [] then 0 else (if c[0].0 == k then c[0].1 else 0) + Get(c[1..], k)
  }

  /** The total of all counts. */
  function Sum<K>(c: Counter<K>): nat {
    if c == [] then 0 else c[0].1 + Sum(c[1..])
  }

  /** `c[k] += n`: the entry for `k` grows in place, or `(k, n)` is appended. */
  function Add<K(==)>(c: Counter<K>, k: K, n: nat): Counter<K> {
    if c == [] then [(k, n)]
    else if c[0].0 == k then [(k, c[0].1 + n)] + c[1..]
    else [c[0]] + Add(c[1..], k, n)
  }

  /** `c.update(xs)`: one `c[x] += 1` per element, left to right. */
  function Update<K(==)>(c: Counter<K>, xs: seq<K>): Counter<K> {
    if xs == [] then c else Add(Update(c, xs[..|xs| - 1]), xs[|xs| - 1], 1)
  }

  /** Updating with two lists one after the other is updating with their concatenation. */
  lemma {:induction false} UpdateAppend<K>(c: Counter<K>, xs: seq<K>, ys: seq<K>)
    ensures Update(Update(c, xs), ys) == Update(c, xs + ys)
  {
    if ys == [] {
      assert xs + ys == xs;
    } else {
      UpdateAppend(c, xs, ys[..|ys| - 1]);
      assert (xs + ys)[..|xs + ys| - 1] == xs + ys[..|ys| - 1];
    }
  }

  /** `for k, v in d.items(): total[k] += v`. */
  function Merge<K(==)>(total: Counter<K>, d: Counter<K>): Counter<K> {
    if d == [] then total
    else
      var last := d[|d| - 1];
      Add(Merge(total, d[..|d| - 1]), last.0, last.1)
  }

  lemma {:induction false} GetAdd<K>(c: Counter<K>, k: K, n: nat, j: K)
    ensures Get(Add(c, k, n), j) == Get(c, j) + (if j == k then n else 0)
  {
    if c != [] && c[0].0 != k {
      GetAdd(c[1..], k, n, j);
      assert Add(c, k, n)[1..] == Add(c[1..], k, n);
    } else if c != [] {
      assert Add(c, k, n)[1..] == c[1..];
    }
  }

  lemma {:induction false} SumAdd<K>(c: Counter<K>, k: K, n: nat)
    ensures Sum(Add(c, k, n)) == Sum(c) + n
  {
    if c != [] && c[0].0 != k {
      SumAdd(c[1..], k, n);
      assert Add(c, k, n)[1..] == Add(c[1..], k, n);
    } else if c != [] {
      assert Add(c, k, n)[1..] == c[1..];
    }
  }

  lemma {:induction false} KeysAdd<K>(c: Counter<K>, k: K, n: nat)
    ensures Keys(Add(c, k, n)) == if k in Keys(c) then Keys(c) else Keys(c) + [k]
  {
    if c != [] {
      assert Keys(c) == [c[0].0] + Keys(c[1..]);
      if c[0].0 != k {
        KeysAdd(c[1..], k, n);
        assert Keys(Add(c, k, n)) == [c[0].0] + Keys(Add(c[1..], k, n));
      } else {
        assert Keys(Add(c, k, n)) == [k] + Keys(c[1..]);
      }
    }
  }

  /** Adding to a counter keeps its keys distinct. */
  lemma AddWellFormed<K>(c: Counter<K>, k: K, n: nat)
    requires WellFormed(c)
    ensures WellFormed(Add(c, k, n))
  {
    KeysAdd(c, k, n);
  }

  /** After `c.update(xs)` each key's count has grown by its number of occurrences in `xs`. */
  lemma {:induction false} GetUpdate<K>(c: Counter<K>, xs: seq<K>, k: K)
    ensures Get(Update(c, xs), k) == Get(c, k) + multiset(xs)[k]
  {
    if xs != [] {
      var init, x := xs[..|xs| - 1], xs[|xs| - 1];
      GetUpdate(c, init, k);
      GetAdd(Update(c, init), x, 1, k);
      assert xs == init + [x];
    }
  }

  /** `c.update(xs)` lists its keys in order of first appearance. */
  lemma {:induction false} KeysUpdate<K>(c: Counter<K>, xs: seq<K>)
    requires WellFormed(c)
    ensures Keys(Update(c, xs)) == Dedup(Keys(c) + xs)
  {
    if xs == [] {
      assert Keys(c) + xs == Keys(c);
      DedupOfDistinct(Keys(c));
    } else {
      var init, x := xs[..|xs| - 1], xs[|xs| - 1];
      KeysUpdate(c, init);
      KeysAdd(Update(c, init), x, 1);
      DedupElements(Keys(c) + init);
      assert Keys(c) + xs == (Keys(c) + init) + [x];
      DedupSnoc(Keys(c) + init, x);
    }
  }

  lemma {:induction false} SumUpdate<K>(c: Counter<K>, xs: seq<K>)
    ensures Sum(Update(c, xs)) == Sum(c) + |xs|
  {
    if xs != [] {
      SumUpdate(c, xs[..|xs| - 1]);
      SumAdd(Update(c, xs[..|xs| - 1]), xs[|xs| - 1], 1);
    }
  }

  lemma {:induction false} GetSnoc<K>(c: Counter<K>, e: (K, nat), k: K)
    ensures Get(c + [e], k) == Get(c, k) + (if e.0 == k then e.1 else 0)
  {
    if c != [] {
      assert (c + [e])[1..] == c[1..] + [e];
      GetSnoc(c[1..], e, k);
    }
  }

  lemma {:induction false} SumSnoc<K>(c: Counter<K>, e: (K, nat))
    ensures Sum(c + [e]) == Sum(c) + e.1
  {
    if c != [] {
      assert (c + [e])[1..] == c[1..] + [e];
      SumSnoc(c[1..], e);
    }
  }

  /** Adding one counter into another adds the counts key by key. */
  lemma {:induction false} GetMerge<K>(total: Counter<K>, d: Counter<K>, k: K)
    ensures Get(Merge(total, d), k) == Get(total, k) + Get(d, k)
  {
    if d != [] {
      var init, last := d[..|d| - 1], d[|d| - 1];
      GetMerge(total, init, k);
      GetAdd(Merge(total, init), last.0, last.1, k);
      assert d == init + [last];
      GetSnoc(init, last, k);
    }
  }

  lemma {:induction false} SumMerge<K>(total: Counter<K>, d: Counter<K>)
    ensures Sum(Merge(total, d)) == Sum(total) + Sum(d)
  {
    if d != [] {
      var init, last := d[..|d| - 1], d[|d| - 1];
      SumMerge(total, init);
      SumAdd(Merge(total, init), last.0, last.1);
      assert d == init + [last];
      SumSnoc(init, last);
    }
  }

  lemma {:induction false} MergeWellFormed<K>(total: Counter<K>, d: Counter<K>)
    requires WellFormed(total)
    ensures WellFormed(Merge(total, d))
  {
    if d != [] {
      MergeWellFormed(total, d[..|d| - 1]);
      AddWellFormed(Merge(total, d[..|d| - 1]), d[|d| - 1].0, d[|d| - 1].1);
    }
  }

  /** In a well-formed counter the single entry of a key carries its count. */
  lemma {:induction false} GetEntry<K>(c: Counter<K>, i: nat)
    requires WellFormed(c) && i < |c|
    ensures Get(c, c[i].0) == c[i].1
  {
    assert Keys(c)[i] == c[i].0;
    assert Keys(c[1..]) == Keys(c)[1..];
    if i == 0 {
      assert c[0].0 !in Keys(c[1..]) by {
        forall m | 0 <= m < |Keys(c[1..])| ensures Keys(c[1..])[m] != c[0].0 {
          assert Keys(c)[0] != Keys(c)[m + 1];
        }
      }
      GetAbsent(c[1..], c[0].0);
    } else {
      assert c[0].0 != c[i].0 by { assert Keys(c)[0] != Keys(c)[i]; }
      GetEntry(c[1..], i - 1);
    }
  }

  lemma {:induction false} GetAbsent<K>(c: Counter<K>, k: K)
    requires k !in Keys(c)
    ensures Get(c, k) == 0
  {
    if c != [] {
      assert Keys(c) == [c[0].0] + Keys(c[1..]);
      GetAbsent(c[1..], k);
    }
  }

  // ---------------------------------------------------------------- most_common

  /** Counts never increase along the list. */
  predicate SortedDesc<K>(s: Counter<K>) {
    forall i, j :: 0 <= i < j < |s| ==> s[i].1 >= s[j].1
  }

  /** Puts `x` after every item whose count is at least `x`'s. */
  function InsertDesc<K>(s: Counter<K>, x: (K, nat)): Counter<K> {
    if s == [] then [x]
    else if s[0].1 < x.1 then [x] + s
    else [s[0]] + InsertDesc(s[1..], x)
  }

  /** `sorted(c.items(), key=count, reverse=True)`: a stable sort, so items of
      equal count keep their order in `c`. */
  function SortDesc<K>(c: Counter<K>): Counter<K> {
    if c == [] then [] else InsertDesc(SortDesc(c[..|c| - 1]), c[|c| - 1])
  }

  /** `c.most_common(n)`: the first `n` items of the stable descending sort;
      nothing for `n <= 0`. */
  function MostCommon<K>(c: Counter<K>, n: int): Counter<K> {
    if n <= 0 then [] else Take(SortDesc(c), n)
  }

  /** The items of count `v`, in order. */
  function WithCount<K>(s: Counter<K>, v: nat): Counter<K> {
    if s == [] then [] else (if s[0].1 == v then [s[0]] else []) + WithCount(s[1..], v)
  }

  lemma {:induction false} InsertDescPerm<K>(s: Counter<K>, x: (K, nat))
    ensures multiset(InsertDesc(s, x)) == multiset(s) + multiset{x}
  {
    if s != [] && s[0].1 >= x.1 {
      InsertDescPerm(s[1..], x);
      assert s == [s[0]] + s[1..];
    }
  }

  lemma {:induction false} InsertDescSorted<K>(s: Counter<K>, x: (K, nat))
    requires SortedDesc(s)
    ensures SortedDesc(InsertDesc(s, x))
  {
    if s != [] && s[0].1 >= x.1 {
      var r := InsertDesc(s[1..], x);
      InsertDescSorted(s[1..], x);
      InsertDescPerm(s[1..], x);
      var t := [s[0]] + r;
      forall i, j | 0 <= i < j < |t| ensures t[i].1 >= t[j].1 {
        if i == 0 {
          assert t[j] == r[j - 1];
          assert t[j] in multiset(s[1..]) + multiset{x};
        } else {
          assert t[i] == r[i - 1] && t[j] == r[j - 1];
        }
      }
    }
  }

  lemma {:induction false} InsertDescWithCount<K>(s: Counter<K>, x: (K, nat), v: nat)
    requires SortedDesc(s)
    ensures WithCount(InsertDesc(s, x), v) == WithCount(s, v) + (if x.1 == v then [x] else [])
  {
    if s == [] {
    } else if s[0].1 < x.1 {
      if v >= x.1 {
        WithCountBelow(s, v);
      }
      assert InsertDesc(s, x)[1..] == s;
    } else {
      InsertDescWithCount(s[1..], x, v);
      assert InsertDesc(s, x)[1..] == InsertDesc(s[1..], x);
    }
  }

  lemma {:induction false} WithCountBelow<K>(s: Counter<K>, v: nat)
    requires SortedDesc(s) && s != [] && s[0].1 < v
    ensures WithCount(s, v) == []
  {
    if |s| > 1 {
      assert s[1].1 <= s[0].1;
      WithCountBelow(s[1..], v);
    }
  }

  lemma {:induction false} WithCountSnoc<K>(s: Counter<K>, x: (K, nat), v: nat)
    ensures WithCount(s + [x], v) == WithCount(s, v) + (if x.1 == v then [x] else [])
  {
    if s != [] {
      assert (s + [x])[1..] == s[1..] + [x];
      WithCountSnoc(s[1..], x, v);
    }
  }

  /** The sort orders by count, keeps every item, and is stable: items of each
      count appear in their order in `c`. */
  lemma {:induction false} SortDescFacts<K>(c: Counter<K>)
    ensures SortedDesc(SortDesc(c))
    ensures multiset(SortDesc(c)) == multiset(c)
    ensures forall v :: WithCount(SortDesc(c), v) == WithCount(c, v)
  {
    if c != [] {
      var init, x := c[..|c| - 1], c[|c| - 1];
      SortDescFacts(init);
      InsertDescSorted(SortDesc(init), x);
      InsertDescPerm(SortDesc(init), x);
      assert c == init + [x];
      forall v ensures WithCount(SortDesc(c), v) == WithCount(c, v) {
        InsertDescWithCount(SortDesc(init), x, v);
        WithCountSnoc(init, x, v);
      }
    }
  }

  /** `most_common(n)` returns at most `n` items, by non-increasing count, each
      an item of the counter with its own count, and no item left out has a
      larger count than one returned; ties keep insertion order. */
  lemma MostCommonFacts<K>(c: Counter<K>, n: int)
    ensures var r := MostCommon(c, n);
      |r| <= if n <= 0 then 0 else n
    ensures var r := MostCommon(c, n);
      SortedDesc(r) && multiset(r) <= multiset(c)
    ensures var r, s := MostCommon(c, n), SortDesc(c);
      forall i, j :: 0 <= i < |r| <= j < |s| ==> s[j].1 <= r[i].1
    ensures n >= |c| ==> multiset(MostCommon(c, n)) == multiset(c)
    ensures forall v :: WithCount(SortDesc(c), v) == WithCount(c, v)
  {
    SortDescFacts(c);
    if n > 0 {
      TakeSortedDesc(SortDesc(c), n);
    }
  }

  /** A prefix of a list sorted by descending count is sorted, is part of
      the list, and no later item has a larger count. */
  lemma TakeSortedDesc<K>(s: Counter<K>, n: nat)
    requires SortedDesc(s)
    ensures var r := Take(s, n);
      SortedDesc(r) && multiset(r) <= multiset(s) && (n >= |s| ==> r == s) &&
      forall i, j :: 0 <= i < |r| <= j < |s| ==> s[j].1 <= r[i].1
  {
    if n <= |s| {
      assert s == s[..n] + s[n..];
      assert multiset(s) == multiset(s[..n]) + multiset(s[n..]);
      forall i, j | 0 <= i < |s[..n]| <= j < |s| ensures s[j].1 <= s[..n][i].1 {
        assert s[..n][i] == s[i];
      }
    }
  }
}
