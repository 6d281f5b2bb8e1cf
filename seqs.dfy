/**
 * Sequence helpers for the "seen set" loops of the crawlers: the first
 * occurrences of a list in order (`if x not in seen: seen.add(x); out.append(x)`),
 * Python's non-negative slice `xs[:n]`, and flattening.
 */
module Seqs {

  predicate Distinct<T(==)>(xs: seq<T>) {
    forall i, j :: 0 <= i < j < |xs| ==> xs[i] != xs[j]
  }

  /** `xs[:n]` for a non-negative `n`. */
  function Take<T>(xs: seq<T>, n: nat): seq<T> {
    if n <= |xs| then xs[..n] else xs
  }

  /** The first occurrence of every element of `xs`, in order of first occurrence. */
  function Dedup<T(==)>(xs: seq<T>): seq<T> {
    if xs == [] then []
    else
      var init, x := xs[..|xs| - 1], xs[|xs| - 1];
      if x in init then Dedup(init) else Dedup(init) + [x]
  }

  /** The position of the first occurrence of `x`. */
  function FirstIndex<T(==)>(xs: seq<T>, x: T): (i: nat)
    requires x in xs
    ensures i < |xs| && xs[i] == x && x !in xs[..i]
  {
    if xs[0] == x then 0
    else
      assert x in xs[1..];
      var j := FirstIndex(xs[1..], x);
      assert xs[..j + 1] == [xs[0]] + xs[1..][..j];
      j + 1
  }

  lemma DedupSnoc<T>(xs: seq<T>, x: T)
    ensures Dedup(xs + [x]) == if x in xs then Dedup(xs) else Dedup(xs) + [x]
  {
    assert (xs + [x])[..|xs|] == xs;
  }

  /** Deduplication keeps exactly the elements of the input. */
  lemma {:induction false} DedupElements<T>(xs: seq<T>)
    ensures forall x :: x in Dedup(xs) <==> x in xs
  {
    if xs != [] {
      var init := xs[..|xs| - 1];
      DedupElements(init);
      assert xs == init + [xs[|xs| - 1]];
    }
  }

  lemma DedupMember<T>(xs: seq<T>, y: T)
    requires y in Dedup(xs)
    ensures y in xs
  {
    DedupElements(xs);
  }

  /** Deduplication never repeats an element. */
  lemma {:induction false} DedupDistinct<T>(xs: seq<T>)
    ensures Distinct(Dedup(xs))
  {
    if xs != [] {
      var init := xs[..|xs| - 1];
      DedupDistinct(init);
      DedupElements(init);
    }
  }

  /** Elements appear in the order of their first occurrence in the input. */
  lemma {:induction false} DedupFirstSeenOrder<T>(xs: seq<T>, i: nat, j: nat)
    requires i < j < |Dedup(xs)|
    ensures Dedup(xs)[i] in xs && Dedup(xs)[j] in xs
    ensures FirstIndex(xs, Dedup(xs)[i]) < FirstIndex(xs, Dedup(xs)[j])
  {
    var init, x := xs[..|xs| - 1], xs[|xs| - 1];
    var d := Dedup(init);
    DedupElements(init);
    DedupElements(xs);
    assert xs == init + [x];
    assert forall y :: y in init ==> FirstIndex(xs, y) == FirstIndex(init, y) by {
      forall y | y in init ensures FirstIndex(xs, y) == FirstIndex(init, y) {
        var k := FirstIndex(init, y);
        assert xs[..k] == init[..k];
        FirstIndexUnique(xs, y, k);
      }
    }
    if x in init {
      DedupFirstSeenOrder(init, i, j);
    } else if j < |d| {
      DedupFirstSeenOrder(init, i, j);
    } else {
      DedupSnoc(init, x);
      assert Dedup(xs) == d + [x];
      assert Dedup(xs)[j] == x && Dedup(xs)[i] == d[i];
      assert i < |d| && d[i] in d;
      DedupMember(init, d[i]);
      assert FirstIndex(xs, d[i]) == FirstIndex(init, d[i]) < |init|;
      assert FirstIndex(xs, x) == |xs| - 1 by {
        assert xs[..|xs| - 1] == init;
        FirstIndexUnique(xs, x, |xs| - 1);
      }
    }
  }

  lemma FirstIndexUnique<T>(xs: seq<T>, x: T, k: nat)
    requires k < |xs| && xs[k] == x && x !in xs[..k]
    ensures FirstIndex(xs, x) == k
  {
  }

  /** A list without repeats is its own deduplication. */
  lemma {:induction false} DedupOfDistinct<T>(xs: seq<T>)
    requires Distinct(xs)
    ensures Dedup(xs) == xs
  {
    if xs != [] {
      var init := xs[..|xs| - 1];
      assert Distinct(init);
      DedupOfDistinct(init);
      assert xs[|xs| - 1] !in init;
    }
  }

  /** Appending elements already seen does not change the deduplication. */
  lemma {:induction false} DedupAppendSeen<T>(xs: seq<T>, ys: seq<T>)
    requires forall y :: y in ys ==> y in xs
    ensures Dedup(xs + ys) == Dedup(xs)
  {
    if ys == [] {
      assert xs + ys == xs;
    } else {
      var init := ys[..|ys| - 1];
      DedupAppendSeen(xs, init);
      assert xs + ys == (xs + init) + [ys[|ys| - 1]];
      assert ys[|ys| - 1] in xs + init;
      DedupSnoc(xs + init, ys[|ys| - 1]);
    }
  }

  /** Deduplicating a longer list only adds elements at the end. */
  lemma {:induction false} DedupPrefix<T>(xs: seq<T>, ys: seq<T>)
    ensures |Dedup(xs)| <= |Dedup(xs + ys)| && Dedup(xs + ys)[..|Dedup(xs)|] == Dedup(xs)
  {
    if ys == [] {
      assert xs + ys == xs;
    } else {
      var init, y := ys[..|ys| - 1], ys[|ys| - 1];
      DedupPrefix(xs, init);
      assert xs + ys == (xs + init) + [y];
      DedupSnoc(xs + init, y);
      var d := Dedup(xs + init);
      assert (d + [y])[..|d|] == d;
    }
  }

  /** Concatenation of a list of lists, left to right. */
  function Flatten<T>(xss: seq<seq<T>>): seq<T> {
    if xss == [] then [] else Flatten(xss[..|xss| - 1]) + xss[|xss| - 1]
  }

  lemma FlattenSnoc<T>(xss: seq<seq<T>>, xs: seq<T>)
    ensures Flatten(xss + [xs]) == Flatten(xss) + xs
  {
    assert (xss + [xs])[..|xss|] == xss;
  }

  lemma {:induction false} FlattenElements<T>(xss: seq<seq<T>>, i: nat, x: T)
    requires i < |xss| && x in xss[i]
    ensures x in Flatten(xss)
  {
    if i < |xss| - 1 {
      FlattenElements(xss[..|xss| - 1], i, x);
    }
  }

  lemma {:induction false} FlattenMembers<T>(xss: seq<seq<T>>, x: T)
    requires x in Flatten(xss)
    ensures exists i :: 0 <= i < |xss| && x in xss[i]
  {
    var init := xss[..|xss| - 1];
    if x !in xss[|xss| - 1] {
      FlattenMembers(init, x);
      var i :| 0 <= i < |init| && x in init[i];
      assert xss[i] == init[i];
    }
  }

  /** Flattening n >= 1 copies of one list without repeats and deduplicating
      gives that list back. */
  lemma {:induction false} DedupOfCopies<T>(xss: seq<seq<T>>, k: seq<T>)
    requires xss != [] && Distinct(k)
    requires forall i :: 0 <= i < |xss| ==> xss[i] == k
    ensures Dedup(Flatten(xss)) == k
  {
    var init := xss[..|xss| - 1];
    if init == [] {
      assert Flatten(xss) == Flatten(init) + k;
      assert Flatten(init) + k == k;
      DedupOfDistinct(k);
    } else {
      DedupOfCopies(init, k);
      DedupElements(Flatten(init));
      assert forall y :: y in k ==> y in Flatten(init) by {
        forall y | y in k ensures y in Flatten(init) { FlattenElements(init, 0, y); }
      }
      DedupAppendSeen(Flatten(init), k);
    }
  }

  lemma AppendAssoc<T>(a: seq<T>, b: seq<T>, c: seq<T>)
    ensures a + (b + c) == a + b + c
  {
  }

  /** The position of the first element of `xs` that satisfies `p`, or
      `|xs|` when there is none. */
  function FirstWhere<T>(xs: seq<T>, p: T -> bool): (i: nat)
    ensures i <= |xs|
  {
    if xs == [] || p(xs[0]) then 0 else 1 + FirstWhere(xs[1..], p)
  }

  /** No element before `FirstWhere` satisfies `p`, and the one there does. */
  lemma {:induction false} FirstWhereFacts<T>(xs: seq<T>, p: T -> bool)
    ensures var k := FirstWhere(xs, p);
      (forall i :: 0 <= i < k ==> !p(xs[i])) && (k < |xs| ==> p(xs[k]))
  {
    if xs != [] && !p(xs[0]) {
      var rest := xs[1..];
      FirstWhereFacts(rest, p);
      forall i | 1 <= i < |xs| ensures xs[i] == rest[i - 1] {}
    }
  }

  /** A position with no element satisfying `p` before it, and one there
      (or the end), is `FirstWhere`. */
  lemma {:induction false} FirstWhereIs<T>(xs: seq<T>, p: T -> bool, k: nat)
    requires k <= |xs| && forall i :: 0 <= i < k ==> !p(xs[i])
    requires k < |xs| ==> p(xs[k])
    ensures FirstWhere(xs, p) == k
  {
    if k > 0 {
      var rest, m := xs[1..], k - 1;
      assert !p(xs[0]);
      forall i | 0 <= i < m ensures !p(rest[i]) {
        assert rest[i] == xs[i + 1];
      }
      FirstWhereIs(rest, p, m);
    }
  }

  /** `[x for x in s if p(x)]`. */
  function Filter<T>(s: seq<T>, p: T -> bool): (r: seq<T>)
    ensures |r| <= |s|
    ensures forall i :: 0 <= i < |r| ==> r[i] in s && p(r[i])
    ensures forall i :: 0 <= i < |s| && p(s[i]) ==> s[i] in r
  {
    if s == [] then [] else (if p(s[0]) then [s[0]] else []) + Filter(s[1..], p)
  }

  /** `[f(x) for x in s]`. */
  function Map<T, U>(s: seq<T>, f: T -> U): (r: seq<U>)
    ensures |r| == |s| && forall i :: 0 <= i < |s| ==> r[i] == f(s[i])
  {
    if s == [] then [] else [f(s[0])] + Map(s[1..], f)
  }

  lemma {:induction false} FilterAppend<T>(a: seq<T>, b: seq<T>, p: T -> bool)
    ensures Filter(a + b, p) == Filter(a, p) + Filter(b, p)
  {
    if a != [] {
      assert (a + b)[1..] == a[1..] + b;
      FilterAppend(a[1..], b, p);
    } else {
      assert a + b == b;
    }
  }

  lemma {:induction false} MapAppend<T, U>(a: seq<T>, b: seq<T>, f: T -> U)
    ensures Map(a + b, f) == Map(a, f) + Map(b, f)
  {
    if a != [] {
      assert (a + b)[1..] == a[1..] + b;
      MapAppend(a[1..], b, f);
    } else {
      assert a + b == b;
    }
  }
}
