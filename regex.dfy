/**
 * The fragment of Python's `re` that the cleaners use: a pattern is a list of
 * alternatives, each a sequence of single-character classes with a repeat
 * count `{lo,hi}` (greedy, with backtracking) and word boundaries `\b`.
 * `Sub` is `re.sub` with a literal replacement: the leftmost match wins, the
 * first alternative that matches at a position is taken, and scanning resumes
 * after the match.
 *
 * What counts as a word character for `\b` (Unicode `\w`) is a parameter.
 */
module Regex {
  import opened Wrappers
  import Text

  /** One pattern element. */
  datatype Atom =
    | Chars(accepts: char -> bool, lo: nat, hi: Option<nat>)  // [class]{lo,hi}; hi None is unbounded
    | Edge                                                    // \b

  type Pattern = seq<Atom>

  /** `\b` at position `p`: a word character on exactly one side. */
  predicate Boundary(s: string, p: nat, word: char -> bool)
    requires p <= |s|
  {
    (p > 0 && word(s[p - 1])) != (p < |s| && word(s[p]))
  }

  /** How many characters from `p` on the class accepts, capped at `hi`. */
  function RunLen(s: string, p: nat, acc: char -> bool, hi: Option<nat>): (n: nat)
    requires p <= |s|
    ensures p + n <= |s|
    ensures forall i :: p <= i < p + n ==> acc(s[i])
    ensures hi.Some? ==> n <= hi.value
    ensures p + n == |s| || !acc(s[p + n]) || (hi.Some? && n == hi.value)
    decreases |s| - p
  {
    if p == |s| || !acc(s[p]) || (hi.Some? && hi.value == 0) then 0
    else 1 + RunLen(s, p + 1, acc, if hi.Some? then Some(hi.value - 1) else None)
  }

  /** The end of the match of `pat` at `p` that the backtracking matcher finds
      first: every repeat tries its largest count first. */
  function Match(s: string, p: nat, pat: Pattern, word: char -> bool): (r: Option<nat>)
    requires p <= |s|
    ensures r.Some? ==> p <= r.value <= |s|
    decreases |pat|, 1, 0
  {
    if pat == [] then Some(p)
    else
      match pat[0]
      case Edge => if Boundary(s, p, word) then Match(s, p, pat[1..], word) else None
      case Chars(acc, lo, hi) =>
        var n := RunLen(s, p, acc, hi);
        if n < lo then None else TryCounts(s, p, pat[1..], word, lo, n)
  }

  /** Backtracking over the repeat count `k`, `k` down to `lo`. */
  function TryCounts(s: string, p: nat, rest: Pattern, word: char -> bool, lo: nat, k: nat): (r: Option<nat>)
    requires lo <= k && p + k <= |s|
    ensures r.Some? ==> p + lo <= r.value <= |s|
    decreases |rest| + 1, 0, k
  {
    match Match(s, p + k, rest, word)
    case Some(e) => Some(e)
    case None => if k == lo then None else TryCounts(s, p, rest, word, lo, k - 1)
  }

  /** `A|B|...` at one position: the first alternative that matches. */
  function MatchAny(s: string, p: nat, alts: seq<Pattern>, word: char -> bool): (r: Option<nat>)
    requires p <= |s|
    ensures r.Some? ==> p <= r.value <= |s|
  {
    if alts == [] then None
    else
      match Match(s, p, alts[0], word)
      case Some(e) => Some(e)
      case None => MatchAny(s, p, alts[1..], word)
  }

  /** `re.sub` from position `p` on. */
  function SubFrom(s: string, p: nat, alts: seq<Pattern>, rep: string, word: char -> bool): string
    requires p <= |s|
    decreases |s| - p
  {
    if p == |s| then []
    else
      var m := MatchAny(s, p, alts, word);
      if m.Some? && m.value > p then rep + SubFrom(s, m.value, alts, rep, word)
      else [s[p]] + SubFrom(s, p + 1, alts, rep, word)
  }

  /** `re.sub(alts, rep, s)` with a literal replacement. */
  function Sub(s: string, alts: seq<Pattern>, rep: string, word: char -> bool): string {
    SubFrom(s, 0, alts, rep, word)
  }

  // ---------------------------------------------------------------- pattern builders

  /** `[class]`: exactly one accepted character. */
  function One(acc: char -> bool): Atom { Chars(acc, 1, Some(1)) }

  /** `c`: the literal character. */
  function Char(c: char): Atom { One(x => x == c) }

  /** `[class]+`. */
  function Plus(acc: char -> bool): Atom { Chars(acc, 1, None) }

  /** `c?`. */
  function Opt(c: char): Atom { Chars(x => x == c, 0, Some(1)) }

  /** A literal string, character by character. */
  function Lit(t: string): Pattern {
    seq(|t|, i requires 0 <= i < |t| => Char(t[i]))
  }

  /** `\bt\b` for a literal `t`. */
  function Word(t: string): Pattern {
    [Edge] + Lit(t) + [Edge]
  }

  // ---------------------------------------------------------------- facts

  lemma LitTail(t: string, rest: Pattern)
    requires t != []
    ensures Lit(t) + rest == [Char(t[0])] + (Lit(t[1..]) + rest)
  {
    assert Lit(t) == [Char(t[0])] + Lit(t[1..]);
  }

  /** A one-character literal matches exactly that character. */
  lemma MatchChar(s: string, p: nat, c: char, rest: Pattern, word: char -> bool)
    requires p <= |s|
    ensures Match(s, p, [Char(c)] + rest, word) ==
            if p < |s| && s[p] == c then Match(s, p + 1, rest, word) else None
  {
    var pat := [Char(c)] + rest;
    assert pat[0] == Char(c) && pat[1..] == rest;
    var n := RunLen(s, p, x => x == c, Some(1));
    if p < |s| && s[p] == c { assert n == 1; } else { assert n == 0; }
  }

  /** A literal matches exactly where its text occurs, and then the rest of
      the pattern continues right after it. */
  lemma {:induction false} MatchLit(s: string, p: nat, t: string, rest: Pattern, word: char -> bool)
    requires p <= |s|
    ensures Match(s, p, Lit(t) + rest, word) ==
            if p + |t| <= |s| && s[p..p + |t|] == t then Match(s, p + |t|, rest, word) else None
    decreases |t|
  {
    if t == [] {
      assert Lit(t) + rest == rest;
    } else {
      LitTail(t, rest);
      MatchChar(s, p, t[0], Lit(t[1..]) + rest, word);
      if p < |s| && s[p] == t[0] {
        MatchLit(s, p + 1, t[1..], rest, word);
        if p + |t| <= |s| {
          assert s[p..p + |t|] == [s[p]] + s[p + 1..p + 1 + |t[1..]|];
          assert t == [t[0]] + t[1..];
        }
      } else if p + |t| <= |s| {
        assert s[p..p + |t|][0] == s[p];
      }
    }
  }

  /** `\bt\b` matches at `p` exactly when `t` occurs there with a word
      boundary on both sides; it then spans exactly `t`. */
  lemma MatchWord(s: string, p: nat, t: string, word: char -> bool)
    requires p <= |s|
    ensures Match(s, p, Word(t), word) ==
            if Boundary(s, p, word) && p + |t| <= |s| && s[p..p + |t|] == t && Boundary(s, p + |t|, word)
            then Some(p + |t|) else None
  {
    var w := Word(t);
    assert w[0] == Edge;
    assert w[1..] == Lit(t) + [Edge];
    MatchLit(s, p, t, [Edge], word);
    if p + |t| <= |s| {
      assert [Edge][1..] == [];
    }
  }

  /** With only the alternative `pat`, `MatchAny` is `Match`. */
  lemma MatchAnyOne(s: string, p: nat, pat: Pattern, word: char -> bool)
    requires p <= |s|
    ensures MatchAny(s, p, [pat], word) == Match(s, p, pat, word)
  {
    assert [pat][1..] == [];
  }

  /** A whole-word alternation matches `t` where the text holds `t` between two word boundaries. */
  lemma WordMatchAt(s: string, p: nat, t: string, word: char -> bool)
    requires p + |t| <= |s| && s[p..p + |t|] == t
    requires Boundary(s, p, word) && Boundary(s, p + |t|, word)
    ensures MatchAny(s, p, [Word(t)], word) == Some(p + |t|)
  {
    MatchAnyOne(s, p, Word(t), word);
    MatchWord(s, p, t, word);
  }

  /** Where no position from `p` on starts a non-empty match, `re.sub` copies the text. */
  lemma {:induction false} SubCopies(s: string, p: nat, alts: seq<Pattern>, rep: string, word: char -> bool)
    requires p <= |s|
    requires forall q :: p <= q < |s| ==> MatchAny(s, q, alts, word) in {None, Some(q)}
    ensures SubFrom(s, p, alts, rep, word) == s[p..]
    decreases |s| - p
  {
    if p < |s| {
      assert MatchAny(s, p, alts, word) in {None, Some(p)};
      SubCopies(s, p + 1, alts, rep, word);
      assert s[p..] == [s[p]] + s[p + 1..];
    }
  }

  /** Where no position in `[q, p)` starts a non-empty match, `re.sub` copies
      that stretch and carries on at `p`. */
  lemma {:induction false} SubCopiesUpTo(s: string, q: nat, p: nat, alts: seq<Pattern>, rep: string, word: char -> bool)
    requires q <= p <= |s|
    requires forall i :: q <= i < p ==> MatchAny(s, i, alts, word) in {None, Some(i)}
    ensures SubFrom(s, q, alts, rep, word) == s[q..p] + SubFrom(s, p, alts, rep, word)
    decreases p - q
  {
    if q < p {
      SubCopiesOne(s, q, alts, rep, word);
      SubCopiesUpTo(s, q + 1, p, alts, rep, word);
      SliceCons(s, q, p, SubFrom(s, p, alts, rep, word));
    } else {
      assert s[q..p] == [];
    }
  }

  /** A position that starts no non-empty match is copied. */
  lemma SubCopiesOne(s: string, q: nat, alts: seq<Pattern>, rep: string, word: char -> bool)
    requires q < |s| && MatchAny(s, q, alts, word) in {None, Some(q)}
    ensures SubFrom(s, q, alts, rep, word) == [s[q]] + SubFrom(s, q + 1, alts, rep, word)
  {
    var m := MatchAny(s, q, alts, word);
    assert !(m.Some? && m.value > q);
  }

  lemma SliceCons(s: string, q: nat, p: nat, x: string)
    requires q < p <= |s|
    ensures s[q..p] + x == [s[q]] + (s[q + 1..p] + x)
  {
    assert s[q..p] == [s[q]] + s[q + 1..p];
  }

  /** The scan from `q` reaches `p` when no match that starts in `[q, p)` runs
      past `p`: its output ends with what the scan from `p` writes. */
  lemma {:induction false} SubReaches(s: string, q: nat, p: nat, alts: seq<Pattern>, rep: string, word: char -> bool)
    requires q <= p <= |s|
    requires forall i :: q <= i < p ==> MatchAny(s, i, alts, word).None? || MatchAny(s, i, alts, word).value <= p
    ensures Text.EndsWith(SubFrom(s, q, alts, rep, word), SubFrom(s, p, alts, rep, word))
    decreases p - q
  {
    if q < p {
      var m := MatchAny(s, q, alts, word);
      var e := if m.Some? && m.value > q then m.value else q + 1;
      var head := if m.Some? && m.value > q then rep else [s[q]];
      assert SubFrom(s, q, alts, rep, word) == head + SubFrom(s, e, alts, rep, word);
      SubReaches(s, e, p, alts, rep, word);
      var x, y := SubFrom(s, e, alts, rep, word), SubFrom(s, p, alts, rep, word);
      assert (head + x)[|head + x| - |y|..] == x[|x| - |y|..];
    }
  }

  /** A pattern whose first class accepts none of the characters, and must
      take at least one, matches nowhere: `re.sub` leaves the text alone. */
  lemma SubSkipsRejected(s: string, pat: Pattern, rep: string, word: char -> bool)
    requires pat != [] && pat[0].Chars? && pat[0].lo >= 1
    requires forall i :: 0 <= i < |s| ==> !pat[0].accepts(s[i])
    ensures Sub(s, [pat], rep, word) == s
  {
    forall q | 0 <= q < |s| ensures MatchAny(s, q, [pat], word) == None {
      MatchAnyOne(s, q, pat, word);
      assert RunLen(s, q, pat[0].accepts, pat[0].hi) == 0;
    }
    SubCopies(s, 0, [pat], rep, word);
  }

  /** A single-character class: each accepted character becomes `rep`, every
      other one is copied. */
  lemma SubOneAt(s: string, p: nat, acc: char -> bool, rep: string, word: char -> bool)
    requires p < |s|
    ensures SubFrom(s, p, [[One(acc)]], rep, word) ==
            (if acc(s[p]) then rep else [s[p]]) + SubFrom(s, p + 1, [[One(acc)]], rep, word)
  {
    MatchAnyOne(s, p, [One(acc)], word);
    assert [One(acc)][1..] == [];
    if acc(s[p]) {
      assert RunLen(s, p, acc, Some(1)) == 1;
      assert TryCounts(s, p, [], word, 1, 1) == Some(p + 1);
    } else {
      assert RunLen(s, p, acc, Some(1)) == 0;
    }
  }

  /** A single-character class replaced by the one character `c`, from `p`
      on: the text keeps its length, and each accepted character becomes `c`. */
  lemma {:induction false} SubOneEach(s: string, p: nat, acc: char -> bool, c: char, word: char -> bool)
    requires p <= |s|
    ensures var r := SubFrom(s, p, [[One(acc)]], [c], word);
      |r| == |s| - p && forall i :: p <= i < |s| ==> r[i - p] == if acc(s[i]) then c else s[i]
    decreases |s| - p
  {
    if p < |s| {
      var q := p + 1;
      SubOneAt(s, p, acc, [c], word);
      SubOneEach(s, q, acc, c, word);
      var head := if acc(s[p]) then [c] else [s[p]];
      var tail := SubFrom(s, q, [[One(acc)]], [c], word);
      assert SubFrom(s, p, [[One(acc)]], [c], word) == head + tail;
      forall i | p <= i < |s|
        ensures (head + tail)[i - p] == if acc(s[i]) then c else s[i]
      {
        if i > p {
          assert (head + tail)[i - p] == tail[i - q];
        }
      }
    }
  }

  /** A single-character class that accepts only `e`, replaced by nothing,
      cuts `e` out. */
  lemma SubDropsOne(a: string, e: char, b: string, acc: char -> bool, word: char -> bool)
    requires acc(e)
    requires forall i :: 0 <= i < |a| ==> !acc(a[i])
    requires forall i :: 0 <= i < |b| ==> !acc(b[i])
    ensures Sub(a + [e] + b, [[One(acc)]], "", word) == a + b
  {
    var s := a + [e] + b;
    var pat := [[One(acc)]];
    OneRejectsAround(a, e, b, acc, word);
    SubCopiesUpTo(s, 0, |a|, pat, "", word);
    assert s[|a|] == e;
    SubOneAt(s, |a|, acc, "", word);
    var rest := SubFrom(s, |a| + 1, pat, "", word);
    assert SubFrom(s, |a|, pat, "", word) == "" + rest;
    assert "" + rest == rest;
    SubCopies(s, |a| + 1, pat, "", word);
    assert s[0..|a|] == a;
    assert s[|a| + 1..] == b;
  }

  lemma OneRejectsAround(a: string, e: char, b: string, acc: char -> bool, word: char -> bool)
    requires forall i :: 0 <= i < |a| ==> !acc(a[i])
    requires forall i :: 0 <= i < |b| ==> !acc(b[i])
    ensures forall q :: 0 <= q < |a + [e] + b| && q != |a| ==> MatchAny(a + [e] + b, q, [[One(acc)]], word) == None
  {
    var s := a + [e] + b;
    forall q | 0 <= q < |s| && q != |a| ensures MatchAny(s, q, [[One(acc)]], word) == None {
      if q < |a| { assert s[q] == a[q]; } else { assert s[q] == b[q - |a| - 1]; }
      OneRejects(s, q, acc, word);
    }
  }

  lemma OneRejects(s: string, q: nat, acc: char -> bool, word: char -> bool)
    requires q < |s| && !acc(s[q])
    ensures MatchAny(s, q, [[One(acc)]], word) == None
  {
    MatchAnyOne(s, q, [One(acc)], word);
    assert RunLen(s, q, acc, Some(1)) == 0;
  }

  /** Backtracking fails when the rest fails after every count it tries. */
  lemma {:induction false} TryCountsNone(s: string, p: nat, rest: Pattern, word: char -> bool, lo: nat, k: nat)
    requires lo <= k && p + k <= |s|
    requires forall j :: p + lo <= j <= p + k ==> Match(s, j, rest, word).None?
    ensures TryCounts(s, p, rest, word, lo, k) == None
    decreases k
  {
    assert Match(s, p + k, rest, word).None?;
    if k > lo {
      TryCountsNone(s, p, rest, word, lo, k - 1);
    }
  }

  /** A repeat followed only by `\b` ends where the repeat ends. */
  lemma {:induction false} TryCountsEdge(s: string, p: nat, word: char -> bool, lo: nat, k: nat)
    requires lo <= k && p + k <= |s|
    ensures TryCounts(s, p, [Edge], word, lo, k).Some? ==> TryCounts(s, p, [Edge], word, lo, k).value <= p + k
    decreases k
  {
    assert [Edge][1..] == [];
    if k > lo {
      TryCountsEdge(s, p, word, lo, k - 1);
    }
  }

  /** A non-empty match at `p` is replaced, and scanning goes on after it. */
  lemma SubAtMatch(s: string, p: nat, alts: seq<Pattern>, rep: string, word: char -> bool, e: nat)
    requires p < e <= |s| && MatchAny(s, p, alts, word) == Some(e)
    ensures SubFrom(s, p, alts, rep, word) == rep + SubFrom(s, e, alts, rep, word)
  {
  }

  /** A text whose leftmost non-empty match ends at `e` becomes the
      replacement followed by whatever the scan makes of the rest. */
  lemma SubFirstMatch(s: string, alts: seq<Pattern>, rep: string, word: char -> bool, e: nat, tail: string)
    requires 0 < e <= |s| && MatchAny(s, 0, alts, word) == Some(e)
    requires SubFrom(s, e, alts, rep, word) == tail
    ensures Sub(s, alts, rep, word) == rep + tail
  {
    SubAtMatch(s, 0, alts, rep, word, e);
  }

  /** Whole-word rules leave longer words alone: `t` followed by another word
      character is never matched at `p`. */
  lemma WordNeedsEnd(s: string, p: nat, t: string, word: char -> bool)
    requires t != [] && p + |t| < |s| && word(s[p + |t| - 1]) && word(s[p + |t|])
    ensures Match(s, p, Word(t), word) == None
  {
    MatchWord(s, p, t, word);
  }

  /** The run length is the number of accepted characters up to the first
      rejected one (or the end), or the cap when the run reaches it. */
  lemma {:induction false} RunLenExact(s: string, p: nat, acc: char -> bool, hi: Option<nat>, k: nat)
    requires p + k <= |s|
    requires forall i :: p <= i < p + k ==> acc(s[i])
    requires hi.None? || k <= hi.value
    requires p + k == |s| || !acc(s[p + k]) || (hi.Some? && k == hi.value)
    ensures RunLen(s, p, acc, hi) == k
    decreases k
  {
    if k > 0 {
      RunLenExact(s, p + 1, acc, if hi.Some? then Some(hi.value - 1) else None, k - 1);
    }
  }
}
