/**
 * The steps of Python's `urllib.parse.urlparse` and `urlunparse` that the
 * scraper's URL helpers rely on: the clean-up `urlsplit` applies to its
 * input, the scheme it recognises and lower-cases, the network location
 * after `//`, and the `ValueError` it raises on an unbalanced square
 * bracket there.
 */
module Urls {
  import opened Text
  import opened Seqs

  // ---------------------------------------------------------------- clean-up

  /** `_WHATWG_C0_CONTROL_OR_SPACE`: stripped from the start of a URL. */
  predicate IsC0OrSpace(c: char) { c <= ' ' }

  /** `_UNSAFE_URL_BYTES_TO_REMOVE`: tab, CR and LF, deleted everywhere. */
  predicate IsUnsafe(c: char) { c == '\t' || c == '\r' || c == '\n' }

  /** `s` with every tab, CR and LF deleted. */
  function DropUnsafe(s: string): (r: string)
    ensures |r| <= |s|
    decreases |s|
  {
    if s == [] then []
    else (if IsUnsafe(s[0]) then [] else [s[0]]) + DropUnsafe(s[1..])
  }

  /** The text `urlsplit` parses: the URL without its leading C0 controls
      and spaces, and without any tab, CR or LF. */
  function Sanitize(url: string): string {
    DropUnsafe(TrimLeft(url, IsC0OrSpace))
  }

  /** A text the clean-up of `urlsplit` leaves as it is. */
  predicate Sanitized(s: string) {
    (s == [] || !IsC0OrSpace(s[0])) && forall i :: 0 <= i < |s| ==> !IsUnsafe(s[i])
  }

  lemma {:induction false} DropUnsafeAppend(a: string, b: string)
    ensures DropUnsafe(a + b) == DropUnsafe(a) + DropUnsafe(b)
    decreases |a|
  {
    if a != [] {
      assert (a + b)[0] == a[0] && (a + b)[1..] == a[1..] + b;
      DropUnsafeAppend(a[1..], b);
      var h := if IsUnsafe(a[0]) then [] else [a[0]];
      AppendAssoc(h, DropUnsafe(a[1..]), DropUnsafe(b));
    } else {
      assert a + b == b;
    }
  }

  /** Deleting tab, CR and LF keeps the other characters, in order, and
      changes nothing in a text that has none. */
  lemma {:induction false} DropUnsafeShape(s: string)
    ensures var r := DropUnsafe(s);
      (forall i :: 0 <= i < |r| ==> !IsUnsafe(r[i]) && r[i] in s) &&
      (s != [] && !IsUnsafe(s[0]) ==> r != [] && r[0] == s[0]) &&
      ((forall i :: 0 <= i < |s| ==> !IsUnsafe(s[i])) ==> r == s)
    decreases |s|
  {
    if s != [] {
      DropUnsafeShape(s[1..]);
      var r, t := DropUnsafe(s), DropUnsafe(s[1..]);
      var h := if IsUnsafe(s[0]) then [] else [s[0]];
      assert r == h + t;
      forall i | 0 <= i < |r|
        ensures !IsUnsafe(r[i]) && r[i] in s
      {
        if i >= |h| {
          assert r[i] == t[i - |h|];
          assert t[i - |h|] in s[1..];
        }
      }
      if forall i :: 0 <= i < |s| ==> !IsUnsafe(s[i]) {
        assert forall i :: 0 <= i < |s[1..]| ==> !IsUnsafe(s[1..][i]) by {
          forall i | 0 <= i < |s[1..]| ensures !IsUnsafe(s[1..][i]) {
            assert s[1..][i] == s[i + 1];
          }
        }
        assert t == s[1..];
        assert r == [s[0]] + s[1..];
      }
    }
  }

  /** What `urlsplit` parses is sanitised, and a sanitised text is parsed as it is. */
  lemma SanitizeShape(url: string)
    ensures Sanitized(Sanitize(url))
    ensures Sanitized(url) ==> Sanitize(url) == url
  {
    var a := TrimLeft(url, IsC0OrSpace);
    DropUnsafeShape(a);
    if Sanitized(url) {
      TrimLeftExact(url, IsC0OrSpace, 0);
    }
  }

  /** A cut of a sanitised text, going on with a text free of tab, CR and
      LF (that does not start with a space when the cut is empty), is
      sanitised. */
  lemma PrefixSanitized(t: string, p: string, w: string)
    requires Sanitized(t) && |p| <= |t| && p == t[..|p|]
    requires forall k :: 0 <= k < |w| ==> !IsUnsafe(w[k])
    requires p == [] && w != [] ==> !IsC0OrSpace(w[0])
    ensures Sanitized(p + w)
  {
    var x := p + w;
    forall k | 0 <= k < |x|
      ensures !IsUnsafe(x[k])
    {
      if k < |p| {
        assert x[k] == t[k];
      } else {
        assert x[k] == w[k - |p|];
      }
    }
    if p != [] {
      assert x[0] == t[0];
    }
  }

  /** Trimming the start of `a + b` trims `a`, and `b` too when nothing of `a` is left. */
  lemma {:induction false} TrimLeftAppend(a: string, b: string, drop: char -> bool)
    ensures TrimLeft(a + b, drop) == if TrimLeft(a, drop) == [] then TrimLeft(b, drop) else TrimLeft(a, drop) + b
    decreases |a|
  {
    if a == [] {
      assert a + b == b;
    } else {
      assert (a + b)[0] == a[0] && (a + b)[1..] == a[1..] + b;
      if drop(a[0]) {
        TrimLeftAppend(a[1..], b, drop);
      } else {
        TrimLeftExact(a, drop, 0);
        TrimLeftExact(a + b, drop, 0);
      }
    }
  }

  /** Cleaning `a + b`, where `b` is already clean and `a` leaves something,
      cleans `a` and keeps `b`. */
  lemma SanitizeAppend(a: string, b: string)
    requires TrimLeft(a, IsC0OrSpace) != []
    requires forall i :: 0 <= i < |b| ==> !IsUnsafe(b[i])
    ensures Sanitize(a + b) == Sanitize(a) + b
  {
    TrimLeftAppend(a, b, IsC0OrSpace);
    DropUnsafeAppend(TrimLeft(a, IsC0OrSpace), b);
    DropUnsafeShape(b);
  }

  // ---------------------------------------------------------------- scheme

  /** `scheme_chars`: ASCII letters, digits, `+`, `-` and `.`. */
  predicate IsSchemeChar(c: char) {
    IsAsciiLetter(c) || IsDigit(c) || c == '+' || c == '-' || c == '.'
  }

  /** The scan for the `:` that ends a scheme, from position `k` on. */
  function SchemeScan(s: string, k: nat): (i: nat)
    requires k <= |s|
    ensures i == 0 || (k <= i < |s| && s[i] == ':' && forall j :: k <= j < i ==> IsSchemeChar(s[j]))
    decreases |s| - k
  {
    if k == |s| then 0
    else if s[k] == ':' then k
    else if IsSchemeChar(s[k]) then SchemeScan(s, k + 1)
    else 0
  }

  /** The length of the scheme `urlsplit` finds, 0 when it finds none. */
  function SchemeLen(s: string): (i: nat)
    ensures i == 0 || (0 < i < |s| && s[i] == ':' && IsAsciiLetter(s[0]) &&
                       forall j :: 0 <= j < i ==> IsSchemeChar(s[j]))
  {
    if s != [] && IsAsciiLetter(s[0]) then SchemeScan(s, 1) else 0
  }

  lemma {:induction false} SchemeScanExact(s: string, k: nat, i: nat)
    requires k <= i < |s| && s[i] == ':'
    requires forall j :: k <= j < i ==> IsSchemeChar(s[j])
    ensures SchemeScan(s, k) == i
    decreases i - k
  {
    if k < i {
      SchemeScanExact(s, k + 1, i);
    }
  }

  /** The converse of the contract of `SchemeLen`: a text that starts with
      an ASCII letter and holds only scheme characters before a `:` has
      that text as its scheme. */
  lemma SchemeLenExact(s: string, i: nat)
    requires 0 < i < |s| && s[i] == ':' && IsAsciiLetter(s[0])
    requires forall j :: 0 <= j < i ==> IsSchemeChar(s[j])
    ensures SchemeLen(s) == i
  {
    SchemeScanExact(s, 1, i);
  }

  lemma {:induction false} SchemeScanPrefix(s: string, p: string, w: string, k: nat)
    requires |p| <= |s| && p == s[..|p|] && k <= |p|
    requires w == [] || w[0] == '/'
    requires SchemeScan(s, k) > 0 ==> |p| > SchemeScan(s, k)
    ensures SchemeScan(p + w, k) == SchemeScan(s, k)
    decreases |p| - k
  {
    var x := p + w;
    if k < |p| {
      assert x[k] == s[k];
      if s[k] != ':' && IsSchemeChar(s[k]) {
        SchemeScanPrefix(s, p, w, k + 1);
      }
    } else if k < |x| {
      assert x[k] == w[0];
    }
  }

  /** The text after the scheme's `:` starts here. */
  function RestStart(s: string): (j: nat)
    ensures j <= |s|
  {
    if SchemeLen(s) > 0 then SchemeLen(s) + 1 else 0
  }

  /** Keeping the start of a URL through its scheme, and going on with
      nothing or with a `/`, keeps the scheme. */
  lemma SchemePrefix(s: string, p: string, w: string)
    requires |p| <= |s| && p == s[..|p|]
    requires w == [] || w[0] == '/'
    requires SchemeLen(s) > 0 ==> |p| > SchemeLen(s)
    ensures SchemeLen(p + w) == SchemeLen(s) && RestStart(p + w) == RestStart(s)
  {
    var x := p + w;
    if p != [] {
      assert x[0] == s[0];
      if IsAsciiLetter(s[0]) {
        SchemeScanPrefix(s, p, w, 1);
      }
    }
  }

  function AsciiLowerChar(c: char): char {
    if 'A' <= c <= 'Z' then (c as int + 32) as char else c
  }

  /** `str.lower()` on ASCII text. */
  function AsciiLower(s: string): (r: string)
    ensures |r| == |s|
  {
    seq(|s|, k requires 0 <= k < |s| => AsciiLowerChar(s[k]))
  }

  /** The URL with its scheme in lower case, as `urlsplit` returns it. */
  function LowerScheme(s: string): (r: string)
    ensures |r| == |s|
  {
    var i := SchemeLen(s);
    AsciiLower(s[..i]) + s[i..]
  }

  /** Lower-casing the scheme keeps the scheme's length, the text after it
      and a sanitised text sanitised, and a second time changes nothing. */
  lemma LowerSchemeShape(s: string)
    ensures var r := LowerScheme(s);
      SchemeLen(r) == SchemeLen(s) && RestStart(r) == RestStart(s) &&
      r[SchemeLen(s)..] == s[SchemeLen(s)..] &&
      (Sanitized(s) ==> Sanitized(r)) && LowerScheme(r) == r
  {
    var i, r := SchemeLen(s), LowerScheme(s);
    if i == 0 {
      assert r == s;
      assert LowerScheme(r) == AsciiLower([]) + r[0..];
    } else {
      assert forall j :: 0 <= j < i ==> r[j] == AsciiLowerChar(s[j]);
      assert r[i] == ':';
      SchemeLenExact(r, i);
      assert r[..i] == AsciiLower(s[..i]);
      assert AsciiLower(r[..i]) == r[..i];
      assert r[i..] == s[i..];
    }
  }

  /** A URL whose scheme is already in lower case keeps that under a cut
      that leaves the scheme, as `SchemePrefix` allows. */
  lemma LowerSchemePrefix(t: string, p: string, w: string)
    requires |p| <= |t| && p == t[..|p|] && LowerScheme(t) == t
    requires SchemeLen(p + w) == SchemeLen(t) && SchemeLen(t) <= |p|
    ensures LowerScheme(p + w) == p + w
  {
    var i, x := SchemeLen(t), p + w;
    assert x[..i] == t[..i];
    assert AsciiLower(t[..i]) + t[i..] == t;
    assert AsciiLower(t[..i]) == t[..i];
    assert x[i..] == p[i..] + w;
  }

  // ---------------------------------------------------------------- network location

  predicate IsAuthorityEnd(c: char) { c == '/' || c == '?' || c == '#' }

  /** `_splitnetloc`: the first `/`, `?` or `#` at or after `k`, or the end. */
  function NetEnd(s: string, k: nat): (e: nat)
    requires k <= |s|
    ensures k <= e <= |s| && (e == |s| || IsAuthorityEnd(s[e]))
    ensures forall j :: k <= j < e ==> !IsAuthorityEnd(s[j])
    decreases |s| - k
  {
    if k == |s| || IsAuthorityEnd(s[k]) then k else NetEnd(s, k + 1)
  }

  lemma {:induction false} NetEndAt(s: string, k: nat, e: nat)
    requires k <= e <= |s| && (e == |s| || IsAuthorityEnd(s[e]))
    requires forall j :: k <= j < e ==> !IsAuthorityEnd(s[j])
    ensures NetEnd(s, k) == e
    decreases e - k
  {
    if k < e {
      NetEndAt(s, k + 1, e);
    }
  }

  /** The text after the scheme opens a network location: it starts with `//`. */
  predicate HasNetloc(rest: string) {
    |rest| >= 2 && rest[0] == '/' && rest[1] == '/'
  }

  /** Where the network location of the text after the scheme ends, 0
      when there is none. */
  function AuthEnd(rest: string): (e: nat)
    ensures e <= |rest|
  {
    if HasNetloc(rest) then NetEnd(rest, 2) else 0
  }

  /** `urlsplit` raises `ValueError("Invalid IPv6 URL")` on the text after
      the scheme: its network location holds one square bracket but not
      the other. */
  predicate RaisesRest(rest: string) {
    HasNetloc(rest) && var n := rest[2..AuthEnd(rest)]; ('[' in n) != (']' in n)
  }

  /** `urlsplit` raises on the sanitised URL `s`. */
  predicate Raises(s: string) {
    RaisesRest(s[RestStart(s)..])
  }

  /** Cutting the text after the scheme no earlier than the end of its
      network location, and going on with nothing or with a `/` that does
      not open a new network location, keeps the network location. */
  lemma RestPrefix(rt: string, q: string, w: string)
    requires |q| <= |rt| && q == rt[..|q|] && |q| >= AuthEnd(rt)
    requires w == [] || (w[0] == '/' && (|w| == 1 || w[1] != '/'))
    requires |q| == 1 ==> w == [] || q[0] != '/'
    ensures RaisesRest(q + w) == RaisesRest(rt)
  {
    var x := q + w;
    if |q| >= 2 {
      assert x[0] == rt[0] && x[1] == rt[1];
      if HasNetloc(rt) {
        var e := AuthEnd(rt);
        assert forall j :: 2 <= j < e ==> x[j] == rt[j];
        if e < |q| {
          assert x[e] == rt[e];
        } else if e < |x| {
          assert x[e] == w[0];
        }
        NetEndAt(x, 2, e);
        assert x[2..e] == rt[2..e];
      }
    } else if |q| == 1 {
      assert x[0] == q[0];
    }
  }

  /** A URL kept through its scheme and its network location, going on with
      nothing or with a `/` that does not open a new network location, raises
      exactly when the URL does. */
  lemma UrlPrefix(t: string, p: string, w: string)
    requires |p| <= |t| && p == t[..|p|]
    requires w == [] || (w[0] == '/' && (|w| == 1 || w[1] != '/'))
    requires |p| >= RestStart(t) + AuthEnd(t[RestStart(t)..])
    requires |p| == RestStart(t) + 1 ==> w == [] || p[|p| - 1] != '/'
    ensures SchemeLen(p + w) == SchemeLen(t) && RestStart(p + w) == RestStart(t)
    ensures Raises(p + w) == Raises(t)
  {
    SchemePrefix(t, p, w);
    var j := RestStart(t);
    var rt, q := t[j..], p[j..];
    assert q == rt[..|q|];
    RestPrefix(rt, q, w);
    assert (p + w)[j..] == q + w;
  }

  /** A URL kept up to the end of its scheme and going on with a `/` that
      does not open a network location does not raise. */
  lemma UrlPrefixAtRest(t: string, p: string, w: string)
    requires |p| <= |t| && p == t[..|p|] && |p| == RestStart(t)
    requires w == [] || (w[0] == '/' && (|w| == 1 || w[1] != '/'))
    ensures SchemeLen(p + w) == SchemeLen(t) && RestStart(p + w) == RestStart(t)
    ensures !Raises(p + w)
  {
    SchemePrefix(t, p, w);
    var j := RestStart(t);
    assert (p + w)[j..] == w;
  }

  /** A network location that raises holds a square bracket. */
  lemma RaisesHasBracket(rt: string) returns (b: nat)
    requires RaisesRest(rt)
    ensures 2 <= b < AuthEnd(rt) && (rt[b] == '[' || rt[b] == ']')
  {
    var n := rt[2..AuthEnd(rt)];
    var c := if '[' in n then '[' else ']';
    var k :| 0 <= k < |n| && n[k] == c;
    b := k + 2;
  }

  // ---------------------------------------------------------------- query and fragment

  /** The URL up to its first `?` or `#`. */
  function CutQueryFragment(url: string): (r: string)
    ensures |r| <= |url| && r == url[..|r|]
    ensures '?' !in r && '#' !in r
    ensures |r| < |url| ==> url[|r|] == '?' || url[|r|] == '#'
  {
    if url == [] || url[0] == '?' || url[0] == '#' then []
    else [url[0]] + CutQueryFragment(url[1..])
  }

  /** A URL with neither query nor fragment is not cut. */
  lemma {:induction false} CutQueryFragmentClean(url: string)
    requires '?' !in url && '#' !in url
    ensures CutQueryFragment(url) == url
  {
    if url != [] {
      assert url[0] in url;
      assert forall c :: c in url[1..] ==> c in url;
      CutQueryFragmentClean(url[1..]);
    }
  }

  /** The cut stops at the first `?` or `#`, at position `n`. */
  lemma {:induction false} CutQueryFragmentAt(url: string, n: nat)
    requires n <= |url| && forall j :: 0 <= j < n ==> url[j] != '?' && url[j] != '#'
    requires n == |url| || url[n] == '?' || url[n] == '#'
    ensures CutQueryFragment(url) == url[..n]
    decreases n
  {
    if n > 0 {
      var m := n - 1;
      CutQueryFragmentAt(url[1..], m);
      assert url[..n] == [url[0]] + url[1..][..m];
    }
  }
}
