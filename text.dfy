/**
 * The Python `str` operations the crawlers and cleaners rely on, stated over
 * `string` (a sequence of Unicode scalar values): whitespace splitting and
 * joining, stripping, `replace`, `isdigit`, `int()` and `str()` of integers,
 * zero-padded formatting, and the character-class slug used for folder names.
 */
module Text {
  import opened Wrappers

  // ---------------------------------------------------------------- characters

  /** The characters `str.isspace()` accepts; `str.split()`, `str.strip()` and
      the regular-expression class `\s` all use this set. */
  predicate IsSpace(c: char) {
    ('\t' <= c <= '\r') || ('\U{1C}' <= c <= '\U{1F}') || c == ' ' ||
    c == '\U{85}' || c == '\U{A0}' || c == '\U{1680}' ||
    ('\U{2000}' <= c <= '\U{200A}') || c == '\U{2028}' || c == '\U{2029}' ||
    c == '\U{202F}' || c == '\U{205F}' || c == '\U{3000}'
  }

  predicate IsDigit(c: char) { '0' <= c <= '9' }

  predicate IsAsciiLower(c: char) { 'a' <= c <= 'z' }

  predicate IsAsciiLetter(c: char) { 'a' <= c <= 'z' || 'A' <= c <= 'Z' }

  /** The one-to-one lower-case mapping of `str.lower()` on the basic Latin
      letters, the Latin-1 letters, Latin Extended-A, the horned Ơ and Ư and
      Latin Extended Additional: every precomposed Vietnamese capital. The
      capital İ (U+0130), whose lower case is two characters, is left as it is. */
  function LowerChar(c: char): char {
    if 'A' <= c <= 'Z' || ('\U{C0}' <= c <= '\U{DE}' && c != '\U{D7}') then (c as int + 32) as char
    else if (('\U{100}' <= c <= '\U{137}' && c != '\U{130}') || '\U{14A}' <= c <= '\U{177}' ||
             '\U{1E00}' <= c <= '\U{1E95}' || '\U{1EA0}' <= c <= '\U{1EFF}') && c as int % 2 == 0 then
      (c as int + 1) as char
    else if ('\U{139}' <= c <= '\U{148}' || '\U{179}' <= c <= '\U{17E}') && c as int % 2 == 1 then
      (c as int + 1) as char
    else if c == '\U{178}' then '\U{FF}'
    else if c == '\U{1A0}' || c == '\U{1AF}' then (c as int + 1) as char
    else c
  }

  /** `str.lower()`, with `LowerChar` for each character. */
  function Lower(s: string): string {
    if s == [] then [] else [LowerChar(s[0])] + Lower(s[1..])
  }

  /** Lowering maps each character on its own. */
  lemma {:induction false} LowerAt(s: string)
    ensures |Lower(s)| == |s| && forall i :: 0 <= i < |s| ==> Lower(s)[i] == LowerChar(s[i])
  {
    if s != [] {
      LowerAt(s[1..]);
    }
  }

  /** `t` is the lower case of `s` when it is character by character. */
  lemma {:induction false} LowerIs(s: string, t: string)
    requires |s| == |t| && forall i :: 0 <= i < |s| ==> LowerChar(s[i]) == t[i]
    ensures Lower(s) == t
  {
    LowerAt(s);
  }

  /** No character of `s` has a different lower case. */
  predicate NoUpper(s: string) {
    forall i :: 0 <= i < |s| ==> LowerChar(s[i]) == s[i]
  }

  lemma {:induction false} LowerIdentity(s: string)
    requires NoUpper(s)
    ensures Lower(s) == s
  {
    if s != [] {
      assert NoUpper(s[1..]) by {
        forall i | 0 <= i < |s| - 1 ensures LowerChar(s[1..][i]) == s[1..][i] { assert s[1..][i] == s[i + 1]; }
      }
      LowerIdentity(s[1..]);
    }
  }

  /** Lower-casing twice is lower-casing once. */
  lemma LowerCharIdempotent(c: char)
    ensures LowerChar(LowerChar(c)) == LowerChar(c)
  {
  }

  /** Lower-casing a lower-case text changes nothing. */
  lemma LowerIdempotent(s: string)
    ensures Lower(Lower(s)) == Lower(s)
  {
    LowerNoUpper(s);
    LowerIdentity(Lower(s));
  }

  /** The lower case of a text has no upper case left. */
  lemma LowerNoUpper(s: string)
    ensures NoUpper(Lower(s))
  {
    LowerAt(s);
    forall i | 0 <= i < |s| ensures LowerChar(Lower(s)[i]) == Lower(s)[i] {
      LowerCharIdempotent(s[i]);
    }
  }

  // ---------------------------------------------------------------- affixes

  predicate StartsWith(s: string, p: string) { |p| <= |s| && s[..|p|] == p }

  predicate EndsWith(s: string, p: string) { |p| <= |s| && s[|s| - |p|..] == p }

  /** Python's `p in s` for strings. */
  predicate Contains(s: string, p: string)
    decreases |s|
  {
    StartsWith(s, p) || (s != [] && Contains(s[1..], p))
  }

  /** Every text contains itself. */
  lemma ContainsSelf(s: string)
    ensures Contains(s, s)
  {
    assert s[..|s|] == s;
  }

  /** `p` occurring at position `i` occurs in `s`. */
  lemma {:induction false} ContainsAt(s: string, p: string, i: nat)
    requires i <= |s| && StartsWith(s[i..], p)
    ensures Contains(s, p)
  {
    if i > 0 {
      assert s[1..][i - 1..] == s[i..];
      ContainsAt(s[1..], p, i - 1);
    }
  }

  /** A text without the first character of `p` does not contain `p`. */
  lemma {:induction false} NotContainsFirst(s: string, p: string)
    requires p != [] && p[0] !in s
    ensures !Contains(s, p)
    decreases |s|
  {
    if s != [] {
      assert s[0] != p[0];
      NotContainsFirst(s[1..], p);
    }
  }

  /** Drops the longest prefix whose characters all satisfy `drop`. */
  function TrimLeft(s: string, drop: char -> bool): (r: string)
    ensures |r| <= |s| && r == s[|s| - |r|..]
    ensures r == [] || !drop(r[0])
  {
    if s != [] && drop(s[0]) then TrimLeft(s[1..], drop) else s
  }

  /** Everything `TrimLeft` drops satisfies `drop`. */
  lemma {:induction false} TrimLeftDrops(s: string, drop: char -> bool)
    ensures forall i :: 0 <= i < |s| - |TrimLeft(s, drop)| ==> drop(s[i])
  {
    if s != [] && drop(s[0]) {
      TrimLeftDrops(s[1..], drop);
      assert forall i :: 1 <= i < |s| ==> s[i] == s[1..][i - 1];
    }
  }

  /** When the first `k` characters are droppable and the next one is not
      (or there is none), `TrimLeft` drops exactly those `k`. */
  lemma {:induction false} TrimLeftExact(s: string, drop: char -> bool, k: nat)
    requires k <= |s|
    requires forall i :: 0 <= i < k ==> drop(s[i])
    requires k == |s| || !drop(s[k])
    ensures TrimLeft(s, drop) == s[k..]
    decreases k
  {
    if k > 0 {
      assert drop(s[0]);
      TrimLeftExact(s[1..], drop, k - 1);
      assert s[1..][k - 1..] == s[k..];
    }
  }

  /** Splitting ignores leading whitespace. */
  lemma SplitTrimmed(s: string)
    ensures Split(TrimLeft(s, IsSpace)) == Split(s)
  {
    var t := TrimLeft(s, IsSpace);
    TrimLeftExact(t, IsSpace, 0);
  }

  /** A text has no words exactly when it is all whitespace. */
  lemma SplitEmpty(s: string)
    ensures Split(s) == [] <==> TrimLeft(s, IsSpace) == []
  {
  }

  /** Drops the longest suffix whose characters all satisfy `drop`. */
  function TrimRight(s: string, drop: char -> bool): (r: string)
    ensures |r| <= |s| && r == s[..|r|]
    ensures r == [] || !drop(r[|r| - 1])
  {
    if s != [] && drop(s[|s| - 1]) then TrimRight(s[..|s| - 1], drop) else s
  }

  /** `str.strip()`. */
  function Strip(s: string): string {
    TrimRight(TrimLeft(s, IsSpace), IsSpace)
  }

  /** Dropping at most one trailing space from a text that does not end in
      white space gives back that text. */
  lemma TrimRightPadded(j: string, u: string)
    requires u == j || u == j + " "
    requires j != [] && !IsSpace(j[|j| - 1])
    ensures TrimRight(u, IsSpace) == j
  {
    assert TrimRight(j, IsSpace) == j;
    if u != j {
      assert IsSpace(u[|u| - 1]);
      assert u[..|u| - 1] == j;
    }
  }

  /** Stripping a text padded by at most one space on each side gives back
      the text, when it neither starts nor ends with white space. */
  lemma StripPadded(lead: string, u: string, j: string)
    requires lead == [] || lead == " "
    requires u == j || u == j + " "
    requires j != [] && !IsSpace(j[0]) && !IsSpace(j[|j| - 1])
    ensures Strip(lead + u) == j
  {
    var s := lead + u;
    assert s[|lead|] == j[0];
    TrimLeftExact(s, IsSpace, |lead|);
    assert s[|lead|..] == u;
    TrimRightPadded(j, u);
  }

  /** A stripped string neither starts nor ends with white space. */
  lemma StripEdges(s: string)
    ensures var r := Strip(s); r == [] || (!IsSpace(r[0]) && !IsSpace(r[|r| - 1]))
  {
    var l := TrimLeft(s, IsSpace);
    var r := TrimRight(l, IsSpace);
    if r != [] {
      assert r[0] == l[0];
    }
  }

  /** `str.strip(c)` for a one-character argument. */
  function StripChar(s: string, c: char): string {
    TrimRight(TrimLeft(s, x => x == c), x => x == c)
  }

  /** Trimming both ends with `drop` leaves no droppable character at
      either end, and keeps only characters of the input. */
  lemma TrimBothEdges(s: string, drop: char -> bool)
    ensures var r := TrimRight(TrimLeft(s, drop), drop);
      (r == [] || (!drop(r[0]) && !drop(r[|r| - 1]))) && forall x :: x in r ==> x in s
  {
    var l := TrimLeft(s, drop);
    var r := TrimRight(l, drop);
    if r != [] {
      assert r[0] == l[0];
    }
    forall x | x in r ensures x in s {
      var i :| 0 <= i < |r| && r[i] == x;
      InSuffix(s, l, r, i);
    }
  }

  lemma InSuffix(s: string, l: string, r: string, i: nat)
    requires |l| <= |s| && l == s[|s| - |l|..]
    requires |r| <= |l| && r == l[..|r|]
    requires i < |r|
    ensures r[i] in s
  {
    assert r[i] == l[i] == s[|s| - |l| + i];
  }

  /** Stripping `c` leaves no `c` at either end, and drops only copies of `c`. */
  lemma StripCharEdges(s: string, c: char)
    ensures var r := StripChar(s, c);
      (r == [] || (r[0] != c && r[|r| - 1] != c)) && forall x :: x in r && x != c ==> x in s
  {
    var drop := x => x == c;
    assert StripChar(s, c) == TrimRight(TrimLeft(s, drop), drop);
    TrimBothEdges(s, drop);
  }

  /** A `c` left after stripping `c` from both ends sits strictly inside. */
  lemma StripCharInterior(s: string, c: char)
    requires c in StripChar(s, c)
    ensures var r := StripChar(s, c);
      |r| >= 3 && r[0] != c && r[|r| - 1] != c && c in r[1..|r| - 1]
  {
    var r := StripChar(s, c);
    StripCharEdges(s, c);
    var i :| 0 <= i < |r| && r[i] == c;
    assert 0 < i < |r| - 1;
    assert r[1..|r| - 1][i - 1] == c;
  }

  /** `str.rstrip(c)` for a one-character argument. */
  function RStripChar(s: string, c: char): string {
    TrimRight(s, x => x == c)
  }

  /** Trimming the end drops only characters that satisfy `drop`. */
  lemma {:induction false} TrimRightDropped(s: string, drop: char -> bool)
    ensures var r := TrimRight(s, drop); forall k :: |r| <= k < |s| ==> drop(s[k])
    decreases |s|
  {
    if s != [] && drop(s[|s| - 1]) {
      TrimRightDropped(s[..|s| - 1], drop);
    }
  }

  /** `s.rstrip(c)` is `s` without its trailing run of `c`. */
  lemma RStripSuffix(s: string, c: char)
    ensures var r := RStripChar(s, c);
      |r| <= |s| && r == s[..|r|] && (r == [] || r[|r| - 1] != c) &&
      forall k :: |r| <= k < |s| ==> s[k] == c
  {
    var drop := x => x == c;
    TrimRightDropped(s, drop);
  }

  /** A text is what `rstrip` keeps, then only the stripped character. */
  lemma RStripSplit(s: string, c: char)
    ensures var r := RStripChar(s, c);
      |r| <= |s| && s == r + s[|r|..] && forall k :: |r| <= k < |s| ==> s[k] == c
  {
    RStripSuffix(s, c);
  }

  /** `s.replace(pat, rep)`: every non-overlapping occurrence, scanning left to right. */
  function Replace(s: string, pat: string, rep: string): string
    requires pat != []
    decreases |s|
  {
    if |s| < |pat| then s
    else if s[..|pat|] == pat then rep + Replace(s[|pat|..], pat, rep)
    else [s[0]] + Replace(s[1..], pat, rep)
  }

  // ---------------------------------------------------------------- split / join

  /** A token of `str.split()`: non-empty and free of whitespace. */
  predicate IsToken(w: string) {
    w != [] && forall i :: 0 <= i < |w| ==> !IsSpace(w[i])
  }

  /** The longest whitespace-free prefix. */
  function TakeToken(s: string): (w: string)
    ensures |w| <= |s| && w == s[..|w|]
    ensures forall i :: 0 <= i < |w| ==> !IsSpace(w[i])
    ensures |w| < |s| ==> IsSpace(s[|w|])
    ensures s != [] && !IsSpace(s[0]) ==> w != []
  {
    if s == [] || IsSpace(s[0]) then [] else [s[0]] + TakeToken(s[1..])
  }

  /** `str.split()` with no separator: the maximal runs of non-whitespace. */
  function Split(s: string): (ws: seq<string>)
    ensures forall i :: 0 <= i < |ws| ==> IsToken(ws[i])
    decreases |s|
  {
    var t := TrimLeft(s, IsSpace);
    if t == [] then []
    else
      var w := TakeToken(t);
      var rest := Split(t[|w|..]);
      assert forall i :: 0 < i <= |rest| ==> ([w] + rest)[i] == rest[i - 1];
      [w] + rest
  }

  /** `" ".join(ws)`. */
  function Join(ws: seq<string>): string {
    if ws == [] then ""
    else if |ws| == 1 then ws[0]
    else ws[0] + " " + Join(ws[1..])
  }

  predicate AllTokens(ws: seq<string>) {
    forall i :: 0 <= i < |ws| ==> IsToken(ws[i])
  }

  lemma {:induction false} TakeTokenWhole(w: string, rest: string)
    requires forall i :: 0 <= i < |w| ==> !IsSpace(w[i])
    requires rest == [] || IsSpace(rest[0])
    ensures TakeToken(w + rest) == w
    decreases |w|
  {
    if w != [] {
      assert (w + rest)[1..] == w[1..] + rest;
      TakeTokenWhole(w[1..], rest);
    } else if rest != [] {
      assert (w + rest)[0] == rest[0];
    }
  }

  lemma SplitLeadingSpace(s: string)
    ensures Split(" " + s) == Split(s)
  {
    assert (" " + s)[1..] == s;
    assert TrimLeft(" " + s, IsSpace) == TrimLeft(s, IsSpace);
  }

  /** A token followed by whitespace (or nothing) is the first token. */
  lemma SplitCons(w: string, rest: string)
    requires IsToken(w)
    requires rest == [] || IsSpace(rest[0])
    ensures Split(w + rest) == [w] + Split(rest)
  {
    var s := w + rest;
    assert s[0] == w[0];
    assert TrimLeft(s, IsSpace) == s;
    TakeTokenWhole(w, rest);
    assert s[|w|..] == rest;
  }

  lemma SplitToken(w: string)
    requires IsToken(w)
    ensures Split(w) == [w]
  {
    SplitCons(w, []);
    assert w + [] == w;
    assert Split([]) == [];
  }

  /** Splitting a space-joined list of tokens gives the tokens back. */
  lemma {:induction false} SplitJoin(ws: seq<string>)
    requires AllTokens(ws)
    ensures Split(Join(ws)) == ws
  {
    if ws == [] {
    } else if |ws| == 1 {
      SplitToken(ws[0]);
    } else {
      SplitJoin(ws[1..]);
      SplitJoinStep(ws[0], ws[1..]);
      assert ws == [ws[0]] + ws[1..];
    }
  }

  lemma SplitJoinStep(w: string, rest: seq<string>)
    requires IsToken(w) && rest != []
    ensures Split(Join([w] + rest)) == [w] + Split(Join(rest))
  {
    var j := Join(rest);
    assert ([w] + rest)[1..] == rest;
    assert Join([w] + rest) == w + (" " + j);
    SplitCons(w, " " + j);
    SplitLeadingSpace(j);
  }

  /** Joining is injective on token lists: the text determines its tokens. */
  lemma JoinSplitJoin(ws: seq<string>)
    requires AllTokens(ws)
    ensures Join(Split(Join(ws))) == Join(ws)
  {
    SplitJoin(ws);
  }

  /** Words separated by exactly one space, nothing at either end. */
  predicate SingleSpaced(s: string) {
    s == Join(Split(s))
  }

  lemma JoinIsSingleSpaced(ws: seq<string>)
    requires AllTokens(ws)
    ensures SingleSpaced(Join(ws))
  {
    SplitJoin(ws);
  }

  /** A single-spaced text has no whitespace at either end, and every
      whitespace character in it is a lone ' ' between two non-space characters. */
  lemma {:induction false} JoinSpacing(ws: seq<string>)
    requires AllTokens(ws)
    ensures var s := Join(ws);
      (s == [] || (!IsSpace(s[0]) && !IsSpace(s[|s| - 1]))) &&
      forall i :: 0 <= i < |s| && IsSpace(s[i]) ==>
        s[i] == ' ' && 0 < i < |s| - 1 && !IsSpace(s[i - 1]) && !IsSpace(s[i + 1])
  {
    if |ws| >= 2 {
      var w, j := ws[0], Join(ws[1..]);
      JoinSpacing(ws[1..]);
      var s := w + " " + j;
      assert j != [] by { assert IsToken(ws[1]); JoinNonEmpty(ws[1..]); }
      forall i | 0 <= i < |s| && IsSpace(s[i])
        ensures s[i] == ' ' && 0 < i < |s| - 1 && !IsSpace(s[i - 1]) && !IsSpace(s[i + 1])
      {
        if i > |w| {
          assert s[i] == j[i - |w| - 1];
          assert i - |w| - 1 > 0;
          assert s[i - 1] == j[i - |w| - 2];
        }
      }
    }
  }

  lemma JoinNonEmpty(ws: seq<string>)
    requires AllTokens(ws) && ws != []
    ensures Join(ws) != [] && Join(ws)[0] == ws[0][0]
  {
  }

  // ---------------------------------------------------------------- integers

  /** `s.isdigit()`, for the ASCII digits. */
  predicate IsDigits(s: string) {
    s != [] && forall i :: 0 <= i < |s| ==> IsDigit(s[i])
  }

  /** The value of a run of decimal digits. */
  function DigitsValue(s: string): nat
    requires forall i :: 0 <= i < |s| ==> IsDigit(s[i])
  {
    if s == [] then 0
    else
      assert IsDigit(s[|s| - 1]);
      DigitsValue(s[..|s| - 1]) * 10 + (s[|s| - 1] as int - '0' as int)
  }

  function DigitChar(d: nat): char
    requires d < 10
  {
    ('0' as int + d) as char
  }

  /** `str(n)` for a natural number. */
  function NatToString(n: nat): (s: string)
    ensures IsDigits(s)
  {
    if n < 10 then [DigitChar(n)] else NatToString(n / 10) + [DigitChar(n % 10)]
  }

  /** `str(i)` for any integer. */
  function IntToString(i: int): string {
    if i < 0 then "-" + NatToString(-i) else NatToString(i)
  }

  /** Reading back the decimal text of a number gives the number. */
  lemma {:induction false} DigitsValueOfNatToString(n: nat)
    ensures DigitsValue(NatToString(n)) == n
  {
    if n >= 10 {
      var s := NatToString(n);
      assert s[..|s| - 1] == NatToString(n / 10);
      DigitsValueOfNatToString(n / 10);
    }
  }

  /** Different numbers have different decimal texts. */
  lemma NatToStringInjective(a: nat, b: nat)
    requires NatToString(a) == NatToString(b)
    ensures a == b
  {
    DigitsValueOfNatToString(a);
    DigitsValueOfNatToString(b);
  }

  /** `int(s)` on text: surrounding whitespace, an optional sign and at least one
      ASCII digit; anything else raises (`None`). */
  function ParseInt(s: string): (r: Option<int>)
    ensures IsDigits(Strip(s)) ==> r == Some(DigitsValue(Strip(s)))
  {
    var t := Strip(s);
    if IsDigits(t) then Some(DigitsValue(t))
    else if |t| >= 2 && (t[0] == '+' || t[0] == '-') && IsDigits(t[1..]) then
      Some(if t[0] == '-' then -(DigitsValue(t[1..]) as int) else DigitsValue(t[1..]) as int)
    else None
  }

  function Zeros(n: nat): (z: string)
    ensures |z| == n && forall i :: 0 <= i < n ==> z[i] == '0'
  {
    if n == 0 then [] else Zeros(n - 1) + "0"
  }

  /** `f"{n:0{width}d}"`: the decimal text, left-padded with zeros to `width`. */
  function ZeroPad(n: nat, width: nat): (s: string)
    ensures |s| >= width && IsDigits(s)
  {
    var d := NatToString(n);
    if |d| >= width then d else Zeros(width - |d|) + d
  }

  function Pow10(w: nat): nat {
    if w == 0 then 1 else 10 * Pow10(w - 1)
  }

  /** A number below `10^w` has at most `w` digits (and always at least one). */
  lemma {:induction false} NatToStringLength(n: nat, w: nat)
    requires w >= 1 && n < Pow10(w)
    ensures |NatToString(n)| <= w
  {
    if n >= 10 {
      assert Pow10(1) == 10;
      NatToStringLength(n / 10, w - 1);
    }
  }

  /** Leading zeros do not change the value of a run of digits. */
  lemma {:induction false} DigitsValueLeadingZeros(k: nat, d: string)
    requires forall i :: 0 <= i < |d| ==> IsDigit(d[i])
    ensures DigitsValue(Zeros(k) + d) == DigitsValue(d)
  {
    if d == [] {
      assert Zeros(k) + d == Zeros(k);
      if k > 0 {
        assert Zeros(k)[..k - 1] == Zeros(k - 1);
        DigitsValueLeadingZeros(k - 1, []);
        assert Zeros(k - 1) + [] == Zeros(k - 1);
      }
    } else {
      var s := Zeros(k) + d;
      assert s[..|s| - 1] == Zeros(k) + d[..|d| - 1];
      DigitsValueLeadingZeros(k, d[..|d| - 1]);
    }
  }

  /** Zero padding keeps the value: different numbers get different padded texts. */
  lemma ZeroPadInjective(a: nat, b: nat, width: nat)
    requires ZeroPad(a, width) == ZeroPad(b, width)
    ensures a == b
  {
    DigitsValueOfNatToString(a);
    DigitsValueOfNatToString(b);
    if |NatToString(a)| < width {
      DigitsValueLeadingZeros(width - |NatToString(a)|, NatToString(a));
    }
    if |NatToString(b)| < width {
      DigitsValueLeadingZeros(width - |NatToString(b)|, NatToString(b));
    }
  }

  /** Below `10^width`, the padded text is exactly `width` characters long. */
  lemma ZeroPadWidth(n: nat, width: nat)
    requires width >= 1 && n < Pow10(width)
    ensures |ZeroPad(n, width)| == width
  {
    NatToStringLength(n, width);
  }

  /** Two different texts of the same length stay different whatever
      follows them. */
  lemma PrefixesDiffer(a: string, b: string, x: string, y: string)
    requires |a| == |b| && a != b
    ensures a + x != b + y
  {
    var i :| 0 <= i < |a| && a[i] != b[i];
    assert (a + x)[i] == a[i] && (b + y)[i] == b[i];
  }

  // ---------------------------------------------------------------- slugs

  /** The class `[a-zA-Z0-9._-]` kept by both slug functions. */
  predicate IsSlugChar(c: char) {
    IsAsciiLetter(c) || IsDigit(c) || c == '.' || c == '_' || c == '-'
  }

  /** `re.sub(r"[^a-zA-Z0-9._-]+", "_", s)`: every maximal run of other
      characters becomes a single underscore. */
  function ReplaceRuns(s: string): (r: string)
    ensures forall i :: 0 <= i < |r| ==> IsSlugChar(r[i])
    decreases |s|
  {
    if s == [] then []
    else if IsSlugChar(s[0]) then [s[0]] + ReplaceRuns(s[1..])
    else "_" + ReplaceRuns(TrimLeft(s[1..], c => !IsSlugChar(c)))
  }

  /** `ReplaceRuns(s).strip("_")[:maxLen] or fallback`. */
  function Slugify(s: string, maxLen: nat, fallback: string): string {
    var t := StripChar(ReplaceRuns(s), '_');
    var u := if |t| <= maxLen then t else t[..maxLen];
    if u == [] then fallback else u
  }

  lemma ReplaceRunsKeepsClean(s: string)
    requires forall i :: 0 <= i < |s| ==> IsSlugChar(s[i])
    ensures ReplaceRuns(s) == s
  {
  }

  lemma TrimLeftKeeps(s: string, drop: char -> bool, keep: char -> bool)
    requires forall i :: 0 <= i < |s| ==> keep(s[i])
    ensures var r := TrimLeft(s, drop); forall i :: 0 <= i < |r| ==> keep(r[i])
  {
    var r := TrimLeft(s, drop);
    forall i | 0 <= i < |r| ensures keep(r[i]) {
      assert r[i] == s[|s| - |r| + i];
    }
  }

  /** `str.strip(c)` keeps only characters of the input and removes `c` from the front. */
  lemma StripCharFacts(s: string, c: char)
    requires forall i :: 0 <= i < |s| ==> IsSlugChar(s[i])
    ensures var r := StripChar(s, c);
      (r == [] || r[0] != c) && forall i :: 0 <= i < |r| ==> IsSlugChar(r[i])
  {
    var l := TrimLeft(s, x => x == c);
    TrimLeftKeeps(s, x => x == c, IsSlugChar);
    var r := TrimRight(l, x => x == c);
    assert forall i :: 0 <= i < |r| ==> r[i] == l[i];
  }

  /** A folder-name slug is never empty, uses only the slug characters (or
      is the fallback), never starts with '_', and is at most `maxLen` long
      unless it is the fallback. */
  lemma SlugifyShape(s: string, maxLen: nat, fallback: string)
    requires fallback != []
    ensures var r := Slugify(s, maxLen, fallback);
      r != [] &&
      (r == fallback || (|r| <= maxLen && r[0] != '_' &&
                         forall i :: 0 <= i < |r| ==> IsSlugChar(r[i])))
  {
    var t := StripChar(ReplaceRuns(s), '_');
    StripCharFacts(ReplaceRuns(s), '_');
    var u := if |t| <= maxLen then t else t[..maxLen];
    assert Slugify(s, maxLen, fallback) == if u == [] then fallback else u;
    assert forall i :: 0 <= i < |u| ==> u[i] == t[i];
  }

  /** A name that is already a clean slug is its own slug. */
  lemma {:induction false} SlugifyFixpoint(s: string, maxLen: nat, fallback: string)
    requires s != [] && |s| <= maxLen
    requires forall i :: 0 <= i < |s| ==> IsSlugChar(s[i])
    requires s[0] != '_' && s[|s| - 1] != '_'
    ensures Slugify(s, maxLen, fallback) == s
  {
    ReplaceRunsKeepsClean(s);
    assert TrimLeft(s, x => x == '_') == s;
    assert TrimRight(s, x => x == '_') == s;
  }
}
