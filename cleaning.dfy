/**
 * The comment cleaner for crawled Dien May Xanh reviews: unit conversion of
 * the "used for" column, stopword removal, the abbreviation rules applied in
 * order, the comment pipeline, and the row filters applied to a review table.
 *
 * What `\b` and `\w` treat as a word character is the parameter `word`.
 */
module Cleaning {
  import opened Wrappers
  import opened Text
  import opened Regex
  import opened Seqs

  // ---------------------------------------------------------------- time units

  datatype Unit = Year | Month | Week | Day

  function UnitName(u: Unit): string {
    match u
    case Year => "năm"
    case Month => "tháng"
    case Week => "tuần"
    case Day => "ngày"
  }

  function DaysPer(u: Unit): nat {
    match u
    case Year => 365
    case Month => 30
    case Week => 7
    case Day => 1
  }

  /** The unit alternation `(năm|tháng|tuần|ngày)` at position `q`, tried in that order. */
  function UnitAt(s: string, q: nat): Option<Unit>
    requires q <= |s|
  {
    var t := s[q..];
    if StartsWith(t, "năm") then Some(Year)
    else if StartsWith(t, "tháng") then Some(Month)
    else if StartsWith(t, "tuần") then Some(Week)
    else if StartsWith(t, "ngày") then Some(Day)
    else None
  }

  /** `(\d+)\s*(năm|tháng|tuần|ngày)` matched at `p`: the number and the unit.
      Greedy `\d+` and `\s*` never need to give characters back here, since
      neither a digit nor a space can start a unit. */
  function DurationAt(s: string, p: nat): Option<(nat, Unit)>
    requires p <= |s|
  {
    var n := RunLen(s, p, IsDigit, None);
    if n == 0 then None
    else
      var q := p + n + RunLen(s, p + n, IsSpace, None);
      var digits := s[p..p + n];
      RunSlice(s, p, digits, IsDigit);
      match UnitAt(s, q)
      case None => None
      case Some(u) => Some((DigitsValue(digits), u))
  }

  lemma RunSlice(s: string, p: nat, d: string, acc: char -> bool)
    requires p + |d| <= |s| && d == s[p..p + |d|]
    requires forall i :: p <= i < p + |d| ==> acc(s[i])
    ensures forall i :: 0 <= i < |d| ==> acc(d[i])
  {
    forall i | 0 <= i < |d| ensures acc(d[i]) { assert d[i] == s[p + i]; }
  }

  /** `re.search`: the leftmost position from `p` on where the duration matches. */
  function SearchDuration(s: string, p: nat): Option<(nat, Unit)>
    requires p <= |s|
    decreases |s| - p
  {
    var d := DurationAt(s, p);
    if d.Some? || p == |s| then d else SearchDuration(s, p + 1)
  }

  /** `convert_time_to_days`: the first "N unit" in the lowered text, as a
      number of days in decimal, or "N/A". */
  function ConvertTimeToDays(time: string): string {
    match SearchDuration(Lower(time), 0)
    case None => "N/A"
    case Some((v, u)) => NatToString(v * DaysPer(u))
  }

  lemma NoUpperConcat(a: string, b: string)
    requires NoUpper(a) && NoUpper(b)
    ensures NoUpper(a + b)
  {
    forall i | 0 <= i < |a + b| ensures !('A' <= (a + b)[i] <= 'Z') {
      if i >= |a| { assert (a + b)[i] == b[i - |a|]; }
    }
  }

  /** The unit alternation picks the unit whose name the text starts with. */
  lemma UnitAtName(s: string, q: nat, u: Unit)
    requires q <= |s| && StartsWith(s[q..], UnitName(u))
    ensures UnitAt(s, q) == Some(u)
  {
    var t := s[q..];
    assert t[0] == UnitName(u)[0];
    assert t[1] == UnitName(u)[1];
  }

  lemma DurationAtParts(s: string, k: nat, m: nat, u: Unit)
    requires 0 < k && k + m <= |s|
    requires RunLen(s, 0, IsDigit, None) == k && RunLen(s, k, IsSpace, None) == m
    requires UnitAt(s, k + m) == Some(u)
    ensures DurationAt(s, 0) == Some((DigitsValue(s[..k]), u))
  {
    assert s[0..k] == s[..k];
  }

  /** The duration pattern at 0 on text made of `k` digits, `m` spaces and a unit name. */
  lemma DurationAtStart(s: string, k: nat, m: nat, u: Unit)
    requires 0 < k && k + m < |s|
    requires forall i :: 0 <= i < k ==> IsDigit(s[i])
    requires forall i :: k <= i < k + m ==> IsSpace(s[i])
    requires StartsWith(s[k + m..], UnitName(u))
    ensures DurationAt(s, 0) == Some((DigitsValue(s[..k]), u))
  {
    UnitNameFirst(u);
    assert s[k + m] == s[k + m..][0] == UnitName(u)[0];
    NotDigitAfterSpaces(s, k, m);
    RunLenExact(s, 0, IsDigit, None, k);
    RunLenExact(s, k, IsSpace, None, m);
    UnitAtName(s, k + m, u);
    DurationAtParts(s, k, m, u);
  }

  /** No unit name starts with a digit or a space. */
  lemma UnitNameFirst(u: Unit)
    ensures |UnitName(u)| > 0 && !IsDigit(UnitName(u)[0]) && !IsSpace(UnitName(u)[0])
  {
  }

  lemma NotDigitAfterSpaces(s: string, k: nat, m: nat)
    requires k + m < |s| && !IsDigit(s[k + m]) && !IsSpace(s[k + m])
    requires forall i :: k <= i < k + m ==> IsSpace(s[i])
    ensures !IsDigit(s[k]) && !IsSpace(s[k + m])
  {
    if m > 0 { assert IsSpace(s[k]); }
  }

  lemma SpacesNoUpper(sep: string)
    requires forall i :: 0 <= i < |sep| ==> IsSpace(sep[i])
    ensures NoUpper(sep)
  {
  }

  /** "N unit" converts to N times the unit's days, whatever follows: only the
      leftmost match counts. */
  lemma ConvertExact(n: nat, u: Unit, sep: string, rest: string)
    requires forall i :: 0 <= i < |sep| ==> IsSpace(sep[i])
    requires NoUpper(rest)
    ensures ConvertTimeToDays(NatToString(n) + sep + UnitName(u) + rest) == NatToString(n * DaysPer(u))
  {
    var s := NatToString(n) + sep + UnitName(u) + rest;
    ExactNoUpper(n, u, sep, rest);
    LowerIdentity(s);
    ExactDuration(n, u, sep, rest);
  }

  lemma ExactNoUpper(n: nat, u: Unit, sep: string, rest: string)
    requires forall i :: 0 <= i < |sep| ==> IsSpace(sep[i])
    requires NoUpper(rest)
    ensures NoUpper(NatToString(n) + sep + UnitName(u) + rest)
  {
    var d := NatToString(n);
    var name := UnitName(u);
    SpacesNoUpper(sep);
    NoUpperConcat(d, sep);
    assert NoUpper(name);
    NoUpperConcat(d + sep, name);
    NoUpperConcat(d + sep + name, rest);
  }

  lemma ExactDuration(n: nat, u: Unit, sep: string, rest: string)
    requires forall i :: 0 <= i < |sep| ==> IsSpace(sep[i])
    ensures DurationAt(NatToString(n) + sep + UnitName(u) + rest, 0) == Some((n, u))
  {
    var d := NatToString(n);
    var name := UnitName(u);
    var s := d + sep + name + rest;
    assert s[|d| + |sep|..] == name + rest;
    assert s[..|d|] == d;
    assert (name + rest)[..|name|] == name;
    DurationAtStart(s, |d|, |sep|, u);
    DigitsValueOfNatToString(n);
  }

  lemma {:induction false} SearchNoDigits(s: string, p: nat)
    requires p <= |s|
    requires forall i :: p <= i < |s| ==> !IsDigit(s[i])
    ensures SearchDuration(s, p) == None
    decreases |s| - p
  {
    if p < |s| {
      SearchNoDigits(s, p + 1);
    }
  }

  /** Text without a digit (a missing cell reads as "nan") has no duration. */
  lemma ConvertNoDigits(time: string)
    requires forall i :: 0 <= i < |time| ==> !IsDigit(time[i])
    ensures ConvertTimeToDays(time) == "N/A"
  {
    var l := Lower(time);
    LowerAt(time);
    assert forall i :: 0 <= i < |l| ==> !IsDigit(l[i]);
    SearchNoDigits(l, 0);
  }

  // ---------------------------------------------------------------- stopwords

  const STOPWORDS: set<string> := {
    "và", "là", "có", "những", "của", "cho", "này", "đó", "đc", "dc", "cái", "rất",
    "bên", "nên", "sẽ", "với", "tại", "ra", "vào", "để", "đang", "vẫn", "thì", "mình",
    "tôi", "ta", "bạn", "chúng", "anh", "chị", "em", "ông", "bà", "họ", "ai", "đây",
    "kia", "ấy", "nọ", "nữa", "luôn", "cũng", "hết", "gì", "sao", "ừ", "à", "ừm", "mà",
    "thôi", "rồi", "nha", "nhé", "vậy", "lăm", "thế", "đi", "lại", "cần", "chỉ", "kiểu",
    "như", "khi", "nào", "trong", "ngoài", "trên", "dưới", "quá", "hơi", "nhưng", "tất",
    "cả", "đều", "một", "hai", "ba", "bốn", "năm", "sáu", "bảy", "tám", "chín", "mười"
  }

  predicate IsKept(w: string) { w !in STOPWORDS }

  /** `remove_stopwords`: the words of the comment that are not stopwords, one space apart. */
  function RemoveStopwords(comment: string): string {
    Join(Filter(Split(comment), IsKept))
  }

  lemma FilterTokens(ws: seq<string>, p: string -> bool)
    requires AllTokens(ws)
    ensures AllTokens(Filter(ws, p))
  {
    var r := Filter(ws, p);
    forall i | 0 <= i < |r| ensures IsToken(r[i]) {
      assert r[i] in ws;
    }
  }

  /** The result re-splits into exactly the kept words in their order, is
      single-spaced, and holds a word exactly when the comment does and it
      is not a stopword. */
  lemma RemoveStopwordsFacts(comment: string)
    ensures Split(RemoveStopwords(comment)) == Filter(Split(comment), IsKept)
    ensures SingleSpaced(RemoveStopwords(comment))
    ensures forall w :: w in Split(RemoveStopwords(comment)) <==> w in Split(comment) && w !in STOPWORDS
  {
    var ws := Split(comment);
    FilterTokens(ws, IsKept);
    SplitJoin(Filter(ws, IsKept));
    forall w | w in ws && w !in STOPWORDS ensures w in Filter(ws, IsKept) {
      var i :| 0 <= i < |ws| && ws[i] == w;
    }
  }

  // ---------------------------------------------------------------- abbreviations

  /** One `re.sub(pattern, replacement, text)` step of `normalize_text`. */
  datatype Rule = Rule(pattern: Pattern, replacement: string)

  /** `\bt\b` replaced by `rep`. */
  function W(t: string, rep: string): Rule { Rule(Word(t), rep) }

  /** The replacement table in dictionary order. The literal lists `\bsài\b`,
      `\bạ\b` and `\bđc\b` twice; a dictionary keeps each key once, at its
      first position (the repeated values are equal). */
  const RULES: seq<Rule> := [
      W("ko", "không"),
      W("k", "không"),
      W("kh", "không"),
      W("khg", "không"),
      Rule([Edge] + Lit("kh") + [Opt('g'), Edge], "không"),
      W("kg", "không"),
      Rule([Edge, Char('k'), Opt('o'), Plus(IsSpace)] + Lit("dc") + [Edge], "không được"),
      W("đc", "được"),
      W("dk", "được"),
      W("dc", "được"),
      W("bth", "bình thường"),
      W("bt", "bình thường"),
      W("sp", "sản phẩm"),
      W("quạt đh", "quạt điều hòa"),
      W("đmx", "điện máy xanh"),
      W("dmx", "điện máy xanh"),
      W("sdt", "số điện thoại"),
      W("sđt", "số điện thoại"),
      W("thanks", "cảm ơn"),
      W("tks", "cảm ơn"),
      W("ok", "ổn"),
      W("okela", "ổn"),
      W("sài", "xài"),
      W("sử dung", "sử dụng"),
      W("hj", ""),
      W("ạ", ""),
      W("tgian", "thời gian"),
      W("remot", "remote"),
      W("tốt", "tốt"),
      W("tôt", "tốt"),
      Rule([Edge] + Lit("tot") + [Opt('t'), Edge], "tốt"),
      W("sx", "sản xuất"),
      W("qc", "quảng cáo"),
      W("hđ", "hoạt động"),
      W("hư", "hỏng"),
      W("ngon", "tốt"),
      W("mát lịm", "mát lạnh"),
      W("mát lịm tim", "mát lạnh"),
      W("rẻ tiền", "rẻ"),
      W("bố láo", "nói chuyện hỗn")
  ]

  function ApplyRule(r: Rule, text: string, word: char -> bool): string {
    Sub(text, [r.pattern], r.replacement, word)
  }

  /** The rules applied one after another, each to the previous result. */
  function ApplyRules(rules: seq<Rule>, text: string, word: char -> bool): string {
    if rules == [] then text
    else ApplyRule(rules[|rules| - 1], ApplyRules(rules[..|rules| - 1], text, word), word)
  }

  /** Applying a list of rules is applying its first part, then its second. */
  lemma {:induction false} ApplyRulesAppend(a: seq<Rule>, b: seq<Rule>, text: string, word: char -> bool)
    ensures ApplyRules(a + b, text, word) == ApplyRules(b, ApplyRules(a, text, word), word)
  {
    if b == [] {
      assert a + b == a;
    } else {
      ApplyRulesAppend(a, b[..|b| - 1], text, word);
      assert (a + b)[..|a + b| - 1] == a + b[..|b| - 1];
    }
  }

  /** `normalize_text`. */
  method NormalizeText(text: string, word: char -> bool) returns (r: string)
    ensures r == ApplyRules(RULES, text, word)
  {
    var rules := RULES;
    r := text;
    for i := 0 to |rules|
      invariant r == ApplyRules(rules[..i], text, word)
    {
      assert rules[..i + 1][..i] == rules[..i];
      r := ApplyRule(rules[i], r, word);
    }
    assert rules[..|rules|] == rules;
  }

  /** `\bok\b` is a whole-word rule: it leaves "okela" alone. */
  lemma OkLeavesOkela(word: char -> bool)
    requires word('o') && word('k') && word('e') && word('l') && word('a')
    ensures ApplyRule(W("ok", "ổn"), "okela", word) == "okela"
  {
    var s := "okela";
    forall q | 0 <= q < |s| ensures MatchAny(s, q, [Word("ok")], word) in {None, Some(q)} {
      MatchAnyOne(s, q, Word("ok"), word);
      MatchWord(s, q, "ok", word);
      if q == 0 {
        assert !Boundary(s, 2, word);
      } else if q == 1 {
        assert s[1..3] == "ke";
      } else if q == 2 {
        assert s[2..4] == "el";
      } else if q == 3 {
        assert s[3..5] == "la";
      }
    }
    SubCopies(s, 0, [Word("ok")], "ổn", word);
  }

  /** ... and the `\bokela\b` rule later in the table turns it into "ổn". */
  lemma OkelaRule(word: char -> bool)
    requires word('o') && word('a')
    ensures ApplyRule(W("okela", "ổn"), "okela", word) == "ổn"
  {
    var s := "okela";
    MatchAnyOne(s, 0, Word("okela"), word);
    MatchWord(s, 0, "okela", word);
    assert s[0..5] == s;
  }

  lemma MatLimTail(word: char -> bool)
    ensures SubFrom("mát lịm tim", 7, [Word("mát lịm")], "mát lạnh", word) == " tim"
  {
    var s := "mát lịm tim";
    forall q | 7 <= q < |s| ensures MatchAny(s, q, [Word("mát lịm")], word) in {None, Some(q)} {
      MatchAnyOne(s, q, Word("mát lịm"), word);
      MatchWord(s, q, "mát lịm", word);
    }
    SubCopies(s, 7, [Word("mát lịm")], "mát lạnh", word);
    assert s[7..] == " tim";
  }

  lemma MatLimFirst(word: char -> bool)
    requires word('m') && !word(' ')
    ensures ApplyRule(W("mát lịm", "mát lạnh"), "mát lịm tim", word) == "mát lạnh tim"
  {
    MatLimMatch(word);
    MatLimTail(word);
    SubFirstMatch("mát lịm tim", [Word("mát lịm")], "mát lạnh", word, 7, " tim");
    MatLanhTim();
  }

  lemma MatLanhTim()
    ensures "mát lạnh" + " tim" == "mát lạnh tim"
  {
  }

  lemma MatLimMatch(word: char -> bool)
    requires word('m') && !word(' ')
    ensures MatchAny("mát lịm tim", 0, [Word("mát lịm")], word) == Some(7)
  {
    var s := "mát lịm tim";
    assert s[0..7] == "mát lịm";
    assert s[0] == 'm' && s[6] == 'm' && s[7] == ' ';
    WordMatchAt(s, 0, "mát lịm", word);
  }

  lemma MatLimTimAbsent(word: char -> bool)
    ensures ApplyRule(W("mát lịm tim", "mát lạnh"), "mát lạnh tim", word) == "mát lạnh tim"
  {
    var t := "mát lạnh tim";
    forall q | 0 <= q < |t| ensures MatchAny(t, q, [Word("mát lịm tim")], word) in {None, Some(q)} {
      MatLimTimNotAt(word, q);
    }
    SubCopies(t, 0, [Word("mát lịm tim")], "mát lạnh", word);
    assert t[0..] == t;
  }

  lemma MatLimTimNotAt(word: char -> bool, q: nat)
    requires q < |"mát lạnh tim"|
    ensures MatchAny("mát lạnh tim", q, [Word("mát lịm tim")], word) == None
  {
    var t := "mát lạnh tim";
    MatchAnyOne(t, q, Word("mát lịm tim"), word);
    MatchWord(t, q, "mát lịm tim", word);
    if q == 0 {
      assert t[0..11][5] == 'ạ';
    } else if q == 1 {
      assert t[1..12][0] == 'á';
    }
  }

  /** The rules run in table order: `\bmát lịm\b` comes first, so by the time
      `\bmát lịm tim\b` runs the phrase has become "mát lạnh tim". */
  lemma ShorterRuleFirst(word: char -> bool)
    requires word('m') && !word(' ')
    ensures RULES[36] == W("mát lịm", "mát lạnh") && RULES[37] == W("mát lịm tim", "mát lạnh")
    ensures ApplyRules([RULES[36], RULES[37]], "mát lịm tim", word) == "mát lạnh tim"
  {
    var r1, r2 := W("mát lịm", "mát lạnh"), W("mát lịm tim", "mát lạnh");
    assert RULES[36] == r1 && RULES[37] == r2;
    ApplyTwo(r1, r2, "mát lịm tim", word);
    MatLimFirst(word);
    MatLimTimAbsent(word);
  }

  lemma ApplyTwo(r1: Rule, r2: Rule, text: string, word: char -> bool)
    ensures ApplyRules([r1, r2], text, word) == ApplyRule(r2, ApplyRule(r1, text, word), word)
  {
    assert [r1][..0] == [];
    assert ApplyRules([r1], text, word) == ApplyRule(r1, text, word);
    assert [r1, r2][..1] == [r1];
  }

  // ---------------------------------------------------------------- comment pipeline

  /** `\b\d{10,11}\b`. */
  const PHONE: Pattern := [Edge, Chars(IsDigit, 10, Some(11)), Edge]

  predicate IsQuoteOrHeart(c: char) {
    c == '"' || c == '\'' || c == '\n' || c == '\U{2764}' || c == '\U{FE0F}'
  }

  predicate IsAstral(c: char) { c >= '\U{10000}' }

  predicate NotSpace(c: char) { !IsSpace(c) }

  predicate IsEmailLocal(c: char) {
    IsAsciiLetter(c) || IsDigit(c) || c == '.' || c == '_' || c == '%' || c == '+' || c == '-'
  }

  predicate IsEmailHost(c: char) { IsAsciiLetter(c) || IsDigit(c) || c == '.' || c == '-' }

  /** The class `[A-Z|a-z]`, which also holds '|'. */
  predicate IsTopLevel(c: char) { IsAsciiLetter(c) || c == '|' }

  /** `\b[A-Za-z0-9._%+-]+@[A-Za-z0-9.-]+\.[A-Z|a-z]{2,}\b`. */
  const EMAIL: Pattern :=
    [Edge, Plus(IsEmailLocal), Char('@'), Plus(IsEmailHost), Char('.'), Chars(IsTopLevel, 2, None), Edge]

  /** `http[s]?://\S+`. */
  const URL: Pattern := Lit("http") + [Opt('s')] + Lit("://") + [Plus(NotSpace)]

  /** The substitutions of `clean_and_normalize_comment` between the phone
      mask and the astral class: quotes and hearts, dots, the space-quote step,
      URLs. */
  function ScrubMiddle(s1: string, word: char -> bool): string {
    var s2 := Sub(s1, [[One(IsQuoteOrHeart)]], " ", word);
    var s3 := Sub(s2, [[Char('.')]], " ", word);
    var s4 := Sub(s3, [[Plus(IsSpace), Char('\'')]], " ", word);
    Sub(s4, [URL], "", word)
  }

  /** The substitutions of `clean_and_normalize_comment`, in source order:
      phone numbers, the middle steps, the astral class (emoji), e-mail
      addresses. */
  function Scrub(comment: string, word: char -> bool): string {
    var s1 := Sub(comment, [PHONE], "[hidden]", word);
    var s5 := ScrubMiddle(s1, word);
    var s6 := Sub(s5, [[One(IsAstral)]], "", word);
    Sub(s6, [EMAIL], "[hidden]", word)
  }

  /** The same substitutions with the astral class removed first, so that the
      phone mask sees a number an emoji was splitting. */
  function ScrubAstralFirst(comment: string, word: char -> bool): string {
    var s0 := Sub(comment, [[One(IsAstral)]], "", word);
    var s1 := Sub(s0, [PHONE], "[hidden]", word);
    var s5 := ScrubMiddle(s1, word);
    Sub(s5, [EMAIL], "[hidden]", word)
  }

  /** Lowercasing and stripping, the abbreviation rules, and stopword removal.
      The result has single spaces between words, no whitespace at either end,
      and no stopword. (The step meant to squeeze spaces, `\s+'`, can never
      match: every `'` is already gone; the stopword step does the squeezing.) */
  function LowerAndFilter(s: string, word: char -> bool): (r: string)
    ensures SingleSpaced(r)
    ensures forall w :: w in Split(r) ==> w !in STOPWORDS
  {
    var s8 := Strip(Lower(s));
    var s9 := ApplyRules(RULES, s8, word);
    RemoveStopwordsFacts(s9);
    RemoveStopwords(s9)
  }

  /** `clean_and_normalize_comment` exactly as written. */
  function CleanAndNormalizeComment(comment: string, word: char -> bool): (r: string)
    ensures SingleSpaced(r)
    ensures forall w :: w in Split(r) ==> w !in STOPWORDS
  {
    LowerAndFilter(Scrub(comment, word), word)
  }

  /** `clean_and_normalize_comment` with emoji removed before the phone mask:
      the order its phone mask evidently intends. */
  function CleanAndNormalizeCommentFixed(comment: string, word: char -> bool): (r: string)
    ensures SingleSpaced(r)
    ensures forall w :: w in Split(r) ==> w !in STOPWORDS
  {
    LowerAndFilter(ScrubAstralFirst(comment, word), word)
  }

  /** A run of exactly 10 or 11 digits with a word boundary on both sides is
      replaced by "[hidden]" and scanning continues after it. */
  lemma MaskPhoneAt(s: string, p: nat, k: nat, word: char -> bool)
    requires p + k <= |s| && 10 <= k <= 11
    requires forall i :: p <= i < p + k ==> IsDigit(s[i])
    requires p + k == |s| || !IsDigit(s[p + k])
    requires Boundary(s, p, word) && Boundary(s, p + k, word)
    ensures SubFrom(s, p, [PHONE], "[hidden]", word) == "[hidden]" + SubFrom(s, p + k, [PHONE], "[hidden]", word)
  {
    MatchAnyOne(s, p, PHONE, word);
    RunLenExact(s, p, IsDigit, Some(11), k);
    assert PHONE[1..][1..] == [Edge];
    assert [Edge][1..] == [];
    assert Match(s, p + k, [], word) == Some(p + k);
    assert Match(s, p + k, [Edge], word) == Some(p + k);
    assert Match(s, p, PHONE[1..], word) == Some(p + k);
  }

  /** A longer number is not a phone number: no match starts inside a run of
      12 or more digits when digits are word characters. */
  lemma LongNumberKept(s: string, p: nat, word: char -> bool)
    requires forall c :: IsDigit(c) ==> word(c)
    requires p + 12 <= |s| && forall i :: p <= i < p + 12 ==> IsDigit(s[i])
    ensures Match(s, p, PHONE, word) == None
  {
    RunLenExact(s, p, IsDigit, Some(11), 11);
    assert PHONE[1..][1..] == [Edge];
    assert IsDigit(s[p + 9]) && IsDigit(s[p + 10]) && IsDigit(s[p + 11]);
    assert !Boundary(s, p + 11, word) && !Boundary(s, p + 10, word);
    assert Match(s, p + 11, [Edge], word) == None;
    assert Match(s, p + 10, [Edge], word) == None;
    assert TryCounts(s, p, [Edge], word, 10, 10) == None;
    assert TryCounts(s, p, [Edge], word, 10, 11) == None;
    assert Match(s, p, PHONE[1..], word) == None;
  }

  /** A phone match ends inside the run of digits it starts on. */
  lemma PhoneEndsInRun(s: string, i: nat, word: char -> bool)
    requires i <= |s|
    ensures Match(s, i, PHONE, word).Some? ==>
              Match(s, i, PHONE, word).value <= i + RunLen(s, i, IsDigit, Some(11))
  {
    assert PHONE[1..][1..] == [Edge];
    var n := RunLen(s, i, IsDigit, Some(11));
    if n >= 10 {
      TryCountsEdge(s, i, word, 10, n);
    }
  }

  /** Every standalone number of 10 or 11 digits in the comment is masked by
      the first substitution: that step's output ends with "[hidden]" and then
      whatever the scan makes of the text after the number. */
  lemma MaskPhoneInComment(s: string, p: nat, k: nat, word: char -> bool)
    requires forall c :: IsDigit(c) ==> word(c)
    requires p + k <= |s| && 10 <= k <= 11
    requires forall i :: p <= i < p + k ==> IsDigit(s[i])
    requires p + k == |s| || !IsDigit(s[p + k])
    requires Boundary(s, p, word) && Boundary(s, p + k, word)
    ensures EndsWith(Sub(s, [PHONE], "[hidden]", word), "[hidden]" + SubFrom(s, p + k, [PHONE], "[hidden]", word))
  {
    assert p > 0 ==> !IsDigit(s[p - 1]);
    forall i | 0 <= i < p
      ensures MatchAny(s, i, [PHONE], word).None? || MatchAny(s, i, [PHONE], word).value <= p
    {
      MatchAnyOne(s, i, PHONE, word);
      PhoneEndsInRun(s, i, word);
    }
    SubReaches(s, 0, p, [PHONE], "[hidden]", word);
    MaskPhoneAt(s, p, k, word);
  }

  /** An e-mail address needs an '@'. */
  lemma EmailNeedsAt(s: string, p: nat, word: char -> bool)
    requires p <= |s|
    requires forall i :: p <= i < |s| ==> s[i] != '@'
    ensures Match(s, p, EMAIL, word) == None
  {
    var rest := EMAIL[2..];
    assert EMAIL[1..][1..] == rest;
    assert rest == [Char('@')] + rest[1..];
    if Boundary(s, p, word) {
      var n := RunLen(s, p, IsEmailLocal, None);
      if n >= 1 {
        forall j | p + 1 <= j <= p + n ensures Match(s, j, rest, word).None? {
          MatchChar(s, j, '@', rest[1..], word);
        }
        TryCountsNone(s, p, rest, word, 1, n);
      }
    }
  }

  lemma SubEmailCopies(s: string, word: char -> bool)
    requires forall i :: 0 <= i < |s| ==> s[i] != '@'
    ensures Sub(s, [EMAIL], "[hidden]", word) == s
  {
    forall q | 0 <= q < |s| ensures MatchAny(s, q, [EMAIL], word) == None {
      MatchAnyOne(s, q, EMAIL, word);
      EmailNeedsAt(s, q, word);
    }
    SubCopies(s, 0, [EMAIL], "[hidden]", word);
  }

  /** A URL starts with "http". */
  lemma UrlNeedsHttp(s: string, p: nat, word: char -> bool)
    requires p <= |s|
    ensures Match(s, p, URL, word).Some? ==> p + 4 <= |s| && s[p..p + 4] == "http"
  {
    var rest := [Opt('s')] + Lit("://") + [Plus(NotSpace)];
    assert URL == Lit("http") + rest;
    MatchLit(s, p, "http", rest, word);
  }

  /** The digits of `a` and `b` with the character `e` between them. */
  lemma SplitDigits(a: string, e: char, b: string)
    requires forall i :: 0 <= i < |a| ==> IsDigit(a[i])
    requires forall i :: 0 <= i < |b| ==> IsDigit(b[i])
    ensures forall i :: 0 <= i < |a + [e] + b| ==> IsDigit((a + [e] + b)[i]) || (a + [e] + b)[i] == e
    ensures (a + [e] + b)[|a|] == e
    ensures forall i :: 0 <= i < |a + b| ==> IsDigit((a + b)[i])
  {
    var s := a + [e] + b;
    forall i | 0 <= i < |s| ensures IsDigit(s[i]) || s[i] == e {
      if i < |a| { assert s[i] == a[i]; } else if i > |a| { assert s[i] == b[i - |a| - 1]; }
    }
    forall i | 0 <= i < |a + b| ensures IsDigit((a + b)[i]) {
      if i >= |a| { assert (a + b)[i] == b[i - |a|]; }
    }
  }

  /** As written, a number of 10 or 11 digits with an emoji inside escapes the
      phone mask: the mask runs while the emoji splits the digits into two
      short runs, and the emoji step then joins them into the bare number. */
  lemma AstralJoinsDigits(a: string, e: char, b: string, word: char -> bool)
    requires forall i :: 0 <= i < |a| ==> IsDigit(a[i])
    requires forall i :: 0 <= i < |b| ==> IsDigit(b[i])
    requires IsAstral(e) && |a| < 10 && |b| < 10
    ensures Scrub(a + [e] + b, word) == a + b
  {
    var s := a + [e] + b;
    SplitDigits(a, e, b);
    forall q | 0 <= q < |s| ensures MatchAny(s, q, [PHONE], word) == None {
      MatchAnyOne(s, q, PHONE, word);
      assert RunLen(s, q, IsDigit, Some(11)) < 10;
      assert PHONE[1..][0] == Chars(IsDigit, 10, Some(11));
    }
    SubCopies(s, 0, [PHONE], "[hidden]", word);
    MiddleKeepsSplitDigits(a, e, b, word);
    SubDropsOne(a, e, b, IsAstral, word);
    SubEmailCopies(a + b, word);
  }

  /** The middle steps leave digits and an emoji alone. */
  lemma MiddleKeepsSplitDigits(a: string, e: char, b: string, word: char -> bool)
    requires forall i :: 0 <= i < |a| ==> IsDigit(a[i])
    requires forall i :: 0 <= i < |b| ==> IsDigit(b[i])
    requires IsAstral(e)
    ensures ScrubMiddle(a + [e] + b, word) == a + [e] + b
  {
    var s := a + [e] + b;
    SplitDigits(a, e, b);
    SubSkipsRejected(s, [One(IsQuoteOrHeart)], " ", word);
    SubSkipsRejected(s, [Char('.')], " ", word);
    SubSkipsRejected(s, [Plus(IsSpace), Char('\'')], " ", word);
    assert URL[0] == Char('h');
    SubSkipsRejected(s, URL, "", word);
  }

  /** A text without 't' holds no URL. */
  lemma SubUrlCopies(s: string, word: char -> bool)
    requires forall i :: 0 <= i < |s| ==> s[i] != 't'
    ensures Sub(s, [URL], "", word) == s
  {
    forall q | 0 <= q < |s| ensures MatchAny(s, q, [URL], word) == None {
      MatchAnyOne(s, q, URL, word);
      UrlNeedsHttp(s, q, word);
      if q + 4 <= |s| {
        assert s[q..q + 4][1] == s[q + 1];
      }
    }
    SubCopies(s, 0, [URL], "", word);
  }

  /** The middle steps leave alone a text with no quote, heart, dot,
      whitespace or 't'. */
  lemma MiddleKeeps(s: string, word: char -> bool)
    requires forall i :: 0 <= i < |s| ==> !IsQuoteOrHeart(s[i]) && s[i] != '.' && !IsSpace(s[i]) && s[i] != 't'
    ensures ScrubMiddle(s, word) == s
  {
    SubSkipsRejected(s, [One(IsQuoteOrHeart)], " ", word);
    SubSkipsRejected(s, [Char('.')], " ", word);
    SubSkipsRejected(s, [Plus(IsSpace), Char('\'')], " ", word);
    SubUrlCopies(s, word);
  }

  /** The middle steps and the e-mail step leave "[hidden]" alone. */
  lemma HiddenStaysHidden(h: string, word: char -> bool)
    requires h == "[hidden]"
    ensures Sub(ScrubMiddle(h, word), [EMAIL], "[hidden]", word) == h
  {
    MiddleKeeps(h, word);
    SubEmailCopies(h, word);
  }

  /** With emoji removed first, the same number is masked whole. */
  lemma AstralFirstHidesDigits(a: string, e: char, b: string, word: char -> bool)
    requires forall c :: IsDigit(c) ==> word(c)
    requires forall i :: 0 <= i < |a| ==> IsDigit(a[i])
    requires forall i :: 0 <= i < |b| ==> IsDigit(b[i])
    requires IsAstral(e) && 10 <= |a| + |b| <= 11
    ensures ScrubAstralFirst(a + [e] + b, word) == "[hidden]"
  {
    SplitDigits(a, e, b);
    SubDropsOne(a, e, b, IsAstral, word);
    var t := a + b;
    MaskPhoneAt(t, 0, |t|, word);
    HiddenStaysHidden(Sub(t, [PHONE], "[hidden]", word), word);
  }

  /** "0912😀345678": the source's order leaves "0912345678" in the comment,
      astral-first masks it. */
  lemma EmojiInPhoneNumber(word: char -> bool)
    requires forall c :: IsDigit(c) ==> word(c)
    ensures Scrub("0912\U{1F600}345678", word) == "0912345678"
    ensures ScrubAstralFirst("0912\U{1F600}345678", word) == "[hidden]"
  {
    assert "0912\U{1F600}345678" == "0912" + ['\U{1F600}'] + "345678";
    assert "0912345678" == "0912" + "345678";
    AstralJoinsDigits("0912", '\U{1F600}', "345678", word);
    AstralFirstHidesDigits("0912", '\U{1F600}', "345678", word);
  }

  // ---------------------------------------------------------------- review table

  /** The strings pandas reads as a missing value (NaN) by default. */
  const NA_VALUES: set<string> := {
    "", "#N/A", "#N/A N/A", "#NA", "-1.#IND", "-1.#QNAN", "-NaN", "-nan", "1.#IND",
    "1.#QNAN", "<NA>", "N/A", "NA", "NULL", "NaN", "None", "n/a", "nan", "null"
  }

  /** A CSV cell as read: absent when it is one of the missing-value strings. */
  function ReadCell(t: string): Option<string> {
    if t in NA_VALUES then None else Some(t)
  }

  /** One row of the crawler's CSV, by column, as the text in each cell. */
  datatype CsvRow = CsvRow(author: string, shop: string, rating: string, time: string, comment: string)

  /** A row after the missing values are filled in. */
  datatype Row = Row(author: string, shop: string, rating: int, time: string, comment: string)

  /** A row of the cleaned output, with its new index. */
  datatype CleanRow = CleanRow(index: nat, author: string, shop: string, rating: int, time: string, comment: string)

  /** `pd.to_numeric(errors="coerce").fillna(0).astype(int)` on an integer cell. */
  function RatingOf(t: string): int {
    match ReadCell(t)
    case None => 0
    case Some(x) => ParseInt(x).GetOr(0)
  }

  /** `str(cell)`: a missing value prints as "nan". */
  function CellText(t: string): string {
    ReadCell(t).GetOr("nan")
  }

  predicate HasAuthorAndComment(r: CsvRow) {
    ReadCell(r.author).Some? && ReadCell(r.comment).Some?
  }

  /** `Shop` filled with "Không rõ" and `Rating` made numeric. */
  function ToRow(r: CsvRow): Row {
    Row(r.author, ReadCell(r.shop).GetOr("Không rõ"), RatingOf(r.rating), CellText(r.time), r.comment)
  }

  /** The comment cleaner `clean_and_normalize_data` applies, as written,
      with the word-character class `word`. */
  function Cleaner(word: char -> bool): string -> string {
    c => CleanAndNormalizeComment(c, word)
  }

  /** A cleaned comment: single spaces between words and no stopword. */
  predicate Normalized(s: string) {
    SingleSpaced(s) && forall w :: w in Split(s) ==> w !in STOPWORDS
  }

  lemma CleanerNormalized(word: char -> bool)
    ensures forall c :: Normalized(Cleaner(word)(c))
  {
    forall c ensures Normalized(Cleaner(word)(c)) {
      var r := CleanAndNormalizeComment(c, word);
    }
  }

  /** `df["Comment"].apply(clean)`, one row at a time. */
  function CleanComment(clean: string -> string): Row -> Row {
    (r: Row) => r.(comment := clean(r.comment))
  }

  predicate NonBlank(r: Row) { Strip(r.comment) != "" }

  function ConvertTime(r: Row): Row { r.(time := ConvertTimeToDays(r.time)) }

  predicate HasTime(r: Row) { r.time != "N/A" }

  /** `reset_index`, `index += 1` and the new first column `Index`. */
  function Numbered(rows: seq<Row>): (out: seq<CleanRow>)
    ensures |out| == |rows|
    ensures forall i :: 0 <= i < |out| ==> out[i].index == i + 1
  {
    seq(|rows|, i requires 0 <= i < |rows| =>
      CleanRow(i + 1, rows[i].author, rows[i].shop, rows[i].rating, rows[i].time, rows[i].comment))
  }

  /** What becomes of one input row, decided on its own: dropped (`None`), or
      the cleaned row. */
  function CleanRecord(r: CsvRow, clean: string -> string): Option<Row> {
    if !HasAuthorAndComment(r) then None
    else
      var c := clean(r.comment);
      var t := ConvertTimeToDays(CellText(r.time));
      if Strip(c) == "" || t == "N/A" then None
      else Some(Row(r.author, ReadCell(r.shop).GetOr("Không rõ"), RatingOf(r.rating), t, c))
  }

  /** The surviving rows, in input order. */
  function CleanedRows(table: seq<CsvRow>, clean: string -> string): seq<Row> {
    if table == [] then []
    else
      (match CleanRecord(table[0], clean) case Some(r) => [r] case None => []) +
      CleanedRows(table[1..], clean)
  }

  /** The table passes of the script, one column or filter at a time. */
  function Passes(table: seq<CsvRow>, clean: string -> string): seq<Row> {
    var kept := Filter(table, HasAuthorAndComment);
    var rows := Map(kept, ToRow);
    var cleaned := Map(rows, CleanComment(clean));
    var nonBlank := Filter(cleaned, NonBlank);
    var timed := Map(nonBlank, ConvertTime);
    Filter(timed, HasTime)
  }

  lemma PassesAppend(a: seq<CsvRow>, b: seq<CsvRow>, clean: string -> string)
    ensures Passes(a + b, clean) == Passes(a, clean) + Passes(b, clean)
  {
    FilterAppend(a, b, HasAuthorAndComment);
    var ka, kb := Filter(a, HasAuthorAndComment), Filter(b, HasAuthorAndComment);
    MapAppend(ka, kb, ToRow);
    var ra, rb := Map(ka, ToRow), Map(kb, ToRow);
    MapAppend(ra, rb, CleanComment(clean));
    var ca, cb := Map(ra, CleanComment(clean)), Map(rb, CleanComment(clean));
    FilterAppend(ca, cb, NonBlank);
    var na, nb := Filter(ca, NonBlank), Filter(cb, NonBlank);
    MapAppend(na, nb, ConvertTime);
    FilterAppend(Map(na, ConvertTime), Map(nb, ConvertTime), HasTime);
  }

  lemma PassesOne(x: CsvRow, clean: string -> string)
    ensures Passes([x], clean) == match CleanRecord(x, clean) case Some(r) => [r] case None => []
  {
    assert [x][1..] == [];
    if HasAuthorAndComment(x) {
      var y := CleanComment(clean)(ToRow(x));
      assert Map(Map([x], ToRow), CleanComment(clean)) == [y];
      if NonBlank(y) {
        assert [y][1..] == [];
        assert Filter([y], NonBlank) == [y];
        assert Map([y], ConvertTime) == [ConvertTime(y)];
        assert [ConvertTime(y)][1..] == [];
      }
    }
  }

  /** The column and filter passes drop and transform each row independently
      of the others: they equal the row-by-row definition. */
  lemma {:induction false} PassesRowByRow(table: seq<CsvRow>, clean: string -> string)
    ensures Passes(table, clean) == CleanedRows(table, clean)
  {
    if table != [] {
      PassesRowByRow(table[1..], clean);
      PassesCons(table, clean);
      PassesOne(table[0], clean);
    }
  }

  lemma PassesCons(table: seq<CsvRow>, clean: string -> string)
    requires table != []
    ensures Passes(table, clean) == Passes([table[0]], clean) + Passes(table[1..], clean)
  {
    assert table == [table[0]] + table[1..];
    PassesAppend([table[0]], table[1..], clean);
  }

  /** At most one output row per input row, each with a time and a
      non-blank comment that the cleaner produced, so any property every
      cleaned comment has (`good`) holds of it. */
  lemma {:induction false} CleanedRowsFacts(table: seq<CsvRow>, clean: string -> string, good: string -> bool)
    requires forall c :: good(clean(c))
    ensures |CleanedRows(table, clean)| <= |table|
    ensures forall r :: r in CleanedRows(table, clean) ==>
      r.time != "N/A" && Strip(r.comment) != "" && good(r.comment)
  {
    if table != [] {
      CleanedRowsFacts(table[1..], clean, good);
    }
  }

  /** `clean_and_normalize_data` from the loaded table to the saved one. */
  method CleanAndNormalizeData(table: seq<CsvRow>, word: char -> bool) returns (out: seq<CleanRow>)
    ensures out == Numbered(CleanedRows(table, Cleaner(word)))
    ensures |out| <= |table|
    ensures forall i :: 0 <= i < |out| ==>
      out[i].index == i + 1 && out[i].time != "N/A" && Strip(out[i].comment) != "" &&
      SingleSpaced(out[i].comment)
  {
    var df := Filter(table, HasAuthorAndComment);  // dropna(subset=["Author", "Comment"])
    var rows := Map(df, ToRow);                    // Shop fillna, Rating to_numeric
    rows := Map(rows, CleanComment(Cleaner(word))); // Comment cleaned
    rows := Filter(rows, NonBlank);                // Comment.strip() != ""
    rows := Map(rows, ConvertTime);                // Time in days
    rows := Filter(rows, HasTime);                 // Time != "N/A"
    PassesRowByRow(table, Cleaner(word));
    CleanerNormalized(word);
    CleanedRowsFacts(table, Cleaner(word), Normalized);
    out := Numbered(rows);
    forall i | 0 <= i < |out| ensures out[i].time == rows[i].time && out[i].comment == rows[i].comment {
    }
    forall i | 0 <= i < |out| ensures out[i].time != "N/A" && Strip(out[i].comment) != "" && SingleSpaced(out[i].comment) {
      assert rows[i] in CleanedRows(table, Cleaner(word));
    }
  }

  /** A row whose time cell is missing, or "N/A" as the crawler writes it, is dropped. */
  lemma MissingTimeDropped(r: CsvRow, clean: string -> string)
    requires ReadCell(r.time).None?
    ensures CleanRecord(r, clean) == None
  {
    ConvertNoDigits("nan");
  }

  /** A row whose author or comment the crawler could not read ("N/A") is dropped. */
  lemma NaAuthorOrCommentDropped(r: CsvRow, clean: string -> string)
    requires r.author == "N/A" || r.comment == "N/A"
    ensures CleanRecord(r, clean) == None
  {
  }
}
