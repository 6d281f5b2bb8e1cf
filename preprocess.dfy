/**
 * The preprocessing pipeline over the merged DMX and Steam review table:
 * lowercasing, punctuation and stopword removal, normalisation, a cached
 * rule-based spelling corrector for English, tokenisation, stemming and
 * lemmatisation, and the token frequency table.
 *
 * Unicode NFKC, `\w`, and NLTK's tokenizer, stemmer, lemmatizer and English
 * stopword list are parameters (`Toolkit`); an NLTK call that raises is `None`.
 */
module Preprocess {
  import opened Wrappers
  import opened Text
  import opened Regex
  import opened Seqs
  import opened Counters

  const VI_STOPWORDS: set<string> := {
    "và", "là", "có", "cho", "của", "một", "những", "các", "được", "đang", "trong",
    "khi", "thì", "đã", "này", "đó", "rất", "với", "ở", "vì", "ra", "nên", "như",
    "tôi", "mình", "bạn", "anh", "chị", "em", "lại", "cũng", "chỉ", "để"
  }

  /** The contraction table in dictionary order. */
  const EN_CONTRACTIONS: seq<(string, string)> := [
    ("i'm", "i am"), ("can't", "cannot"), ("won't", "will not"), ("don't", "do not"),
    ("didn't", "did not"), ("isn't", "is not"), ("it's", "it is"), ("you're", "you are"),
    ("they're", "they are"), ("we're", "we are"), ("i've", "i have"), ("that's", "that is")
  ]

  const COMMON_MISSPELLINGS: map<string, string> := map[
    "inttroduction" := "introduction", "electrcity" := "electricity",
    "langauage" := "language", "mussage" := "message", "sirvice" := "service",
    "wierd" := "weird", "teh" := "the", "recieve" := "receive"
  ]

  /** The foreign parts of the pipeline. */
  datatype Toolkit = Toolkit(
    nfkc: string -> string,                        // unicodedata.normalize("NFKC", _)
    word: char -> bool,                            // \w
    enStopwords: set<string>,                      // stopwords.words("english")
    wordTokenize: string -> Option<seq<string>>,   // nltk word_tokenize
    stem: string -> Option<string>,                // PorterStemmer().stem
    lemmatize: string -> Option<string>)           // WordNetLemmatizer().lemmatize

  // ---------------------------------------------------------------- text steps

  predicate IsPunct(word: char -> bool, c: char) { !word(c) && !IsSpace(c) }

  /** The class `[^\w\s]`. */
  function PunctClass(word: char -> bool): char -> bool { c => IsPunct(word, c) }

  /** `re.sub(r"[^\w\s]", " ", text)`. */
  function RemovePunctuation(text: string, word: char -> bool): string {
    Sub(text, [[One(PunctClass(word))]], " ", word)
  }

  /** Each punctuation character becomes one space and every other character
      stays where it is: the text keeps its length. */
  lemma RemovePunctuationAt(text: string, word: char -> bool)
    ensures var r := RemovePunctuation(text, word);
      |r| == |text| &&
      forall i :: 0 <= i < |text| ==> r[i] == if IsPunct(word, text[i]) then ' ' else text[i]
  {
    var acc := PunctClass(word);
    SubOneEach(text, 0, acc, ' ', word);
    var r := RemovePunctuation(text, word);
    forall i | 0 <= i < |text|
      ensures r[i] == if IsPunct(word, text[i]) then ' ' else text[i]
    {
      assert acc(text[i]) == IsPunct(word, text[i]);
    }
  }

  function NotIn(stops: set<string>): string -> bool { w => w !in stops }

  /** The stopword set of a language: the given English one for "en", the
      Vietnamese one otherwise. */
  function StopwordsFor(lang: string, enStopwords: set<string>): set<string> {
    if lang == "en" then enStopwords else VI_STOPWORDS
  }

  /** `remove_stopwords_text`. */
  function RemoveStopwordsText(text: string, lang: string, enStopwords: set<string>): string {
    Join(Filter(Split(text), NotIn(StopwordsFor(lang, enStopwords))))
  }

  /** The kept tokens come back out in order, exactly those of the text that
      are not stopwords of the language. */
  lemma RemoveStopwordsTextFacts(text: string, lang: string, enStopwords: set<string>)
    ensures var stops := StopwordsFor(lang, enStopwords);
      Split(RemoveStopwordsText(text, lang, enStopwords)) == Filter(Split(text), NotIn(stops)) &&
      forall w :: w in Split(RemoveStopwordsText(text, lang, enStopwords)) <==> w in Split(text) && w !in stops
  {
    var stops := StopwordsFor(lang, enStopwords);
    var ws := Split(text);
    var kept := Filter(ws, NotIn(stops));
    assert AllTokens(kept) by {
      forall i | 0 <= i < |kept| ensures IsToken(kept[i]) { assert kept[i] in ws; }
    }
    SplitJoin(kept);
    forall w | w in ws && w !in stops ensures w in kept {
      var i :| 0 <= i < |ws| && ws[i] == w;
      assert NotIn(stops)(ws[i]);
    }
  }

  predicate NotSpace(c: char) { !IsSpace(c) }

  /** `https?://\S+|www\.\S+`. */
  const URL_ALTS: seq<Pattern> := [
    Lit("http") + [Opt('s')] + Lit("://") + [Plus(NotSpace)],
    Lit("www") + [Char('.'), Plus(NotSpace)]
  ]

  /** The contraction replacements, `str.replace` one pair after another. */
  function ExpandContractions(s: string, pairs: seq<(string, string)>): string
    requires forall i :: 0 <= i < |pairs| ==> pairs[i].0 != []
  {
    if pairs == [] then s
    else
      var last := pairs[|pairs| - 1];
      Replace(ExpandContractions(s, pairs[..|pairs| - 1]), last.0, last.1)
  }

  /** `re.sub(r"\s+", " ", s).strip()`. */
  function SqueezeSpaces(s: string, word: char -> bool): string {
    Strip(Sub(s, [[Plus(IsSpace)]], " ", word))
  }

  /** Every run of whitespace replaced by one space. */
  function Squeezed(t: string): string
    decreases |t|
  {
    if t == [] then []
    else if IsSpace(t[0]) then " " + Squeezed(TrimLeft(t[1..], IsSpace))
    else [t[0]] + Squeezed(t[1..])
  }

  /** `re.sub(r"\s+", " ", _)` from position `p` on replaces each whitespace
      run by one space: the greedy `\s+` takes the whole run. */
  lemma {:induction false} SubSqueezes(s: string, p: nat, word: char -> bool)
    requires p <= |s|
    ensures SubFrom(s, p, [[Plus(IsSpace)]], " ", word) == Squeezed(s[p..])
    decreases |s| - p
  {
    if p == |s| {
      assert s[p..] == [];
      assert SubFrom(s, p, [[Plus(IsSpace)]], " ", word) == [];
    } else if IsSpace(s[p]) {
      var e := SubSpaceRun(s, p, word);
      SubSqueezes(s, e, word);
    } else {
      SubNonSpace(s, p, word);
      SubSqueezes(s, p + 1, word);
      assert s[p..][0] == s[p] && s[p..][1..] == s[p + 1..];
      assert SubFrom(s, p, [[Plus(IsSpace)]], " ", word) == Squeezed(s[p..]);
    }
  }

  /** At a whitespace character, `\s+` takes the whole run, up to `e`,
      which squeezes to one space. */
  lemma SubSpaceRun(s: string, p: nat, word: char -> bool) returns (e: nat)
    requires p < |s| && IsSpace(s[p])
    ensures p < e <= |s|
    ensures SubFrom(s, p, [[Plus(IsSpace)]], " ", word) == " " + SubFrom(s, e, [[Plus(IsSpace)]], " ", word)
    ensures Squeezed(s[p..]) == " " + Squeezed(s[e..])
  {
    MatchAnyOne(s, p, [Plus(IsSpace)], word);
    assert [Plus(IsSpace)][1..] == [];
    var n := RunLen(s, p, IsSpace, None);
    e := p + n;
    assert TryCounts(s, p, [], word, 1, n) == Some(e);
    SubAtMatch(s, p, [[Plus(IsSpace)]], " ", word, e);
    SqueezedRun(s, p, n);
  }

  /** Elsewhere `\s+` does not match and the character is kept. */
  lemma SubNonSpace(s: string, p: nat, word: char -> bool)
    requires p < |s| && !IsSpace(s[p])
    ensures SubFrom(s, p, [[Plus(IsSpace)]], " ", word) == [s[p]] + SubFrom(s, p + 1, [[Plus(IsSpace)]], " ", word)
  {
    MatchAnyOne(s, p, [Plus(IsSpace)], word);
    assert [Plus(IsSpace)][1..] == [];
    assert RunLen(s, p, IsSpace, None) == 0;
    SubCopiesOne(s, p, [[Plus(IsSpace)]], " ", word);
  }

  /** A whitespace run of length `n` at `p` squeezes to one space. */
  lemma SqueezedRun(s: string, p: nat, n: nat)
    requires p < p + n <= |s|
    requires forall i :: p <= i < p + n ==> IsSpace(s[i])
    requires p + n == |s| || !IsSpace(s[p + n])
    ensures Squeezed(s[p..]) == " " + Squeezed(s[p + n..])
  {
    var t := s[p..];
    assert t[0] == s[p] && t[1..] == s[p + 1..];
    TrimLeftExact(s[p + 1..], IsSpace, n - 1);
    assert s[p + 1..][n - 1..] == s[p + n..];
  }

  /** A token followed by the rest keeps the token and squeezes the rest. */
  lemma {:induction false} SqueezedToken(w: string, rest: string)
    requires forall i :: 0 <= i < |w| ==> !IsSpace(w[i])
    ensures Squeezed(w + rest) == w + Squeezed(rest)
    decreases |w|
  {
    if w == [] {
      assert w + rest == rest;
    } else {
      var t, q := w + rest, Squeezed(rest);
      assert t[0] == w[0] && !IsSpace(t[0]) && t[1..] == w[1..] + rest;
      assert Squeezed(t) == [w[0]] + Squeezed(w[1..] + rest);
      SqueezedToken(w[1..], rest);
      AppendAssoc([w[0]], w[1..], q);
      assert [w[0]] + w[1..] == w;
    }
  }

  /** A text that starts with no whitespace squeezes to its words joined by
      single spaces, followed by one space when it ends in whitespace. */
  lemma {:induction false} SqueezedWords(t: string)
    requires t == [] || !IsSpace(t[0])
    ensures Squeezed(t) == Join(Split(t)) || (Split(t) != [] && Squeezed(t) == Join(Split(t)) + " ")
    decreases |t|, 1
  {
    if t != [] {
      var w := TakeToken(t);
      var rest := t[|w|..];
      assert t == w + rest;
      SqueezedToken(w, rest);
      SplitCons(w, rest);
      if rest != [] {
        SqueezedRest(w, rest);
      }
    }
  }

  /** The step of `SqueezedWords` after the first word `w`. */
  lemma {:induction false} SqueezedRest(w: string, rest: string)
    requires IsToken(w) && rest != [] && IsSpace(rest[0])
    requires Squeezed(w + rest) == w + Squeezed(rest)
    requires Split(w + rest) == [w] + Split(rest)
    ensures var t := w + rest;
      Squeezed(t) == Join(Split(t)) || (Split(t) != [] && Squeezed(t) == Join(Split(t)) + " ")
    decreases |w + rest|, 0
  {
    var r2 := TrimLeft(rest[1..], IsSpace);
    assert Squeezed(rest) == " " + Squeezed(r2);
    SplitTrimmed(rest[1..]);
    SplitTrimmed(rest);
    assert TrimLeft(rest, IsSpace) == r2;
    assert Split(rest) == Split(r2);
    SqueezedWords(r2);
    var t, ws, q := w + rest, Split(r2), Squeezed(r2);
    assert Squeezed(t) == w + (" " + q);
    AppendAssoc(w, " ", q);
    if ws == [] {
      SplitEmpty(r2);
      assert Split(t) == [w] && Join([w]) == w;
      assert Squeezed(t) == Join(Split(t)) + " ";
    } else {
      assert ([w] + ws)[1..] == ws;
      assert Join(Split(t)) == w + " " + Join(ws);
      var j := Join(ws);
      if q == j {
        assert Squeezed(t) == Join(Split(t));
      } else {
        assert q == j + " ";
        AppendAssoc(w + " ", j, " ");
      }
    }
  }

  /** `re.sub(r"\s+", " ", s).strip()` is `" ".join(s.split())`: the words
      of `s` separated by single spaces. */
  lemma SqueezeSpacesSplit(s: string, word: char -> bool)
    ensures SqueezeSpaces(s, word) == Join(Split(s))
  {
    var q := Sub(s, [[Plus(IsSpace)]], " ", word);
    SubSqueezes(s, 0, word);
    assert s[0..] == s;
    assert q == Squeezed(s);
    var t := TrimLeft(s, IsSpace);
    var lead := if s != [] && IsSpace(s[0]) then " " else "";
    assert Squeezed(s) == lead + Squeezed(t);
    assert t == [] || TrimLeft(t, IsSpace) == t;
    assert Split(s) == Split(t);
    SqueezedWords(t);
    var j := Join(Split(t));
    if Split(t) == [] {
      assert q == lead;
      TrimLeftExact(lead, IsSpace, |lead|);
      assert Strip(q) == [];
    } else {
      JoinSpacing(Split(t));
      JoinNonEmpty(Split(t));
      StripPadded(lead, Squeezed(t), j);
      assert Strip(q) == j;
    }
  }

  /** The text `normalize_text` squeezes: NFKC-normalised, links and
      e-mail addresses blanked, English contractions expanded. */
  function Unsqueezed(text: string, lang: string, tk: Toolkit): string {
    var n := Sub(tk.nfkc(text), URL_ALTS, " ", tk.word);
    if lang == "en" then ExpandContractions(n, EN_CONTRACTIONS) else n
  }

  /** What `normalize_text` computes. */
  function Normalized(text: string, lang: string, tk: Toolkit): string {
    SqueezeSpaces(Unsqueezed(text, lang, tk), tk.word)
  }

  /** What `normalize_text` returns is single-spaced and has the words of
      the text it squeezes, in order. */
  lemma NormalizedSingleSpaced(text: string, lang: string, tk: Toolkit)
    ensures SingleSpaced(Normalized(text, lang, tk))
    ensures Split(Normalized(text, lang, tk)) == Split(Unsqueezed(text, lang, tk))
  {
    var u := Unsqueezed(text, lang, tk);
    SqueezeSpacesSplit(u, tk.word);
    JoinIsSingleSpaced(Split(u));
    SplitJoin(Split(u));
  }

  /** `normalize_text`. */
  method NormalizeText(text: string, lang: string, tk: Toolkit) returns (r: string)
    ensures r == Normalized(text, lang, tk)
    ensures SingleSpaced(r) && Split(r) == Split(Unsqueezed(text, lang, tk))
  {
    r := tk.nfkc(text);
    r := Sub(r, URL_ALTS, " ", tk.word);
    var base := r;
    if lang == "en" {
      var pairs := EN_CONTRACTIONS;
      for i := 0 to |pairs|
        invariant r == ExpandContractions(base, pairs[..i])
      {
        assert pairs[..i + 1][..i] == pairs[..i];
        r := Replace(r, pairs[i].0, pairs[i].1);
      }
      assert pairs[..|pairs|] == pairs;
    }
    r := SqueezeSpaces(r, tk.word);
    NormalizedSingleSpaced(text, lang, tk);
  }

  // ---------------------------------------------------------------- spelling

  function Same(c: char): char -> bool { x => x == c }

  /** `re.sub(r"([a-z])\1{2,}", r"\1\1", tok)`: every run of three or more
      copies of one letter a-z shrinks to two copies. */
  function Collapse(s: string): (r: string)
    ensures |r| <= |s|
    ensures forall c :: c in r ==> c in s
    decreases |s|
  {
    if |s| >= 3 && IsAsciiLower(s[0]) && s[1] == s[0] && s[2] == s[0] then
      var t := TrimLeft(s, Same(s[0]));
      assert Same(s[0])(s[0]);
      assert |t| < |s| - 2;
      var rest := Collapse(t);
      InSuffix(s, |s| - |t|, rest);
      [s[0], s[0]] + rest
    else if s == [] then []
    else
      var rest := Collapse(s[1..]);
      InSuffix(s, 1, rest);
      [s[0]] + rest
  }

  /** Characters taken from a suffix of `s` are characters of `s`. */
  lemma InSuffix(s: string, k: nat, r: string)
    requires k <= |s| && forall c :: c in r ==> c in s[k..]
    ensures forall c :: c in r ==> c in s
  {
    forall c | c in r ensures c in s {
      var j :| 0 <= j < |s| - k && s[k..][j] == c;
      assert s[k + j] == c;
    }
  }

  /** No letter a-z three times in a row. */
  predicate NoTriple(s: string) {
    forall i :: 0 <= i < |s| - 2 ==> !(IsAsciiLower(s[i]) && s[i + 1] == s[i] && s[i + 2] == s[i])
  }

  /** Collapsing keeps the first two characters. */
  lemma {:induction false} CollapseHead(s: string)
    ensures |s| >= 1 ==> |Collapse(s)| >= 1 && Collapse(s)[0] == s[0]
    ensures |s| >= 2 ==> |Collapse(s)| >= 2 && Collapse(s)[1] == s[1]
    decreases |s|
  {
    if |s| >= 3 && IsAsciiLower(s[0]) && s[1] == s[0] && s[2] == s[0] {
    } else if |s| >= 2 {
      CollapseHead(s[1..]);
    }
  }

  /** The collapsed text has no run of three equal letters. */
  lemma {:induction false} CollapseNoTriple(s: string)
    ensures NoTriple(Collapse(s))
    decreases |s|
  {
    var r := Collapse(s);
    if |s| >= 3 && IsAsciiLower(s[0]) && s[1] == s[0] && s[2] == s[0] {
      var c := s[0];
      var t := TrimLeft(s, Same(c));
      CollapseNoTriple(t);
      CollapseHead(t);
      assert r == [c, c] + Collapse(t);
      assert t != [] ==> t[0] != c by {
        if t != [] { assert !Same(c)(t[0]); }
      }
      forall i | 0 <= i < |r| - 2
        ensures !(IsAsciiLower(r[i]) && r[i + 1] == r[i] && r[i + 2] == r[i])
      {
        if i >= 2 {
          assert r[i] == Collapse(t)[i - 2] && r[i + 1] == Collapse(t)[i - 1] && r[i + 2] == Collapse(t)[i];
        } else {
          assert r[2] == t[0];
        }
      }
    } else if s != [] {
      var rest := Collapse(s[1..]);
      CollapseNoTriple(s[1..]);
      CollapseHead(s[1..]);
      assert r == [s[0]] + rest;
      forall i | 0 <= i < |r| - 2
        ensures !(IsAsciiLower(r[i]) && r[i + 1] == r[i] && r[i + 2] == r[i])
      {
        if i >= 1 {
          assert r[i] == rest[i - 1] && r[i + 1] == rest[i] && r[i + 2] == rest[i + 1];
        } else {
          assert r[1] == s[1] && r[2] == s[2];
        }
      }
    }
  }

  /** Text without such a run is left as it is. */
  lemma {:induction false} CollapseKeeps(s: string)
    requires NoTriple(s)
    ensures Collapse(s) == s
    decreases |s|
  {
    if s != [] {
      assert !(|s| >= 3 && IsAsciiLower(s[0]) && s[1] == s[0] && s[2] == s[0]);
      assert NoTriple(s[1..]) by {
        forall i | 0 <= i < |s[1..]| - 2
          ensures !(IsAsciiLower(s[1..][i]) && s[1..][i + 1] == s[1..][i] && s[1..][i + 2] == s[1..][i])
        {
          assert s[1..][i] == s[i + 1] && s[1..][i + 1] == s[i + 2] && s[1..][i + 2] == s[i + 3];
        }
      }
      CollapseKeeps(s[1..]);
    }
  }

  /** Collapsing twice is collapsing once. */
  lemma CollapseIdempotent(s: string)
    ensures Collapse(Collapse(s)) == Collapse(s)
  {
    CollapseNoTriple(s);
    CollapseKeeps(Collapse(s));
  }

  /** The correction of one token: the dictionary entry of its lowercase
      form, or the token with its letter runs collapsed. */
  function Correct(tok: string): string {
    var lowered := Lower(tok);
    if lowered in COMMON_MISSPELLINGS then COMMON_MISSPELLINGS[lowered] else Collapse(tok)
  }

  /** A word made of letters a-z is a token. */
  lemma LowerWordIsToken(w: string)
    requires w != [] && forall i :: 0 <= i < |w| ==> IsAsciiLower(w[i])
    ensures IsToken(w)
  {
  }

  /** Every dictionary correction is a token. */
  lemma MisspellingFixesAreTokens(k: string)
    requires k in COMMON_MISSPELLINGS
    ensures IsToken(COMMON_MISSPELLINGS[k])
  {
    var v := COMMON_MISSPELLINGS[k];
    assert v in {"introduction", "electricity", "language", "message", "service", "weird", "the", "receive"};
    LowerWordIsToken(v);
  }

  /** A correction of a token is a token. */
  lemma CorrectIsToken(tok: string)
    requires IsToken(tok)
    ensures IsToken(Correct(tok))
  {
    var lowered := Lower(tok);
    if lowered in COMMON_MISSPELLINGS {
      MisspellingFixesAreTokens(lowered);
    } else {
      CollapseHead(tok);
      var r := Collapse(tok);
      forall i | 0 <= i < |r| ensures !IsSpace(r[i]) {
        assert r[i] in tok;
        var j :| 0 <= j < |tok| && tok[j] == r[i];
      }
    }
  }

  /** The body of the first loop of `spell_correct_text` for one token: the
      dictionary entry of its lowercase form, or the token with its letter
      runs collapsed. */
  method CorrectToken(tok: string) returns (v: string)
    ensures v == Correct(tok)
  {
    var lowered := Lower(tok);
    if lowered in COMMON_MISSPELLINGS {
      v := COMMON_MISSPELLINGS[lowered];
    } else {
      v := Collapse(tok);
    }
  }

  /** The cached lookups of a list of tokens, all of them keys. */
  function LookupAll(m: map<string, string>, ws: seq<string>): (vs: seq<string>)
    requires forall i :: 0 <= i < |ws| ==> ws[i] in m
    ensures |vs| == |ws| && forall i :: 0 <= i < |ws| ==> vs[i] == m[ws[i]]
  {
    if ws == [] then [] else LookupAll(m, ws[..|ws| - 1]) + [m[ws[|ws| - 1]]]
  }

  /** The number of positions at which two lists of equal length differ. */
  function Differences(ws: seq<string>, vs: seq<string>): (n: nat)
    requires |ws| == |vs|
    ensures n <= |ws|
    ensures n == 0 <==> ws == vs
  {
    if ws == [] then 0
    else
      var d := Differences(ws[..|ws| - 1], vs[..|vs| - 1]);
      assert ws == ws[..|ws| - 1] + [ws[|ws| - 1]] && vs == vs[..|vs| - 1] + [vs[|vs| - 1]];
      d + (if ws[|ws| - 1] != vs[|vs| - 1] then 1 else 0)
  }

  /** What `spell_correct_text` returns once every cache entry is the
      correction of its key: the text and 0 outside English; otherwise every
      token corrected, and the number of tokens that changed. */
  function SpellCorrect(text: string, lang: string): (string, nat) {
    if lang != "en" then (text, 0)
    else
      var ws := Split(text);
      var vs := Map(ws, Correct);
      (Join(vs), Differences(ws, vs))
  }

  /** English correction keeps the number of tokens and corrects each one
      where it stands; the count is 0 exactly when nothing changed. */
  lemma SpellCorrectTokens(text: string)
    ensures var (out, changed) := SpellCorrect(text, "en");
      Split(out) == Map(Split(text), Correct) &&
      |Split(out)| == |Split(text)| &&
      changed == Differences(Split(text), Split(out)) &&
      (changed == 0 <==> Split(out) == Split(text))
  {
    var ws := Split(text);
    var vs := Map(ws, Correct);
    forall i | 0 <= i < |vs| ensures IsToken(vs[i]) { CorrectIsToken(ws[i]); }
    SplitJoin(vs);
  }

  /** The correction cache that `process_dataset` threads through every row. */
  class CorrectionCache {
    var entries: map<string, string>

    /** Every cached value is the correction of its key. */
    ghost predicate Valid()
      reads this
    {
      forall k :: k in entries ==> entries[k] == Correct(k)
    }

    constructor ()
      ensures entries == map[] && Valid()
    {
      entries := map[];
    }

    /** `spell_correct_text`: looks up every token not cached yet, then
        replaces every token by its cached value and counts the changes. */
    method SpellCorrectText(text: string, lang: string) returns (out: string, changed: nat)
      modifies this
      ensures lang != "en" ==> out == text && changed == 0 && entries == old(entries)
      ensures lang == "en" ==>
        (forall k :: k in entries <==> k in old(entries) || k in Split(text)) &&
        (forall k :: k in entries ==> entries[k] == if k in old(entries) then old(entries)[k] else Correct(k))
      ensures lang == "en" ==>
        var ws := Split(text);
        (forall i :: 0 <= i < |ws| ==> ws[i] in entries) &&
        out == Join(LookupAll(entries, ws)) &&
        changed == Differences(ws, LookupAll(entries, ws))
      ensures old(Valid()) ==> Valid() && (out, changed) == SpellCorrect(text, lang)
    {
      if lang != "en" {
        return text, 0;
      }
      var tokens := Split(text);
      LearnTokens(tokens);
      LearnTokensFacts(tokens, old(entries));
      out, changed := ApplyCache(entries, tokens);
      if old(Valid()) {
        LookupValid(entries, tokens);
      }
    }

    /** The first loop of `spell_correct_text`: every token not cached before
        it starts gets its correction; cached entries stay as they are. */
    method LearnTokens(tokens: seq<string>)
      modifies this
      ensures entries == Learned(old(entries), Filter(tokens, NotIn(old(entries).Keys)))
    {
      ghost var before := entries;
      var lookup := Filter(tokens, NotIn(entries.Keys));
      for i := 0 to |lookup|
        invariant entries == Learned(before, lookup[..i])
      {
        var tok := lookup[i];
        var v := CorrectToken(tok);
        LearnedStep(before, lookup, i);
        entries := entries[tok := v];
      }
      assert lookup[..|lookup|] == lookup;
    }
  }

  /** The cache after storing the correction of each token of `ws`, in order. */
  function Learned(m: map<string, string>, ws: seq<string>): map<string, string> {
    if ws == [] then m else Learned(m, ws[..|ws| - 1])[ws[|ws| - 1] := Correct(ws[|ws| - 1])]
  }

  lemma LearnedStep(m: map<string, string>, ws: seq<string>, i: nat)
    requires i < |ws|
    ensures Learned(m, ws[..i + 1]) == Learned(m, ws[..i])[ws[i] := Correct(ws[i])]
  {
    assert ws[..i + 1][..i] == ws[..i];
  }

  lemma {:induction false} LearnedFacts(m: map<string, string>, ws: seq<string>)
    ensures forall k :: k in Learned(m, ws) <==> k in m || k in ws
    ensures forall k :: k in Learned(m, ws) ==> Learned(m, ws)[k] == if k in ws then Correct(k) else m[k]
  {
    if ws != [] {
      LearnedFacts(m, ws[..|ws| - 1]);
      assert ws == ws[..|ws| - 1] + [ws[|ws| - 1]];
    }
  }

  /** Storing the corrections of the tokens not cached yet adds a key for
      every token and leaves the old entries alone. */
  lemma LearnTokensFacts(tokens: seq<string>, m: map<string, string>)
    ensures var l := Learned(m, Filter(tokens, NotIn(m.Keys)));
      (forall k :: k in l <==> k in m || k in tokens) &&
      (forall k :: k in l ==> l[k] == if k in m then m[k] else Correct(k))
  {
    var lookup := Filter(tokens, NotIn(m.Keys));
    LookupTokens(tokens, m);
    LearnedFacts(m, lookup);
    forall k | k in tokens ensures k in m || k in lookup {
      var j :| 0 <= j < |tokens| && tokens[j] == k;
    }
  }

  /** The second loop of `spell_correct_text`: every token replaced by its
      cached value, and the number of tokens that changed. */
  method ApplyCache(cache: map<string, string>, tokens: seq<string>) returns (out: string, changed: nat)
    requires forall i :: 0 <= i < |tokens| ==> tokens[i] in cache
    ensures out == Join(LookupAll(cache, tokens))
    ensures changed == Differences(tokens, LookupAll(cache, tokens))
  {
    var corrected: seq<string> := [];
    changed := 0;
    for i := 0 to |tokens|
      invariant corrected == LookupAll(cache, tokens[..i])
      invariant changed == Differences(tokens[..i], corrected)
    {
      var tok := tokens[i];
      var c := if tok in cache then cache[tok] else tok;
      var prefix := tokens[..i + 1];
      assert prefix[..i] == tokens[..i] && prefix[i] == tok;
      assert forall j :: 0 <= j < |prefix| ==> prefix[j] in cache;
      assert LookupAll(cache, prefix) == corrected + [c];
      corrected := corrected + [c];
      assert corrected[..i] == LookupAll(cache, tokens[..i]);
      if c != tok {
        changed := changed + 1;
      }
    }
    assert tokens[..|tokens|] == tokens;
    out := Join(corrected);
  }

  /** The tokens looked up are those not cached before the call. */
  lemma LookupTokens(tokens: seq<string>, m: map<string, string>)
    ensures forall k :: k in Filter(tokens, NotIn(m.Keys)) ==> k !in m
    ensures forall i :: 0 <= i < |tokens| && tokens[i] !in m ==> tokens[i] in Filter(tokens, NotIn(m.Keys))
  {
    var lookup := Filter(tokens, NotIn(m.Keys));
    forall k | k in lookup ensures k !in m {
      var j :| 0 <= j < |lookup| && lookup[j] == k;
    }
    forall i | 0 <= i < |tokens| && tokens[i] !in m ensures tokens[i] in lookup {
      assert NotIn(m.Keys)(tokens[i]);
    }
  }

  /** With every cached value the correction of its key, the lookups are the corrections. */
  lemma LookupValid(m: map<string, string>, ws: seq<string>)
    requires forall k :: k in m ==> m[k] == Correct(k)
    requires forall i :: 0 <= i < |ws| ==> ws[i] in m
    ensures LookupAll(m, ws) == Map(ws, Correct)
  {
  }

  // ---------------------------------------------------------------- tokens

  predicate NotBlank(tok: string) { Strip(tok) != "" }

  /** `tokenize_text`: NLTK's tokenizer for English, `split()` otherwise,
      without blank tokens. */
  function Tokenize(text: string, lang: string, tk: Toolkit): Option<seq<string>> {
    if text == "" then Some([])
    else if lang == "en" then
      match tk.wordTokenize(text)
      case None => None
      case Some(ts) => Some(Filter(ts, NotBlank))
    else Some(Filter(Split(text), NotBlank))
  }

  /** Applies a per-token call that may raise; the first raise aborts. */
  function MapAll(ws: seq<string>, f: string -> Option<string>): Option<seq<string>> {
    if ws == [] then Some([])
    else
      match f(ws[0])
      case None => None
      case Some(v) =>
        match MapAll(ws[1..], f)
        case None => None
        case Some(vs) => Some([v] + vs)
  }

  /** `stem_tokens`. */
  function StemTokens(tokens: seq<string>, lang: string, tk: Toolkit): Option<seq<string>> {
    if lang != "en" then Some(tokens) else MapAll(tokens, tk.stem)
  }

  /** `lemmatize_tokens`. */
  function LemmatizeTokens(tokens: seq<string>, lang: string, tk: Toolkit): Option<seq<string>> {
    if lang != "en" then Some(tokens) else MapAll(tokens, tk.lemmatize)
  }

  /** A whitespace token is never blank. */
  lemma {:induction false} FilterNotBlankTokens(ws: seq<string>)
    requires AllTokens(ws)
    ensures Filter(ws, NotBlank) == ws
  {
    if ws != [] {
      var w := ws[0];
      assert TrimLeft(w, IsSpace) == w;
      assert !IsSpace(w[|w| - 1]);
      assert TrimRight(w, IsSpace) == w;
      FilterNotBlankTokens(ws[1..]);
    }
  }

  /** Outside English the tokens are the whitespace tokens of the text, and
      stemming and lemmatising leave them as they are. */
  lemma NonEnglishTokens(text: string, lang: string, tk: Toolkit)
    requires lang != "en"
    ensures Tokenize(text, lang, tk) == Some(Split(text))
    ensures StemTokens(Split(text), lang, tk) == Some(Split(text))
    ensures LemmatizeTokens(Split(text), lang, tk) == Some(Split(text))
  {
    FilterNotBlankTokens(Split(text));
    if text == "" {
      assert Split(text) == [];
    }
  }

  /** The per-call results of a call that returns for every token line up with the tokens. */
  lemma {:induction false} MapAllSome(ws: seq<string>, f: string -> Option<string>)
    requires forall i :: 0 <= i < |ws| ==> f(ws[i]).Some?
    ensures MapAll(ws, f).Some? && |MapAll(ws, f).value| == |ws|
    ensures forall i :: 0 <= i < |ws| ==> MapAll(ws, f).value[i] == f(ws[i]).value
  {
    if ws != [] {
      MapAllSome(ws[1..], f);
    }
  }

  /** `Counter()` updated with each list in turn, then `most_common(top_n)`. */
  method GetTopTokens(tokenLists: seq<seq<string>>, topN: int) returns (top: Counter<string>)
    ensures top == MostCommon(Update([], Flatten(tokenLists)), topN)
    ensures |top| <= if topN <= 0 then 0 else topN
    ensures SortedDesc(top)
    ensures forall i :: 0 <= i < |top| ==> top[i].1 == multiset(Flatten(tokenLists))[top[i].0]
  {
    var counter: Counter<string> := [];
    for i := 0 to |tokenLists|
      invariant counter == Update([], Flatten(tokenLists[..i]))
    {
      UpdateAppend([], Flatten(tokenLists[..i]), tokenLists[i]);
      assert tokenLists[..i + 1] == tokenLists[..i] + [tokenLists[i]];
      FlattenSnoc(tokenLists[..i], tokenLists[i]);
      counter := Update(counter, tokenLists[i]);
    }
    assert tokenLists[..|tokenLists|] == tokenLists;
    top := MostCommon(counter, topN);
    MostCommonFacts(counter, topN);
    forall i | 0 <= i < |top| ensures top[i].1 == multiset(Flatten(tokenLists))[top[i].0] {
      TopTokenCount(Flatten(tokenLists), top, topN, i);
    }
  }

  /** Each pair returned holds a token with its total number of occurrences. */
  lemma TopTokenCount(xs: seq<string>, top: Counter<string>, topN: int, i: nat)
    requires top == MostCommon(Update([], xs), topN) && i < |top|
    ensures top[i].1 == multiset(xs)[top[i].0]
  {
    var c := Update([], xs);
    MostCommonFacts(c, topN);
    assert top[i] in multiset(top);
    assert top[i] in multiset(c);
    var j :| 0 <= j < |c| && c[j] == top[i];
    var empty: Counter<string> := [];
    assert Keys(empty) == [];
    assert WellFormed(empty);
    KeysUpdate(empty, xs);
    DedupDistinct(Keys(empty) + xs);
    GetEntry(c, j);
    GetUpdate([], xs, top[i].0);
  }

  // ---------------------------------------------------------------- dataset

  /** One document of the merged table. */
  datatype Document = Document(docId: string, source: string, language: string, datasetFile: string, rawText: string)

  /** A document with every intermediate column of the pipeline. */
  datatype Processed = Processed(
    doc: Document, textLower: string, textNoPunctuation: string, textNoStopwords: string,
    textNormalized: string, textSpellCorrected: string, tokens: seq<string>,
    tokensStemmed: seq<string>, tokensLemmatized: seq<string>, finalText: string)

  datatype ProcessingStats = ProcessingStats(spellCorrectionMethod: string, spellingCorrectionsApplied: nat, failedRows: nat)

  /** The text steps before tokenisation: normalised text, corrected text
      and the number of corrected tokens. */
  function PreTokens(d: Document, tk: Toolkit): (string, string, string, string, string, nat) {
    var lower := Lower(d.rawText);
    var noPunct := RemovePunctuation(lower, tk.word);
    var noStop := RemoveStopwordsText(noPunct, d.language, tk.enStopwords);
    var normalized := Normalized(noStop, d.language, tk);
    var (spell, changed) := SpellCorrect(normalized, d.language);
    (lower, noPunct, noStop, normalized, spell, changed)
  }

  /** The rest of the row once the spelling step has run: `None` when an
      NLTK call raises. */
  function FinishRow(d: Document, pre: (string, string, string, string, string, nat), tk: Toolkit): Option<Processed> {
    var (lower, noPunct, noStop, normalized, spell, _) := pre;
    match Tokenize(spell, d.language, tk)
    case None => None
    case Some(tokens) =>
      match StemTokens(tokens, d.language, tk)
      case None => None
      case Some(stemmed) =>
        match LemmatizeTokens(tokens, d.language, tk)
        case None => None
        case Some(lemmas) =>
          Some(Processed(d, lower, noPunct, noStop, normalized, spell, tokens, stemmed, lemmas, Join(lemmas)))
  }

  /** The row outcome of one document. */
  function ProcessRow(d: Document, tk: Toolkit): Option<Processed> {
    FinishRow(d, PreTokens(d, tk), tk)
  }

  /** The row outcome of each document under a toolkit. */
  function RowOf(tk: Toolkit): Document -> Option<Processed> {
    d => ProcessRow(d, tk)
  }

  /** The spelling count of each document under a toolkit. */
  function ChangedOf(tk: Toolkit): Document -> nat {
    d => PreTokens(d, tk).5
  }

  /** The rows that went through, in input order. */
  function Successes(docs: seq<Document>, row: Document -> Option<Processed>): seq<Processed> {
    if docs == [] then []
    else
      Successes(docs[..|docs| - 1], row) + (match row(docs[|docs| - 1]) case Some(p) => [p] case None => [])
  }

  /** The number of rows that raised. */
  function Failures(docs: seq<Document>, row: Document -> Option<Processed>): nat {
    if docs == [] then 0
    else Failures(docs[..|docs| - 1], row) + (if row(docs[|docs| - 1]).None? then 1 else 0)
  }

  /** The corrected tokens counted over all rows, including rows that raise
      after their spelling step. */
  function Corrections(docs: seq<Document>, changed: Document -> nat): nat {
    if docs == [] then 0
    else Corrections(docs[..|docs| - 1], changed) + changed(docs[|docs| - 1])
  }

  /** Every document is either processed or counted as failed. */
  lemma {:induction false} RowsAccounted(docs: seq<Document>, row: Document -> Option<Processed>)
    ensures |Successes(docs, row)| + Failures(docs, row) == |docs|
  {
    if docs != [] {
      RowsAccounted(docs[..|docs| - 1], row);
    }
  }

  /** A non-English row always goes through with 0 corrections; its tokens
      are the whitespace tokens of its normalised text, the stemmed and
      lemmatised lists are those tokens, and the final text joins them. */
  lemma NonEnglishRow(d: Document, tk: Toolkit)
    requires d.language != "en"
    ensures PreTokens(d, tk).5 == 0
    ensures ProcessRow(d, tk).Some?
    ensures var p := ProcessRow(d, tk).value;
      p.textSpellCorrected == p.textNormalized &&
      p.tokens == Split(p.textNormalized) &&
      p.tokensStemmed == p.tokens && p.tokensLemmatized == p.tokens &&
      p.finalText == Join(p.tokens)
  {
    var pre := PreTokens(d, tk);
    assert pre.4 == pre.3 && pre.5 == 0;
    NonEnglishFinish(d, pre, tk);
  }

  lemma NonEnglishFinish(d: Document, pre: (string, string, string, string, string, nat), tk: Toolkit)
    requires d.language != "en"
    ensures var ws := Split(pre.4);
      FinishRow(d, pre, tk) == Some(Processed(d, pre.0, pre.1, pre.2, pre.3, pre.4, ws, ws, ws, Join(ws)))
  {
    NonEnglishTokens(pre.4, d.language, tk);
  }

  /** The body of the `try` block for one row: the spelling count it adds
      and the row it produces, if no NLTK call raises. */
  method ProcessOne(d: Document, tk: Toolkit, cache: CorrectionCache) returns (changed: nat, row: Option<Processed>)
    requires cache.Valid()
    modifies cache
    ensures cache.Valid()
    ensures changed == PreTokens(d, tk).5 && row == ProcessRow(d, tk)
  {
    var lower := Lower(d.rawText);
    var noPunct := RemovePunctuation(lower, tk.word);
    var noStop := RemoveStopwordsText(noPunct, d.language, tk.enStopwords);
    var normalized := NormalizeText(noStop, d.language, tk);
    var spell;
    spell, changed := cache.SpellCorrectText(normalized, d.language);
    var pre := (lower, noPunct, noStop, normalized, spell, changed);
    assert pre == PreTokens(d, tk);
    row := FinishRow(d, pre, tk);
  }

  /** `process_dataset`: every row through the pipeline with one shared
      correction cache; a row whose NLTK call raises is counted as failed. */
  method ProcessDataset(docs: seq<Document>, tk: Toolkit) returns (processed: seq<Processed>, stats: ProcessingStats)
    ensures processed == Successes(docs, RowOf(tk))
    ensures stats == ProcessingStats("rule_based_dictionary", Corrections(docs, ChangedOf(tk)), Failures(docs, RowOf(tk)))
    ensures |processed| + stats.failedRows == |docs|
  {
    var cache := new CorrectionCache();
    processed := [];
    var correctedTotal: nat := 0;
    var failed: nat := 0;
    for i := 0 to |docs|
      invariant cache.Valid()
      invariant processed == Successes(docs[..i], RowOf(tk))
      invariant correctedTotal == Corrections(docs[..i], ChangedOf(tk))
      invariant failed == Failures(docs[..i], RowOf(tk))
    {
      processed, correctedTotal, failed := ProcessNext(docs, i, tk, cache, processed, correctedTotal, failed);
    }
    assert docs[..|docs|] == docs;
    RowsAccounted(docs, RowOf(tk));
    stats := ProcessingStats("rule_based_dictionary", correctedTotal, failed);
  }

  /** One turn of the loop of `process_dataset`: row `i` through the `try`
      block with the shared cache, then the counts. */
  method ProcessNext(docs: seq<Document>, i: nat, tk: Toolkit, cache: CorrectionCache,
                     processed0: seq<Processed>, corrected0: nat, failed0: nat)
    returns (processed: seq<Processed>, corrected: nat, failed: nat)
    requires i < |docs| && cache.Valid()
    requires processed0 == Successes(docs[..i], RowOf(tk))
    requires corrected0 == Corrections(docs[..i], ChangedOf(tk))
    requires failed0 == Failures(docs[..i], RowOf(tk))
    modifies cache
    ensures cache.Valid()
    ensures processed == Successes(docs[..i + 1], RowOf(tk))
    ensures corrected == Corrections(docs[..i + 1], ChangedOf(tk))
    ensures failed == Failures(docs[..i + 1], RowOf(tk))
  {
    var changed, r := ProcessOne(docs[i], tk, cache);
    processed, corrected, failed := Tally(docs, i, RowOf(tk), ChangedOf(tk), changed, r, processed0, corrected0, failed0);
  }

  /** The counts after row `i`: its spelling count is added whatever
      happens, then its processed row is appended or one failure counted. */
  method Tally(docs: seq<Document>, i: nat, row: Document -> Option<Processed>, changedOf: Document -> nat,
               changed: nat, r: Option<Processed>, processed0: seq<Processed>, corrected0: nat, failed0: nat)
    returns (processed: seq<Processed>, corrected: nat, failed: nat)
    requires i < |docs| && changed == changedOf(docs[i]) && r == row(docs[i])
    requires processed0 == Successes(docs[..i], row)
    requires corrected0 == Corrections(docs[..i], changedOf)
    requires failed0 == Failures(docs[..i], row)
    ensures processed == Successes(docs[..i + 1], row)
    ensures corrected == Corrections(docs[..i + 1], changedOf)
    ensures failed == Failures(docs[..i + 1], row)
  {
    assert docs[..i + 1][..i] == docs[..i];
    corrected := corrected0 + changed;
    processed := processed0 + match r case Some(p) => [p] case None => [];
    failed := failed0 + if r.None? then 1 else 0;
  }
}
