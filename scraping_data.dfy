/**
 * The Dien May Xanh review scraper: its URL helpers, the product links it
 * picks from a category page, the crawl of one `/danh-gia` review page
 * through its pagination, and the totals of a category batch.
 */
module ScrapingData {
  import opened Wrappers
  import opened Text
  import opened Seqs
  import opened Counters
  import opened PageDriver
  import opened Urls

  // ---------------------------------------------------------------- URLs

  /** `_strip_query_fragment`: `urlparse`, then `urlunparse` without query
      and fragment. What `urlsplit` rejects (an unbalanced square bracket in
      the network location) comes back unchanged; anything else comes back
      cleaned as `urlsplit` cleans it, with its scheme in lower case and cut
      at its first `?` or `#`. */
  function StripQueryFragment(url: string): (r: string)
    ensures Raises(Sanitize(url)) ==> r == url
    ensures !Raises(Sanitize(url)) ==>
      var t := LowerScheme(Sanitize(url));
      |r| <= |t| && r == t[..|r|] && '?' !in r && '#' !in r &&
      (|r| < |t| ==> t[|r|] == '?' || t[|r|] == '#')
  {
    var s := Sanitize(url);
    if Raises(s) then url else CutQueryFragment(LowerScheme(s))
  }

  /** A URL already in the form `urlunparse` gives back, with neither query
      nor fragment, is left as it is. */
  lemma StripQueryFragmentClean(url: string)
    requires Sanitized(url) && LowerScheme(url) == url && !Raises(url)
    requires '?' !in url && '#' !in url
    ensures StripQueryFragment(url) == url
  {
    SanitizeShape(url);
    CutQueryFragmentClean(url);
  }

  /** The scheme is lower-cased and the query dropped. */
  lemma StripQueryFragmentUpperScheme(url: string)
    requires url == "HTTPS://x/a?q"
    ensures StripQueryFragment(url) == "https://x/a"
  {
    assert Sanitized(url);
    SanitizeShape(url);
    UpperSchemeParsed(url);
    UpperSchemeCut(LowerScheme(url));
  }

  lemma UpperSchemeCut(t: string)
    requires t == "https://x/a?q"
    ensures CutQueryFragment(t) == "https://x/a"
  {
    CutQueryFragmentAt(t, 11);
  }

  /** `HTTPS://x/a?q` has the scheme `HTTPS` and the network location `x`. */
  lemma UpperSchemeParsed(url: string)
    requires url == "HTTPS://x/a?q"
    ensures !Raises(url) && LowerScheme(url) == "https://x/a?q"
  {
    SchemeLenExact(url, 5);
    var rest := url[6..];
    NetEndAt(rest, 2, 3);
    assert rest[2..3] == "x";
    assert AsciiLower(url[..5]) == "https";
  }

  /** An unbalanced `[` in the network location makes `urlsplit` raise
      `ValueError`, and the URL comes back as it was. */
  lemma StripQueryFragmentBadBracket(url: string)
    requires url == "http://[bad/x?q"
    ensures StripQueryFragment(url) == url
  {
    assert Sanitized(url);
    SanitizeShape(url);
    BadBracketRaises(url);
  }

  /** `http://[bad/x?q` has the scheme `http` and the network location
      `[bad`, with one bracket but not the other. */
  lemma BadBracketRaises(url: string)
    requires url == "http://[bad/x?q"
    ensures Raises(url)
  {
    SchemeLenExact(url, 4);
    var rest := url[5..];
    NetEndAt(rest, 2, 6);
    assert rest[2..6] == "[bad";
    assert rest[2..6][0] == '[';
  }

  /** A URL `urlsplit` rejects, not ending in `/` or `/danh-gia`, gets
      `/danh-gia` appended as it is: `http://[bad/x?q` becomes
      `http://[bad/x?q/danh-gia`. */
  lemma EnsureReviewUrlRejected(url: string)
    requires Raises(Sanitize(url)) && url != [] && url[|url| - 1] != '/'
    requires !EndsWith(url, REVIEW_SUFFIX)
    ensures EnsureReviewUrl(url) == url + REVIEW_SUFFIX
  {
    RStripSuffix(url, '/');
  }

  const REVIEW_SUFFIX := "/danh-gia"

  /** `_ensure_review_url`: the URL without query and fragment, with
      `/danh-gia` appended (after dropping trailing slashes) unless it is
      already there. */
  function EnsureReviewUrl(url: string): (r: string)
    ensures EndsWith(r, REVIEW_SUFFIX)
    ensures !Raises(Sanitize(url)) ==> '?' !in r && '#' !in r
  {
    var u := StripQueryFragment(url);
    if EndsWith(u, REVIEW_SUFFIX) then u
    else
      var v := RStripChar(u, '/');
      assert forall c :: c in v ==> c in u;
      var r := v + REVIEW_SUFFIX;
      ReviewSuffixChars();
      assert forall c :: c in r ==> c in v || c in REVIEW_SUFFIX;
      assert r[|r| - |REVIEW_SUFFIX|..] == REVIEW_SUFFIX;
      r
  }

  /** A review URL is one `_strip_query_fragment` leaves as it is. */
  lemma EnsureReviewUrlStable(url: string)
    ensures StripQueryFragment(EnsureReviewUrl(url)) == EnsureReviewUrl(url)
  {
    if Raises(Sanitize(url)) {
      ReviewUrlOfRejected(url);
    } else {
      ReviewUrlOfParsed(url);
    }
  }

  /** Making a review URL of a review URL changes nothing. */
  lemma EnsureReviewUrlIdempotent(url: string)
    ensures EnsureReviewUrl(EnsureReviewUrl(url)) == EnsureReviewUrl(url)
  {
    EnsureReviewUrlStable(url);
  }

  /** `urlsplit` rejects the URL: the review URL is the URL, or the URL
      without trailing slashes plus `/danh-gia`, which it rejects as well. */
  lemma ReviewUrlOfRejected(url: string)
    requires Raises(Sanitize(url))
    ensures StripQueryFragment(EnsureReviewUrl(url)) == EnsureReviewUrl(url)
  {
    assert StripQueryFragment(url) == url;
    if !EndsWith(url, REVIEW_SUFFIX) {
      var v := RStripChar(url, '/');
      RejectedStripped(url, v);
      assert EnsureReviewUrl(url) == v + REVIEW_SUFFIX;
    }
  }

  /** The URL without its trailing slashes, plus `/danh-gia`, is rejected. */
  lemma RejectedStripped(url: string, v: string)
    requires Raises(Sanitize(url)) && v == RStripChar(url, '/')
    ensures StripQueryFragment(v + REVIEW_SUFFIX) == v + REVIEW_SUFFIX
  {
    RStripSplit(url, '/');
    RejectedExtended(url, v, url[|v|..]);
  }

  /** A rejected URL without its trailing slashes, plus `/danh-gia`, is
      rejected too. */
  lemma RejectedExtended(url: string, v: string, sl: string)
    requires Raises(Sanitize(url)) && url == v + sl
    requires forall k :: 0 <= k < |sl| ==> sl[k] == '/'
    ensures Raises(Sanitize(v + REVIEW_SUFFIX))
  {
    LeadOrSlashes(v, sl);
    ReviewSuffixChars();
    SanitizeAppend(v, sl);
    SanitizeAppend(v, REVIEW_SUFFIX);
    RejectedKeepsRaising(Sanitize(url), Sanitize(v), sl);
  }

  /** A URL that is blanks and then slashes only is cleaned to its slashes,
      which `urlsplit` accepts. */
  lemma LeadOrSlashes(v: string, sl: string)
    requires forall k :: 0 <= k < |sl| ==> sl[k] == '/'
    ensures TrimLeft(v, IsC0OrSpace) == [] ==> !Raises(Sanitize(v + sl))
  {
    if TrimLeft(v, IsC0OrSpace) == [] {
      TrimLeftAppend(v, sl, IsC0OrSpace);
      TrimLeftExact(sl, IsC0OrSpace, 0);
      DropUnsafeShape(sl);
      SlashesAccepted(sl);
    }
  }

  /** `urlsplit` accepts a text of slashes only: it has no scheme and no
      square bracket. */
  lemma SlashesAccepted(s: string)
    requires forall k :: 0 <= k < |s| ==> s[k] == '/'
    ensures !Raises(s)
  {
    assert RestStart(s) == 0;
    assert s[0..] == s;
    if HasNetloc(s) {
      assert AuthEnd(s) == 2 by {
        if |s| > 2 {
          assert IsAuthorityEnd(s[2]);
        }
      }
    }
  }

  /** The end of a rejected URL is slashes only: keeping what comes before
      them, plus `/danh-gia`, is rejected too. */
  lemma RejectedKeepsRaising(s: string, sv: string, sl: string)
    requires Raises(s) && s == sv + sl
    requires forall k :: 0 <= k < |sl| ==> sl[k] == '/'
    ensures Raises(sv + REVIEW_SUFFIX)
  {
    var j := RestStart(s);
    var rt := s[j..];
    var b := RaisesHasBracket(rt);
    assert rt[b] == s[j + b];
    assert j + b < |sv|;
    if sl != [] {
      assert rt[|sv| - j] == sl[0];
    }
    assert j + AuthEnd(rt) <= |sv|;
    assert sv == s[..|sv|];
    UrlPrefix(s, sv, REVIEW_SUFFIX);
  }

  /** `http://[bad/x?q`, which `urlsplit` rejects, keeps its query and
      gets `/danh-gia` appended. */
  lemma EnsureReviewUrlBadBracket(url: string)
    requires url == "http://[bad/x?q"
    ensures EnsureReviewUrl(url) == url + REVIEW_SUFFIX
  {
    assert Sanitized(url);
    SanitizeShape(url);
    BadBracketRaises(url);
    assert url[|url| - 1] == 'q';
    assert url[|url| - |REVIEW_SUFFIX|..] != REVIEW_SUFFIX by {
      assert url[|url| - 1] != REVIEW_SUFFIX[|REVIEW_SUFFIX| - 1];
    }
    EnsureReviewUrlRejected(url);
  }

  /** `urlsplit` accepts the URL: the review URL is a cut of its cleaned
      form, plus `/danh-gia` when needed, which it accepts as it is. */
  lemma ReviewUrlOfParsed(url: string)
    requires !Raises(Sanitize(url))
    ensures StripQueryFragment(EnsureReviewUrl(url)) == EnsureReviewUrl(url)
  {
    var s := Sanitize(url);
    SanitizeShape(url);
    LowerSchemeShape(s);
    var t := LowerScheme(s);
    assert t[RestStart(t)..] == s[RestStart(s)..];
    var u := CutQueryFragment(t);
    assert u == StripQueryFragment(url);
    ParsedCutBounds(t, u);
    if EndsWith(u, REVIEW_SUFFIX) {
      ParsedKept(t, u);
    } else {
      ParsedExtended(t, u);
    }
  }

  /** The cut of an accepted URL that already ends in `/danh-gia`. */
  lemma ParsedKept(t: string, u: string)
    requires Sanitized(t) && LowerScheme(t) == t && !Raises(t)
    requires u == CutQueryFragment(t) && |u| >= RestStart(t) + AuthEnd(t[RestStart(t)..])
    requires EndsWith(u, REVIEW_SUFFIX)
    ensures StripQueryFragment(u) == u
  {
    assert u != [];
    assert u + [] == u;
    UrlPrefix(t, u, []);
    ParsedPrefixClean(t, u, []);
  }

  /** The cut of an accepted URL without its trailing slashes, plus `/danh-gia`. */
  lemma ParsedExtended(t: string, u: string)
    requires Sanitized(t) && LowerScheme(t) == t && !Raises(t)
    requires u == CutQueryFragment(t) && |u| >= RestStart(t) + AuthEnd(t[RestStart(t)..])
    ensures var r := RStripChar(u, '/') + REVIEW_SUFFIX; StripQueryFragment(r) == r
  {
    var v := RStripChar(u, '/');
    ParsedStripBounds(t, u, v);
    ReviewSuffixChars();
    if |v| == RestStart(t) {
      UrlPrefixAtRest(t, v, REVIEW_SUFFIX);
    } else {
      UrlPrefix(t, v, REVIEW_SUFFIX);
    }
    ParsedPrefixClean(t, v, REVIEW_SUFFIX);
  }

  /** The query and fragment cut of an accepted URL keeps its scheme and its
      network location. */
  lemma ParsedCutBounds(t: string, u: string)
    requires u == CutQueryFragment(t)
    ensures |u| >= RestStart(t) + AuthEnd(t[RestStart(t)..])
  {
  }

  /** Dropping the trailing slashes of that cut stops at the end of the
      scheme or keeps the network location, and leaves no slash at the end. */
  lemma ParsedStripBounds(t: string, u: string, v: string)
    requires |u| <= |t| && u == t[..|u|] && v == RStripChar(u, '/')
    requires |u| >= RestStart(t) + AuthEnd(t[RestStart(t)..])
    ensures |v| <= |u| && v == t[..|v|]
    ensures |v| == RestStart(t) || |v| >= RestStart(t) + AuthEnd(t[RestStart(t)..])
    ensures |v| == RestStart(t) + 1 ==> v[|v| - 1] != '/'
  {
    RStripSuffix(u, '/');
    var j := RestStart(t);
    var rt := t[j..];
    var e := AuthEnd(rt);
    if |v| < |u| {
      assert t[|v|] == '/';
    }
    assert |v| >= j;
    if j < |v| < |u| {
      assert rt[|v| - j] == t[|v|] && v[|v| - 1] == t[|v| - 1];
    }
    assert |v| == j || |v| >= j + e;
  }

  /** A cut of an accepted URL, plus `/danh-gia` or nothing, is sanitised,
      has its scheme in lower case and holds no `?` or `#`. */
  lemma ParsedPrefixClean(t: string, p: string, w: string)
    requires Sanitized(t) && LowerScheme(t) == t
    requires |p| <= |t| && p == t[..|p|] && '?' !in p && '#' !in p
    requires w == [] || w == REVIEW_SUFFIX
    requires p == [] ==> w != []
    requires SchemeLen(p + w) == SchemeLen(t) && SchemeLen(t) <= |p| && !Raises(p + w)
    ensures StripQueryFragment(p + w) == p + w
  {
    var x := p + w;
    LowerSchemePrefix(t, p, w);
    ReviewSuffixChars();
    PrefixSanitized(t, p, w);
    assert '?' !in x && '#' !in x by {
      assert forall c :: c in x ==> c in p || c in w;
    }
    StripQueryFragmentClean(x);
  }

  /** `/danh-gia` holds no tab, CR, LF, `?` or `#`. */
  lemma ReviewSuffixChars()
    ensures forall k :: 0 <= k < |REVIEW_SUFFIX| ==> !IsUnsafe(REVIEW_SUFFIX[k])
    ensures '?' !in REVIEW_SUFFIX && '#' !in REVIEW_SUFFIX
    ensures REVIEW_SUFFIX[0] == '/' && REVIEW_SUFFIX[1] != '/'
  {
  }

  /** `re.sub(r"^https?://", "", s)`. */
  function DropScheme(s: string): (r: string)
    ensures |r| <= |s| && r == s[|s| - |r|..]
  {
    if StartsWith(s, "https://") then s[8..]
    else if StartsWith(s, "http://") then s[7..]
    else s
  }

  const SLUG_FALLBACK := "dienmayxanh"

  /** `_slug_from_url`: the URL without query, fragment and scheme, slashes
      turned into underscores and every run of other characters outside
      `[a-zA-Z0-9_.-]` into one underscore, stripped of underscores at both
      ends and cut to 120 characters; `"dienmayxanh"` when nothing is left. */
  function SlugFromUrl(url: string): string {
    Slugify(Replace(DropScheme(StripQueryFragment(url)), "/", "_"), 120, SLUG_FALLBACK)
  }

  /** A slug is never empty, is at most 120 characters long and uses only
      the characters `[a-zA-Z0-9_.-]`. */
  lemma SlugFromUrlShape(url: string)
    ensures var r := SlugFromUrl(url);
      r != [] && |r| <= 120 && forall i :: 0 <= i < |r| ==> IsSlugChar(r[i])
  {
    SlugifyShape(Replace(DropScheme(StripQueryFragment(url)), "/", "_"), 120, SLUG_FALLBACK);
    FallbackIsSlug();
  }

  lemma FallbackIsSlug()
    ensures forall i :: 0 <= i < |SLUG_FALLBACK| ==> IsSlugChar(SLUG_FALLBACK[i])
  {
    assert forall i :: 0 <= i < |SLUG_FALLBACK| ==> IsAsciiLetter(SLUG_FALLBACK[i]);
  }

  // ---------------------------------------------------------------- product links

  const DMX_HOST := "www.dienmayxanh.com"

  /** Path prefixes of pages that are never products (news, Q&A, offers, ...). */
  const BLOCKED_PREFIXES := ["tin-tuc", "hoi-dap", "khuyen-mai", "wiki", "video", "gio-hang",
                             "lich-su-mua-hang", "sitemap"]

  /** The path starts with one of `prefixes`. */
  predicate StartsWithAny(path: string, prefixes: seq<string>) {
    prefixes != [] && (StartsWith(path, prefixes[0]) || StartsWithAny(path, prefixes[1..]))
  }

  predicate Blocked(path: string) {
    StartsWithAny(path, BLOCKED_PREFIXES)
  }

  /** `_looks_like_product_url` on the host and path `urlparse` finds in the
      link: the shop's own host (or none), a path under the category (when
      there is one) with at least two segments, no blocked prefix and no
      `/danh-gia` ending. */
  predicate LooksLikeProductUrl(host: string, path: string, categoryPath: string) {
    var p := StripChar(path, '/');
    var cat := StripChar(categoryPath, '/');
    (host == [] || host == DMX_HOST) && p != [] && !Blocked(p) &&
    (cat == [] || StartsWith(p, cat + "/")) && '/' in p && !EndsWith(p, REVIEW_SUFFIX)
  }

  /** An accepted path has at least two non-empty segments. */
  lemma ProductUrlSegments(host: string, path: string, categoryPath: string)
    requires LooksLikeProductUrl(host, path, categoryPath)
    ensures var p := StripChar(path, '/');
      |p| >= 3 && p[0] != '/' && p[|p| - 1] != '/' && '/' in p[1..|p| - 1]
  {
    StripCharInterior(path, '/');
  }

  /** What `urlparse` finds in a link: its host and its path. */
  datatype UrlParts = UrlParts(host: string, path: string)

  /** A link as the selection loop reads it: `None` when its `href` is
      missing or empty, otherwise the `href` without query and fragment. */
  function Candidate(href: Option<string>): Option<string> {
    if href.None? || href.value == [] then None else Some(StripQueryFragment(href.value))
  }

  /** The product test of one candidate: `urlparse` it, then
      `_looks_like_product_url` against the category's path. */
  function ProductTest(parse: string -> UrlParts, categoryPath: string): string -> bool {
    h => LooksLikeProductUrl(parse(h).host, parse(h).path, categoryPath)
  }

  /** The candidates `accept` takes, in page order, repeats included. */
  function Accepted(hrefs: seq<Option<string>>, accept: string -> bool): seq<string> {
    if hrefs == [] then []
    else
      var init, c := Accepted(hrefs[..|hrefs| - 1], accept), Candidate(hrefs[|hrefs| - 1]);
      if c.Some? && accept(c.value) then init + [c.value] else init
  }

  /** The selection loop's state: whether it has broken out, and the URLs. */
  datatype Pick = Pick(stopped: bool, urls: seq<string>)

  /** The selection loop of `collect_product_urls_from_category` over the
      page's links, with the product test `accept`: a link already taken is
      skipped, an accepted one is taken, and after any link that is neither
      empty nor skipped the loop breaks once `max_products` URLs are taken. */
  function PickLinks(hrefs: seq<Option<string>>, accept: string -> bool, maxProducts: int): (p: Pick)
    ensures !p.stopped ==> p.urls == [] || |p.urls| < maxProducts
    ensures |p.urls| <= if maxProducts >= 1 then maxProducts else 1
  {
    if hrefs == [] then Pick(false, [])
    else
      var p := PickLinks(hrefs[..|hrefs| - 1], accept, maxProducts);
      var c := Candidate(hrefs[|hrefs| - 1]);
      if p.stopped || c.None? || c.value in p.urls then p
      else
        var u := if accept(c.value) then p.urls + [c.value] else p.urls;
        Pick(|u| >= maxProducts, u)
  }

  /** Once the loop has broken out, later links change nothing. */
  lemma {:induction false} PickLinksStopped(hrefs: seq<Option<string>>, accept: string -> bool,
                                            maxProducts: int, k: nat)
    requires k <= |hrefs| && PickLinks(hrefs[..k], accept, maxProducts).stopped
    ensures PickLinks(hrefs, accept, maxProducts) == PickLinks(hrefs[..k], accept, maxProducts)
  {
    if k < |hrefs| {
      var init := hrefs[..|hrefs| - 1];
      assert init[..k] == hrefs[..k];
      PickLinksStopped(init, accept, maxProducts, k);
    } else {
      assert hrefs[..k] == hrefs;
    }
  }

  /** The URLs taken are the accepted links of a prefix of the page, each
      kept at its first occurrence; of the whole page when the loop did not
      break. */
  lemma {:induction false} PickLinksDedup(hrefs: seq<Option<string>>, accept: string -> bool, maxProducts: int)
    ensures var p := PickLinks(hrefs, accept, maxProducts);
      (!p.stopped ==> p.urls == Dedup(Accepted(hrefs, accept))) &&
      exists k :: 0 <= k <= |hrefs| && p.urls == Dedup(Accepted(hrefs[..k], accept))
  {
    var p := PickLinks(hrefs, accept, maxProducts);
    if hrefs == [] {
      assert hrefs[..0] == hrefs;
    } else {
      var init := hrefs[..|hrefs| - 1];
      var q := PickLinks(init, accept, maxProducts);
      PickLinksDedup(init, accept, maxProducts);
      var k :| 0 <= k <= |init| && q.urls == Dedup(Accepted(init[..k], accept));
      assert init[..k] == hrefs[..k];
      if !q.stopped {
        var a := Accepted(init, accept);
        var c := Candidate(hrefs[|hrefs| - 1]);
        assert hrefs[..|hrefs|] == hrefs;
        if c.Some? {
          DedupElements(a);
          DedupSnoc(a, c.value);
        }
      }
    }
  }

  /** Every accepted link is a candidate of the page that `accept` takes. */
  lemma {:induction false} AcceptedSources(hrefs: seq<Option<string>>, accept: string -> bool, x: string)
    requires x in Accepted(hrefs, accept)
    ensures accept(x) && Some(x) in Map(hrefs, Candidate)
  {
    var init := hrefs[..|hrefs| - 1];
    assert hrefs == init + [hrefs[|hrefs| - 1]];
    MapAppend(init, [hrefs[|hrefs| - 1]], Candidate);
    if x in Accepted(init, accept) {
      AcceptedSources(init, accept, x);
    }
  }

  /** `collect_product_urls_from_category` after the page has loaded: the
      links of the page (`hrefs`), and `parse` for `urlparse`. */
  method CollectProductUrls(categoryUrl: string, hrefs: seq<Option<string>>, parse: string -> UrlParts,
                            maxProducts: int)
    returns (urls: seq<string>)
    ensures urls == PickLinks(hrefs, ProductTest(parse, parse(StripQueryFragment(categoryUrl)).path), maxProducts).urls
  {
    var categoryPath := parse(StripQueryFragment(categoryUrl)).path;
    ghost var accept := ProductTest(parse, categoryPath);
    urls := [];
    var seen: set<string> := {};
    for i := 0 to |hrefs|
      invariant PickLinks(hrefs[..i], accept, maxProducts) == Pick(false, urls)
      invariant forall x :: x in seen <==> x in urls
    {
      assert hrefs[..i + 1][..i] == hrefs[..i];
      var href := hrefs[i];
      if href.None? || href.value == [] {
        continue;
      }
      var h := StripQueryFragment(href.value);
      if h in seen {
        continue;
      }
      var parts := parse(h);
      if LooksLikeProductUrl(parts.host, parts.path, categoryPath) {
        seen := seen + {h};
        urls := urls + [h];
      }
      if |urls| >= maxProducts {
        PickLinksStopped(hrefs, accept, maxProducts, i + 1);
        return;
      }
    }
    assert hrefs[..|hrefs|] == hrefs;
  }

  /** The URLs picked are distinct, accepted, taken from the page's
      candidates, and at most `max_products` of them when that is 1 or more. */
  lemma CollectedFacts(hrefs: seq<Option<string>>, accept: string -> bool, maxProducts: int)
    ensures var urls := PickLinks(hrefs, accept, maxProducts).urls;
      Distinct(urls) && (maxProducts >= 1 ==> |urls| <= maxProducts) &&
      forall x :: x in urls ==> accept(x) && Some(x) in Map(hrefs, Candidate)
  {
    PickLinksDedup(hrefs, accept, maxProducts);
    var k :| 0 <= k <= |hrefs| && PickLinks(hrefs, accept, maxProducts).urls == Dedup(Accepted(hrefs[..k], accept));
    CollectedFrom(hrefs, accept, k);
  }

  /** The first occurrences of what the first `k` candidates give are
      distinct, accepted, and candidates of the page. */
  lemma CollectedFrom(hrefs: seq<Option<string>>, accept: string -> bool, k: nat)
    requires k <= |hrefs|
    ensures var urls := Dedup(Accepted(hrefs[..k], accept));
      Distinct(urls) && forall x :: x in urls ==> accept(x) && Some(x) in Map(hrefs, Candidate)
  {
    var acc := Accepted(hrefs[..k], accept);
    DedupDistinct(acc);
    assert hrefs == hrefs[..k] + hrefs[k..];
    MapAppend(hrefs[..k], hrefs[k..], Candidate);
    forall x | x in Dedup(acc)
      ensures accept(x) && Some(x) in Map(hrefs, Candidate)
    {
      DedupMember(acc, x);
      AcceptedSources(hrefs[..k], accept, x);
    }
  }

  /** With the shop's product test, every URL picked is on the shop's host
      (or relative), under the category, and has at least two path segments. */
  lemma CollectedProducts(hrefs: seq<Option<string>>, parse: string -> UrlParts, categoryPath: string,
                          maxProducts: int, x: string)
    requires x in PickLinks(hrefs, ProductTest(parse, categoryPath), maxProducts).urls
    ensures parse(x).host == [] || parse(x).host == DMX_HOST
    ensures var p, cat := StripChar(parse(x).path, '/'), StripChar(categoryPath, '/');
      (cat == [] || StartsWith(p, cat + "/")) && !Blocked(p) && !EndsWith(p, REVIEW_SUFFIX) &&
      |p| >= 3 && '/' in p[1..|p| - 1]
  {
    CollectedFacts(hrefs, ProductTest(parse, categoryPath), maxProducts);
    ProductUrlSegments(parse(x).host, parse(x).path, categoryPath);
  }

  // ---------------------------------------------------------------- one review page

  /** `_looks_like_not_found`: the shop's 404 page, recognised by its
      message (with or without diacritics); never an empty page. */
  predicate LooksLikeNotFound(source: string) {
    source != [] &&
    var s := Lower(source);
    Contains(s, "không tìm thấy trang") || Contains(s, "khong tim thay trang") ||
    (Contains(s, "404") && !Contains(s, "forbidden") &&
     (Contains(s, "trở về trang chủ") || Contains(s, "tro ve trang chu")))
  }

  /** The check ignores letter case: a page and its lower-case text are
      recognised alike. */
  lemma NotFoundIgnoresCase(source: string)
    ensures LooksLikeNotFound(Lower(source)) == LooksLikeNotFound(source)
  {
    LowerIdempotent(source);
    LowerAt(source);
  }

  /** The message in capitals is recognised. */
  lemma NotFoundCapitals()
    ensures LooksLikeNotFound("KHÔNG TÌM THẤY TRANG")
  {
    var s, t := "KHÔNG TÌM THẤY TRANG", "không tìm thấy trang";
    LowerIs(s, t);
    ContainsSelf(t);
    NotFoundByMessage(s, t);
  }

  /** The message without diacritics is recognised. */
  lemma NotFoundNoDiacritics()
    ensures LooksLikeNotFound("Khong tim thay trang")
  {
    var s, t := "Khong tim thay trang", "khong tim thay trang";
    LowerIs(s, t);
    ContainsSelf(t);
    NotFoundByMessage(s, t);
  }

  /** A page whose lower-case text holds the not-found message is recognised. */
  lemma NotFoundByMessage(source: string, m: string)
    requires source != []
    requires m == "không tìm thấy trang" || m == "khong tim thay trang"
    requires Contains(Lower(source), m)
    ensures LooksLikeNotFound(source)
  {
  }

  /** A page whose lower-case text has "404" and a link back to the home
      page (with or without diacritics) and no "forbidden" is recognised. */
  lemma NotFound404Rule(source: string)
    requires var s := Lower(source);
      Contains(s, "404") && !Contains(s, "forbidden") &&
      (Contains(s, "trở về trang chủ") || Contains(s, "tro ve trang chu"))
    ensures LooksLikeNotFound(source)
  {
  }

  /** Without the not-found message, a page that says "forbidden" is not
      taken for the not-found page, whatever else it says. */
  lemma ForbiddenIsNotNotFound(source: string)
    requires var s := Lower(source);
      Contains(s, "forbidden") && !Contains(s, "không tìm thấy trang") && !Contains(s, "khong tim thay trang")
    ensures !LooksLikeNotFound(source)
  {
  }

  /** An empty page is never taken for the not-found page. */
  lemma NotFoundNeverEmpty()
    ensures !LooksLikeNotFound("")
  {
  }

  const NA := "N/A"
  const BOUGHT_AT := "Đã mua tại "
  const USED_FOR := "Đã dùng khoảng "

  /** One scraped review: the record of `data`, with the page it was found on. */
  datatype Review = Review(index: nat, author: string, shop: string, rating: Rating, usedTime: string,
                           comment: string, page: nat)

  /** `t = el.text; t.strip() if t else "N/A"`, and `"N/A"` when the lookup
      raises (author and comment). */
  function TextOrNA(t: Lookup): string {
    if t.None? || t.value == [] then NA else Strip(t.value)
  }

  /** `t = el.text.strip(); t.replace(prefix, "") if t else "N/A"`, and
      `"N/A"` when the lookup raises (shop and time of use). */
  function LabelOrNA(t: Lookup, prefix: string): string
    requires prefix != []
  {
    if t.None? || Strip(t.value) == [] then NA else Replace(Strip(t.value), prefix, "")
  }

  /** The record of one comment element. */
  function ExtractReview(c: CommentEl, index: nat, page: nat): Review {
    Review(index, TextOrNA(c.author), LabelOrNA(c.shop, BOUGHT_AT),
           if c.stars.Some? then Stars(c.stars.value) else NoRating,
           LabelOrNA(c.usedTime, USED_FOR), TextOrNA(c.text), page)
  }

  /** Each field falls back to `"N/A"` on its own lookup alone; the rating
      is `"N/A"` exactly when counting the stars raised; author and comment
      carry no white space at either end, and a blank one (only white space)
      is kept as the empty text. */
  lemma ReviewFields(c: CommentEl, index: nat, page: nat)
    ensures var r := ExtractReview(c, index, page);
      r.index == index && r.page == page &&
      (c.author.None? ==> r.author == NA) && (c.shop.None? ==> r.shop == NA) &&
      (c.usedTime.None? ==> r.usedTime == NA) && (c.text.None? ==> r.comment == NA) &&
      (r.rating.NoRating? <==> c.stars.None?) &&
      (c.stars.Some? ==> r.rating == Stars(c.stars.value)) &&
      (r.author == NA || r.author == [] || (!IsSpace(r.author[0]) && !IsSpace(r.author[|r.author| - 1]))) &&
      (r.comment == NA || r.comment == [] || (!IsSpace(r.comment[0]) && !IsSpace(r.comment[|r.comment| - 1]))) &&
      (c.author.Some? && c.author.value != [] && Strip(c.author.value) == [] ==> r.author == [])
  {
    if c.author.Some? {
      StripEdges(c.author.value);
    }
    if c.text.Some? {
      StripEdges(c.text.value);
    }
  }

  /** The records of one page's comment elements, numbered from `start`. */
  function CommentReviews(cs: seq<CommentEl>, start: nat, page: nat): (rs: seq<Review>)
    ensures |rs| == |cs|
  {
    if cs == [] then []
    else CommentReviews(cs[..|cs| - 1], start, page) + [ExtractReview(cs[|cs| - 1], start + |cs| - 1, page)]
  }

  lemma {:induction false} CommentReviewsAt(cs: seq<CommentEl>, start: nat, page: nat, i: nat)
    requires i < |cs|
    ensures CommentReviews(cs, start, page)[i] == ExtractReview(cs[i], start + i, page)
  {
    if i < |cs| - 1 {
      CommentReviewsAt(cs[..|cs| - 1], start, page, i);
    }
  }

  /** One more comment element adds its record under the next number. */
  lemma CommentReviewsStep(cs: seq<CommentEl>, start: nat, page: nat, j: nat)
    requires j < |cs|
    ensures CommentReviews(cs[..j + 1], start, page) ==
      CommentReviews(cs[..j], start, page) + [ExtractReview(cs[j], start + j, page)]
  {
    assert cs[..j + 1][..j] == cs[..j];
  }

  /** The records of the pages `ps` (page `k` is `ps[k - 1]`), numbered
      from `start` on without gaps. */
  function PagesReviews(ps: seq<Page>, start: nat): seq<Review> {
    if ps == [] then []
    else
      var r := PagesReviews(ps[..|ps| - 1], start);
      r + CommentReviews(ps[|ps| - 1].comments, start + |r|, |ps|)
  }

  /** The number of comment elements on the pages. */
  function CommentCount(ps: seq<Page>): nat {
    if ps == [] then 0 else CommentCount(ps[..|ps| - 1]) + |ps[|ps| - 1].comments|
  }

  /** Review `rv`, numbered `index`, is the record of one of the comment
      elements of the page it names. */
  predicate FromPage(ps: seq<Page>, rv: Review, index: nat) {
    rv.index == index && 1 <= rv.page <= |ps| &&
    var cs := ps[rv.page - 1].comments;
    exists j :: 0 <= j < |cs| && rv == ExtractReview(cs[j], index, rv.page)
  }

  /** One record per comment element. */
  lemma {:induction false} PagesReviewsLength(ps: seq<Page>, start: nat)
    ensures |PagesReviews(ps, start)| == CommentCount(ps)
  {
    if ps != [] {
      PagesReviewsLength(ps[..|ps| - 1], start);
    }
  }

  /** A record of a page stays a record of that page when more pages follow. */
  lemma FromPagePrefix(ps: seq<Page>, k: nat, rv: Review, index: nat)
    requires k <= |ps| && FromPage(ps[..k], rv, index)
    ensures FromPage(ps, rv, index)
  {
    assert ps[rv.page - 1] == ps[..k][rv.page - 1];
  }

  /** The record of the `j`-th comment element of the last page. */
  lemma FromLastPage(ps: seq<Page>, j: nat, index: nat)
    requires ps != [] && j < |ps[|ps| - 1].comments|
    ensures FromPage(ps, ExtractReview(ps[|ps| - 1].comments[j], index, |ps|), index)
  {
  }

  /** The records are numbered `start, start + 1, ...`, each the record of a
      comment element of the page it names. */
  lemma {:induction false} PagesReviewsAt(ps: seq<Page>, start: nat, i: nat)
    requires i < |PagesReviews(ps, start)|
    ensures FromPage(ps, PagesReviews(ps, start)[i], start + i)
  {
    var init := ps[..|ps| - 1];
    if i < |PagesReviews(init, start)| {
      PagesReviewsAt(init, start, i);
      PagesReviewsEarly(ps, start, i);
    } else {
      PagesReviewsLate(ps, start, i);
    }
  }

  /** A record of the earlier pages keeps its place and its page. */
  lemma PagesReviewsEarly(ps: seq<Page>, start: nat, i: nat)
    requires ps != []
    requires i < |PagesReviews(ps[..|ps| - 1], start)|
    requires FromPage(ps[..|ps| - 1], PagesReviews(ps[..|ps| - 1], start)[i], start + i)
    ensures i < |PagesReviews(ps, start)|
    ensures FromPage(ps, PagesReviews(ps, start)[i], start + i)
  {
    var k := |ps| - 1;
    var r := PagesReviews(ps[..k], start);
    var x := CommentReviews(ps[k].comments, start + |r|, |ps|);
    assert PagesReviews(ps, start) == r + x;
    var idx := start + i;
    FromPagePrefix(ps, k, r[i], idx);
  }

  /** A record past the earlier pages is one of the last page. */
  lemma PagesReviewsLate(ps: seq<Page>, start: nat, i: nat)
    requires ps != []
    requires |PagesReviews(ps[..|ps| - 1], start)| <= i < |PagesReviews(ps, start)|
    ensures FromPage(ps, PagesReviews(ps, start)[i], start + i)
  {
    var k := |ps| - 1;
    var r := PagesReviews(ps[..k], start);
    var cs := ps[k].comments;
    var first := start + |r|;
    var x := CommentReviews(cs, first, |ps|);
    assert PagesReviews(ps, start) == r + x;
    var j := i - |r|;
    CommentReviewsAt(cs, first, |ps|, j);
    var idx := start + i;
    assert first + j == idx;
    FromLastPage(ps, j, idx);
  }

  /** `rating_counter`: one count per review with a non-zero star count,
      under the decimal text of that count, in first-seen order. */
  function StarCounter(rs: seq<Review>): Counter<string> {
    if rs == [] then []
    else
      var c, r := StarCounter(rs[..|rs| - 1]), rs[|rs| - 1].rating;
      if r.Stars? && r.n != 0 then Add(c, NatToString(r.n), 1) else c
  }

  /** The number of reviews with `n` stars. */
  function RatedWith(rs: seq<Review>, n: nat): nat {
    if rs == [] then 0 else RatedWith(rs[..|rs| - 1], n) + if rs[|rs| - 1].rating == Stars(n) then 1 else 0
  }

  /** The number of reviews with a non-zero star count. */
  function RatedCount(rs: seq<Review>): nat {
    if rs == [] then 0
    else RatedCount(rs[..|rs| - 1]) + if rs[|rs| - 1].rating.Stars? && rs[|rs| - 1].rating.n != 0 then 1 else 0
  }

  /** The distribution counts each review with stars once, under its star
      count: it sums to the number of rated reviews, never more than the
      reviews. */
  lemma {:induction false} StarCounterFacts(rs: seq<Review>)
    ensures var c := StarCounter(rs);
      WellFormed(c) && Sum(c) == RatedCount(rs) <= |rs| &&
      forall n :: n > 0 ==> Get(c, NatToString(n)) == RatedWith(rs, n)
  {
    if rs != [] {
      var init, r := rs[..|rs| - 1], rs[|rs| - 1].rating;
      var c := StarCounter(init);
      StarCounterFacts(init);
      if r.Stars? && r.n != 0 {
        SumAdd(c, NatToString(r.n), 1);
        AddWellFormed(c, NatToString(r.n), 1);
        forall n | n > 0 ensures Get(StarCounter(rs), NatToString(n)) == RatedWith(rs, n) {
          GetAdd(c, NatToString(r.n), 1, NatToString(n));
          if NatToString(n) == NatToString(r.n) {
            NatToStringInjective(n, r.n);
          }
        }
      }
    }
  }

  // ---------------------------------------------------------------- pagination

  /** `int(span.active.text.strip())`, and 1 when the span cannot be read or
      its text is not a number. */
  function CurrentPage(active: Lookup): int {
    if active.None? then 1
    else match ParseInt(Strip(active.value)) case Some(n) => n case None => 1
  }

  /** A pagination link to page `target`: its stripped text is all digits and
      reads as `target`. A link whose text cannot be read is passed over. */
  predicate LinkTo(l: Lookup, target: int) {
    l.Some? && IsDigits(Strip(l.value)) && DigitsValue(Strip(l.value)) == target
  }

  /** `LinkTo` as a test on links. */
  function LinksTo(target: int): Lookup -> bool {
    l => LinkTo(l, target)
  }

  /** The position of the first link to page `target`. */
  function NextLink(links: seq<Lookup>, target: int): Option<nat> {
    if links == [] then None
    else if LinkTo(links[0], target) then Some(0)
    else
      match NextLink(links[1..], target)
      case None => None
      case Some(k) => Some(k + 1)
  }

  /** `NextLink` is the first position whose link passes `LinkTo`. */
  lemma {:induction false} NextLinkWhere(links: seq<Lookup>, target: int)
    ensures var k := FirstWhere(links, LinksTo(target));
      NextLink(links, target) == if k < |links| then Some(k) else None
  {
    if links != [] && !LinksTo(target)(links[0]) {
      NextLinkWhere(links[1..], target);
    }
  }

  /** `NextLink` finds the first link to `target`, and finds none exactly
      when there is none. */
  lemma NextLinkFirst(links: seq<Lookup>, target: int)
    ensures var j := NextLink(links, target);
      (j.Some? ==> j.value < |links| && LinkTo(links[j.value], target) &&
                   forall k :: 0 <= k < j.value ==> !LinkTo(links[k], target)) &&
      (j.None? ==> forall k :: 0 <= k < |links| ==> !LinkTo(links[k], target))
  {
    NextLinkWhere(links, target);
    FirstWhereFacts(links, LinksTo(target));
  }

  /** The scraper goes on from a page: it has comments and a link to the page
      after the active one. */
  predicate Advances(p: Page) {
    p.comments != [] && NextLink(p.links, CurrentPage(p.active) + 1).Some?
  }

  /** The number of pages the scraper goes through from page `k` (from 0) on. */
  function Visits(pages: seq<Page>, k: nat): (n: nat)
    ensures n > k
    decreases |pages| - k
  {
    if !Advances(PageAt(pages, k)) then k + 1 else Visits(pages, k + 1)
  }

  /** The scraper goes through the pages before the last one because each
      has comments and a next link; on the last one, one of them is missing.
      It never goes past the end of the script by more than the blank page. */
  lemma {:induction false} VisitsFacts(pages: seq<Page>, k: nat)
    requires k <= |pages|
    ensures var n := Visits(pages, k);
      n <= |pages| + 1 && !Advances(PageAt(pages, n - 1)) &&
      forall j :: k <= j < n - 1 ==> Advances(PageAt(pages, j))
  {
    VisitsBound(pages, k);
    VisitsLast(pages, k);
    VisitsBefore(pages, k);
  }

  /** The page past the script never leads on. */
  lemma BlankStops(pages: seq<Page>, k: nat)
    requires Advances(PageAt(pages, k))
    ensures k < |pages|
  {
    assert PageAt(pages, k).comments != [];
  }

  lemma {:induction false} VisitsBound(pages: seq<Page>, k: nat)
    requires k <= |pages|
    ensures Visits(pages, k) <= |pages| + 1
    decreases |pages| - k
  {
    if Advances(PageAt(pages, k)) {
      BlankStops(pages, k);
      var next := k + 1;
      VisitsBound(pages, next);
    }
  }

  lemma {:induction false} VisitsLast(pages: seq<Page>, k: nat)
    ensures !Advances(PageAt(pages, Visits(pages, k) - 1))
    decreases |pages| - k
  {
    if Advances(PageAt(pages, k)) {
      BlankStops(pages, k);
      var next := k + 1;
      VisitsLast(pages, next);
      assert Visits(pages, k) == Visits(pages, next);
    } else {
      assert Visits(pages, k) - 1 == k;
    }
  }

  lemma {:induction false} VisitsBefore(pages: seq<Page>, k: nat)
    ensures forall j :: k <= j < Visits(pages, k) - 1 ==> Advances(PageAt(pages, j))
    decreases |pages| - k
  {
    if Advances(PageAt(pages, k)) {
      BlankStops(pages, k);
      var next := k + 1;
      VisitsBefore(pages, next);
      assert Visits(pages, k) == Visits(pages, next);
    }
  }

  // ---------------------------------------------------------------- the crawl of one review URL

  /** `driver.page_source or ""`, and `""` when reading it raises. */
  function SourceText(p: Page): string {
    if p.source.Some? then p.source.value else ""
  }

  /** The raw HTML files written: `(k, html)` for each page `k` (from 1)
      whose source could be read. */
  function RawPages(ps: seq<Page>): seq<(nat, string)> {
    if ps == [] then []
    else
      var init := RawPages(ps[..|ps| - 1]);
      if ps[|ps| - 1].source.Some? then init + [(|ps|, ps[|ps| - 1].source.value)] else init
  }

  const NOT_FOUND := "REVIEW_PAGE_NOT_FOUND"

  /** The `stats.json` of one review URL. */
  datatype ScrapeStats = ScrapeStats(sourceUrl: string, pagesCrawled: nat, totalComments: nat,
                                     distribution: Counter<string>, error: Option<string>)

  /** The statistics and the records of one review URL. */
  datatype Scraped = Scraped(stats: ScrapeStats, reviews: seq<Review>)

  /** `scrape_review_url` over the pages the browser shows: the URL is
      completed to its review page; a not-found first page gives one page
      crawled, no comments and the error; otherwise the pages crawled are
      the ones up to the first that has no comments or no next link, and
      every comment element on them is a record. */
  function ScrapeOf(url: string, pages: seq<Page>): Scraped {
    var u := EnsureReviewUrl(url);
    if LooksLikeNotFound(SourceText(PageAt(pages, 0))) then
      Scraped(ScrapeStats(u, 1, 0, [], Some(NOT_FOUND)), [])
    else
      var n := Visits(pages, 0);
      var rs := PagesReviews(Take(pages, n), 1);
      Scraped(ScrapeStats(u, n, |rs|, StarCounter(rs), None), rs)
  }

  /** The raw HTML files of one review URL. */
  function HtmlOf(pages: seq<Page>): seq<(nat, string)> {
    var src := SourceText(PageAt(pages, 0));
    if LooksLikeNotFound(src) then [(1, src)] else RawPages(Take(pages, Visits(pages, 0)))
  }

  /** One line of `comments.jsonl` (without its timestamp). */
  datatype JsonLine = JsonLine(review: Review, sourceUrl: string)

  const CSV_HEADER := ["Index", "Author", "Shop", "Rating", "Time", "Comment"]

  function CsvRow(r: Review): seq<Cell> {
    [Num(r.index), Txt(r.author), Txt(r.shop), RatingCell(r.rating), Txt(r.usedTime), Txt(r.comment)]
  }

  /** `comments.csv`: the header, then one row per record in order. */
  function ReviewTable(rs: seq<Review>): (t: Table)
    ensures t.header == CSV_HEADER && |t.rows| == |rs|
    ensures forall i :: 0 <= i < |rs| ==> t.rows[i] == CsvRow(rs[i]) && |t.rows[i]| == |CSV_HEADER|
  {
    Table(CSV_HEADER, Map(rs, CsvRow))
  }

  /** A not-found page is reported as such, with one page crawled and
      nothing else; otherwise there is no error, at least one page was
      crawled (at most one past the pages the browser has), every comment
      element of the pages crawled is a record, numbered 1, 2, ... without
      gaps, each taken from the page it names, and the distribution counts
      each rated record once under its star count. */
  lemma ScrapeFacts(url: string, pages: seq<Page>)
    ensures var s := ScrapeOf(url, pages);
      s.stats.sourceUrl == EnsureReviewUrl(url) && s.stats.totalComments == |s.reviews| &&
      (s.stats.error.Some? <==> LooksLikeNotFound(SourceText(PageAt(pages, 0)))) &&
      (s.stats.error.Some? ==> s.stats.error.value == NOT_FOUND && s.stats.pagesCrawled == 1 &&
                               s.reviews == [] && s.stats.distribution == []) &&
      (s.stats.error.None? ==>
        var n := s.stats.pagesCrawled;
        1 <= n <= |pages| + 1 && !Advances(PageAt(pages, n - 1)) &&
        (forall j :: 0 <= j < n - 1 ==> Advances(PageAt(pages, j))) &&
        |s.reviews| == CommentCount(Take(pages, n)) &&
        (forall i :: 0 <= i < |s.reviews| ==> FromPage(Take(pages, n), s.reviews[i], i + 1)) &&
        WellFormed(s.stats.distribution) && Sum(s.stats.distribution) <= |s.reviews| &&
        forall k :: k > 0 ==> Get(s.stats.distribution, NatToString(k)) == RatedWith(s.reviews, k))
  {
    if !LooksLikeNotFound(SourceText(PageAt(pages, 0))) {
      var n := Visits(pages, 0);
      var ps := Take(pages, n);
      VisitsFacts(pages, 0);
      PagesReviewsLength(ps, 1);
      forall i | 0 <= i < |PagesReviews(ps, 1)| ensures FromPage(ps, PagesReviews(ps, 1)[i], i + 1) {
        PagesReviewsAt(ps, 1, i);
      }
      StarCounterFacts(PagesReviews(ps, 1));
    }
  }

  /** Crawling one more page adds the records of its comment elements,
      numbered on from the last one; past the pages the browser has, nothing. */
  lemma PagesReviewsStep(pages: seq<Page>, c: nat)
    requires c <= |pages|
    ensures var r := PagesReviews(Take(pages, c), 1);
      PagesReviews(Take(pages, c + 1), 1) == r + CommentReviews(PageAt(pages, c).comments, 1 + |r|, c + 1)
  {
    var ps := Take(pages, c + 1);
    if c < |pages| {
      assert |ps| == c + 1 && ps[..c] == Take(pages, c) && ps[c] == pages[c];
    } else {
      assert ps == Take(pages, c);
      assert CommentReviews(PageAt(pages, c).comments, 1 + |PagesReviews(ps, 1)|, c + 1) == [];
    }
  }

  /** Crawling one more page adds its raw HTML when its source can be read. */
  lemma RawPagesStep(pages: seq<Page>, c: nat)
    requires c <= |pages|
    ensures var p := PageAt(pages, c);
      RawPages(Take(pages, c + 1)) ==
        RawPages(Take(pages, c)) + if p.source.Some? then [(c + 1, p.source.value)] else []
  {
    var ps := Take(pages, c + 1);
    if c < |pages| {
      assert |ps| == c + 1 && ps[..c] == Take(pages, c) && ps[c] == pages[c];
    } else {
      assert ps == Take(pages, c);
    }
  }

  /** The first `k` links do not lead to `target` and the `k`-th does (or
      there is none): `NextLink` answers `k`. */
  lemma NextLinkOf(links: seq<Lookup>, target: int, k: nat)
    requires k <= |links| && forall i :: 0 <= i < k ==> !LinkTo(links[i], target)
    requires k < |links| ==> LinkTo(links[k], target)
    ensures NextLink(links, target) == if k < |links| then Some(k) else None
  {
    NextLinkWhere(links, target);
    FirstWhereIs(links, LinksTo(target), k);
  }

  /** The search for the next page's link: the first pagination link whose
      stripped text is all digits and reads as `target`; a link whose text
      cannot be read is passed over. */
  method FindNextLink(links: seq<Lookup>, target: int) returns (next: Option<nat>)
    ensures next == NextLink(links, target)
  {
    for k := 0 to |links|
      invariant forall i :: 0 <= i < k ==> !LinkTo(links[i], target)
    {
      if LinkTo(links[k], target) {
        NextLinkOf(links, target, k);
        return Some(k);
      }
    }
    NextLinkOf(links, target, |links|);
    return None;
  }

  /** The loop over the comment elements of one page: each one's record,
      numbered on from the records so far, its star count added to the
      distribution when not zero, and its JSON line. */
  method ScrapePage(page: Page, pageNo: nat, sourceUrl: string,
                    reviews0: seq<Review>, counter0: Counter<string>, lines0: seq<JsonLine>)
    returns (reviews: seq<Review>, counter: Counter<string>, lines: seq<JsonLine>)
    requires counter0 == StarCounter(reviews0)
    requires |lines0| == |reviews0| && forall i :: 0 <= i < |reviews0| ==> lines0[i] == JsonLine(reviews0[i], sourceUrl)
    ensures reviews == reviews0 + CommentReviews(page.comments, |reviews0| + 1, pageNo)
    ensures counter == StarCounter(reviews)
    ensures |lines| == |reviews| && forall i :: 0 <= i < |reviews| ==> lines[i] == JsonLine(reviews[i], sourceUrl)
  {
    reviews, counter, lines := reviews0, counter0, lines0;
    var cs := page.comments;
    var index := |reviews0| + 1;
    for j := 0 to |cs|
      invariant reviews == reviews0 + CommentReviews(cs[..j], |reviews0| + 1, pageNo)
      invariant index == |reviews| + 1
      invariant counter == StarCounter(reviews)
      invariant |lines| == |reviews| && forall i :: 0 <= i < |reviews| ==> lines[i] == JsonLine(reviews[i], sourceUrl)
    {
      ghost var done := CommentReviews(cs[..j], |reviews0| + 1, pageNo);
      ghost var next := ExtractReview(cs[j], index, pageNo);
      assert index == |reviews0| + 1 + j;
      CommentReviewsStep(cs, |reviews0| + 1, pageNo, j);
      assert reviews0 + (done + [next]) == (reviews0 + done) + [next];
      reviews, counter, lines := ScrapeComment(cs[j], index, pageNo, sourceUrl, reviews, counter, lines);
      index := index + 1;
    }
    assert cs[..|cs|] == cs;
  }

  /** One comment element of the page: its record under the next number,
      its star count added to the distribution when not zero, and its JSON
      line. */
  method ScrapeComment(c: CommentEl, index: nat, pageNo: nat, sourceUrl: string,
                       reviews0: seq<Review>, counter0: Counter<string>, lines0: seq<JsonLine>)
    returns (reviews: seq<Review>, counter: Counter<string>, lines: seq<JsonLine>)
    requires counter0 == StarCounter(reviews0)
    requires |lines0| == |reviews0| && forall i :: 0 <= i < |reviews0| ==> lines0[i] == JsonLine(reviews0[i], sourceUrl)
    ensures reviews == reviews0 + [ExtractReview(c, index, pageNo)]
    ensures counter == StarCounter(reviews)
    ensures |lines| == |reviews| && forall i :: 0 <= i < |reviews| ==> lines[i] == JsonLine(reviews[i], sourceUrl)
  {
    counter := counter0;
    var rating := NoRating;
    if c.stars.Some? {
      rating := Stars(c.stars.value);
      if c.stars.value != 0 {
        counter := Add(counter, NatToString(c.stars.value), 1);
      }
    }
    var r := Review(index, TextOrNA(c.author), LabelOrNA(c.shop, BOUGHT_AT), rating,
                    LabelOrNA(c.usedTime, USED_FOR), TextOrNA(c.text), pageNo);
    reviews := reviews0 + [r];
    assert reviews[..|reviews0|] == reviews0;
    lines := lines0 + [JsonLine(r, sourceUrl)];
  }

  /** The pagination loop of `scrape_review_url`: page after page, its raw
      HTML, then its records, until a page has no comments or no link to the
      page after the active one. */
  method CrawlPages(pages: seq<Page>, sourceUrl: string)
    returns (crawled: nat, reviews: seq<Review>, counter: Counter<string>, lines: seq<JsonLine>,
             html: seq<(nat, string)>)
    ensures crawled == Visits(pages, 0)
    ensures reviews == PagesReviews(Take(pages, crawled), 1) && counter == StarCounter(reviews)
    ensures |lines| == |reviews| && forall i :: 0 <= i < |reviews| ==> lines[i] == JsonLine(reviews[i], sourceUrl)
    ensures html == RawPages(Take(pages, crawled))
  {
    reviews, counter, lines, html := [], [], [], [];
    crawled := 0;
    while true
      invariant crawled <= |pages|
      invariant Visits(pages, crawled) == Visits(pages, 0)
      invariant reviews == PagesReviews(Take(pages, crawled), 1)
      invariant counter == StarCounter(reviews)
      invariant |lines| == |reviews| && forall i :: 0 <= i < |reviews| ==> lines[i] == JsonLine(reviews[i], sourceUrl)
      invariant html == RawPages(Take(pages, crawled))
      decreases |pages| - crawled
    {
      var page := PageAt(pages, crawled);
      ghost var k := crawled;
      PagesReviewsStep(pages, k);
      RawPagesStep(pages, k);
      crawled := crawled + 1;
      if page.source.Some? {
        html := html + [(crawled, page.source.value)];
      }
      if page.comments == [] {
        assert reviews == PagesReviews(Take(pages, crawled), 1);
        assert Visits(pages, k) == crawled;
        break;
      }
      reviews, counter, lines := ScrapePage(page, crawled, sourceUrl, reviews, counter, lines);
      var next := FindNextLink(page.links, CurrentPage(page.active) + 1);
      if next.None? {
        assert Visits(pages, k) == crawled;
        break;
      }
      BlankStops(pages, k);
      assert Visits(pages, k) == Visits(pages, crawled);
    }
  }

  /** `scrape_review_url`: the statistics, the records, the JSON lines, the
      CSV file and the raw HTML files of one review URL. */
  method ScrapeReviewUrl(url: string, pages: seq<Page>)
    returns (stats: ScrapeStats, reviews: seq<Review>, lines: seq<JsonLine>, csv: Table,
             html: seq<(nat, string)>)
    ensures Scraped(stats, reviews) == ScrapeOf(url, pages)
    ensures |lines| == |reviews| && forall i :: 0 <= i < |reviews| ==> lines[i] == JsonLine(reviews[i], stats.sourceUrl)
    ensures csv == ReviewTable(reviews)
    ensures html == HtmlOf(pages)
  {
    var u := EnsureReviewUrl(url);
    var src0 := SourceText(PageAt(pages, 0));
    if LooksLikeNotFound(src0) {
      stats := ScrapeStats(u, 1, 0, [], Some(NOT_FOUND));
      reviews, lines, html := [], [], [(1, src0)];
      csv := ReviewTable([]);
      return;
    }
    var crawled, counter;
    crawled, reviews, counter, lines, html := CrawlPages(pages, u);
    stats := ScrapeStats(u, crawled, |reviews|, counter, None);
    csv := ReviewTable(reviews);
  }

  // ---------------------------------------------------------------- the command line

  /** `os.path.join(f"raw_data_{mode}", f"{kind}__{_slug_from_url(url)}__{session}")`. */
  function RunDir(mode: string, kind: string, url: string, session: string): string {
    "raw_data_" + mode + "/" + kind + "__" + SlugFromUrl(url) + "__" + session
  }

  /** `f"{i:04d}__{_slug_from_url(p)}"`: the file name of the `i`-th product. */
  function ProductSlug(i: nat, product: string): string {
    ZeroPad(i, 4) + ("__" + SlugFromUrl(product))
  }

  /** Products numbered differently below 10000 get different file names. */
  lemma ProductSlugsDistinct(i: nat, p: string, j: nat, q: string)
    requires i < 10000 && j < 10000 && i != j
    ensures ProductSlug(i, p) != ProductSlug(j, q)
  {
    assert Pow10(4) == 10000;
    ZeroPadWidth(i, 4);
    ZeroPadWidth(j, 4);
    if ZeroPad(i, 4) == ZeroPad(j, 4) {
      ZeroPadInjective(i, j, 4);
    }
    PrefixesDiffer(ZeroPad(i, 4), ZeroPad(j, 4), "__" + SlugFromUrl(p), "__" + SlugFromUrl(q));
  }

  /** The crawl of one product: its review URL, over the pages the browser
      shows for that URL. */
  function ProductScrape(product: string, sites: string -> seq<Page>): Scraped {
    var r := EnsureReviewUrl(product);
    ScrapeOf(r, sites(r))
  }

  /** The statistics of the products, in order. */
  function ProductStats(products: seq<string>, sites: string -> seq<Page>): (sts: seq<ScrapeStats>)
    ensures |sts| == |products|
  {
    if products == [] then []
    else ProductStats(products[..|products| - 1], sites) + [ProductScrape(products[|products| - 1], sites).stats]
  }

  /** The file names of the products, numbered from 1. */
  function Slugs(products: seq<string>): (s: seq<string>)
    ensures |s| == |products|
  {
    if products == [] then []
    else Slugs(products[..|products| - 1]) + [ProductSlug(|products|, products[|products| - 1])]
  }

  /** `total_comments` after the products, in order. */
  function TotalComments(sts: seq<ScrapeStats>): nat {
    if sts == [] then 0 else TotalComments(sts[..|sts| - 1]) + sts[|sts| - 1].totalComments
  }

  /** `rating_total` after the products, in order. */
  function RatingTotal(sts: seq<ScrapeStats>): Counter<string> {
    if sts == [] then [] else Merge(RatingTotal(sts[..|sts| - 1]), sts[|sts| - 1].distribution)
  }

  /** The count of key `k` summed over the products' distributions. */
  function KeyTotal(sts: seq<ScrapeStats>, k: string): nat {
    if sts == [] then 0 else KeyTotal(sts[..|sts| - 1], k) + Get(sts[|sts| - 1].distribution, k)
  }

  /** `rating_total[k]` is the sum of the products' counts for `k`. */
  lemma {:induction false} RatingTotalGet(sts: seq<ScrapeStats>, k: string)
    ensures Get(RatingTotal(sts), k) == KeyTotal(sts, k)
  {
    if sts != [] {
      RatingTotalGet(sts[..|sts| - 1], k);
      GetMerge(RatingTotal(sts[..|sts| - 1]), sts[|sts| - 1].distribution, k);
    }
  }

  /** `batch_stats.json` of a category run, without its clock fields. */
  datatype CategoryReport = CategoryReport(runDir: string, category: string, maxProducts: int,
                                           products: seq<string>, slugs: seq<string>,
                                           productStats: seq<ScrapeStats>, totalComments: nat,
                                           ratingTotal: Counter<string>)

  /** The category branch of `run_cli`: the stripped category URL, its
      product links (from the links `hrefs` of its page), then every product
      crawled in order, with the totals. */
  function CategoryReportOf(mode: string, session: string, category: string, hrefs: seq<Option<string>>,
                            parse: string -> UrlParts, maxProducts: int, sites: string -> seq<Page>): CategoryReport
  {
    var cat := Strip(category);
    var products := PickLinks(hrefs, ProductTest(parse, parse(StripQueryFragment(cat)).path), maxProducts).urls;
    var sts := ProductStats(products, sites);
    CategoryReport(RunDir(mode, "batch", cat, session), cat, maxProducts, products, Slugs(products), sts,
                   TotalComments(sts), RatingTotal(sts))
  }

  lemma {:induction false} ProductStatsAt(products: seq<string>, sites: string -> seq<Page>, i: nat)
    requires i < |products|
    ensures ProductStats(products, sites)[i] == ProductScrape(products[i], sites).stats
  {
    if i < |products| - 1 {
      ProductStatsAt(products[..|products| - 1], sites, i);
    }
  }

  lemma {:induction false} SlugsAt(products: seq<string>, i: nat)
    requires i < |products|
    ensures Slugs(products)[i] == ProductSlug(i + 1, products[i])
  {
    if i < |products| - 1 {
      SlugsAt(products[..|products| - 1], i);
    }
  }

  /** Each product is crawled at its own review URL, and keeps fewer rated
      comments than comments. */
  lemma ProductScrapeFacts(product: string, sites: string -> seq<Page>)
    ensures var st := ProductScrape(product, sites).stats;
      st.sourceUrl == EnsureReviewUrl(product) && WellFormed(st.distribution) &&
      Sum(st.distribution) <= st.totalComments
  {
    var r := EnsureReviewUrl(product);
    ScrapeFacts(r, sites(r));
    EnsureReviewUrlIdempotent(product);
    if ProductScrape(product, sites).stats.error.Some? {
      assert Keys<string>([]) == [];
    }
  }

  /** The rating total counts no more than the comments of the batch. */
  lemma {:induction false} BatchTotalsBound(products: seq<string>, sites: string -> seq<Page>)
    ensures var sts := ProductStats(products, sites);
      WellFormed(RatingTotal(sts)) && Sum(RatingTotal(sts)) <= TotalComments(sts)
  {
    var sts := ProductStats(products, sites);
    if products == [] {
      assert Keys<string>([]) == [];
    } else {
      var init := products[..|products| - 1];
      var last := ProductScrape(products[|products| - 1], sites).stats;
      BatchTotalsBound(init, sites);
      assert sts[..|sts| - 1] == ProductStats(init, sites) && sts[|sts| - 1] == last;
      ProductScrapeFacts(products[|products| - 1], sites);
      SumMerge(RatingTotal(ProductStats(init, sites)), last.distribution);
      MergeWellFormed(RatingTotal(ProductStats(init, sites)), last.distribution);
    }
  }

  /** The batch takes distinct product URLs (at most `max_products` of them
      when that is 1 or more), crawls each at its review URL, names its files
      after its number and URL, and totals rated comments no more than the
      comments; each key of the rating total is the sum of that key over
      the products' distributions. */
  lemma CategoryFacts(mode: string, session: string, category: string, hrefs: seq<Option<string>>,
                      parse: string -> UrlParts, maxProducts: int, sites: string -> seq<Page>)
    ensures var r := CategoryReportOf(mode, session, category, hrefs, parse, maxProducts, sites);
      Distinct(r.products) && (maxProducts >= 1 ==> |r.products| <= maxProducts) &&
      |r.slugs| == |r.productStats| == |r.products| &&
      (forall i :: 0 <= i < |r.products| ==>
         r.productStats[i] == ProductScrape(r.products[i], sites).stats &&
         r.productStats[i].sourceUrl == EnsureReviewUrl(r.products[i]) &&
         r.slugs[i] == ProductSlug(i + 1, r.products[i])) &&
      WellFormed(r.ratingTotal) && Sum(r.ratingTotal) <= r.totalComments &&
      forall k :: Get(r.ratingTotal, k) == KeyTotal(r.productStats, k)
  {
    var cat := Strip(category);
    var accept := ProductTest(parse, parse(StripQueryFragment(cat)).path);
    var products := PickLinks(hrefs, accept, maxProducts).urls;
    CollectedFacts(hrefs, accept, maxProducts);
    forall i | 0 <= i < |products|
      ensures ProductStats(products, sites)[i] == ProductScrape(products[i], sites).stats
      ensures ProductStats(products, sites)[i].sourceUrl == EnsureReviewUrl(products[i])
      ensures Slugs(products)[i] == ProductSlug(i + 1, products[i])
    {
      ProductStatsAt(products, sites, i);
      ProductScrapeFacts(products[i], sites);
      SlugsAt(products, i);
    }
    BatchTotalsBound(products, sites);
    forall k ensures Get(RatingTotal(ProductStats(products, sites)), k) == KeyTotal(ProductStats(products, sites), k) {
      RatingTotalGet(ProductStats(products, sites), k);
    }
  }

  /** With fewer than 10000 products, no two share a file name. */
  lemma SlugsDistinct(products: seq<string>)
    requires |products| < 10000
    ensures Distinct(Slugs(products))
  {
    forall i, j | 0 <= i < j < |products| ensures Slugs(products)[i] != Slugs(products)[j] {
      SlugsDiffer(products, i, j);
    }
  }

  lemma SlugsDiffer(products: seq<string>, i: nat, j: nat)
    requires i < j < |products| < 10000
    ensures Slugs(products)[i] != Slugs(products)[j]
  {
    SlugsAt(products, i);
    SlugsAt(products, j);
    ProductSlugsDistinct(i + 1, products[i], j + 1, products[j]);
  }

  /** One product of a category run: `scrape_review_url` on its review URL. */
  method ScrapeProduct(product: string, sites: string -> seq<Page>) returns (stats: ScrapeStats)
    ensures stats == ProductScrape(product, sites).stats
  {
    var reviewUrl := EnsureReviewUrl(product);
    var reviews, lines, csv, html;
    stats, reviews, lines, csv, html := ScrapeReviewUrl(reviewUrl, sites(reviewUrl));
  }

  lemma ProductsStep(products: seq<string>, sites: string -> seq<Page>, i: nat)
    requires i < |products|
    ensures Slugs(products[..i + 1]) == Slugs(products[..i]) + [ProductSlug(i + 1, products[i])]
    ensures ProductStats(products[..i + 1], sites) ==
            ProductStats(products[..i], sites) + [ProductScrape(products[i], sites).stats]
  {
    assert products[..i + 1][..i] == products[..i];
  }

  /** One more product adds its comments and its distribution to the totals. */
  lemma TotalsStep(sts: seq<ScrapeStats>, st: ScrapeStats)
    ensures TotalComments(sts + [st]) == TotalComments(sts) + st.totalComments
    ensures RatingTotal(sts + [st]) == Merge(RatingTotal(sts), st.distribution)
  {
    assert (sts + [st])[..|sts|] == sts;
  }

  /** Adding one product's statistics to the batch: appended to the list,
      its comments added to `total_comments`, its distribution merged into
      `rating_total`. */
  method AddStats(sts: seq<ScrapeStats>, total: nat, ratingTotal: Counter<string>, st: ScrapeStats)
    returns (sts': seq<ScrapeStats>, total': nat, ratingTotal': Counter<string>)
    requires total == TotalComments(sts) && ratingTotal == RatingTotal(sts)
    ensures sts' == sts + [st]
    ensures total' == TotalComments(sts') && ratingTotal' == RatingTotal(sts')
  {
    TotalsStep(sts, st);
    sts' := sts + [st];
    total' := total + st.totalComments;
    ratingTotal' := Merge(ratingTotal, st.distribution);
  }

  /** The loop over the products of a category run. */
  method ScrapeProducts(products: seq<string>, sites: string -> seq<Page>)
    returns (slugs: seq<string>, sts: seq<ScrapeStats>, total: nat, ratingTotal: Counter<string>)
    ensures slugs == Slugs(products) && sts == ProductStats(products, sites)
    ensures total == TotalComments(sts) && ratingTotal == RatingTotal(sts)
  {
    slugs, sts, total, ratingTotal := [], [], 0, [];
    for i := 0 to |products|
      invariant slugs == Slugs(products[..i]) && sts == ProductStats(products[..i], sites)
      invariant total == TotalComments(sts) && ratingTotal == RatingTotal(sts)
    {
      var p := products[i];
      var st := ScrapeProduct(p, sites);
      ProductsStep(products, sites, i);
      slugs := slugs + [ProductSlug(i + 1, p)];
      sts, total, ratingTotal := AddStats(sts, total, ratingTotal, st);
    }
    assert products[..|products|] == products;
  }

  /** The category branch of `run_cli`. */
  method RunCategory(mode: string, session: string, category: string, hrefs: seq<Option<string>>,
                     parse: string -> UrlParts, maxProducts: int, sites: string -> seq<Page>)
    returns (report: CategoryReport)
    ensures report == CategoryReportOf(mode, session, category, hrefs, parse, maxProducts, sites)
  {
    var cat := Strip(category);
    var products := CollectProductUrls(cat, hrefs, parse, maxProducts);
    var slugs, sts, total, ratingTotal := ScrapeProducts(products, sites);
    report := CategoryReport(RunDir(mode, "batch", cat, session), cat, maxProducts, products, slugs, sts,
                             total, ratingTotal);
  }

  /** What `run_cli` did: a category run, a single URL run, or the usage message. */
  datatype Outcome = BatchRun(report: CategoryReport) | SingleRun(runDir: string, stats: ScrapeStats) | Usage

  /** `run_cli`: a non-empty `--category` runs the batch, else a non-empty
      `--url` crawls that one URL (stripped), else the exit code is 2. */
  method RunCli(mode: string, session: string, category: Option<string>, url: Option<string>,
                hrefs: seq<Option<string>>, parse: string -> UrlParts, maxProducts: int,
                sites: string -> seq<Page>)
    returns (code: int, outcome: Outcome)
    ensures category.Some? && category.value != [] ==>
      code == 0 && outcome == BatchRun(CategoryReportOf(mode, session, category.value, hrefs, parse, maxProducts, sites))
    ensures (category.None? || category.value == []) && url.Some? && url.value != [] ==>
      code == 0 &&
      outcome == SingleRun(RunDir(mode, "single", Strip(url.value), session),
                           ScrapeOf(Strip(url.value), sites(EnsureReviewUrl(Strip(url.value)))).stats)
    ensures (category.None? || category.value == []) && (url.None? || url.value == []) ==>
      code == 2 && outcome == Usage
  {
    if category.Some? && category.value != [] {
      var report := RunCategory(mode, session, category.value, hrefs, parse, maxProducts, sites);
      return 0, BatchRun(report);
    }
    if url.Some? && url.value != [] {
      var u := Strip(url.value);
      var st, _, _, _, _ := ScrapeReviewUrl(u, sites(EnsureReviewUrl(u)));
      return 0, SingleRun(RunDir(mode, "single", u, session), st);
    }
    return 2, Usage;
  }
}
