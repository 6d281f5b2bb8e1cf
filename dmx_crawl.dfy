/**
 * `dmx_crawl.py`, the first Dien May Xanh crawler. It gathers the product
 * links of the air-cooler category by pressing "view more" until the button
 * is gone, and walks the review pages of one product, numbering every
 * comment on from a running index that the caller passes in and gets back.
 */
module DmxCrawl {
  import opened Wrappers
  import opened Text
  import opened Seqs
  import opened PageDriver

  /** The page `get_all_product_links` opens. */
  const BASE_URL := "https://www.dienmayxanh.com/quat-dieu-hoa/ava-rpd-80/danh-gia"
  /** The one product `main` scrapes. */
  const PRODUCT_URL := "https://www.dienmayxanh.com/quat-dieu-hoa/ava-rpd-80"

  const CATEGORY_MARK := "/quat-dieu-hoa/"
  const REVIEW_PATH := "/danh-gia"
  const NA := "N/A"
  const BOUGHT_AT := "Đã mua tại "
  const USED_FOR := "Đã dùng khoảng "

  // ---------------------------------------------------------------- product links

  /** One state of the listing: the `href` of each `a.main-contain` anchor
      (`None` when it has none), and whether an `a.view-more` button was
      found and clicked. */
  datatype Listing = Listing(hrefs: seq<Option<string>>, more: bool)

  /** Past the states the browser has: no anchors and no button. */
  const LAST_LISTING := Listing([], false)

  /** The `k`-th state of the listing (from 0). */
  function ListingAt(ls: seq<Listing>, k: nat): (l: Listing)
    ensures k >= |ls| ==> l == LAST_LISTING
    ensures k < |ls| ==> l == ls[k]
  {
    if k < |ls| then ls[k] else LAST_LISTING
  }

  /** `link and "/quat-dieu-hoa/" in link`. */
  predicate IsProductLink(h: Option<string>) {
    h.Some? && h.value != [] && Contains(h.value, CATEGORY_MARK)
  }

  /** The links one pass over the anchors adds to `product_links`. */
  function AnchorLinks(hrefs: seq<Option<string>>): set<string> {
    if hrefs == [] then {}
    else
      var h := hrefs[|hrefs| - 1];
      AnchorLinks(hrefs[..|hrefs| - 1]) + if IsProductLink(h) then {h.value} else {}
  }

  /** A link is added exactly when some anchor carries it and passes the filter. */
  lemma {:induction false} AnchorLinksMembers(hrefs: seq<Option<string>>, x: string)
    ensures x in AnchorLinks(hrefs) <==>
      exists i :: 0 <= i < |hrefs| && IsProductLink(hrefs[i]) && hrefs[i].value == x
  {
    if hrefs != [] {
      var init := hrefs[..|hrefs| - 1];
      AnchorLinksMembers(init, x);
      assert forall i :: 0 <= i < |init| ==> init[i] == hrefs[i];
    }
  }

  /** The number of listing states the loop goes through from state `k` on:
      up to the first one without a "view more" button. */
  function Shown(ls: seq<Listing>, k: nat): (n: nat)
    ensures n > k
    decreases |ls| - k
  {
    if ListingAt(ls, k).more then Shown(ls, k + 1) else k + 1
  }

  /** The loop goes on from every state but the last because a button was
      clicked there; the last has none. */
  lemma {:induction false} ShownFacts(ls: seq<Listing>, k: nat)
    requires k <= |ls|
    ensures var n := Shown(ls, k);
      n <= |ls| + 1 && !ListingAt(ls, n - 1).more &&
      forall j :: k <= j < n - 1 ==> ListingAt(ls, j).more
    decreases |ls| - k
  {
    if ListingAt(ls, k).more {
      ShownFacts(ls, k + 1);
    }
  }

  /** The links gathered over the given states. */
  function Gathered(ls: seq<Listing>): set<string> {
    if ls == [] then {} else Gathered(ls[..|ls| - 1]) + AnchorLinks(ls[|ls| - 1].hrefs)
  }

  lemma {:induction false} GatheredMembers(ls: seq<Listing>, x: string)
    ensures x in Gathered(ls) <==> exists j :: 0 <= j < |ls| && x in AnchorLinks(ls[j].hrefs)
  {
    if ls != [] {
      var init := ls[..|ls| - 1];
      GatheredMembers(init, x);
      assert forall j :: 0 <= j < |init| ==> init[j] == ls[j];
    }
  }

  /** The set `get_all_product_links` builds from the states the browser shows. */
  function ProductLinksOf(ls: seq<Listing>): set<string> {
    Gathered(Take(ls, Shown(ls, 0)))
  }

  /** Some anchor of listing state `l` carries `x` and passes the filter. */
  predicate CarriedBy(l: Listing, x: string) {
    exists i :: 0 <= i < |l.hrefs| && IsProductLink(l.hrefs[i]) && l.hrefs[i].value == x
  }

  /** A link is returned exactly when an anchor of one of the states gone
      through (`ShownFacts`) carries it and passes the filter. */
  lemma ProductLinksFacts(ls: seq<Listing>, x: string)
    ensures x in ProductLinksOf(ls) <==> exists j :: 0 <= j < Shown(ls, 0) && CarriedBy(ListingAt(ls, j), x)
  {
    var n := Shown(ls, 0);
    var ps := Take(ls, n);
    ShownFacts(ls, 0);
    GatheredMembers(ps, x);
    assert |ps| == n || |ps| == n - 1;
    forall j | 0 <= j < n
      ensures (j < |ps| && x in AnchorLinks(ps[j].hrefs)) <==> CarriedBy(ListingAt(ls, j), x)
    {
      AnchorLinksMembers(ListingAt(ls, j).hrefs, x);
      if j < |ps| {
        assert ps[j] == ListingAt(ls, j);
      } else {
        assert ListingAt(ls, j) == LAST_LISTING;
      }
    }
  }

  /** Every link returned contains the category path. */
  lemma ProductLinksInCategory(ls: seq<Listing>, x: string)
    requires x in ProductLinksOf(ls)
    ensures Contains(x, CATEGORY_MARK)
  {
    ProductLinksFacts(ls, x);
  }

  /** Gathering one more state adds its anchors' links. */
  lemma GatheredStep(ls: seq<Listing>, k: nat)
    requires k <= |ls|
    ensures Gathered(Take(ls, k + 1)) == Gathered(Take(ls, k)) + AnchorLinks(ListingAt(ls, k).hrefs)
  {
    var ps := Take(ls, k + 1);
    if k < |ls| {
      assert |ps| == k + 1 && ps[..k] == Take(ls, k) && ps[k] == ls[k];
    } else {
      assert ps == Take(ls, k);
    }
  }

  /** The pass over the anchors of one state. */
  method AddAnchorLinks(hrefs: seq<Option<string>>, found0: set<string>) returns (found: set<string>)
    ensures found == found0 + AnchorLinks(hrefs)
  {
    found := found0;
    for j := 0 to |hrefs|
      invariant found == found0 + AnchorLinks(hrefs[..j])
    {
      assert hrefs[..j + 1][..j] == hrefs[..j];
      var link := hrefs[j];
      if link.Some? && link.value != [] && Contains(link.value, CATEGORY_MARK) {
        found := found + {link.value};
      }
    }
    assert hrefs[..|hrefs|] == hrefs;
  }

  /** `get_all_product_links`: the listing at `BASE_URL`, pass after pass,
      until the "view more" button cannot be found or clicked; the set is
      returned as a list, each link once, in whatever order the set gives. */
  method GetAllProductLinks(listing: string -> seq<Listing>) returns (links: seq<string>)
    ensures Distinct(links)
    ensures |links| == |ProductLinksOf(listing(BASE_URL))|
    ensures forall x :: x in links <==> x in ProductLinksOf(listing(BASE_URL))
  {
    var ls := listing(BASE_URL);
    var found: set<string> := {};
    var k := 0;
    while true
      invariant k <= |ls|
      invariant Shown(ls, k) == Shown(ls, 0)
      invariant found == Gathered(Take(ls, k))
      decreases |ls| - k
    {
      var l := ListingAt(ls, k);
      GatheredStep(ls, k);
      found := AddAnchorLinks(l.hrefs, found);
      k := k + 1;
      if !l.more {
        break;
      }
    }
    links := [];
    var rest := found;
    while rest != {}
      invariant rest <= found && Distinct(links)
      invariant forall x :: x in links <==> x in found && x !in rest
      invariant |links| + |rest| == |found|
      decreases rest
    {
      var x :| x in rest;
      links := links + [x];
      rest := rest - {x};
    }
  }

  // ---------------------------------------------------------------- one comment

  /** `product_url + "/danh-gia"`, appended whatever the URL already ends with. */
  function ReviewUrl(productUrl: string): (u: string)
    ensures StartsWith(u, productUrl) && EndsWith(u, REVIEW_PATH)
    ensures |u| == |productUrl| + |REVIEW_PATH|
  {
    productUrl + REVIEW_PATH
  }

  /** `el.text.strip()`, and `"N/A"` when the lookup raises. */
  function TextOr(t: Lookup): string {
    if t.None? then NA else Strip(t.value)
  }

  /** `el.text.replace(prefix, "").strip()`, and `"N/A"` when the lookup raises. */
  function LabelOr(t: Lookup, prefix: string): string
    requires prefix != []
  {
    if t.None? then NA else Strip(Replace(t.value, prefix, ""))
  }

  /** A row of `data`: the running index, the product URL, then the author,
      the shop, the star count, the time of use and the comment. */
  datatype Row = Row(index: int, productUrl: string, author: string, shop: string, rating: Rating,
                     usedTime: string, comment: string)

  /** The row of one comment element. */
  function RowOf(c: CommentEl, index: int, productUrl: string): Row {
    Row(index, productUrl, TextOr(c.author), LabelOr(c.shop, BOUGHT_AT),
        if c.stars.Some? then Stars(c.stars.value) else NoRating,
        LabelOr(c.usedTime, USED_FOR), TextOr(c.text))
  }

  /** A field is `"N/A"` only because its own lookup raised: a lookup that
      returns text, even blank text, gives that text stripped (so blank text
      is kept as the empty text); the rating is `"N/A"` exactly when counting
      the stars raised. */
  lemma RowFields(c: CommentEl, index: int, productUrl: string)
    ensures var r := RowOf(c, index, productUrl);
      r.index == index && r.productUrl == productUrl &&
      (if c.author.None? then r.author == NA else r.author == Strip(c.author.value)) &&
      (if c.text.None? then r.comment == NA else r.comment == Strip(c.text.value)) &&
      (if c.shop.None? then r.shop == NA else r.shop == Strip(Replace(c.shop.value, BOUGHT_AT, ""))) &&
      (if c.usedTime.None? then r.usedTime == NA
       else r.usedTime == Strip(Replace(c.usedTime.value, USED_FOR, ""))) &&
      (r.rating.NoRating? <==> c.stars.None?) &&
      (c.stars.Some? ==> r.rating == Stars(c.stars.value)) &&
      (c.author.Some? && Strip(c.author.value) == [] ==> r.author == []) &&
      (c.text.Some? && Strip(c.text.value) == [] ==> r.comment == [])
  {
  }

  /** The rows of a list of comment elements, numbered from `start`. */
  function RowsOf(cs: seq<CommentEl>, productUrl: string, start: int): (rs: seq<Row>)
    ensures |rs| == |cs|
  {
    if cs == [] then []
    else RowsOf(cs[..|cs| - 1], productUrl, start) + [RowOf(cs[|cs| - 1], start + |cs| - 1, productUrl)]
  }

  lemma {:induction false} RowsOfAt(cs: seq<CommentEl>, productUrl: string, start: int, i: nat)
    requires i < |cs|
    ensures RowsOf(cs, productUrl, start)[i] == RowOf(cs[i], start + i, productUrl)
  {
    if i < |cs| - 1 {
      RowsOfAt(cs[..|cs| - 1], productUrl, start, i);
    }
  }

  /** Numbering two lists in turn is numbering their concatenation. */
  lemma {:induction false} RowsOfAppend(a: seq<CommentEl>, b: seq<CommentEl>, productUrl: string, start: int)
    ensures RowsOf(a + b, productUrl, start) == RowsOf(a, productUrl, start) + RowsOf(b, productUrl, start + |a|)
  {
    if b == [] {
      assert a + b == a;
    } else {
      var init := b[..|b| - 1];
      assert (a + b)[..|a + b| - 1] == a + init;
      RowsOfAppend(a, init, productUrl, start);
    }
  }

  // ---------------------------------------------------------------- pagination

  /** `int(span.active.text)`: `None` when the span cannot be read or its
      text is not a number. */
  function ActivePage(active: Lookup): Option<int> {
    if active.None? then None else ParseInt(active.value)
  }

  /** `p.text.isdigit() and int(p.text) == target`, on the text as read. */
  predicate PointsTo(text: string, target: int) {
    IsDigits(text) && DigitsValue(text) == target
  }

  /** The search over the pagination links: the first link to `target`, no
      such link, or a link whose text could not be read before one was
      found (nothing catches that exception). */
  datatype LinkSearch = Found(k: nat) | NoLink | Raised

  function SearchLinks(links: seq<Lookup>, target: int): LinkSearch {
    if links == [] then NoLink
    else if links[0].None? then Raised
    else if PointsTo(links[0].value, target) then Found(0)
    else
      match SearchLinks(links[1..], target)
      case Found(k) => Found(k + 1)
      case NoLink => NoLink
      case Raised => Raised
  }

  /** The search finds the first link to `target` when every link before
      it can be read; it raises at the first unreadable link before one; it
      finds none only when every link can be read and none leads there. */
  lemma {:induction false} SearchLinksFacts(links: seq<Lookup>, target: int)
    ensures match SearchLinks(links, target)
      case Found(k) =>
        k < |links| && links[k].Some? && PointsTo(links[k].value, target) &&
        forall i :: 0 <= i < k ==> links[i].Some? && !PointsTo(links[i].value, target)
      case NoLink =>
        forall i :: 0 <= i < |links| ==> links[i].Some? && !PointsTo(links[i].value, target)
      case Raised =>
        exists k :: 0 <= k < |links| && links[k].None? &&
          forall i :: 0 <= i < k ==> links[i].Some? && !PointsTo(links[i].value, target)
  {
    if links != [] && links[0].Some? && !PointsTo(links[0].value, target) {
      SearchLinksFacts(links[1..], target);
      assert forall i :: 1 <= i < |links| ==> links[i] == links[1..][i - 1];
      match SearchLinks(links[1..], target)
      case Found(k) =>
      case NoLink =>
      case Raised =>
        var k :| 0 <= k < |links[1..]| && links[1..][k].None? &&
          forall i :: 0 <= i < k ==> links[1..][i].Some? && !PointsTo(links[1..][i].value, target);
        assert links[k + 1].None?;
    }
  }

  /** The loop over `div.pagcomment a`. */
  method FindNextPage(links: seq<Lookup>, target: int) returns (next: LinkSearch)
    ensures next == SearchLinks(links, target)
  {
    var k := 0;
    while k < |links|
      invariant k <= |links|
      invariant forall i :: 0 <= i < k ==> links[i].Some? && !PointsTo(links[i].value, target)
      invariant SearchLinks(links, target) == Shift(SearchLinks(links[k..], target), k)
    {
      assert links[k..][1..] == links[k + 1..];
      if links[k].None? {
        return Raised;
      }
      if PointsTo(links[k].value, target) {
        return Found(k);
      }
      k := k + 1;
    }
    return NoLink;
  }

  /** A search over a suffix seen from `k` links earlier. */
  function Shift(s: LinkSearch, k: nat): LinkSearch {
    if s.Found? then Found(s.k + k) else s
  }

  /** What the loop does after a page: go to the next one, stop, or raise. */
  datatype Step = Next | Stop | Crash

  /** No comments: stop before reading any; an active span that cannot be
      read as a number: stop; otherwise follow the link to the page after the
      active one, stop when there is none, raise when the search raised. */
  function StepOf(p: Page): Step {
    if p.comments == [] then Stop
    else
      match ActivePage(p.active)
      case None => Stop
      case Some(n) =>
        match SearchLinks(p.links, n + 1)
        case Found(_) => Next
        case NoLink => Stop
        case Raised => Crash
  }

  /** The step after each page the browser has. */
  function Steps(pages: seq<Page>): (steps: seq<Step>)
    ensures |steps| == |pages| && forall k :: 0 <= k < |pages| ==> steps[k] == StepOf(pages[k])
  {
    Map(pages, StepOf)
  }

  /** The step after the `k`-th page; past the pages, the blank page stops the loop. */
  function StepAt(steps: seq<Step>, k: nat): (s: Step)
    ensures k >= |steps| ==> s == Stop
    ensures k < |steps| ==> s == steps[k]
  {
    if k < |steps| then steps[k] else Stop
  }

  lemma StepAtPage(pages: seq<Page>, k: nat)
    ensures StepAt(Steps(pages), k) == StepOf(PageAt(pages, k))
  {
  }

  /** The number of pages the loop goes through from page `k` (from 0) on. */
  function Walked(steps: seq<Step>, k: nat): (n: nat)
    ensures n > k
    decreases |steps| - k
  {
    if StepAt(steps, k) == Next then Walked(steps, k + 1) else k + 1
  }

  lemma {:induction false} WalkedFacts(steps: seq<Step>, k: nat)
    requires k <= |steps|
    ensures var n := Walked(steps, k);
      n <= |steps| + 1 && StepAt(steps, n - 1) != Next &&
      forall j :: k <= j < n - 1 ==> StepAt(steps, j) == Next
    decreases |steps| - k
  {
    if StepAt(steps, k) == Next {
      WalkedFacts(steps, k + 1);
    }
  }

  // ---------------------------------------------------------------- one product

  /** The comment elements of the pages, in order. */
  function AllComments(ps: seq<Page>): seq<CommentEl> {
    if ps == [] then [] else AllComments(ps[..|ps| - 1]) + ps[|ps| - 1].comments
  }

  lemma AllCommentsStep(pages: seq<Page>, k: nat)
    requires k <= |pages|
    ensures AllComments(Take(pages, k + 1)) == AllComments(Take(pages, k)) + PageAt(pages, k).comments
  {
    var ps := Take(pages, k + 1);
    if k < |pages| {
      assert |ps| == k + 1 && ps[..k] == Take(pages, k) && ps[k] == pages[k];
    } else {
      assert ps == Take(pages, k);
      assert AllComments(ps) + PageAt(pages, k).comments == AllComments(ps);
    }
  }

  /** The rows `scrape_comments_of_product` collects over the review pages
      the browser shows, or `None` when it raises. */
  function ReviewRows(pages: seq<Page>, productUrl: string, start: int): Option<seq<Row>> {
    var steps := Steps(pages);
    var n := Walked(steps, 0);
    if StepAt(steps, n - 1) == Crash then None
    else Some(RowsOf(AllComments(Take(pages, n)), productUrl, start))
  }

  /** The pages gone through are those up to the first without comments,
      without a readable active page number or without a link to the page
      after it (`StepAtPage`); the scrape raises exactly when the last page's
      link search raised; otherwise every comment element of those pages, in
      order, is a row, numbered `start, start + 1, ...`, each carrying the
      product URL. */
  lemma ReviewRowsFacts(pages: seq<Page>, productUrl: string, start: int)
    ensures var steps := Steps(pages);
      var n := Walked(steps, 0);
      1 <= n <= |pages| + 1 &&
      (forall j :: 0 <= j < n - 1 ==> StepAt(steps, j) == Next) &&
      (ReviewRows(pages, productUrl, start).None? <==> StepAt(steps, n - 1) == Crash) &&
      (ReviewRows(pages, productUrl, start).Some? ==>
        var rows, cs := ReviewRows(pages, productUrl, start).value, AllComments(Take(pages, n));
        StepAt(steps, n - 1) == Stop && |rows| == |cs| &&
        forall i :: 0 <= i < |rows| ==>
          rows[i] == RowOf(cs[i], start + i, productUrl) &&
          rows[i].index == start + i && rows[i].productUrl == productUrl)
  {
    var steps := Steps(pages);
    var n := Walked(steps, 0);
    WalkedFacts(steps, 0);
    if StepAt(steps, n - 1) != Crash {
      var cs := AllComments(Take(pages, n));
      forall i | 0 <= i < |cs|
        ensures RowsOf(cs, productUrl, start)[i] == RowOf(cs[i], start + i, productUrl)
      {
        RowsOfAt(cs, productUrl, start, i);
      }
    }
  }

  /** Going through one more page adds the rows of its comment elements,
      numbered on from the rows so far. */
  lemma RowsStep(pages: seq<Page>, productUrl: string, start: int, k: nat)
    requires k <= |pages|
    ensures var cs := AllComments(Take(pages, k));
      RowsOf(AllComments(Take(pages, k + 1)), productUrl, start) ==
        RowsOf(cs, productUrl, start) + RowsOf(PageAt(pages, k).comments, productUrl, start + |cs|)
  {
    AllCommentsStep(pages, k);
    RowsOfAppend(AllComments(Take(pages, k)), PageAt(pages, k).comments, productUrl, start);
  }

  /** A page without comments adds no rows. */
  lemma RowsStepEmpty(pages: seq<Page>, productUrl: string, start: int, k: nat, rows: seq<Row>)
    requires k <= |pages| && rows == RowsOf(AllComments(Take(pages, k)), productUrl, start)
    requires PageAt(pages, k).comments == []
    ensures RowsOf(AllComments(Take(pages, k + 1)), productUrl, start) == rows
  {
    RowsStep(pages, productUrl, start, k);
    assert RowsOf(PageAt(pages, k).comments, productUrl, start + |rows|) == [];
    assert rows + [] == rows;
  }

  /** The walk ends after page `k`: the rows are those of the pages up to
      and including it, unless its link search raised. */
  lemma ReviewRowsEnd(pages: seq<Page>, productUrl: string, start: int, k: nat)
    requires Walked(Steps(pages), k) == Walked(Steps(pages), 0) && StepAt(Steps(pages), k) != Next
    ensures ReviewRows(pages, productUrl, start) ==
      if StepAt(Steps(pages), k) == Crash then None
      else Some(RowsOf(AllComments(Take(pages, k + 1)), productUrl, start))
  {
  }

  /** The loop over the comment elements of one page: a row each, the index
      going up by one per row. */
  method AppendRows(cs: seq<CommentEl>, productUrl: string, data0: seq<Row>, index0: int)
    returns (data: seq<Row>, index: int)
    ensures data == data0 + RowsOf(cs, productUrl, index0)
    ensures index == index0 + |cs|
  {
    data, index := data0, index0;
    for j := 0 to |cs|
      invariant data == data0 + RowsOf(cs[..j], productUrl, index0)
      invariant index == index0 + j
    {
      assert cs[..j + 1][..j] == cs[..j];
      var c := cs[j];
      var author := if c.author.None? then NA else Strip(c.author.value);
      var shop := if c.shop.None? then NA else Strip(Replace(c.shop.value, BOUGHT_AT, ""));
      var rating := if c.stars.None? then NoRating else Stars(c.stars.value);
      var usedTime := if c.usedTime.None? then NA else Strip(Replace(c.usedTime.value, USED_FOR, ""));
      var comment := if c.text.None? then NA else Strip(c.text.value);
      data := data + [Row(index, productUrl, author, shop, rating, usedTime, comment)];
      index := index + 1;
    }
    assert cs[..|cs|] == cs;
  }

  /** What follows a page with comments: `int(span.active.text)` (stop when
      it raises), then the search for the link to the page after it. */
  method AfterPage(page: Page) returns (step: Step)
    requires page.comments != []
    ensures step == StepOf(page)
  {
    var current := ActivePage(page.active);
    if current.None? {
      return Stop;
    }
    var next := FindNextPage(page.links, current.value + 1);
    step := if next.Found? then Next else if next.NoLink? then Stop else Crash;
  }

  /** One turn of the loop of `scrape_comments_of_product` on page `k`:
      stop at once when it has no comments, otherwise its rows, then what
      follows it. */
  method VisitPage(pages: seq<Page>, k: nat, productUrl: string, startIndex: int,
                   data0: seq<Row>, index0: int)
    returns (data: seq<Row>, index: int, step: Step)
    requires k <= |pages|
    requires data0 == RowsOf(AllComments(Take(pages, k)), productUrl, startIndex)
    requires index0 == startIndex + |data0|
    ensures step == StepAt(Steps(pages), k)
    ensures data == RowsOf(AllComments(Take(pages, k + 1)), productUrl, startIndex)
    ensures index == startIndex + |data|
  {
    var page := PageAt(pages, k);
    if page.comments == [] {
      RowsStepEmpty(pages, productUrl, startIndex, k, data0);
      StepAtPage(pages, k);
      return data0, index0, Stop;
    }
    RowsStep(pages, productUrl, startIndex, k);
    assert |data0| == |AllComments(Take(pages, k))|;
    data, index := AppendRows(page.comments, productUrl, data0, index0);
    step := AfterPage(page);
    StepAtPage(pages, k);
  }

  /** The result of `scrape_comments_of_product`: the rows and the next free index. */
  datatype Scrape = Scrape(data: seq<Row>, index: int)

  /** `scrape_comments_of_product`: opens the review page of the product and
      reads page after page; the index it returns is the start index plus
      the number of rows. */
  method ScrapeCommentsOfProduct(site: string -> seq<Page>, productUrl: string, startIndex: int)
    returns (result: Option<Scrape>)
    ensures var rows := ReviewRows(site(ReviewUrl(productUrl)), productUrl, startIndex);
      (result.None? <==> rows.None?) &&
      (result.Some? ==> result.value.data == rows.value &&
                        result.value.index == startIndex + |result.value.data|)
  {
    var pages := site(ReviewUrl(productUrl));
    var data: seq<Row> := [];
    var index := startIndex;
    ghost var steps := Steps(pages);
    var k := 0;
    while true
      invariant k <= |pages|
      invariant Walked(steps, k) == Walked(steps, 0)
      invariant data == RowsOf(AllComments(Take(pages, k)), productUrl, startIndex)
      invariant index == startIndex + |data|
      decreases |pages| - k
    {
      var step;
      data, index, step := VisitPage(pages, k, productUrl, startIndex, data, index);
      if step != Next {
        ReviewRowsEnd(pages, productUrl, startIndex, k);
        if step == Crash {
          return None;
        }
        break;
      }
      k := k + 1;
    }
    return Some(Scrape(data, index));
  }

  // ---------------------------------------------------------------- main

  const CSV_COLUMNS := ["Index", "Product_URL", "Author", "Shop", "Rating", "Used_Time", "Comment"]

  function CsvRow(r: Row): seq<Cell> {
    [Num(r.index), Txt(r.productUrl), Txt(r.author), Txt(r.shop), RatingCell(r.rating),
     Txt(r.usedTime), Txt(r.comment)]
  }

  /** `main`: the comments of `PRODUCT_URL`, numbered from 1, as the CSV
      table, one row per comment in order; `None` when the scrape raises. */
  method ScrapeMainProduct(site: string -> seq<Page>) returns (csv: Option<Table>)
    ensures var rows := ReviewRows(site(ReviewUrl(PRODUCT_URL)), PRODUCT_URL, 1);
      (csv.None? <==> rows.None?) &&
      (csv.Some? ==> csv.value.header == CSV_COLUMNS && |csv.value.rows| == |rows.value| &&
                     forall i :: 0 <= i < |rows.value| ==> csv.value.rows[i] == CsvRow(rows.value[i]))
  {
    var r := ScrapeCommentsOfProduct(site, PRODUCT_URL, 1);
    if r.None? {
      return None;
    }
    return Some(Table(CSV_COLUMNS, Map(r.value.data, CsvRow)));
  }
}
