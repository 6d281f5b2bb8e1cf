/**
 * The browser as the two Dien May Xanh review scrapers see it. The pages a
 * scraper reaches are a script, taken in order: the first is the page the
 * scraper opens, and each click on a pagination link moves to the next one.
 * Past the end of the script the browser shows a page from which nothing
 * can be read. Every element lookup that can raise is an `Option`: `None`
 * is the exception.
 */
module PageDriver {
  import opened Wrappers

  /** The text of an element found by `find_element`; `None` when the lookup
      (or reading its text) raises. */
  type Lookup = Option<string>

  /** One `<li>` of `ul.comment-list`: the author name, the "bought at"
      line, the number of `.iconcmt-starbuy` stars under `.cmt-top-star`
      (`None` when `find_elements` raises), the comment text and the "used
      for" line. */
  datatype CommentEl = CommentEl(author: Lookup, shop: Lookup, stars: Option<nat>,
                                 text: Lookup, usedTime: Lookup)

  /** A page: its `page_source` (`None` when reading it raises), its comment
      elements, the text of the active pagination span, and the text of each
      pagination link, in document order. */
  datatype Page = Page(source: Option<string>, comments: seq<CommentEl>, active: Lookup,
                       links: seq<Lookup>)

  /** The page past the end of the script. */
  const BLANK := Page(None, [], None, [])

  /** The `k`-th page the scraper reaches (from 0). */
  function PageAt(pages: seq<Page>, k: nat): (p: Page)
    ensures k >= |pages| ==> p == BLANK
    ensures k < |pages| ==> p == pages[k]
  {
    if k < |pages| then pages[k] else BLANK
  }

  /** A rating cell: the number of stars, or `"N/A"` when counting them raised. */
  datatype Rating = Stars(n: nat) | NoRating

  /** A cell of a CSV file written through `pandas`: a number or a text. */
  datatype Cell = Num(n: int) | Txt(s: string)

  /** A CSV file: its header row and its data rows. */
  datatype Table = Table(header: seq<string>, rows: seq<seq<Cell>>)

  /** The cell of a rating: the star count, or `"N/A"`. */
  function RatingCell(r: Rating): Cell {
    if r.Stars? then Num(r.n) else Txt("N/A")
  }
}
