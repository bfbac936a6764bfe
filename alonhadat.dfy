/** The alonhadat.com.vn detail-page parser: price and area are the first two
    `span.value` texts with page-text fallbacks, and the gallery image is
    preferred over `og:image`. */
module Alonhadat {
  import opened Text
  import opened Patterns
  import opened UtilsDom
  import opened Listing

  /** The fetch strategy this site prefers. */
  const DefaultStrategy: string := "requests"

  /** What the parser reads from a page: the first `h1` and the alternative
      title element; every `span.value` in document order; the page's whole
      text; `img#limage` and the alternative image element; the `og:image`
      meta tag; the contact name, the description and the first `tel:` anchor. */
  datatype Page = Page(
    h1: Option<Node>, h1Alt: Option<Node>,
    values: seq<Node>,
    text: string,
    limage: Option<Node>, imgAlt: Option<Node>,
    og: Option<Node>,
    name: Option<Node>,
    desc: Option<Node>,
    tel: Option<Node>)

  /** The label alternation of this site's price pattern, which has no
      "Price" and no word boundaries. */
  const GiaLabel: seq<string> := ["Giá"]

  /** Price and area: the first and second `span.value` texts ("" when
      missing); each one left empty is taken from the page text, the price by
      the Giá-label pattern (at most 41 characters, ended by two whitespace
      characters) and the area by the `N m2`/`N m²` pattern. */
  function PriceArea(p: Page): (r: (string, string))
    ensures |p.values| > 0 && p.values[0].text != "" ==> r.0 == p.values[0].text
    ensures |p.values| > 1 && p.values[1].text != "" ==> r.1 == p.values[1].text
    ensures (|p.values| == 0 || p.values[0].text == "") ==> r.0 == MatchOrEmpty(LabelCapture(p.text, GiaLabel, 40, false))
    ensures (|p.values| <= 1 || p.values[1].text == "") ==> r.1 == MatchOrEmpty(AreaSearch(p.text))
  {
    var price := if |p.values| > 0 then TextOrEmpty(Some(p.values[0])) else "";
    var area := if |p.values| > 1 then TextOrEmpty(Some(p.values[1])) else "";
    if price == "" || area == "" then
      var price' := if price == "" then
                      (match LabelCapture(p.text, GiaLabel, 40, false) case Some(c) => c case None => price)
                    else price;
      var area' := if area == "" then
                     (match AreaSearch(p.text) case Some(m) => m case None => area)
                   else area;
      (price', area')
    else (price, area)
  }

  /** The image: the gallery image's `src` (else `data-src`) joined to the
      link; only when that gives nothing, the `og:image` content, not
      stripped, joined to the link. Nothing empty is ever joined. */
  function Image(link: string, p: Page, join: (string, string) -> string): (r: string)
    ensures r != "" ==> exists ref :: ref != "" && r == join(link, ref)
    ensures Either(p.limage, p.imgAlt).Some? && FirstAttr(Either(p.limage, p.imgAlt).value, ["src", "data-src"]) != ""
            && join(link, FirstAttr(Either(p.limage, p.imgAlt).value, ["src", "data-src"])) != ""
            ==> r == join(link, FirstAttr(Either(p.limage, p.imgAlt).value, ["src", "data-src"]))
    ensures (Either(p.limage, p.imgAlt).None? || FirstAttr(Either(p.limage, p.imgAlt).value, ["src", "data-src"]) == "")
            && p.og.Some? && AttrOrEmpty(p.og.value, "content") != ""
            ==> r == join(link, AttrOrEmpty(p.og.value, "content"))
  {
    var fromImg :=
      match Either(p.limage, p.imgAlt)
      case Some(img) =>
        var src := FirstAttr(img, ["src", "data-src"]);
        if src != "" then Join(link, src, join) else ""
      case None => "";
    if fromImg != "" then fromImg
    else if p.og.Some? && AttrOrEmpty(p.og.value, "content") != "" then Join(link, AttrOrEmpty(p.og.value, "content"), join)
    else ""
  }

  /** `parse(link, html)`. */
  function Parse(link: string, p: Page, join: (string, string) -> string): (r: Record)
    ensures r.link == link && r.source.None?
    ensures r.title == TextOrEmpty(Either(p.h1, p.h1Alt))
    ensures (r.price, r.area) == PriceArea(p)
    ensures r.image == Image(link, p, join)
    ensures r.contact == "" || Tidy(r.contact)
  {
    var pa := PriceArea(p);
    var name := TextOrEmpty(p.name);
    ContactTidyEnds(name, AnchorPhone(p.tel));
    Record(link, TextOrEmpty(Either(p.h1, p.h1Alt)), pa.0, pa.1, TextOrEmpty(p.desc),
           Image(link, p, join), Contact(name, AnchorPhone(p.tel)), None)
  }
}
