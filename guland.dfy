/** The guland.vn detail-page parser: each field is the first non-blank of
    a long and a short selector, the area and the phone fall back to the page
    text, and image URLs are resolved against the page link. */
module Guland {
  import opened Text
  import opened Patterns
  import opened UtilsDom
  import opened Listing

  /** The fetch strategy this site prefers. */
  const DefaultStrategy: string := "playwright"

  /** What the parser reads from a page: for each selector, the first element
      it matches; `tel` is the first anchor whose href starts with "tel:", and
      `text` is the page's whole text. */
  datatype Page = Page(
    titleLong: Option<Node>, titleShort: Option<Node>,
    priceLong: Option<Node>, priceShort: Option<Node>,
    areaLong: Option<Node>, areaShort: Option<Node>,
    descLong: Option<Node>, descShort: Option<Node>,
    og: Option<Node>,
    imgLong: Option<Node>, imgShort: Option<Node>,
    nameLong: Option<Node>, nameShort: Option<Node>,
    tel: Option<Node>,
    text: string)

  /** The slider image's reference: its `src`, else its `data-src`,
      stripped; "" when the page has no slider image. */
  function SliderSource(p: Page): (r: string)
    ensures Either(p.imgLong, p.imgShort).None? ==> r == ""
    ensures Either(p.imgLong, p.imgShort).Some? ==>
      r == Strip(FirstAttr(Either(p.imgLong, p.imgShort).value, ["src", "data-src"]))
  {
    match Either(p.imgLong, p.imgShort)
    case Some(img) => Strip(FirstAttr(img, ["src", "data-src"]))
    case None => ""
  }

  /** The image as the parser computes it: `og:image` content, stripped and
      joined to the link; else the slider image's `src`/`data-src`, stripped and
      joined, even when that is empty. */
  function ImageAsWritten(link: string, p: Page, join: (string, string) -> string): (r: string)
    ensures OgContent(p.og) != "" && join(link, OgContent(p.og)) != "" ==> r == join(link, OgContent(p.og))
    ensures p.og.Some? && AttrOrEmpty(p.og.value, "content") != "" && OgContent(p.og) == "" && link != ""
            ==> r == link
    ensures (p.og.None? || AttrOrEmpty(p.og.value, "content") == "") && Either(p.imgLong, p.imgShort).None?
            ==> r == ""
    ensures (p.og.None? || AttrOrEmpty(p.og.value, "content") == "") && Either(p.imgLong, p.imgShort).Some?
            ==> r == Join(link, SliderSource(p), join)
    ensures (p.og.None? && Either(p.imgLong, p.imgShort).Some?
             && FirstAttr(Either(p.imgLong, p.imgShort).value, ["src", "data-src"]) == "") ==> r == link
  {
    var fromOg :=
      if p.og.Some? && AttrOrEmpty(p.og.value, "content") != ""
      then Join(link, Strip(AttrOrEmpty(p.og.value, "content")), join) else "";
    if fromOg != "" then fromOg
    else match Either(p.imgLong, p.imgShort)
      case Some(img) => Join(link, Strip(FirstAttr(img, ["src", "data-src"])), join)
      case None => ""
  }

  /** A page without `og:image` whose slider image has no source gets the
      page's own link as its image. */
  lemma ImageAsWrittenIsPageLink(link: string, join: (string, string) -> string)
    requires link != ""
    ensures var p := Page(None, None, None, None, None, None, None, None, None,
                          None, Some(Node("img", "", map[])), None, None, None, "");
            ImageAsWritten(link, p, join) == link
  {
    var img := Node("img", "", map[]);
    assert FirstAttr(img, ["src", "data-src"]) == "" by {
      assert AttrOrEmpty(img, "src") == "" && AttrOrEmpty(img, "data-src") == "";
    }
  }

  /** The image with empty references treated as "no image": a blank
      `og:image` content or a source-less slider image yields nothing. */
  function Image(link: string, p: Page, join: (string, string) -> string): (r: string)
    ensures r != "" ==> exists ref :: ref != "" && r == join(link, ref)
    ensures OgContent(p.og) != "" && join(link, OgContent(p.og)) != "" ==> r == join(link, OgContent(p.og))
    ensures OgContent(p.og) == "" || join(link, OgContent(p.og)) == "" ==>
      r == (if SliderSource(p) != "" then join(link, SliderSource(p)) else "")
    ensures ImageAsWritten(link, p, join) != r ==> ImageAsWritten(link, p, join) == link
  {
    var ref := OgContent(p.og);
    var fromOg := if ref != "" then join(link, ref) else "";
    if fromOg != "" then fromOg
    else
      var src := SliderSource(p);
      if src != "" then join(link, src) else ""
  }

  /** The phone: the `tel:` anchor's text (else its href without "tel:"),
      cleaned to digits and `+`; else the first Vietnamese number in the page. */
  function Phone(p: Page): (r: string)
    ensures AllOf(r, IsPhoneChar)
    ensures TelPhone(p.tel) != "" ==> r == TelPhone(p.tel)
    ensures TelPhone(p.tel) == "" ==> r == MatchOrEmpty(PhoneSearch(p.text))
    ensures r == "" ==> TelPhone(p.tel) == "" && PhoneSearch(p.text).None?
  {
    PhoneOrChars(TelPhone(p.tel), p.text);
    PhoneOr(TelPhone(p.tel), p.text)
  }

  /** `parse(link, html)`. */
  function Parse(link: string, p: Page, join: (string, string) -> string): (r: Record)
    ensures r.link == link && r.source.None?
    ensures r.title == "" <==> Blank(TextOrEmpty(p.titleLong)) && Blank(TextOrEmpty(p.titleShort))
    ensures r.area == "" <==> Blank(TextOrEmpty(p.areaLong)) && Blank(TextOrEmpty(p.areaShort)) && AreaSearch(p.text).None?
    ensures r.image == ImageAsWritten(link, p, join)
    ensures r.contact == Contact(FirstText(p.nameLong, p.nameShort), Phone(p))
    ensures r.contact == "" || Tidy(r.contact)
  {
    var area := AreaOr(FirstText(p.areaLong, p.areaShort), p.text);
    var name := FirstText(p.nameLong, p.nameShort);
    ContactTidyEnds(name, Phone(p));
    Record(link,
           FirstText(p.titleLong, p.titleShort),
           FirstText(p.priceLong, p.priceShort),
           area,
           FirstText(p.descLong, p.descShort),
           ImageAsWritten(link, p, join),
           Contact(name, Phone(p)),
           None)
  }
}
