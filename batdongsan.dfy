/** The batdongsan.com.vn detail-page parser: a title chain, price and area
    from the short-info block with a row-scan fallback, and an uncleaned
    `tel:` phone. */
module Batdongsan {
  import opened Text
  import opened Patterns
  import opened UtilsDom
  import opened Listing

  /** The fetch strategy this site prefers. */
  const DefaultStrategy: string := "cloudscraper"

  /** The short-info block: the `span.value` of its first and second items. */
  datatype ShortInfo = ShortInfo(price: Option<Node>, area: Option<Node>)

  /** The `#product-detail-web` element: its own `h1`, its short-info block
      and its description block. */
  datatype Root = Root(h1: Option<Node>, short: Option<ShortInfo>, desc: Option<Node>)

  /** What the parser reads from a page: the detail root, if any; the
      `h1.re__pr-title` and the first `h1`; the `og:title` and `og:image` meta
      tags; the texts of the rows the fallback scans, in document order; the
      generic description and image elements; the agent name; the first
      `tel:` anchor. */
  datatype Page = Page(
    root: Option<Root>,
    prTitle: Option<Node>, anyH1: Option<Node>,
    ogTitle: Option<Node>,
    rows: seq<string>,
    desc: Option<Node>,
    og: Option<Node>,
    img: Option<Node>,
    name: Option<Node>,
    tel: Option<Node>)

  /** The title: the root's `h1`, else `h1.re__pr-title` or the first `h1`,
      else the stripped `og:title` content. */
  function Title(p: Page): (r: string)
    ensures p.root.Some? && TextOrEmpty(p.root.value.h1) != "" ==> r == TextOrEmpty(p.root.value.h1)
    ensures (p.root.None? || TextOrEmpty(p.root.value.h1) == "") && TextOrEmpty(Either(p.prTitle, p.anyH1)) != ""
            ==> r == TextOrEmpty(Either(p.prTitle, p.anyH1))
    ensures r == "" <==> (p.root.None? || TextOrEmpty(p.root.value.h1) == "")
                         && TextOrEmpty(Either(p.prTitle, p.anyH1)) == "" && OgContent(p.ogTitle) == ""
  {
    var fromRoot := if p.root.Some? then TextOrEmpty(p.root.value.h1) else "";
    if fromRoot != "" then fromRoot
    else
      var fromH1 := TextOrEmpty(Either(p.prTitle, p.anyH1));
      if fromH1 != "" then fromH1 else OgContent(p.ogTitle)
  }

  // ---------------------------------------------------------------- price and area

  /** The short-info price and area. */
  function ShortPrice(p: Page): string
  {
    if p.root.Some? && p.root.value.short.Some? then TextOrEmpty(p.root.value.short.value.price) else ""
  }

  function ShortArea(p: Page): string
  {
    if p.root.Some? && p.root.value.short.Some? then TextOrEmpty(p.root.value.short.value.area) else ""
  }

  /** The price a row gives: when the row has the word Giá/Price, the stripped
      text captured after it (at most 51 characters, up to the end or two
      spaces). */
  function PriceFromRow(t: string): (r: Option<string>)
    ensures r.Some? ==> HasLabelWord(t, PriceLabels) && r.value != "" && Contains(t, r.value)
    ensures r.Some? <==> HasLabelWord(t, PriceLabels) && HasLabelCapture(t, PriceLabels, 50, true)
    ensures r.Some? ==> exists g: nat, e: nat :: IsCapture(t, g, e, 50, true) && r.value == Strip(t[g..e])
  {
    if HasLabelWord(t, PriceLabels) then
      var c := LabelCapture(t, PriceLabels, 50, true);
      if c.Some? then LabelCaptureInText(t, PriceLabels, 50, true); c else c
    else None
  }

  /** The area a row gives: its first `N m2`/`N m²`, with no label needed. */
  function AreaFromRow(t: string): (r: Option<string>)
    ensures r.None? <==> forall i: nat, j: nat :: !IsAreaMatch(t, i, j)
  {
    AreaSearch(t)
  }

  /** The body of the row loop: each field is filled only while empty. */
  function ScanRow(price: string, area: string, t: string): (r: (string, string))
    ensures r.0 == FirstFound(price, [t], PriceFromRow)
    ensures r.1 == FirstFound(area, [t], AreaFromRow)
  {
    var price' := if price == "" && HasLabelWord(t, PriceLabels) then
                    (match LabelCapture(t, PriceLabels, 50, true) case Some(c) => c case None => price)
                  else price;
    var area' := if area == "" then
                   (match AreaSearch(t) case Some(m) => m case None => area)
                 else area;
    assert [t][1..] == [];
    (price', area')
  }

  /** The rows from the first on, as the loop visits them. */
  function ScanRows(price: string, area: string, rows: seq<string>): (string, string)
    decreases |rows|
  {
    if rows == [] then (price, area)
    else
      var st := ScanRow(price, area, rows[0]);
      ScanRows(st.0, st.1, rows[1..])
  }

  /** Each field of the scan is the value it had, or else the first row's
      value for it, whatever happens to the other field. */
  lemma {:induction false} ScanRowsIndependent(price: string, area: string, rows: seq<string>)
    ensures ScanRows(price, area, rows).0 == FirstFound(price, rows, PriceFromRow)
    ensures ScanRows(price, area, rows).1 == FirstFound(area, rows, AreaFromRow)
    decreases |rows|
  {
    if rows != [] {
      var st := ScanRow(price, area, rows[0]);
      ScanRowsIndependent(st.0, st.1, rows[1..]);
      assert [rows[0]][1..] == [];
    }
  }

  /** The fallback loop over the rows, updating `price` and `area` in place. */
  method ScanTable(price0: string, area0: string, rows: seq<string>) returns (price: string, area: string)
    ensures (price, area) == ScanRows(price0, area0, rows)
  {
    price, area := price0, area0;
    var i := 0;
    while i < |rows|
      invariant 0 <= i <= |rows|
      invariant ScanRows(price, area, rows[i..]) == ScanRows(price0, area0, rows)
    {
      var t := rows[i];
      assert rows[i..][1..] == rows[i + 1..];
      if price == "" && HasLabelWord(t, PriceLabels) {
        var m := LabelCapture(t, PriceLabels, 50, true);
        if m.Some? {
          price := m.value;
        }
      }
      if area == "" {
        var m2 := AreaSearch(t);
        if m2.Some? {
          area := m2.value;
        }
      }
      i := i + 1;
    }
  }

  /** Price and area: the short-info values; the row scan runs only when one
      of them is empty, and fills only what is empty. */
  function PriceArea(p: Page): (r: (string, string))
    ensures ShortPrice(p) != "" ==> r.0 == ShortPrice(p)
    ensures ShortArea(p) != "" ==> r.1 == ShortArea(p)
    ensures ShortPrice(p) == "" ==> r.0 == FirstFound("", p.rows, PriceFromRow)
    ensures ShortArea(p) == "" ==> r.1 == FirstFound("", p.rows, AreaFromRow)
  {
    var price := ShortPrice(p);
    var area := ShortArea(p);
    ScanRowsIndependent(price, area, p.rows);
    if price == "" || area == "" then ScanRows(price, area, p.rows) else (price, area)
  }

  // ---------------------------------------------------------------- the rest

  /** The description: the root's description block, else the generic one. */
  function Description(p: Page): (r: string)
    ensures p.root.Some? && TextOrEmpty(p.root.value.desc) != "" ==> r == TextOrEmpty(p.root.value.desc)
    ensures p.root.None? || TextOrEmpty(p.root.value.desc) == "" ==> r == TextOrEmpty(p.desc)
  {
    var fromRoot := if p.root.Some? then TextOrEmpty(p.root.value.desc) else "";
    if fromRoot != "" then fromRoot else TextOrEmpty(p.desc)
  }

  /** The image: the stripped `og:image` content, else the image element's
      `src` or `data-src`, stripped. */
  function Image(p: Page): (r: string)
    ensures OgContent(p.og) != "" ==> r == OgContent(p.og)
    ensures OgContent(p.og) == "" && p.img.Some? ==> r == Strip(FirstAttr(p.img.value, ["src", "data-src"]))
    ensures OgContent(p.og) == "" && p.img.None? ==> r == ""
  {
    var og := OgContent(p.og);
    if og != "" then og
    else match p.img
      case Some(img) => Strip(FirstAttr(img, ["src", "data-src"]))
      case None => ""
  }

  /** `parse(link, html)`. */
  function Parse(link: string, p: Page): (r: Record)
    ensures r.link == link && r.source.None?
    ensures r.title == Title(p) && (r.price, r.area) == PriceArea(p)
    ensures p.tel.None? ==> r.contact == StripSpaceDash(TextOrEmpty(p.name))
    ensures r.contact == "" || Tidy(r.contact)
  {
    var pa := PriceArea(p);
    var name := TextOrEmpty(p.name);
    ContactTidyEnds(name, AnchorPhone(p.tel));
    ContactWithoutPhone(name);
    Record(link, Title(p), pa.0, pa.1, Description(p), Image(p), Contact(name, AnchorPhone(p.tel)), None)
  }
}
