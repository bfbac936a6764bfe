/** The i-batdongsan.com detail-page parser. Price and area come from a fixed
    table row, then from a scan of the information table's rows by label, and
    the area last from the page text; the image is looked for in `og:image`,
    then in every `#limage` variant, then in a generic image. */
module IBatdongsan {
  import opened Text
  import opened Patterns
  import opened UtilsDom
  import opened Listing

  /** The fetch strategy this site prefers. */
  const DefaultStrategy: string := "requests"

  /** The attributes an image's source is read from, in order. */
  const ImageAttrs: seq<string> := ["src", "data-src", "data-original"]

  // ---------------------------------------------------------------- table scan

  /** The price a row gives: when the row has the word Giá/Price, the stripped
      text captured after it (at most 61 characters, up to the end or two
      spaces). */
  function PriceFromRow(t: string): (r: Option<string>)
    ensures r.Some? ==> HasLabelWord(t, PriceLabels) && r.value != "" && Contains(t, r.value)
    ensures r.Some? <==> HasLabelWord(t, PriceLabels) && HasLabelCapture(t, PriceLabels, 60, true)
    ensures r.Some? ==> exists g: nat, e: nat :: IsCapture(t, g, e, 60, true) && r.value == Strip(t[g..e])
  {
    if HasLabelWord(t, PriceLabels) then
      var c := LabelCapture(t, PriceLabels, 60, true);
      if c.Some? then LabelCaptureInText(t, PriceLabels, 60, true); c else c
    else None
  }

  /** The area a row gives: when the row mentions Diện tích/Area, its first
      `N m2`/`N m²`. */
  function AreaFromRow(t: string): (r: Option<string>)
    ensures r.Some? ==> HasAreaLabel(t) && exists i: nat, j: nat :: IsAreaMatch(t, i, j) && r.value == t[i..j]
    ensures r.None? <==> !HasAreaLabel(t) || forall i: nat, j: nat :: !IsAreaMatch(t, i, j)
  {
    if HasAreaLabel(t) then AreaSearch(t) else None
  }

  /** The body of the row loop: each field is filled only while empty. */
  function ScanRow(price: string, area: string, t: string): (r: (string, string))
    ensures r.0 == FirstFound(price, [t], PriceFromRow)
    ensures r.1 == FirstFound(area, [t], AreaFromRow)
  {
    var price' := if price == "" && HasLabelWord(t, PriceLabels) then
                    (match LabelCapture(t, PriceLabels, 60, true) case Some(c) => c case None => price)
                  else price;
    var area' := if area == "" && HasAreaLabel(t) then
                   (match AreaSearch(t) case Some(m) => m case None => area)
                 else area;
    assert [t][1..] == [];
    (price', area')
  }

  /** The rows from the first on, as the loop visits them. */
  function ScanRows(price: string, area: string, rows: seq<string>): (string, string)
    decreases |rows|
  {
    if rows == [] then (price, area)
    else
      var st := ScanRow(price, area, rows[0]);
      ScanRows(st.0, st.1, rows[1..])
  }

  /** The two fields of the scan are independent of each other: each is the
      value it had, or else the first row's value for it. */
  lemma {:induction false} ScanRowsIndependent(price: string, area: string, rows: seq<string>)
    ensures ScanRows(price, area, rows).0 == FirstFound(price, rows, PriceFromRow)
    ensures ScanRows(price, area, rows).1 == FirstFound(area, rows, AreaFromRow)
    decreases |rows|
  {
    if rows != [] {
      var st := ScanRow(price, area, rows[0]);
      ScanRowsIndependent(st.0, st.1, rows[1..]);
      assert [rows[0]][1..] == [];
    }
  }

  /** The scan of the information table's rows (their texts, in document
      order), updating `price` and `area` in place. */
  method ScanTable(price0: string, area0: string, rows: seq<string>) returns (price: string, area: string)
    ensures (price, area) == ScanRows(price0, area0, rows)
  {
    price, area := price0, area0;
    var i := 0;
    while i < |rows|
      invariant 0 <= i <= |rows|
      invariant ScanRows(price, area, rows[i..]) == ScanRows(price0, area0, rows)
    {
      var t := rows[i];
      assert rows[i..][1..] == rows[i + 1..];
      if price == "" && HasLabelWord(t, PriceLabels) {
        var m := LabelCapture(t, PriceLabels, 60, true);
        if m.Some? {
          price := m.value;
        }
      }
      if area == "" && HasAreaLabel(t) {
        var m2 := AreaSearch(t);
        if m2.Some? {
          area := m2.value;
        }
      }
      i := i + 1;
    }
  }

  // ---------------------------------------------------------------- #limage

  /** One element matched by the `#limage` selectors, with the first `img`
      inside it. */
  datatype Limage = Limage(el: Node, inner: Option<Node>)

  /** The element whose source is read: the element when it is an `img`,
      else the `img` inside it, else the element itself. */
  function ImageElement(x: Limage): (r: Node)
    ensures x.el.name == "img" ==> r == x.el
  {
    if x.el.name != "img" then (if x.inner.Some? then x.inner.value else x.el) else x.el
  }

  /** `(img_el.get("src") or img_el.get("data-src") or img_el.get("data-original") or "").strip()`. */
  function Source(n: Node): string
  {
    Strip(FirstAttr(n, ImageAttrs))
  }

  /** The variant's element has a source to read: one of its attributes
      holds more than whitespace. */
  predicate HasSource(x: Limage)
  {
    !Blank(FirstAttr(ImageElement(x), ImageAttrs))
  }

  /** Having a source is the stripped source not being empty. */
  lemma HasSourceIff(x: Limage)
    ensures HasSource(x) <==> Source(ImageElement(x)) != ""
  {
    StripEmptyIffBlank(FirstAttr(ImageElement(x), ImageAttrs));
  }

  /** Where the first variant from i on satisfying p sits; |xs| when none does. */
  function FirstFrom(xs: seq<Limage>, i: nat, p: Limage -> bool): (r: nat)
    requires i <= |xs|
    ensures i <= r <= |xs|
    ensures forall t :: i <= t < r ==> !p(xs[t])
    ensures r < |xs| ==> p(xs[r])
    decreases |xs| - i
  {
    if i == |xs| || p(xs[i]) then i else FirstFrom(xs, i + 1, p)
  }

  /** Where the first variant with a source sits; |xs| when none has one. */
  function FirstSourceIndex(xs: seq<Limage>): (i: nat)
    ensures i <= |xs|
    ensures forall t :: 0 <= t < i ==> !HasSource(xs[t])
    ensures i < |xs| ==> HasSource(xs[i])
  {
    FirstFrom(xs, 0, HasSource)
  }

  /** The image the `#limage` loop finds: the first variant's source that is
      not empty, joined to the link; "" when none has one. */
  function LimageImage(link: string, xs: seq<Limage>, join: (string, string) -> string): (r: string)
    ensures (forall t :: 0 <= t < |xs| ==> !HasSource(xs[t])) ==> r == ""
    ensures forall i :: 0 <= i < |xs| && HasSource(xs[i]) && (forall t :: 0 <= t < i ==> !HasSource(xs[t]))
                        ==> r == join(link, Source(ImageElement(xs[i])))
    ensures r != "" ==> exists ref :: ref != "" && r == join(link, ref)
  {
    var i := FirstSourceIndex(xs);
    FirstSourceIndexUnique(xs);
    if i < |xs| then
      HasSourceIff(xs[i]);
      join(link, Source(ImageElement(xs[i])))
    else ""
  }

  /** The search stops exactly at the first variant satisfying p. */
  lemma {:induction false} FirstFromAt(xs: seq<Limage>, p: Limage -> bool, j: nat, i: nat)
    requires j <= i < |xs| && p(xs[i]) && forall t :: j <= t < i ==> !p(xs[t])
    ensures FirstFrom(xs, j, p) == i
    decreases i - j
  {
    if j < i {
      FirstFromAt(xs, p, j + 1, i);
    }
  }

  /** Only one position is the first with a source. */
  lemma FirstSourceIndexUnique(xs: seq<Limage>)
    ensures forall i :: 0 <= i < |xs| && HasSource(xs[i]) && (forall t :: 0 <= t < i ==> !HasSource(xs[t]))
                        ==> FirstSourceIndex(xs) == i
  {
    forall i | 0 <= i < |xs| && HasSource(xs[i]) && (forall t :: 0 <= t < i ==> !HasSource(xs[t]))
      ensures FirstSourceIndex(xs) == i
    {
      FirstFromAt(xs, HasSource, 0, i);
    }
  }

  /** The loop may stop at the first variant with a source. */
  lemma LimageImageAt(link: string, xs: seq<Limage>, join: (string, string) -> string, i: nat)
    requires i < |xs| && HasSource(xs[i]) && forall t :: 0 <= t < i ==> !HasSource(xs[t])
    ensures LimageImage(link, xs, join) == join(link, Source(ImageElement(xs[i])))
  {
    FirstFromAt(xs, HasSource, 0, i);
  }

  /** A variant whose source is empty extends the stretch without a source. */
  lemma NoSourceStep(xs: seq<Limage>, i: nat)
    requires i < |xs| && (forall t :: 0 <= t < i ==> !HasSource(xs[t]))
    requires Source(ImageElement(xs[i])) == ""
    ensures forall t :: 0 <= t < i + 1 ==> !HasSource(xs[t])
  {
    HasSourceIff(xs[i]);
  }

  /** The `#limage` loop: stop at the first variant with a source. */
  method ScanLimage(link: string, xs: seq<Limage>, join: (string, string) -> string) returns (image: string)
    ensures image == LimageImage(link, xs, join)
  {
    image := "";
    var i := 0;
    while i < |xs|
      invariant 0 <= i <= |xs|
      invariant forall t :: 0 <= t < i ==> !HasSource(xs[t])
    {
      var imgEl := ImageElement(xs[i]);
      var src := Source(imgEl);
      HasSourceIff(xs[i]);
      if src != "" {
        LimageImageAt(link, xs, join, i);
        image := Join(link, src, join);
        return;
      }
      NoSourceStep(xs, i);
      i := i + 1;
    }
  }

  // ---------------------------------------------------------------- parse

  /** What the parser reads from a page: the first element each selector
      matches; the row texts of the information table, when there is one;
      every `#limage` variant in document order; the page's whole text. */
  datatype Page = Page(
    titleLong: Option<Node>, titleShort: Option<Node>,
    priceCell: Option<Node>, areaCell: Option<Node>,
    table: Option<seq<string>>,
    descLong: Option<Node>, descShort: Option<Node>,
    og: Option<Node>,
    limage: seq<Limage>,
    img: Option<Node>,
    nameLong: Option<Node>, nameShort: Option<Node>,
    telLong: Option<Node>, telShort: Option<Node>,
    text: string)

  /** Price and area: the fixed row's cells, then the table scan, which runs
      only when one of them is empty, then the page text for the area. */
  function PriceArea(p: Page): (r: (string, string))
    ensures TextOrEmpty(p.priceCell) != "" && TextOrEmpty(p.areaCell) != ""
            ==> r == (TextOrEmpty(p.priceCell), TextOrEmpty(p.areaCell))
    ensures TextOrEmpty(p.priceCell) != "" ==> r.0 == TextOrEmpty(p.priceCell)
    ensures TextOrEmpty(p.areaCell) != "" ==> r.1 == TextOrEmpty(p.areaCell)
    ensures (TextOrEmpty(p.priceCell) == "" || TextOrEmpty(p.areaCell) == "") && p.table.Some? ==>
      r.0 == FirstFound(TextOrEmpty(p.priceCell), p.table.value, PriceFromRow)
    ensures TextOrEmpty(p.priceCell) == "" && p.table.None? ==> r.0 == ""
    ensures TextOrEmpty(p.areaCell) == "" ==>
      r.1 == AreaOr(FirstFound("", if p.table.Some? then p.table.value else [], AreaFromRow), p.text)
    ensures r.1 == "" ==> AreaSearch(p.text).None?
  {
    var price := TextOrEmpty(p.priceCell);
    var area := TextOrEmpty(p.areaCell);
    var st := if (price == "" || area == "") && p.table.Some? then ScanRows(price, area, p.table.value) else (price, area);
    ScanRowsIndependent(price, area, if p.table.Some? then p.table.value else []);
    (st.0, AreaOr(st.1, p.text))
  }

  /** The image as the parser computes it: a blank `og:image` content is
      stripped to "" and joined, which gives the link itself; the generic
      image is joined even when it has no source. */
  function ImageAsWritten(link: string, p: Page, join: (string, string) -> string): (r: string)
    ensures OgContent(p.og) != "" && join(link, OgContent(p.og)) != "" ==> r == join(link, OgContent(p.og))
    ensures link != "" && p.og.Some? && AttrOrEmpty(p.og.value, "content") != "" && Blank(AttrOrEmpty(p.og.value, "content"))
            ==> r == link
    ensures (p.og.None? || AttrOrEmpty(p.og.value, "content") == "") && LimageImage(link, p.limage, join) != ""
            ==> r == LimageImage(link, p.limage, join)
    ensures (p.og.None? || AttrOrEmpty(p.og.value, "content") == "") && LimageImage(link, p.limage, join) == ""
            ==> r == (if p.img.Some? then Join(link, Source(p.img.value), join) else "")
  {
    var content := if p.og.Some? then AttrOrEmpty(p.og.value, "content") else "";
    var fromOg := if p.og.Some? && content != "" then Join(link, Strip(content), join) else "";
    StripEmptyIffBlank(content);
    var fromLimage := if fromOg == "" then LimageImage(link, p.limage, join) else fromOg;
    if fromLimage != "" then fromLimage
    else match p.img
      case Some(img) => Join(link, Source(img), join)
      case None => ""
  }

  /** A page whose `og:image` content is a single space gets the page's own
      link as its image. */
  lemma ImageAsWrittenIsPageLink(link: string, join: (string, string) -> string)
    requires link != ""
    ensures var og := Node("meta", "", map["content" := " "]);
            var p := Page(None, None, None, None, None, None, None, Some(og), [], None, None, None, None, None, "");
            ImageAsWritten(link, p, join) == link
  {
    var og := Node("meta", "", map["content" := " "]);
    assert AttrOrEmpty(og, "content") == " ";
    assert Blank(" ");
  }

  /** The image with empty references treated as "no image": `og:image`
      content, then the `#limage` variants, then the generic image, each
      joined to the link only when it is not empty. */
  function Image(link: string, p: Page, join: (string, string) -> string): (r: string)
    ensures r != "" ==> exists ref :: ref != "" && r == join(link, ref)
    ensures OgContent(p.og) != "" && join(link, OgContent(p.og)) != "" ==> r == join(link, OgContent(p.og))
    ensures OgContent(p.og) == "" || join(link, OgContent(p.og)) == "" ==>
      r == if LimageImage(link, p.limage, join) != "" then LimageImage(link, p.limage, join)
           else if p.img.Some? && Source(p.img.value) != "" then join(link, Source(p.img.value))
           else ""
    ensures ImageAsWritten(link, p, join) != r ==> ImageAsWritten(link, p, join) == link
  {
    var ref := OgContent(p.og);
    var fromOg := if ref != "" then join(link, ref) else "";
    var fromLimage := if fromOg == "" then LimageImage(link, p.limage, join) else fromOg;
    if fromLimage != "" then fromLimage
    else match p.img
      case Some(img) => if Source(img) != "" then join(link, Source(img)) else ""
      case None => ""
  }

  /** The phone: the phone element's text (else its href without "tel:"),
      cleaned to digits and `+`; else the first Vietnamese number in the page. */
  function Phone(p: Page): (r: string)
    ensures AllOf(r, IsPhoneChar)
    ensures TelPhone(Either(p.telLong, p.telShort)) != "" ==> r == TelPhone(Either(p.telLong, p.telShort))
    ensures TelPhone(Either(p.telLong, p.telShort)) == "" ==> r == MatchOrEmpty(PhoneSearch(p.text))
    ensures r == "" ==> TelPhone(Either(p.telLong, p.telShort)) == "" && PhoneSearch(p.text).None?
  {
    var fromTel := TelPhone(Either(p.telLong, p.telShort));
    PhoneOrChars(fromTel, p.text);
    PhoneOr(fromTel, p.text)
  }

  /** `parse(link, html)`. */
  function Parse(link: string, p: Page, join: (string, string) -> string): (r: Record)
    ensures r.link == link && r.source.None?
    ensures r.title == FirstText(p.titleLong, p.titleShort)
    ensures r.title == "" <==> Blank(TextOrEmpty(p.titleLong)) && Blank(TextOrEmpty(p.titleShort))
    ensures r.description == FirstText(p.descLong, p.descShort)
    ensures (r.price, r.area) == PriceArea(p)
    ensures r.image == ImageAsWritten(link, p, join)
    ensures r.contact == Contact(FirstText(p.nameLong, p.nameShort), Phone(p))
    ensures r.contact == "" || Tidy(r.contact)
  {
    var name := FirstText(p.nameLong, p.nameShort);
    ContactTidyEnds(name, Phone(p));
    var pa := PriceArea(p);
    Record(link,
           FirstText(p.titleLong, p.titleShort),
           pa.0,
           pa.1,
           FirstText(p.descLong, p.descShort),
           ImageAsWritten(link, p, join),
           Contact(name, Phone(p)),
           None)
  }
}
