/** The listing record every parser returns, and the small rules the parsers
    share: picking the first non-blank text, cleaning a phone number, reading a
    `tel:` anchor, joining a relative URL, and composing "name - phone". */
module Listing {
  import opened Text
  import opened UtilsDom
  import opened Patterns

  /** The seven keys of a parsed listing, plus the `_source` key that
      `extract_one` adds (the fetch strategy that produced the page). */
  datatype Record = Record(
    link: string,
    title: string,
    price: string,
    area: string,
    description: string,
    image: string,
    contact: string,
    source: Option<string>)

  /** A record holding only a link and a title: the shape of the unsupported
      and error records. */
  function Notice(link: string, title: string): (r: Record)
    ensures r.link == link && r.title == title && r.source.None?
    ensures r.price == "" && r.area == "" && r.description == "" && r.image == "" && r.contact == ""
  {
    Record(link, title, "", "", "", "", "", None)
  }

  /** `"❌ Lỗi khi trích xuất: " + str(e)`, the title of an error record. */
  const ErrorPrefix: string := "\U{274C} Lỗi khi trích xuất: "

  // ---------------------------------------------------------------- first non-blank

  /** `not s.strip()`: nothing but whitespace. */
  predicate Blank(s: string)
  {
    AllOf(s, IsSpace)
  }

  /** Where the first non-blank value sits; |vals| when there is none. */
  function FirstNonBlankIndex(vals: seq<string>): (i: nat)
    ensures i <= |vals|
    ensures forall t :: 0 <= t < i ==> Blank(vals[t])
    ensures i < |vals| ==> !Blank(vals[i])
  {
    if vals == [] then 0
    else if !Blank(vals[0]) then 0
    else
      var j := FirstNonBlankIndex(vals[1..]);
      assert forall t :: 1 <= t < |vals| ==> vals[t] == vals[1..][t - 1];
      1 + j
  }

  /** `_first(*vals)` / `_first_nonempty(*vals)` over strings: the first value
      that is not blank, stripped; "" when all are blank. */
  function FirstNonBlank(vals: seq<string>): (r: string)
    ensures r == "" <==> forall i :: 0 <= i < |vals| ==> Blank(vals[i])
    ensures r != "" ==> exists i :: 0 <= i < |vals| && r == Strip(vals[i])
                                    && forall t :: 0 <= t < i ==> Blank(vals[t])
  {
    var i := FirstNonBlankIndex(vals);
    if i < |vals| then StripEmptyIffBlank(vals[i]); Strip(vals[i]) else ""
  }

  /** `_first(_txt(long), _txt(short))`: the text of the long selector's
      element, else of the short one's, stripped; "" when both are blank or missing. */
  function FirstText(long: Option<Node>, short: Option<Node>): (r: string)
    ensures !Blank(TextOrEmpty(long)) ==> r == Strip(TextOrEmpty(long))
    ensures Blank(TextOrEmpty(long)) && !Blank(TextOrEmpty(short)) ==> r == Strip(TextOrEmpty(short))
    ensures r == "" <==> Blank(TextOrEmpty(long)) && Blank(TextOrEmpty(short))
  {
    var vals := [TextOrEmpty(long), TextOrEmpty(short)];
    var r := FirstNonBlank(vals);
    assert vals[0] == TextOrEmpty(long) && vals[1] == TextOrEmpty(short);
    r
  }

  /** `a or b` on two optional elements. */
  function Either(a: Option<Node>, b: Option<Node>): (r: Option<Node>)
    ensures a.Some? ==> r == a
    ensures a.None? ==> r == b
  {
    if a.Some? then a else b
  }

  /** The chosen value is already stripped, so choosing again changes nothing. */
  lemma FirstNonBlankStripped(vals: seq<string>)
    ensures Strip(FirstNonBlank(vals)) == FirstNonBlank(vals)
  {
    var r := FirstNonBlank(vals);
    if r != "" {
      var i :| 0 <= i < |vals| && r == Strip(vals[i]);
      StripIdempotent(vals[i]);
    }
  }

  // ---------------------------------------------------------------- phones

  predicate IsPhoneChar(c: char)
  {
    IsDigit(c) || c == '+'
  }

  /** `re.sub(r"[^\d+]", "", s or "")`. */
  function CleanPhone(s: string): (r: string)
    ensures |r| <= |s| && AllOf(r, IsPhoneChar)
  {
    if s == [] then []
    else if IsPhoneChar(s[0]) then [s[0]] + CleanPhone(s[1..])
    else CleanPhone(s[1..])
  }

  /** Cleaning works character by character: it distributes over concatenation. */
  lemma {:induction false} CleanPhoneAppend(a: string, b: string)
    ensures CleanPhone(a + b) == CleanPhone(a) + CleanPhone(b)
    decreases |a|
  {
    if a == [] {
      assert a + b == b;
    } else {
      assert (a + b)[1..] == a[1..] + b;
      CleanPhoneAppend(a[1..], b);
    }
  }

  /** A string of digits and `+` is left as it is. */
  lemma {:induction false} CleanPhoneKeepsPhoneText(s: string)
    requires AllOf(s, IsPhoneChar)
    ensures CleanPhone(s) == s
  {
    if s != [] {
      CleanPhoneKeepsPhoneText(s[1..]);
      assert [s[0]] + s[1..] == s;
    }
  }

  lemma CleanPhoneIdempotent(s: string)
    ensures CleanPhone(CleanPhone(s)) == CleanPhone(s)
  {
    CleanPhoneKeepsPhoneText(CleanPhone(s));
  }

  /** A cleaned phone has no whitespace, so a further `.strip()` is a no-op. */
  lemma CleanPhoneStripped(s: string)
    ensures Strip(CleanPhone(s)) == CleanPhone(s)
  {
    var r := CleanPhone(s);
    assert forall k :: 0 <= k < |r| ==> !IsSpace(r[k]);
    StripSpec(r);
  }

  /** The raw phone of a `tel:` anchor: its text, or when that is empty its
      href without "tel:". */
  function TelRaw(tel: Node): (r: string)
    ensures tel.text != "" ==> r == tel.text
  {
    if tel.text != "" then tel.text else RemoveAll(AttrOrEmpty(tel, "href"), "tel:")
  }

  /** The phone of an optional `tel:` anchor, not cleaned: its text, else
      its href without "tel:"; "" without an anchor. */
  function AnchorPhone(tel: Option<Node>): (r: string)
    ensures tel.None? ==> r == ""
    ensures tel.Some? && tel.value.text != "" ==> r == tel.value.text
    ensures tel.Some? && tel.value.text == "" ==> r == RemoveAll(AttrOrEmpty(tel.value, "href"), "tel:")
  {
    match tel
    case Some(t) => TelRaw(t)
    case None => ""
  }

  /** An anchor without text whose href has no "tel:" in it gives the href as it is. */
  lemma TelRawHref(tel: Node)
    requires tel.text == "" && !Contains(AttrOrEmpty(tel, "href"), "tel:")
    ensures TelRaw(tel) == AttrOrEmpty(tel, "href")
  {
    RemoveAllAbsent(AttrOrEmpty(tel, "href"), "tel:");
  }

  // ---------------------------------------------------------------- contact

  /** `(name + (" - " + phone if phone else "")).strip(" -")`. */
  function Contact(name: string, phone: string): (r: string)
  {
    StripSpaceDash(name + (if phone != "" then " - " + phone else ""))
  }

  /** Neither end of s is a space or a dash. */
  predicate Tidy(s: string)
  {
    s != [] && !IsSpaceOrDash(s[0]) && !IsSpaceOrDash(s[|s| - 1])
  }

  lemma StripSpaceDashTidy(s: string)
    requires Tidy(s)
    ensures StripSpaceDash(s) == s
  {
    TrimBothUntouched(s, IsSpaceOrDash);
  }

  /** Without a phone the contact is the name, trimmed of spaces and dashes. */
  lemma ContactWithoutPhone(name: string)
    ensures Contact(name, "") == StripSpaceDash(name)
  {
    assert name + "" == name;
  }

  /** With a tidy name and phone the contact is exactly "name - phone". */
  lemma ContactJoined(name: string, phone: string)
    requires Tidy(name) && Tidy(phone)
    ensures Contact(name, phone) == name + " - " + phone
  {
    var s := name + " - " + phone;
    assert name + (" - " + phone) == s;
    assert s[0] == name[0] && s[|s| - 1] == phone[|phone| - 1];
    StripSpaceDashTidy(s);
  }

  /** With no name, a tidy phone stands alone: the separator is trimmed away. */
  lemma ContactPhoneOnly(phone: string)
    requires Tidy(phone)
    ensures Contact("", phone) == phone
  {
    var s := " - " + phone;
    assert "" + s == s;
    assert s[3..] == phone;
    TrimLeftSkip(s, IsSpaceOrDash, 3);
    StripSpaceDashTidy(phone);
  }

  /** The contact never begins or ends with a space or dash. */
  lemma ContactTidyEnds(name: string, phone: string)
    ensures var c := Contact(name, phone); c == "" || Tidy(c)
  {
  }

  // ---------------------------------------------------------------- images and URLs

  /** `urljoin(link, ref)`. Joining the empty reference gives the base back,
      which the model states outright; every other case belongs to the URL
      library and is the abstract `join`. */
  function Join(link: string, ref: string, join: (string, string) -> string): (r: string)
    ensures ref == "" ==> r == link
    ensures ref != "" ==> r == join(link, ref)
  {
    if ref == "" then link else join(link, ref)
  }

  /** The `og:image` meta tag's content, stripped, when the tag has a
      non-empty content; otherwise "". */
  function OgContent(og: Option<Node>): (r: string)
    ensures og.None? ==> r == ""
    ensures og.Some? ==> r == Strip(AttrOrEmpty(og.value, "content"))
  {
    match og
    case None => ""
    case Some(n) => if AttrOrEmpty(n, "content") != "" then Strip(AttrOrEmpty(n, "content")) else ""
  }

  /** The text of an optional regex match, "" when it did not match. */
  function MatchOrEmpty(m: Option<string>): (r: string)
    ensures m.None? ==> r == ""
    ensures m.Some? ==> r == m.value
  {
    match m
    case None => ""
    case Some(s) => s
  }

  // ---------------------------------------------------------------- page-text fallbacks

  /** `if not area: m = re.search(r"(\d[\d\.,]*)\s*m(?:2|²)\b", text, re.I); if m: area = m.group(0)`:
      an empty area is filled with the first area-shaped text of the page. */
  function AreaOr(area: string, text: string): (r: string)
    ensures area != "" ==> r == area
    ensures area == "" && r != "" ==> exists i: nat, j: nat :: IsAreaMatch(text, i, j) && r == text[i..j]
    ensures area == "" && r == "" ==> forall i: nat, j: nat :: !IsAreaMatch(text, i, j)
    ensures area == "" ==> r == MatchOrEmpty(AreaSearch(text))
  {
    if area != "" then area
    else match AreaSearch(text)
      case Some(m) => m
      case None => ""
  }

  /** `if not phone: m = re.search(r"(?:\+?84|0)\d{8,11}", text); if m: phone = m.group(0)`:
      an empty phone is filled with the first Vietnamese phone number of the page. */
  function PhoneOr(phone: string, text: string): (r: string)
    ensures phone != "" ==> r == phone
    ensures phone == "" && r != "" ==> exists i: nat, j: nat :: IsPhoneMatch(text, i, j) && r == text[i..j]
    ensures phone == "" && r == "" ==> forall i: nat, j: nat :: !IsPhoneMatch(text, i, j)
    ensures phone == "" ==> r == MatchOrEmpty(PhoneSearch(text))
  {
    if phone != "" then phone
    else match PhoneSearch(text)
      case Some(m) => m
      case None => ""
  }

  /** `_clean_phone(tel.get_text(strip=True) or tel.get("href", "").replace("tel:", ""))`
      for the anchor, if there is one. */
  function TelPhone(tel: Option<Node>): (r: string)
    ensures AllOf(r, IsPhoneChar)
    ensures tel.None? ==> r == ""
  {
    match tel
    case Some(t) => CleanPhone(TelRaw(t))
    case None => ""
  }

  /** A phone made of digits and `+` stays so after the page-text fallback,
      since a Vietnamese number is `+` or a digit followed by digits. */
  lemma PhoneOrChars(phone: string, text: string)
    requires AllOf(phone, IsPhoneChar)
    ensures AllOf(PhoneOr(phone, text), IsPhoneChar)
  {
    if phone == "" && PhoneSearch(text).Some? {
      PhoneSearchShape(text);
      var m := PhoneSearch(text).value;
      forall k | 0 <= k < |m| ensures IsPhoneChar(m[k]) {
        if k > 0 { assert m[k] == m[1..][k - 1]; }
      }
    }
  }

  // ---------------------------------------------------------------- row scans

  /** One field of a row scan, `if not x: m = f(row); if m: x = m`, over the
      rows in order: the field keeps a non-empty value it already has, and
      otherwise takes the value of the first row that yields one. */
  function FirstFound(cur: string, rows: seq<string>, f: string -> Option<string>): (r: string)
    ensures cur != "" ==> r == cur
    ensures cur == "" && r != "" ==>
      exists k :: 0 <= k < |rows| && MatchOrEmpty(f(rows[k])) == r
                  && forall t :: 0 <= t < k ==> MatchOrEmpty(f(rows[t])) == ""
    ensures cur == "" && r == "" ==> forall k :: 0 <= k < |rows| ==> MatchOrEmpty(f(rows[k])) == ""
    decreases |rows|
  {
    if cur != "" || rows == [] then cur
    else
      var r := FirstFound(MatchOrEmpty(f(rows[0])), rows[1..], f);
      assert forall t :: 1 <= t < |rows| ==> rows[t] == rows[1..][t - 1];
      r
  }
}
