/** The muaban.net detail-page parser. Its one rule of its own is the phone:
    the number shown in the phone box, or the masked form shown before the
    "show number" button is pressed, then a `tel:` anchor, then the page text. */
module Muaban {
  import opened Text
  import opened Patterns
  import opened UtilsDom
  import opened Listing

  /** The fetch strategy this site prefers. */
  const DefaultStrategy: string := "playwright"

  /** What the parser reads from a page: for each selector, the first element
      it matches; `img` answers the combined long and short image selectors,
      `tel` is the first anchor whose href starts with "tel:", `text` is the
      page's whole text. */
  datatype Page = Page(
    titleLong: Option<Node>, titleShort: Option<Node>,
    priceLong: Option<Node>, priceShort: Option<Node>,
    areaLong: Option<Node>, areaShort: Option<Node>,
    descLong: Option<Node>, descShort: Option<Node>,
    og: Option<Node>,
    img: Option<Node>,
    nameLong: Option<Node>, nameShort: Option<Node>,
    boxLong: Option<Node>, boxShort: Option<Node>,
    tel: Option<Node>,
    text: string)

  // ---------------------------------------------------------------- masked phones

  /** The characters a masked number may hold: digits, `+`, the mask marks
      `*`, `x`, `X`, `•`, `●`, and the space. */
  predicate IsMaskChar(c: char)
  {
    IsDigit(c) || c == '+' || c == '*' || c == 'x' || c == 'X' || c == '\U{2022}' || c == '\U{25CF}' || c == ' '
  }

  /** `re.sub(r"[^0-9+*xX•● ]", "", s)`. */
  function KeepMaskChars(s: string): (r: string)
    ensures |r| <= |s| && AllOf(r, IsMaskChar)
    ensures (forall k :: 0 <= k < |s| ==> !IsMaskChar(s[k])) ==> r == []
  {
    if s == [] then []
    else if IsMaskChar(s[0]) then [s[0]] + KeepMaskChars(s[1..])
    else KeepMaskChars(s[1..])
  }

  /** `re.sub(r"\s+", " ", s)`: each run of whitespace becomes one space. */
  function CollapseSpaces(s: string): (r: string)
    ensures |r| <= |s|
    ensures forall k, m {:trigger r[k], r[m]} :: 0 <= k && m == k + 1 && m < |r| ==> !(IsSpace(r[k]) && IsSpace(r[m]))
    ensures r != [] ==> (IsSpace(r[0]) <==> IsSpace(s[0]))
    ensures s != [] && !IsSpace(s[0]) ==> r != [] && r[0] == s[0]
    ensures s != [] && IsSpace(s[0]) ==> r != [] && r[0] == ' '
    ensures AllOf(s, IsMaskChar) ==> AllOf(r, IsMaskChar)
    decreases |s|
  {
    if s == [] then []
    else if IsSpace(s[0]) then
      var e := 1 + RunLength(s, 1, IsSpace);
      var t := s[e..];
      var rest := CollapseSpaces(t);
      assert t != [] ==> !IsSpace(t[0]);
      assert rest != [] ==> !IsSpace(rest[0]);
      " " + rest
    else
      var rest := CollapseSpaces(s[1..]);
      [s[0]] + rest
  }

  /** The filter works character by character: a string is filtered piece
      by piece. With the ensures of KeepMaskChars (all mask characters are
      kept, none of the others) this says which characters survive. */
  lemma {:induction false} KeepMaskCharsAppend(a: string, b: string)
    ensures KeepMaskChars(a + b) == KeepMaskChars(a) + KeepMaskChars(b)
    decreases |a|
  {
    if a == [] {
      assert a + b == b;
    } else {
      assert (a + b)[0] == a[0];
      assert (a + b)[1..] == a[1..] + b;
      KeepMaskCharsAppend(a[1..], b);
    }
  }

  /** A run of whitespace on its own becomes one space. */
  lemma CollapseSpacesRun(w: string)
    requires w != [] && AllOf(w, IsSpace)
    ensures CollapseSpaces(w) == " "
  {
    CollapseSpacesAt(w, |w|);
    assert w[|w|..] == [];
  }

  /** A string that opens with a whitespace run ending at e collapses to one
      space and the collapse of what follows. */
  lemma CollapseSpacesAt(s: string, e: nat)
    requires 0 < e <= |s| && (forall k :: 0 <= k < e ==> IsSpace(s[k]))
    requires e == |s| || !IsSpace(s[e])
    ensures CollapseSpaces(s) == " " + CollapseSpaces(s[e..])
  {
    RunLengthAt(s, 1, IsSpace, e - 1);
  }

  /** The characters of s other than whitespace, in order. */
  function NonSpace(s: string): (r: string)
    ensures |r| <= |s|
    decreases |s|
  {
    if s == [] then []
    else if IsSpace(s[0]) then NonSpace(s[1..])
    else [s[0]] + NonSpace(s[1..])
  }

  lemma {:induction false} NonSpaceAppend(a: string, b: string)
    ensures NonSpace(a + b) == NonSpace(a) + NonSpace(b)
    decreases |a|
  {
    if a == [] {
      assert a + b == b;
    } else {
      assert (a + b)[1..] == a[1..] + b;
      NonSpaceAppend(a[1..], b);
    }
  }

  lemma {:induction false} NonSpaceDropsRun(s: string, i: nat, j: nat)
    requires i <= j <= |s|
    requires forall k :: i <= k < j ==> IsSpace(s[k])
    ensures NonSpace(s[i..]) == NonSpace(s[j..])
    decreases j - i
  {
    if i < j {
      assert s[i..][1..] == s[i + 1..];
      NonSpaceDropsRun(s, i + 1, j);
    }
  }

  /** The collapse changes only whitespace. */
  lemma {:induction false} CollapseSpacesNonSpace(s: string)
    ensures NonSpace(CollapseSpaces(s)) == NonSpace(s)
    decreases |s|
  {
    if s != [] {
      if IsSpace(s[0]) {
        var e := 1 + RunLength(s, 1, IsSpace);
        CollapseSpacesNonSpace(s[e..]);
        assert (" " + CollapseSpaces(s[e..]))[1..] == CollapseSpaces(s[e..]);
        NonSpaceDropsRun(s, 0, e);
        assert s[0..] == s;
      } else {
        CollapseSpacesNonSpace(s[1..]);
        assert ([s[0]] + CollapseSpaces(s[1..]))[1..] == CollapseSpaces(s[1..]);
      }
    }
  }

  /** Stripping changes only whitespace. */
  lemma StripNonSpace(s: string)
    ensures NonSpace(Strip(s)) == NonSpace(s)
  {
    StripSpec(s);
    NonSpaceSlice(s, StripStart(s), StripStart(s) + |Strip(s)|);
  }

  /** A slice with only whitespace around it holds all of the string's
      other characters. */
  lemma NonSpaceSlice(s: string, i: nat, j: nat)
    requires i <= j <= |s|
    requires forall k :: 0 <= k < i ==> IsSpace(s[k])
    requires forall k :: j <= k < |s| ==> IsSpace(s[k])
    ensures NonSpace(s[i..j]) == NonSpace(s)
  {
    var tail := s[j..];
    assert NonSpace(tail) == [] by {
      NonSpaceDropsRun(s, j, |s|);
      assert s[|s|..] == [];
    }
    assert NonSpace(s) == NonSpace(s[i..]) by {
      NonSpaceDropsRun(s, 0, i);
      assert s[0..] == s;
    }
    NonSpaceSplit(s, i, j);
  }

  /** The non-whitespace characters from i on are those before j and those from j on. */
  lemma {:induction false} NonSpaceSplit(s: string, i: nat, j: nat)
    requires i <= j <= |s|
    ensures NonSpace(s[i..]) == NonSpace(s[i..j]) + NonSpace(s[j..])
    decreases j - i
  {
    if i < j {
      assert s[i..][1..] == s[i + 1..];
      assert s[i..j][1..] == s[i + 1..j];
      assert s[i..j][0] == s[i..][0];
      NonSpaceSplit(s, i + 1, j);
    } else {
      assert s[i..j] == [];
    }
  }

  /** Apart from whitespace, the cleaned mask is exactly the mask characters
      of the input, in order. */
  lemma CleanMaskContent(s: string)
    ensures NonSpace(CleanMask(s)) == NonSpace(KeepMaskChars(s))
  {
    var c := CollapseSpaces(KeepMaskChars(s));
    StripNonSpace(c);
    CollapseSpacesNonSpace(KeepMaskChars(s));
  }

  /** `_clean_phone_mask`: keep the mask characters, collapse whitespace runs,
      trim. */
  function CleanMask(s: string): (r: string)
    ensures |r| <= |s|
  {
    Strip(CollapseSpaces(KeepMaskChars(s)))
  }

  /** A cleaned mask holds mask characters only, has no space at either end
      and never two spaces together. */
  lemma CleanMaskShape(s: string)
    ensures var r := CleanMask(s);
      && AllOf(r, IsMaskChar)
      && (r != [] ==> r[0] != ' ' && r[|r| - 1] != ' ')
      && (forall k :: 0 <= k < |r| - 1 ==> !(r[k] == ' ' && r[k + 1] == ' '))
  {
    var c := CollapseSpaces(KeepMaskChars(s));
    var r := Strip(c);
    StripSpec(c);
    var i := StripStart(c);
    forall k | 0 <= k < |r|
      ensures r[k] == c[i + k] && IsMaskChar(r[k])
    {
      assert IsMaskChar(c[i + k]);
    }
    forall k | 0 <= k < |r| - 1
      ensures !(r[k] == ' ' && r[k + 1] == ' ')
    {
      assert !(IsSpace(c[i + k]) && IsSpace(c[i + k + 1]));
    }
  }

  predicate HasDigit(s: string)
  {
    exists k :: 0 <= k < |s| && IsDigit(s[k])
  }

  /** The acceptance rule for a masked number: it shows a mask mark (`*`, `x`
      in either case, `•`, `●`) and at least one digit. */
  predicate IsMasked(m: string)
  {
    (Contains(m, "*") || Contains(Lower(m), "x") || Contains(m, "\U{2022}") || Contains(m, "\U{25CF}"))
    && HasDigit(m)
  }

  /** The phone read from the phone box: its digits and `+` when there are at
      least nine, else its masked form when that is acceptable, else "". */
  function BoxPhone(box: Option<Node>): (r: string)
    ensures r != "" ==> (|r| >= 9 && AllOf(r, IsPhoneChar)) || (IsMasked(r) && box.Some? && r == CleanMask(box.value.text))
    ensures box.Some? && |CleanPhone(box.value.text)| >= 9 ==> r == CleanPhone(box.value.text)
    ensures box.Some? && |CleanPhone(box.value.text)| < 9 && IsMasked(CleanMask(box.value.text))
            ==> r == CleanMask(box.value.text)
    ensures box.Some? && |CleanPhone(box.value.text)| < 9 && !IsMasked(CleanMask(box.value.text)) ==> r == ""
    ensures box.None? ==> r == ""
  {
    match box
    case None => ""
    case Some(b) =>
      var digits := CleanPhone(b.text);
      if digits != "" && |digits| >= 9 then digits
      else
        var masked := CleanMask(b.text);
        if IsMasked(masked) then masked else ""
  }

  lemma {:induction false} KeepMaskCharsAll(s: string)
    requires AllOf(s, IsMaskChar)
    ensures KeepMaskChars(s) == s
  {
    if s != [] {
      KeepMaskCharsAll(s[1..]);
      assert [s[0]] + s[1..] == s;
    }
  }

  /** A string whose whitespace is single spaces, never two together, is
      left alone by the collapse. */
  lemma {:induction false} NoDoubleSpaceKept(s: string)
    requires forall k :: 0 <= k < |s| ==> IsSpace(s[k]) ==> s[k] == ' '
    requires forall k :: 0 <= k < |s| - 1 ==> !(IsSpace(s[k]) && IsSpace(s[k + 1]))
    ensures CollapseSpaces(s) == s
    decreases |s|
  {
    if s != [] {
      NoDoubleSpaceKept(s[1..]);
      if IsSpace(s[0]) {
        assert RunLength(s, 1, IsSpace) == 0 by {
          if |s| > 1 { assert !IsSpace(s[1]); }
        }
        assert s[1..] == s[1..];
      }
      assert [s[0]] + s[1..] == s;
    }
  }

  /** Cleaning a cleaned mask changes nothing. */
  lemma CleanMaskIdempotent(s: string)
    ensures CleanMask(CleanMask(s)) == CleanMask(s)
  {
    CleanMaskShape(s);
    CleanMaskFixed(CleanMask(s));
  }

  /** A string already in the shape of a cleaned mask is left as it is. */
  lemma CleanMaskFixed(r: string)
    requires AllOf(r, IsMaskChar)
    requires r != [] ==> r[0] != ' ' && r[|r| - 1] != ' '
    requires forall k :: 0 <= k < |r| - 1 ==> !(r[k] == ' ' && r[k + 1] == ' ')
    ensures CleanMask(r) == r
  {
    KeepMaskCharsAll(r);
    assert forall k :: 0 <= k < |r| && IsSpace(r[k]) ==> r[k] == ' ';
    NoDoubleSpaceKept(r);
    TrimBothUntouched(r, IsSpace);
  }

  // ---------------------------------------------------------------- fields

  /** The phone: the phone box, then the `tel:` anchor cleaned to digits and
      `+`, then the first Vietnamese number in the page text; a later source is
      consulted only while the phone is still empty. */
  function Phone(p: Page): (r: string)
    ensures BoxPhone(Either(p.boxLong, p.boxShort)) != "" ==> r == BoxPhone(Either(p.boxLong, p.boxShort))
    ensures BoxPhone(Either(p.boxLong, p.boxShort)) == "" && TelPhone(p.tel) != "" ==> r == TelPhone(p.tel)
    ensures BoxPhone(Either(p.boxLong, p.boxShort)) == "" && TelPhone(p.tel) == "" ==> r == MatchOrEmpty(PhoneSearch(p.text))
    ensures r == "" <==> BoxPhone(Either(p.boxLong, p.boxShort)) == "" && TelPhone(p.tel) == ""
                          && PhoneSearch(p.text).None?
  {
    var box := BoxPhone(Either(p.boxLong, p.boxShort));
    var phone := if box != "" then box else TelPhone(p.tel);
    PhoneOr(phone, p.text)
  }

  /** The image: the stripped `og:image` content; if that is empty, the image
      element's `src`, `data-lazy` or `data-src`, stripped. */
  function Image(p: Page): (r: string)
    ensures OgContent(p.og) != "" ==> r == OgContent(p.og)
    ensures OgContent(p.og) == "" && p.img.None? ==> r == ""
    ensures OgContent(p.og) == "" && p.img.Some? ==> r == Strip(FirstAttr(p.img.value, ["src", "data-lazy", "data-src"]))
  {
    var og := OgContent(p.og);
    if og != "" then og
    else match p.img
      case Some(img) => Strip(FirstAttr(img, ["src", "data-lazy", "data-src"]))
      case None => ""
  }

  /** `parse(link, html)`. */
  function Parse(link: string, p: Page): (r: Record)
    ensures r.link == link && r.source.None?
    ensures r.title == FirstText(p.titleLong, p.titleShort)
    ensures r.title == "" <==> Blank(TextOrEmpty(p.titleLong)) && Blank(TextOrEmpty(p.titleShort))
    ensures r.price == FirstText(p.priceLong, p.priceShort)
    ensures r.area == AreaOr(FirstText(p.areaLong, p.areaShort), p.text)
    ensures r.area == "" <==> Blank(TextOrEmpty(p.areaLong)) && Blank(TextOrEmpty(p.areaShort)) && AreaSearch(p.text).None?
    ensures r.description == FirstText(p.descLong, p.descShort)
    ensures r.image == Image(p)
    ensures r.contact == Contact(FirstText(p.nameLong, p.nameShort), Phone(p))
    ensures r.contact == "" || Tidy(r.contact)
  {
    var name := FirstText(p.nameLong, p.nameShort);
    ContactTidyEnds(name, Phone(p));
    Record(link,
           FirstText(p.titleLong, p.titleShort),
           FirstText(p.priceLong, p.priceShort),
           AreaOr(FirstText(p.areaLong, p.areaShort), p.text),
           FirstText(p.descLong, p.descShort),
           Image(p),
           Contact(name, Phone(p)),
           None)
  }
}
