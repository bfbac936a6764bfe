/** The aggregator's detail-URL classifier and `extract_one`, which looks a
    link's site up in the registry, fetches the page with the site's strategy
    (or the forced one) and parses it, turning every failure into a record. */
module Aggregator {
  import opened Text
  import opened Patterns
  import opened Listing
  import Sites
  import Alonhadat
  import Batdongsan

  // ---------------------------------------------------------------- DETAIL_PATTERNS

  /** `-pr\d+` matches at i (case-insensitively). */
  predicate PrAt(s: string, i: nat)
  {
    MatchesFoldedAt(s, "-pr", i) && i + 3 < |s| && IsDigit(s[i + 3])
  }

  /** `/tin-\d+` matches at i (case-insensitively). */
  predicate TinAt(s: string, i: nat)
  {
    MatchesFoldedAt(s, "/tin-", i) && i + 5 < |s| && IsDigit(s[i + 5])
  }

  /** `$` without MULTILINE: the end of the string, or just before a final newline. */
  predicate EndAnchor(s: string, j: nat)
  {
    j == |s| || (j + 1 == |s| && s[j] == '\n')
  }

  /** `\.(?:htm|html)$` matches at j. */
  predicate ExtensionAt(s: string, j: nat)
  {
    j < |s| && s[j] == '.'
    && ((MatchesFoldedAt(s, "htm", j + 1) && EndAnchor(s, j + 4))
        || (MatchesFoldedAt(s, "html", j + 1) && EndAnchor(s, j + 5)))
  }

  /** `-\d{6,}\.(?:htm|html)$` matches at i; the digit run is taken whole,
      since a shorter one would leave a digit where the dot must be. */
  predicate IdPageAt(s: string, i: nat)
  {
    i < |s| && s[i] == '-'
    && var d := RunLength(s, i + 1, IsDigit);
       d >= 6 && ExtensionAt(s, i + 1 + d)
  }

  /** The regular expression's own reading of the middle alternative: some
      number d >= 6 of digits after the dash, then the extension. */
  ghost predicate IdPageShape(s: string, i: nat, d: nat)
  {
    i < |s| && s[i] == '-' && d >= 6 && i + 1 + d <= |s|
    && (forall k :: i + 1 <= k < i + 1 + d ==> IsDigit(s[k]))
    && ExtensionAt(s, i + 1 + d)
  }

  /** `DETAIL_PATTERNS.search(s)` succeeds. */
  predicate IsDetailUrl(s: string)
  {
    exists i :: 0 <= i < |s| && (PrAt(s, i) || IdPageAt(s, i) || TinAt(s, i))
  }

  /** The greedy digit run decides the middle alternative: it matches at i
      exactly when some digit count fits the pattern. */
  lemma IdPageAtIff(s: string, i: nat)
    ensures IdPageAt(s, i) <==> exists d :: IdPageShape(s, i, d)
  {
    if IdPageAt(s, i) {
      assert IdPageShape(s, i, RunLength(s, i + 1, IsDigit));
    }
    if d :| IdPageShape(s, i, d) {
      var n := RunLength(s, i + 1, IsDigit);
      assert n == d;
    }
  }

  /** A `-pr` in any case followed by digits anywhere in the URL makes it a detail URL. */
  lemma DetailByPr(pre: string, tag: string, digits: string, post: string)
    requires |tag| == 3 && MatchesFoldedAt(tag, "-pr", 0)
    requires digits != [] && AllOf(digits, IsDigit)
    ensures IsDetailUrl(pre + tag + digits + post)
  {
    var s := pre + tag + digits + post;
    var i := |pre|;
    assert forall k :: 0 <= k < 3 ==> s[i + k] == tag[k];
    assert s[i + 3] == digits[0];
    assert PrAt(s, i);
  }

  /** A `/tin-` in any case followed by digits anywhere in the URL makes it a detail URL. */
  lemma DetailByTin(pre: string, tag: string, digits: string, post: string)
    requires |tag| == 5 && MatchesFoldedAt(tag, "/tin-", 0)
    requires digits != [] && AllOf(digits, IsDigit)
    ensures IsDetailUrl(pre + tag + digits + post)
  {
    var s := pre + tag + digits + post;
    var i := |pre|;
    assert forall k :: 0 <= k < 5 ==> s[i + k] == tag[k];
    assert s[i + 5] == digits[0];
    assert TinAt(s, i);
  }

  /** `.htm` or `.html` in any case at the very end matches the extension. */
  lemma ExtensionOfSuffix(p: string, ext: string)
    requires (|ext| == 4 && MatchesFoldedAt(ext, ".htm", 0)) || (|ext| == 5 && MatchesFoldedAt(ext, ".html", 0))
    requires ext[0] == '.'
    ensures ExtensionAt(p + ext, |p|)
  {
    var s := p + ext;
    var j := |p|;
    assert forall k :: 0 <= k < |ext| ==> s[j + k] == ext[k];
    if |ext| == 4 {
      forall k | 0 <= k < 3 ensures FoldChar(s[j + 1 + k]) == FoldChar("htm"[k]) {
        assert FoldChar(ext[k + 1]) == FoldChar(".htm"[k + 1]);
      }
    } else {
      forall k | 0 <= k < 4 ensures FoldChar(s[j + 1 + k]) == FoldChar("html"[k]) {
        assert FoldChar(ext[k + 1]) == FoldChar(".html"[k + 1]);
      }
    }
  }

  /** A URL ending in `-`, six or more digits and `.htm` or `.html` (in any
      case) is a detail URL. */
  lemma DetailById(pre: string, digits: string, ext: string)
    requires |digits| >= 6 && AllOf(digits, IsDigit)
    requires (|ext| == 4 && MatchesFoldedAt(ext, ".htm", 0)) || (|ext| == 5 && MatchesFoldedAt(ext, ".html", 0))
    requires ext[0] == '.'
    ensures IsDetailUrl(pre + "-" + digits + ext)
  {
    var p := pre + "-" + digits;
    var s := p + ext;
    var i := |pre|;
    var d := |digits|;
    ExtensionOfSuffix(p, ext);
    assert forall k :: i + 1 <= k < i + 1 + d ==> s[k] == digits[k - i - 1];
    assert IdPageShape(s, i, d);
    IdPageAtIff(s, i);
  }

  /** With a query after the extension, the digit run is not followed by an
      extension that ends the string. */
  lemma QueryNotIdPage()
    ensures !IdPageAt("-123456.htm?p", 0)
  {
    var s := "-123456.htm?p";
    assert RunLength(s, 1, IsDigit) == 6 by {
      assert !IsDigit(s[7]);
    }
    FoldPunctuation(s[11]);
    assert FoldChar(s[11]) != FoldChar("html"[3]);
  }

  /** The `$` binds only the middle alternative: the same page with a query
      string after the extension is not a detail URL. */
  lemma QueryDefeatsIdPage()
    ensures IsDetailUrl("-123456.htm") && !IsDetailUrl("-123456.htm?p")
  {
    DetailById("", "123456", ".htm");
    assert "" + "-" + "123456" + ".htm" == "-123456.htm";
    var s := "-123456.htm?p";
    QueryNotIdPage();
    forall i | 0 <= i < |s|
      ensures !(PrAt(s, i) || IdPageAt(s, i) || TinAt(s, i))
    {
      AlternativesStart(s, i);
      if i == 0 {
        FoldPunctuation(s[1]);
      }
    }
  }

  /** The first and last alternatives start with a dash followed by a
      non-digit, the middle one with a dash, the last with a slash. */
  lemma AlternativesStart(s: string, i: nat)
    ensures PrAt(s, i) ==> s[i] == '-' && FoldChar(s[i + 1]) == 'p'
    ensures IdPageAt(s, i) ==> s[i] == '-'
    ensures TinAt(s, i) ==> s[i] == '/'
  {
    FoldPunctuation('-');
    FoldPunctuation('/');
    if i < |s| {
      FoldPunctuation(s[i]);
    }
    assert "-pr"[0] == '-' && "-pr"[1] == 'p' && "/tin-"[0] == '/';
  }

  /** Case folding leaves digits and the punctuation below 'A' alone, and
      nothing else folds onto them. */
  lemma FoldPunctuation(c: char)
    ensures (FoldChar(c) as int < 65 || c as int < 65) ==> FoldChar(c) == c
  {
  }

  // ---------------------------------------------------------------- extract_one

  /** The title of the record for a link on no registered site. */
  const UnsupportedTitle: string := "\U{2753}Không hỗ trợ domain"

  /** How a fetched page becomes each parser's view of it (the HTML library
      is not part of this model), and `urljoin`. Reading may raise. */
  datatype PageReader = PageReader(
    alonhadat: string -> Result<Alonhadat.Page>,
    batdongsan: string -> Result<Batdongsan.Page>,
    join: (string, string) -> string)

  /** The registry entry's parser applied to the page. */
  function ParseWith(site: Sites.SiteId, link: string, html: string, read: PageReader): (r: Result<Record>)
    ensures r.Ok? ==> r.value.link == link && r.value.source.None?
  {
    match site
    case AlonhadatSite =>
      (match read.alonhadat(html)
       case Ok(p) => Ok(Alonhadat.Parse(link, p, read.join))
       case Err(m) => Err(m))
    case BatdongsanSite =>
      (match read.batdongsan(html)
       case Ok(p) => Ok(Batdongsan.Parse(link, p))
       case Err(m) => Err(m))
  }

  /** `FORCE_STRATEGY` when set and non-empty, else the site's default. */
  function StrategyFor(force: string, default: string): (r: string)
    ensures r == force || r == default
    ensures r == force <==> force != "" || default == ""
  {
    if force != "" then force else default
  }

  /** `extract_one(link)`, with the link's network location, the
      `FORCE_STRATEGY` setting and `get_html` given as parameters. */
  function ExtractOne(link: string, netloc: string, force: string,
                      fetch: (string, string) -> Result<string>, read: PageReader): (r: Record)
    ensures r.link == link
    ensures Sites.PickSite(netloc).None? ==> r == Notice(link, UnsupportedTitle)
    ensures Sites.PickSite(netloc).Some? ==>
      var e := Sites.PickSite(netloc).value;
      var strategy := StrategyFor(force, e.strategy);
      && (fetch(link, strategy).Err? ==> r == Notice(link, ErrorPrefix + fetch(link, strategy).message))
      && (fetch(link, strategy).Ok? ==>
            var parsed := ParseWith(e.site, link, fetch(link, strategy).value, read);
            && (parsed.Ok? ==> r == parsed.value.(source := Some(strategy)))
            && (parsed.Err? ==> r == Notice(link, ErrorPrefix + parsed.message)))
  {
    match Sites.PickSite(netloc)
    case None => Notice(link, UnsupportedTitle)
    case Some(e) =>
      var strategy := StrategyFor(force, e.strategy);
      match fetch(link, strategy)
      case Err(m) => Notice(link, ErrorPrefix + m)
      case Ok(html) =>
        match ParseWith(e.site, link, html, read)
        case Err(m) => Notice(link, ErrorPrefix + m)
        case Ok(data) => data.(source := Some(strategy))
  }

  /** A record carries a strategy exactly when the page was fetched and
      parsed; the error and unsupported records have every field but the
      link and the title empty. */
  lemma ExtractOneShape(link: string, netloc: string, force: string,
                        fetch: (string, string) -> Result<string>, read: PageReader)
    ensures var r := ExtractOne(link, netloc, force, fetch, read);
      r.source.None? ==> r.price == "" && r.area == "" && r.description == "" && r.image == "" && r.contact == ""
                         && (r.title == UnsupportedTitle || StartsWith(r.title, ErrorPrefix))
    ensures var r := ExtractOne(link, netloc, force, fetch, read);
      r.source.Some? ==> Sites.PickSite(netloc).Some?
                         && r.source.value == StrategyFor(force, Sites.PickSite(netloc).value.strategy)
  {
  }
}
