/** The older single-page crawler: a browser fetch with a plain-HTTP fallback
    on timeout, a check for a verification page, two hand-written parsers for
    batdongsan and alonhadat, and a web-cache fallback when anything fails. */
module Crawler {
  import opened Text
  import opened UtilsDom
  import opened Listing
  import Fetchers
  import Sites

  /** The title of the crawler's record for a link on an unsupported site. */
  const UnsupportedTitle: string := "\U{2753} Không hỗ trợ domain này"

  /** `SUPPORTED_DOMAINS`, in their order. */
  const SupportedDomains: seq<string> := ["batdongsan.com.vn", "alonhadat.com.vn"]

  /** `_unsupported(link)`. */
  function Unsupported(link: string): (r: Record)
    ensures r == Notice(link, UnsupportedTitle)
  {
    Record(link, UnsupportedTitle, "", "", "", "", "", None)
  }

  /** `any(d in domain for d in SUPPORTED_DOMAINS)`. */
  predicate Supported(domain: string)
  {
    Contains(domain, SupportedDomains[0]) || Contains(domain, SupportedDomains[1])
  }

  /** The words that mark a verification page in the lower-cased title. */
  const CaptchaWords: seq<string> := ["xác minh", "verify", "captcha"]

  /** The page's `<title>` announces a verification step. */
  predicate IsCaptchaTitle(title: string)
  {
    exists w :: 0 <= w < |CaptchaWords| && Contains(Lower(title), CaptchaWords[w])
  }

  // ---------------------------------------------------------------- parsers

  /** What the two parsers look up in a page. The `description` nodes' text
      stands for `get_text(separator="\n")`, which is stripped afterwards. */
  datatype Page = Page(
    title: Option<Node>,          // soup.title
    prTitle: Option<Node>,        // h1.re__pr-title
    h1: Option<Node>,             // the first h1
    values: seq<Node>,            // every span.value
    sectionBody: Option<Node>,    // div.re__section-body
    textContent: Option<Node>,    // div.detail.text-content
    prImg: Option<Node>,          // img.pr-img
    limage: Option<Node>,         // img#limage
    contactName: Option<Node>,    // a.re__contact-name
    nameDiv: Option<Node>,        // div.name
    tel: Option<Node>)            // the first a whose href starts with "tel:"

  /** Price from the first value span and area from the second, "" when absent. */
  function ValuePair(values: seq<Node>): (r: (string, string))
    ensures |values| == 0 ==> r == ("", "")
    ensures |values| >= 1 ==> r.0 == values[0].text
    ensures |values| == 1 ==> r.1 == ""
    ensures |values| >= 2 ==> r.1 == values[1].text
  {
    (if |values| > 0 then values[0].text else "", if |values| > 1 then values[1].text else "")
  }

  /** `image["src"] if image and image.has_attr("src") else ""`. */
  function Src(img: Option<Node>): (r: string)
    ensures img.None? ==> r == ""
    ensures img.Some? && "src" in img.value.attrs ==> r == img.value.attrs["src"]
  {
    match img
    case None => ""
    case Some(n) => AttrOrEmpty(n, "src")
  }

  /** `parse_batdongsan(link, soup)`. */
  function ParseBatdongsan(link: string, p: Page): (r: Record)
    ensures r.link == link && r.source.None?
    ensures r.price == ValuePair(p.values).0 && r.area == ValuePair(p.values).1
  {
    var pa := ValuePair(p.values);
    Record(link, TextOrEmpty(p.prTitle), pa.0, pa.1, Strip(TextOrEmpty(p.sectionBody)),
           Src(p.prImg), TextOrEmpty(p.contactName), None)
  }

  /** The alonhadat contact: the name stripped, and with a phone
      `(name + " - " + phone).strip(" -")`. */
  function AlonhadatContact(name: string, phone: string): (r: string)
  {
    if phone != "" then StripSpaceDash(Strip(name) + " - " + phone) else Strip(name)
  }

  /** With a phone the crawler's contact is the shared composition; without
      one only whitespace is stripped. */
  lemma AlonhadatContactAgrees(name: string, phone: string)
    ensures phone != "" ==> AlonhadatContact(name, phone) == Contact(Strip(name), phone)
    ensures phone == "" ==> AlonhadatContact(name, phone) == Strip(name)
  {
    assert Strip(name) + " - " + phone == Strip(name) + (" - " + phone);
  }

  /** `parse_alonhadat(link, soup)`. */
  function ParseAlonhadat(link: string, p: Page): (r: Record)
    ensures r.link == link && r.source.None?
    ensures r.price == ValuePair(p.values).0 && r.area == ValuePair(p.values).1
    ensures TextOrEmpty(p.tel) != "" ==> r.contact == Contact(Strip(TextOrEmpty(p.nameDiv)), TextOrEmpty(p.tel))
  {
    var pa := ValuePair(p.values);
    AlonhadatContactAgrees(TextOrEmpty(p.nameDiv), TextOrEmpty(p.tel));
    Record(link, TextOrEmpty(p.h1), pa.0, pa.1, Strip(TextOrEmpty(p.textContent)),
           Src(p.limage), AlonhadatContact(TextOrEmpty(p.nameDiv), TextOrEmpty(p.tel)), None)
  }

  // ---------------------------------------------------------------- web cache

  /** `extract_from_google_cache(link)`, with the cache request's reply as a
      parameter: anything but status 200 raises; the parser is chosen by the
      link itself (not its host), batdongsan first. */
  function FromCache(link: string, cache: Fetchers.Reply, read: string -> Page): (r: Result<Record>)
    ensures cache.NoReply? ==> r == Err(cache.message)
    ensures cache.Answered? && cache.status != 200 ==> r == Err("Google Cache trả về mã lỗi " + IntToString(cache.status))
    ensures r.Ok? <==> cache.Answered? && cache.status == 200
    ensures r.Ok? && Contains(link, "batdongsan.com.vn") ==> r.value == ParseBatdongsan(link, read(cache.text))
    ensures (r.Ok? && !Contains(link, "batdongsan.com.vn") && Contains(link, "alonhadat.com.vn"))
              ==> r.value == ParseAlonhadat(link, read(cache.text))
    ensures r.Ok? ==> r.value.link == link
  {
    match cache
    case NoReply(m) => Err(m)
    case Answered(status, text, _, _) =>
      if status != 200 then Err("Google Cache trả về mã lỗi " + IntToString(status))
      else
        var p := read(text);
        if Contains(link, "batdongsan.com.vn") then Ok(ParseBatdongsan(link, p))
        else if Contains(link, "alonhadat.com.vn") then Ok(ParseAlonhadat(link, p))
        else Ok(Unsupported(link))
  }

  // ---------------------------------------------------------------- dispatch

  /** The main path of `extract_info_generic` once the page is fetched:
      a verification page goes to the cache, otherwise batdongsan is tried
      before alonhadat. */
  function MainPath(link: string, domain: string, fetched: Result<string>,
                    cache: Fetchers.Reply, read: string -> Page): (r: Result<Record>)
  {
    match fetched
    case Err(e) => Err(e)
    case Ok(html) =>
      var p := read(html);
      if IsCaptchaTitle(TextOrEmpty(p.title)) then FromCache(link, cache, read)
      else if Contains(domain, "batdongsan.com.vn") then Ok(ParseBatdongsan(link, p))
      else if Contains(domain, "alonhadat.com.vn") then Ok(ParseAlonhadat(link, p))
      else Ok(Unsupported(link))
  }

  /** `extract_info_generic(link)`, given the link's network location, the
      outcome of the browser fetch and the web cache's reply. Every failure
      on the main path goes to the cache; when that fails too the record
      carries the main path's error. */
  function ExtractInfo(link: string, netloc: string, fetched: Result<string>,
                       cache: Fetchers.Reply, read: string -> Page): (r: Record)
    ensures r.link == link && r.source.None?
    ensures !Supported(Lower(netloc)) ==> r == Unsupported(link)
    ensures Supported(Lower(netloc)) && fetched.Err? ==>
              r == (if FromCache(link, cache, read).Ok? then FromCache(link, cache, read).value
                    else Notice(link, ErrorPrefix + fetched.message))
    ensures Supported(Lower(netloc)) && fetched.Ok? && IsCaptchaTitle(TextOrEmpty(read(fetched.value).title)) ==>
              r == (if FromCache(link, cache, read).Ok? then FromCache(link, cache, read).value
                    else Notice(link, ErrorPrefix + FromCache(link, cache, read).message))
    ensures (fetched.Ok? && !IsCaptchaTitle(TextOrEmpty(read(fetched.value).title))
             && Contains(Lower(netloc), "batdongsan.com.vn"))
              ==> r == ParseBatdongsan(link, read(fetched.value))
    ensures (fetched.Ok? && !IsCaptchaTitle(TextOrEmpty(read(fetched.value).title))
             && !Contains(Lower(netloc), "batdongsan.com.vn") && Contains(Lower(netloc), "alonhadat.com.vn"))
              ==> r == ParseAlonhadat(link, read(fetched.value))
  {
    var domain := Lower(netloc);
    if !Supported(domain) then Unsupported(link)
    else
      match MainPath(link, domain, fetched, cache, read)
      case Ok(r) => r
      case Err(e) =>
        match FromCache(link, cache, read)
        case Ok(r) => r
        case Err(_) => Notice(link, ErrorPrefix + e)
  }

  /** A host naming both sites goes to batdongsan here, while the registry
      picks alonhadat for it. */
  lemma DispatchOrderDiffers(link: string, netloc: string, html: string, cache: Fetchers.Reply, read: string -> Page)
    requires Contains(Lower(netloc), "alonhadat.com.vn") && Contains(Lower(netloc), "batdongsan.com.vn")
    requires !IsCaptchaTitle(TextOrEmpty(read(html).title))
    ensures ExtractInfo(link, netloc, Ok(html), cache, read) == ParseBatdongsan(link, read(html))
    ensures Sites.PickSite(netloc).Some? && Sites.PickSite(netloc).value.site == Sites.AlonhadatSite
  {
    Sites.RegistryContents();
  }

  // ---------------------------------------------------------------- browser fetch

  /** How a browser step ended: Playwright's timeout error is told apart
      from every other exception. */
  datatype Step = Done | TimedOut | Failed(message: string)

  /** The browser steps for one page: navigation, the network-idle wait, and
      reading the content (the fixed pause between them cannot fail). */
  datatype CrawlRun = CrawlRun(navigate: Step, idle: Step, content: Result<string>)

  /** `fetch_with_requests(link)`: the body, or the status error that
      `raise_for_status` raises for a 4xx or 5xx reply. */
  function FetchWithRequests(reply: Fetchers.Reply): (r: Result<string>)
    ensures r.Ok? <==> reply.Answered? && !(400 <= reply.status < 600)
    ensures r.Ok? ==> r.value == reply.text
  {
    match reply
    case NoReply(m) => Err(m)
    case Answered(status, text, reason, url) =>
      if 400 <= status < 600 then Err(Fetchers.StatusMessage(status, reason, url)) else Ok(text)
  }

  /** The crawler's fallback fetch is the aggregator's plain fetch without
      its special message for block statuses. */
  lemma FallbackIsPlainFetch(reply: Fetchers.Reply)
    ensures !(reply.Answered? && Fetchers.IsBlocked(reply.status)) ==> FetchWithRequests(reply) == Fetchers.FetchRequests(reply)
    ensures reply.Answered? && Fetchers.IsBlocked(reply.status) ==>
              FetchWithRequests(reply).Err? && Fetchers.FetchRequests(reply).Err?
              && FetchWithRequests(reply) != Fetchers.FetchRequests(reply)
  {
    if reply.Answered? && Fetchers.IsBlocked(reply.status) {
      var s := reply.status;
      assert IntToString(s)[0] == '4' by {
        if s == 403 {
          assert IntToString(403) == "403";
        } else if s == 410 {
          assert IntToString(410) == "410";
        } else {
          assert IntToString(451) == "451";
        }
      }
      var m := Fetchers.StatusMessage(s, reply.reason, reply.url);
      assert m[0] == '4';
      assert ("Blocked: " + IntToString(s))[0] == 'B';
    }
  }

  /** What `fetch_with_playwright` returns: the first step that does not
      finish decides; a timeout switches to the plain fetch, any other
      failure is raised. */
  function CrawlOutcome(run: CrawlRun, fallback: Fetchers.Reply): (r: Result<string>)
    ensures run.navigate == Done && run.idle == Done ==> r == run.content
    ensures run.navigate == TimedOut || (run.navigate == Done && run.idle == TimedOut) ==> r == FetchWithRequests(fallback)
    ensures run.navigate.Failed? ==> r == Err(run.navigate.message)
    ensures run.navigate == Done && run.idle.Failed? ==> r == Err(run.idle.message)
  {
    match run.navigate
    case TimedOut => FetchWithRequests(fallback)
    case Failed(m) => Err(m)
    case Done =>
      match run.idle
      case TimedOut => FetchWithRequests(fallback)
      case Failed(m) => Err(m)
      case Done => run.content
  }

  /** `HEADLESS`: headless unless the setting is exactly "0". */
  predicate Headless(setting: string)
  {
    setting != "0"
  }

  /** The crawler and the fetchers read the same setting differently: they
      agree only on "0" and "1". */
  lemma HeadlessReadingsDiffer(setting: string)
    ensures Headless(setting) != (setting == "1") <==> setting != "0" && setting != "1"
  {
  }

  /** `fetch_with_playwright(link, domain)`: launch, open a context (with the
      saved alonhadat session when the domain is alonhadat's and the file
      exists), run the steps, and close the context and the browser on
      every way out. `storageUsed` reports whether the session was loaded. */
  method FetchWithPlaywright(rt: Fetchers.BrowserRuntime, domain: string, headlessSetting: string,
                             storageExists: bool, run: CrawlRun, fallback: Fetchers.Reply)
    returns (r: Result<string>, storageUsed: bool)
    modifies rt
    ensures r == CrawlOutcome(run, fallback)
    ensures storageUsed <==> Contains(domain, "alonhadat.com.vn") && storageExists
    ensures rt.browsersOpen == old(rt.browsersOpen) && rt.contextsOpen == old(rt.contextsOpen)
    ensures rt.headless == Headless(headlessSetting)
  {
    rt.Launch(Headless(headlessSetting));
    storageUsed := Contains(domain, "alonhadat.com.vn") && storageExists;
    rt.NewContext();
    var step := run.navigate;
    if step == Done {
      step := run.idle;
    }
    match step {
      case Done => r := run.content;
      case TimedOut => r := FetchWithRequests(fallback);
      case Failed(m) => r := Err(m);
    }
    rt.CloseContext();
    rt.CloseBrowser();
  }

  /** `extract_info_generic(link)` with its browser fetch: the browser is
      used only for a supported domain, and nothing stays open afterwards. */
  method ExtractInfoGeneric(rt: Fetchers.BrowserRuntime, link: string, netloc: string,
                            headlessSetting: string, storageExists: bool, run: CrawlRun,
                            fallback: Fetchers.Reply, cache: Fetchers.Reply, read: string -> Page)
    returns (r: Record)
    modifies rt
    ensures r == ExtractInfo(link, netloc, CrawlOutcome(run, fallback), cache, read)
    ensures rt.browsersOpen == old(rt.browsersOpen) && rt.contextsOpen == old(rt.contextsOpen)
  {
    var domain := Lower(netloc);
    if !Supported(domain) {
      return Unsupported(link);
    }
    var fetched, _ := FetchWithPlaywright(rt, domain, headlessSetting, storageExists, run, fallback);
    r := ExtractInfo(link, netloc, fetched, cache, read);
  }
}
