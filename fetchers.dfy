/** How a page's HTML is fetched: a plain HTTP GET, a GET through the
    anti-bot client, or a headless browser. The network and the browser are
    outside the model: an HTTP exchange is given as its reply, and the browser
    as the outcome of each of its steps. */
module Fetchers {
  import opened Text

  /** What an HTTP GET came back with: the response, or the message of the
      exception the client raised (connection failure, timeout). */
  datatype Reply =
    | Answered(status: int, text: string, reason: string, url: string)
    | NoReply(message: string)

  /** `requests.Response.raise_for_status`'s message for a 4xx or 5xx status. */
  function StatusMessage(status: int, reason: string, url: string): string
  {
    IntToString(status) + (if status < 500 then " Client Error: " else " Server Error: ")
    + reason + " for url: " + url
  }

  predicate IsBlocked(status: int)
  {
    status == 403 || status == 410 || status == 451
  }

  /** `fetch_requests`: a block status raises "Blocked: <status>", any other
      4xx/5xx raises the library's status error, everything else is the body. */
  function FetchRequests(reply: Reply): (r: Result<string>)
    ensures r.Ok? <==> reply.Answered? && !(400 <= reply.status < 600)
    ensures r.Ok? ==> r.value == reply.text
    ensures reply.Answered? && IsBlocked(reply.status) ==> r == Err("Blocked: " + IntToString(reply.status))
  {
    match reply
    case NoReply(m) => Err(m)
    case Answered(status, text, reason, url) =>
      if IsBlocked(status) then Err("Blocked: " + IntToString(status))
      else if 400 <= status < 600 then Err(StatusMessage(status, reason, url))
      else Ok(text)
  }

  /** `fetch_cloudscraper`: every status from 400 up raises "HTTP <status>". */
  function FetchCloudscraper(reply: Reply): (r: Result<string>)
    ensures r.Ok? <==> reply.Answered? && reply.status < 400
    ensures r.Ok? ==> r.value == reply.text
    ensures reply.Answered? && reply.status >= 400 ==> r == Err("HTTP " + IntToString(reply.status))
  {
    match reply
    case NoReply(m) => Err(m)
    case Answered(status, text, _, _) =>
      if status >= 400 then Err("HTTP " + IntToString(status)) else Ok(text)
  }

  /** The two HTTP fetchers disagree exactly on statuses from 600 up, which
      only the anti-bot client treats as failures. */
  lemma FetchersDisagreeAbove600(reply: Reply)
    ensures FetchRequests(reply).Ok? != FetchCloudscraper(reply).Ok? <==> reply.Answered? && reply.status >= 600
  {
  }

  // ---------------------------------------------------------------- dispatch

  datatype Fetcher = Browser | Cloudscraper | Plain

  /** `get_html`'s choice: "playwright" and "cloudscraper" pick their fetcher,
      every other strategy string the plain one. */
  function SelectFetcher(strategy: string): (f: Fetcher)
    ensures f == Browser <==> strategy == "playwright"
    ensures f == Cloudscraper <==> strategy == "cloudscraper"
  {
    if strategy == "playwright" then Browser
    else if strategy == "cloudscraper" then Cloudscraper
    else Plain
  }

  // ---------------------------------------------------------------- browser

  /** The outcome of each browser step for one page: navigation, the wait for
      network idle, and reading the content. */
  datatype PageRun = PageRun(navigate: Result<()>, idle: Result<()>, content: Result<string>)

  /** What the browser fetch returns: a navigation failure is raised, a failed
      idle wait is ignored, and otherwise the page content is the result. */
  function BrowserOutcome(run: PageRun): (r: Result<string>)
    ensures run.navigate.Err? ==> r == Err(run.navigate.message)
    ensures run.navigate.Ok? ==> r == run.content
  {
    if run.navigate.Err? then Err(run.navigate.message) else run.content
  }

  /** Whether the network-idle wait succeeds makes no difference to the result. */
  lemma IdleWaitIgnored(run: PageRun, idle: Result<()>)
    ensures BrowserOutcome(run.(idle := idle)) == BrowserOutcome(run)
  {
  }

  /** The headless browser runtime: how many browsers and contexts are open,
      and which headless mode the last launch used. */
  class BrowserRuntime {
    var browsersOpen: nat
    var contextsOpen: nat
    var headless: bool

    constructor()
      ensures browsersOpen == 0 && contextsOpen == 0
    {
      browsersOpen := 0;
      contextsOpen := 0;
      headless := true;
    }

    method Launch(headlessMode: bool)
      modifies this
      ensures browsersOpen == old(browsersOpen) + 1 && contextsOpen == old(contextsOpen)
      ensures headless == headlessMode
    {
      browsersOpen := browsersOpen + 1;
      headless := headlessMode;
    }

    method NewContext()
      modifies this
      ensures contextsOpen == old(contextsOpen) + 1 && browsersOpen == old(browsersOpen)
      ensures headless == old(headless)
    {
      contextsOpen := contextsOpen + 1;
    }

    method CloseContext()
      requires contextsOpen > 0
      modifies this
      ensures contextsOpen == old(contextsOpen) - 1 && browsersOpen == old(browsersOpen)
      ensures headless == old(headless)
    {
      contextsOpen := contextsOpen - 1;
    }

    method CloseBrowser()
      requires browsersOpen > 0
      modifies this
      ensures browsersOpen == old(browsersOpen) - 1 && contextsOpen == old(contextsOpen)
      ensures headless == old(headless)
    {
      browsersOpen := browsersOpen - 1;
    }
  }

  /** `fetch_playwright`: launch, open a context and a page, navigate, wait
      for network idle (a failure there is swallowed), read the content; the
      context and the browser are closed on every way out. */
  method FetchPlaywright(rt: BrowserRuntime, headless: bool, run: PageRun) returns (r: Result<string>)
    modifies rt
    ensures r == BrowserOutcome(run)
    ensures rt.browsersOpen == old(rt.browsersOpen) && rt.contextsOpen == old(rt.contextsOpen)
    ensures rt.headless == headless
  {
    rt.Launch(headless);
    rt.NewContext();
    if run.navigate.Err? {
      r := Err(run.navigate.message);
    } else {
      // run.idle: a failed wait raises inside its own try and is dropped
      r := run.content;
    }
    rt.CloseContext();
    rt.CloseBrowser();
  }

  /** `get_html(url, strategy)`, with each fetcher's network given as its reply
      and the `PLAYWRIGHT_HEADLESS` setting ("1" when it is not set) as the
      `headlessSetting` parameter. */
  method GetHtml(rt: BrowserRuntime, strategy: string, headlessSetting: string,
                 plain: Reply, scraper: Reply, run: PageRun) returns (r: Result<string>)
    modifies rt
    ensures SelectFetcher(strategy) == Browser ==> r == BrowserOutcome(run)
    ensures SelectFetcher(strategy) == Cloudscraper ==> r == FetchCloudscraper(scraper)
    ensures SelectFetcher(strategy) == Plain ==> r == FetchRequests(plain)
    ensures rt.browsersOpen == old(rt.browsersOpen) && rt.contextsOpen == old(rt.contextsOpen)
    ensures SelectFetcher(strategy) == Browser ==> rt.headless == (headlessSetting == "1")
    ensures SelectFetcher(strategy) != Browser ==> rt.headless == old(rt.headless)
  {
    match SelectFetcher(strategy)
    case Browser =>
      r := FetchPlaywright(rt, headlessSetting == "1", run);
    case Cloudscraper =>
      r := FetchCloudscraper(scraper);
    case Plain =>
      r := FetchRequests(plain);
  }
}
