/** The search front end: the top results of the search API, the detail
    links harvested from each result page, and the fixed share of links each
    top result contributes. The search API, page downloads and URL
    resolution are inputs. */
module SearchGoogle {
  import opened Text
  import opened Json
  import opened Listing

  // ---------------------------------------------------------------- get_top_links

  /** `[item["link"] for item in data.get("items", [])]` on the decoded
      response: the `link` of every item in order. A response that is not an
      object, an `items` that is not a list, or an item without a `link`
      raises. */
  function TopLinks(data: Json): (r: Result<seq<Json>>)
    ensures data.JObj? && Get(data.members, "items").None? ==> r == Ok([])
    ensures r.Ok? && data.JObj? && Get(data.members, "items").Some? ==>
              var items := Get(data.members, "items").value;
              items.JArr? && |r.value| == |items.items|
              && forall k :: 0 <= k < |r.value| ==> items.items[k].JObj? && Get(items.items[k].members, "link") == Some(r.value[k])
    ensures r.Err? ==> !data.JObj? || Get(data.members, "items").Some?
  {
    if !data.JObj? then Err(AttributeError(data, "get"))
    else
      match Get(data.members, "items")
      case None => Ok([])
      case Some(items) =>
        if !items.JArr? then Err("'" + TypeName(items) + "' object is not iterable")
        else ItemLinks(items.items)
  }

  function ItemLinks(items: seq<Json>): (r: Result<seq<Json>>)
    ensures r.Ok? ==> |r.value| == |items|
                      && forall k :: 0 <= k < |items| ==> items[k].JObj? && Get(items[k].members, "link") == Some(r.value[k])
    ensures r.Err? ==> exists k :: 0 <= k < |items| && (!items[k].JObj? || Get(items[k].members, "link").None?)
  {
    if items == [] then Ok([])
    else
      var it := items[0];
      if !it.JObj? then Err("'" + TypeName(it) + "' object is not subscriptable")
      else match Get(it.members, "link")
        case None => Err("'link'")
        case Some(l) =>
          match ItemLinks(items[1..])
          case Err(m) =>
            ghost var k :| 1 <= k + 1 < |items| + 1 && 0 <= k < |items[1..]| && (!items[1..][k].JObj? || Get(items[1..][k].members, "link").None?);
            assert items[k + 1] == items[1..][k];
            Err(m)
          case Ok(rest) =>
            assert forall k :: 1 <= k < |items| ==> items[k] == items[1..][k - 1];
            Ok([l] + rest)
  }

  // ---------------------------------------------------------------- get_sub_links

  /** One anchor's `urljoin(link, href)` and the network location and path
      `urlparse` finds in it. */
  datatype Target = Target(url: string, netloc: string, path: string)

  /** A result page as `get_sub_links` sees it: its anchors with an href, in
      document order, each resolved (resolution may raise), or the failure
      of the download; and the page link's own network location and path. */
  datatype SubPage = SubPage(anchors: Result<seq<Result<Target>>>, netloc: string, path: string)

  predicate IsSlash(c: char)
  {
    c == '/'
  }

  /** `path.rstrip("/")`. */
  function BasePath(path: string): (r: string)
    ensures StartsWith(path, r) && (r == [] || r[|r| - 1] != '/')
  {
    TrimRight(path, IsSlash)
  }

  /** `re.search(r"\d{6,}\.htm", path)`: six digits right before ".htm". */
  predicate HasIdHtm(path: string)
  {
    exists j :: 6 <= j <= |path| - 4 && IdBefore(path, j, ".htm")
  }

  /** `lit` occurs at j with six digits right before it. */
  predicate IdBefore(path: string, j: int, lit: string)
  {
    6 <= j <= |path| - |lit| && path[j..j + |lit|] == lit && AllOf(path[j - 6..j], IsDigit)
  }

  /** `re.search(r"\d{6,}\.html", path)`, the third alternative. */
  predicate HasIdHtml(path: string)
  {
    exists j :: 6 <= j <= |path| - 5 && IdBefore(path, j, ".html")
  }

  /** The ".html" search adds nothing: every path it finds, the ".htm" one
      finds too. */
  lemma HtmlCoveredByHtm(path: string)
    ensures HasIdHtml(path) ==> HasIdHtm(path)
  {
    if HasIdHtml(path) {
      var j :| 6 <= j <= |path| - 5 && IdBefore(path, j, ".html");
      assert path[j..j + 4] == path[j..j + 5][..4];
      assert IdBefore(path, j, ".htm");
    }
  }

  /** The filter an anchor must pass (the duplicate check aside): same host,
      a path strictly under the page's, and a listing marker in the path. */
  predicate Kept(t: Target, netloc: string, basePath: string)
  {
    t.netloc == netloc && StartsWith(t.path, basePath) && t.path != basePath
    && (Contains(t.path, "pr") || HasIdHtm(t.path) || HasIdHtml(t.path))
  }

  /** The URLs of the anchors among ts that pass the filter, in order; an
      anchor whose resolution failed contributes nothing. */
  function KeptUrls(ts: seq<Result<Target>>, netloc: string, basePath: string): (r: seq<string>)
    ensures forall x :: x in r ==> exists k :: 0 <= k < |ts| && ts[k].Ok? && Kept(ts[k].value, netloc, basePath) && ts[k].value.url == x
    ensures |r| <= |ts|
  {
    if ts == [] then []
    else
      var init := KeptUrls(ts[..|ts| - 1], netloc, basePath);
      var last := ts[|ts| - 1];
      assert forall k :: 0 <= k < |ts| - 1 ==> ts[..|ts| - 1][k] == ts[k];
      if last.Ok? && Kept(last.value, netloc, basePath) then init + [last.value.url] else init
  }

  /** Each value once, at its first appearance. */
  function Dedup(xs: seq<string>): (r: seq<string>)
    ensures |r| <= |xs|
  {
    if xs == [] then []
    else
      var d := Dedup(xs[..|xs| - 1]);
      if xs[|xs| - 1] in d then d else d + [xs[|xs| - 1]]
  }

  /** Where a value first appears. */
  function FirstIndex(xs: seq<string>, x: string): (i: nat)
    requires x in xs
    ensures i < |xs| && xs[i] == x && forall t :: 0 <= t < i ==> xs[t] != x
  {
    if xs[0] == x then 0 else 1 + FirstIndex(xs[1..], x)
  }

  predicate NoDuplicates(xs: seq<string>)
  {
    forall i, j :: 0 <= i < j < |xs| ==> xs[i] != xs[j]
  }

  lemma FirstIndexPrefix(xs: seq<string>, x: string, n: nat)
    requires n <= |xs| && x in xs[..n]
    ensures FirstIndex(xs, x) == FirstIndex(xs[..n], x)
  {
    var i := FirstIndex(xs[..n], x);
    var j := FirstIndex(xs, x);
    assert xs[..n][i] == xs[i];
    assert forall t :: 0 <= t < n ==> xs[..n][t] == xs[t];
  }

  /** `Dedup` keeps exactly the values of its input. */
  lemma {:induction false} DedupMembers(xs: seq<string>)
    ensures forall x :: x in Dedup(xs) <==> x in xs
  {
    if xs != [] {
      var init := xs[..|xs| - 1];
      DedupMembers(init);
      assert xs == init + [xs[|xs| - 1]];
    }
  }

  /** `Dedup` holds no value twice. */
  lemma {:induction false} DedupNoDuplicates(xs: seq<string>)
    ensures NoDuplicates(Dedup(xs))
  {
    if xs != [] {
      DedupNoDuplicates(xs[..|xs| - 1]);
    }
  }

  /** `Dedup` lists the values in the order of their first appearance. */
  lemma {:induction false} DedupOrder(xs: seq<string>)
    ensures forall x :: x in Dedup(xs) ==> x in xs
    ensures forall i, j :: 0 <= i < j < |Dedup(xs)| ==> FirstIndex(xs, Dedup(xs)[i]) < FirstIndex(xs, Dedup(xs)[j])
  {
    if xs != [] {
      var init := xs[..|xs| - 1];
      var x := xs[|xs| - 1];
      DedupOrder(init);
      DedupMembers(init);
      DedupMembers(xs);
      var d := Dedup(init);
      forall y | y in init ensures FirstIndex(xs, y) == FirstIndex(init, y) {
        FirstIndexPrefix(xs, y, |xs| - 1);
      }
      if x !in d {
        assert FirstIndex(xs, x) == |xs| - 1;
        forall i | 0 <= i < |d| ensures FirstIndex(xs, Dedup(xs)[i]) < |xs| - 1 {
          assert Dedup(xs)[i] == d[i] && d[i] in init;
        }
      }
    }
  }

  /** `Dedup` is exactly the list of distinct values in order of first
      appearance: the same values, none twice, ordered by where each first
      occurs. */
  lemma DedupSpec(xs: seq<string>)
    ensures forall x :: x in Dedup(xs) <==> x in xs
    ensures NoDuplicates(Dedup(xs))
    ensures forall i, j :: 0 <= i < j < |Dedup(xs)| ==> FirstIndex(xs, Dedup(xs)[i]) < FirstIndex(xs, Dedup(xs)[j])
  {
    DedupMembers(xs);
    DedupNoDuplicates(xs);
    DedupOrder(xs);
  }

  /** Adding one value grows the deduplicated list by at most one. */
  lemma DedupGrowth(xs: seq<string>, ys: seq<string>)
    requires |ys| <= 1
    ensures |Dedup(xs + ys)| <= |Dedup(xs)| + 1
  {
    if ys != [] {
      assert (xs + ys)[..|xs + ys| - 1] == xs;
    } else {
      assert xs + ys == xs;
    }
  }

  /** Every one of the first n anchors resolved. */
  predicate Resolved(ts: seq<Result<Target>>, n: nat)
    requires n <= |ts|
  {
    forall k :: 0 <= k < n ==> ts[k].Ok?
  }

  /** The links collected after the first n anchors. */
  function Collected(ts: seq<Result<Target>>, netloc: string, basePath: string, n: nat): seq<string>
    requires n <= |ts|
  {
    Dedup(KeptUrls(ts[..n], netloc, basePath))
  }

  /** None of the first 1..i anchors brought the collection up to the cap. */
  predicate UnderCap(ts: seq<Result<Target>>, netloc: string, basePath: string, cap: int, i: nat)
    requires i <= |ts|
  {
    forall m :: 1 <= m <= i ==> |Collected(ts, netloc, basePath, m)| < cap
  }

  /** How many anchors the loop looks at: up to and including the first
      after which the cap is reached, else all of them. */
  function Stop(ts: seq<Result<Target>>, netloc: string, basePath: string, cap: int): (n: nat)
    ensures n <= |ts| && (ts != [] ==> 1 <= n)
    ensures forall m :: 1 <= m < n ==> |Collected(ts, netloc, basePath, m)| < cap
    ensures n < |ts| ==> |Collected(ts, netloc, basePath, n)| >= cap
  {
    if ts == [] then 0 else StopFrom(ts, netloc, basePath, cap, 1)
  }

  function StopFrom(ts: seq<Result<Target>>, netloc: string, basePath: string, cap: int, n: nat): (r: nat)
    requires 1 <= n <= |ts|
    requires forall m :: 1 <= m < n ==> |Collected(ts, netloc, basePath, m)| < cap
    ensures n <= r <= |ts|
    ensures forall m :: 1 <= m < r ==> |Collected(ts, netloc, basePath, m)| < cap
    ensures r < |ts| ==> |Collected(ts, netloc, basePath, r)| >= cap
    decreases |ts| - n
  {
    if n == |ts| || |Collected(ts, netloc, basePath, n)| >= cap then n
    else StopFrom(ts, netloc, basePath, cap, n + 1)
  }

  /** The stopping point is determined by the three facts `Stop` promises. */
  lemma StopUnique(ts: seq<Result<Target>>, netloc: string, basePath: string, cap: int, n: nat)
    requires ts != [] && 1 <= n <= |ts|
    requires UnderCap(ts, netloc, basePath, cap, n - 1)
    requires n < |ts| ==> |Collected(ts, netloc, basePath, n)| >= cap
    ensures Stop(ts, netloc, basePath, cap) == n
  {
    var s := Stop(ts, netloc, basePath, cap);

  }

  /** The loop goes on past anchor i while no earlier anchor reached the cap. */
  lemma StopAfter(ts: seq<Result<Target>>, netloc: string, basePath: string, cap: int, i: nat)
    requires i < |ts|
    requires UnderCap(ts, netloc, basePath, cap, i)
    ensures i < Stop(ts, netloc, basePath, cap)
  {
  }

  /** One more anchor that leaves the collection below the cap keeps it under. */
  lemma UnderCapStep(ts: seq<Result<Target>>, netloc: string, basePath: string, cap: int, i: nat)
    requires i < |ts| && UnderCap(ts, netloc, basePath, cap, i)
    requires |Collected(ts, netloc, basePath, i + 1)| < cap
    ensures UnderCap(ts, netloc, basePath, cap, i + 1)
  {
  }

  /** Handling one more anchor adds at most one link. */
  lemma CollectedGrowth(ts: seq<Result<Target>>, netloc: string, basePath: string, n: nat)
    requires 1 <= n <= |ts|
    ensures |Collected(ts, netloc, basePath, n)| <= |Collected(ts, netloc, basePath, n - 1)| + 1
  {
    var xs := KeptUrls(ts[..n - 1], netloc, basePath);
    assert ts[..n][..n - 1] == ts[..n - 1];
    var last := ts[n - 1];
    var ys := if last.Ok? && Kept(last.value, netloc, basePath) then [last.value.url] else [];
    assert KeptUrls(ts[..n], netloc, basePath) == xs + ys;
    DedupGrowth(xs, ys);
  }

  /** Handling one more anchor adds its URL when it qualifies and is new. */
  lemma CollectedStep(ts: seq<Result<Target>>, netloc: string, basePath: string, i: nat)
    requires i < |ts| && ts[i].Ok?
    ensures var c := Collected(ts, netloc, basePath, i); var t := ts[i].value;
            Collected(ts, netloc, basePath, i + 1) == if Kept(t, netloc, basePath) && t.url !in c then c + [t.url] else c
  {
    assert ts[..i + 1][..i] == ts[..i];
  }

  /** What `get_sub_links(link, max_links)` returns: the distinct kept links
      of the anchors up to the stopping point, or `[]` when the download
      or the resolution of one of those anchors failed. */
  function SubLinks(page: SubPage, cap: int): seq<string>
  {
    match page.anchors
    case Err(_) => []
    case Ok(ts) =>
      var n := Stop(ts, page.netloc, BasePath(page.path), cap);
      if Resolved(ts, n) then Collected(ts, page.netloc, BasePath(page.path), n) else []
  }

  /** Where the loop stops with every anchor so far resolved, the links are
      the ones collected up to there. */
  lemma SubLinksStopAt(page: SubPage, cap: int, n: nat)
    requires page.anchors.Ok? && 1 <= n <= |page.anchors.value|
    requires UnderCap(page.anchors.value, page.netloc, BasePath(page.path), cap, n - 1)
    requires n < |page.anchors.value| ==> |Collected(page.anchors.value, page.netloc, BasePath(page.path), n)| >= cap
    requires Resolved(page.anchors.value, n)
    ensures SubLinks(page, cap) == Collected(page.anchors.value, page.netloc, BasePath(page.path), n)
  {
    StopUnique(page.anchors.value, page.netloc, BasePath(page.path), cap, n);
  }

  /** An anchor that fails to resolve before the stopping point empties the
      result. */
  lemma SubLinksFailAt(page: SubPage, cap: int, i: nat)
    requires page.anchors.Ok? && i < |page.anchors.value| && page.anchors.value[i].Err?
    requires UnderCap(page.anchors.value, page.netloc, BasePath(page.path), cap, i)
    ensures SubLinks(page, cap) == []
  {
    StopAfter(page.anchors.value, page.netloc, BasePath(page.path), cap, i);
  }

  /** The harvested links are on the page's host, strictly below its path,
      carry a listing marker, appear once each, and come in the order the
      page first links to them. */
  lemma SubLinksSpec(page: SubPage, cap: int)
    ensures NoDuplicates(SubLinks(page, cap))
    ensures forall x :: x in SubLinks(page, cap) ==>
              page.anchors.Ok? && exists k :: 0 <= k < |page.anchors.value| && page.anchors.value[k].Ok?
                                             && Kept(page.anchors.value[k].value, page.netloc, BasePath(page.path))
                                             && page.anchors.value[k].value.url == x
    ensures page.anchors.Ok? && SubLinks(page, cap) != [] ==>
              var ts := page.anchors.value;
              var xs := KeptUrls(ts[..Stop(ts, page.netloc, BasePath(page.path), cap)], page.netloc, BasePath(page.path));
              forall i, j :: 0 <= i < j < |SubLinks(page, cap)| ==>
                SubLinks(page, cap)[i] in xs && SubLinks(page, cap)[j] in xs
                && FirstIndex(xs, SubLinks(page, cap)[i]) < FirstIndex(xs, SubLinks(page, cap)[j])
  {
    if page.anchors.Ok? {
      var ts := page.anchors.value;
      var b := BasePath(page.path);
      var n := Stop(ts, page.netloc, b, cap);
      var xs := KeptUrls(ts[..n], page.netloc, b);
      DedupSpec(xs);
      forall x | x in SubLinks(page, cap)
        ensures exists k :: 0 <= k < |ts| && ts[k].Ok? && Kept(ts[k].value, page.netloc, b) && ts[k].value.url == x
      {
        var k :| 0 <= k < n && ts[..n][k].Ok? && Kept(ts[..n][k].value, page.netloc, b) && ts[..n][k].value.url == x;
        assert ts[..n][k] == ts[k];
      }
    }
  }

  /** At most `max_links` links for a positive cap; since the cap is checked
      only after an anchor is handled, a cap of zero or less still lets the
      first anchor through. */
  lemma SubLinksBound(page: SubPage, cap: int)
    ensures |SubLinks(page, cap)| <= (if cap >= 1 then cap else 1)
  {
    if page.anchors.Ok? && page.anchors.value != [] {
      var ts := page.anchors.value;
      var b := BasePath(page.path);
      var n := Stop(ts, page.netloc, b, cap);
      CollectedGrowth(ts, page.netloc, b, n);
      if n == 1 {
        assert ts[..0] == [];
      }
    }
  }

  /** The page used below: one anchor, a listing under the page's path. */
  const OneListing: SubPage := SubPage(Ok([Ok(Target("h/a/pr1", "h", "/a/pr1"))]), "h", "/a")

  lemma OneListingKept()
    ensures Kept(Target("h/a/pr1", "h", "/a/pr1"), "h", BasePath("/a"))
  {
    var path := "/a/pr1";
    assert BasePath("/a") == "/a" by {
      assert TrimRight("/a", IsSlash) == "/a";
    }
    assert path[..2] == "/a";
    assert path[3..5] == "pr";
    ContainsAt(path, "pr", 3);
  }

  /** That anchor is the page's only kept URL. */
  lemma OneListingUrls()
    ensures KeptUrls(OneListing.anchors.value, "h", BasePath("/a")) == ["h/a/pr1"]
  {
    OneListingKept();
    assert OneListing.anchors.value[..0] == [];
  }

  /** A single value is already deduplicated. */
  lemma DedupSingle(x: string)
    ensures Dedup([x]) == [x]
  {
    assert [x][..0] == [];
  }

  /** With a cap of zero a page whose first anchor qualifies still yields it. */
  lemma ZeroCapYieldsOne()
    ensures SubLinks(OneListing, 0) == ["h/a/pr1"]
  {
    var ts := OneListing.anchors.value;
    SubLinksStopAt(OneListing, 0, 1);
    assert ts[..1] == ts;
    OneListingUrls();
    DedupSingle("h/a/pr1");
  }

  /** `get_sub_links(link, max_links)`: the anchor loop with its duplicate
      check and the cap check after each anchor; any failure gives `[]`. */
  method GetSubLinks(page: SubPage, cap: int) returns (links: seq<string>)
    ensures links == SubLinks(page, cap)
  {
    if page.anchors.Err? {
      return [];
    }
    var ts := page.anchors.value;
    var basePath := BasePath(page.path);
    links := [];
    var i := 0;
    assert ts[..0] == [];
    while i < |ts|
      invariant 0 <= i <= |ts|
      invariant links == Collected(ts, page.netloc, basePath, i)
      invariant Resolved(ts, i)
      invariant UnderCap(ts, page.netloc, basePath, cap, i)
    {
      var a := ts[i];
      if a.Err? {
        SubLinksFailAt(page, cap, i);
        return [];
      }
      CollectedStep(ts, page.netloc, basePath, i);
      var t := a.value;
      if Kept(t, page.netloc, basePath) && t.url !in links {
        links := links + [t.url];
      }
      if |links| >= cap {
        SubLinksStopAt(page, cap, i + 1);
        return links;
      }
      UnderCapStep(ts, page.netloc, basePath, cap, i);
      i := i + 1;
    }
    if ts != [] {
      SubLinksStopAt(page, cap, |ts|);
    }
  }

  // ---------------------------------------------------------------- search_google

  /** How many detail links each of the first five top results may give. */
  const Distribution: seq<int> := [3, 3, 2, 1, 1]

  /** `get_sub_links` of the top result at idx: a link that is not a string
      makes the download raise inside its guard, so it gives nothing. */
  function Harvest(top: seq<Json>, idx: nat, pageOf: string -> SubPage): seq<string>
    requires idx < |top| && idx < |Distribution|
  {
    if top[idx].JStr? then SubLinks(pageOf(top[idx].s), Distribution[idx]) else []
  }

  /** One record per link, in order. */
  function Records(links: seq<string>, extract: string -> Record): (r: seq<Record>)
    ensures |r| == |links| && forall i :: 0 <= i < |links| ==> r[i] == extract(links[i])
  {
    seq(|links|, i requires 0 <= i < |links| => extract(links[i]))
  }

  /** The records gathered from the first k top results. */
  function Gathered(top: seq<Json>, k: nat, pageOf: string -> SubPage, extract: string -> Record): seq<Record>
    requires k <= |top| && k <= |Distribution|
  {
    if k == 0 then []
    else Gathered(top, k - 1, pageOf, extract) + Records(Harvest(top, k - 1, pageOf), extract)
  }

  function Sum(xs: seq<int>): int
  {
    if xs == [] then 0 else Sum(xs[..|xs| - 1]) + xs[|xs| - 1]
  }

  /** The shares add up to 3, 6, 8, 9 and 10. */
  lemma DistributionSums()
    ensures Sum(Distribution[..0]) == 0 && Sum(Distribution[..1]) == 3 && Sum(Distribution[..2]) == 6
    ensures Sum(Distribution[..3]) == 8 && Sum(Distribution[..4]) == 9 && Sum(Distribution[..5]) == 10
  {
    var d := Distribution;
    assert d[..1][..0] == d[..0] && d[..2][..1] == d[..1] && d[..3][..2] == d[..2];
    assert d[..4][..3] == d[..3] && d[..5][..4] == d[..4];
  }

  /** The first k top results give at most as many records as their shares
      add up to; all five together at most ten. */
  lemma {:induction false} GatheredBound(top: seq<Json>, k: nat, pageOf: string -> SubPage, extract: string -> Record)
    requires k <= |top| && k <= |Distribution|
    ensures |Gathered(top, k, pageOf, extract)| <= Sum(Distribution[..k]) <= 10
  {
    DistributionSums();
    assert k == 0 || k == 1 || k == 2 || k == 3 || k == 4 || k == 5;
    if k > 0 {
      GatheredBound(top, k - 1, pageOf, extract);
      assert Distribution[..k][..k - 1] == Distribution[..k - 1];
      if top[k - 1].JStr? {
        SubLinksBound(pageOf(top[k - 1].s), Distribution[k - 1]);
      }
    }
  }

  /** One more top result appends its records. */
  lemma GatheredStep(top: seq<Json>, k: nat, pageOf: string -> SubPage, extract: string -> Record)
    requires k < |top| && k < |Distribution|
    ensures Gathered(top, k + 1, pageOf, extract) == Gathered(top, k, pageOf, extract) + Records(Harvest(top, k, pageOf), extract)
  {
  }

  /** `search_google(query)`, given the top results and, for each link, the
      page behind it and `extract_info_generic`'s record for each harvested
      link (`extract_info_batdongsan` is that function, and the dict it
      returns always has its keys, so `if info` never skips one). Each
      harvested link gives exactly one record, in order. */
  method Search(top: seq<Json>, pageOf: string -> SubPage, extract: string -> Record) returns (results: seq<Record>)
    ensures var k := if |top| < |Distribution| then |top| else |Distribution|;
            results == Gathered(top, k, pageOf, extract)
    ensures |results| <= 10
  {
    results := [];
    var idx := 0;
    while idx < |top|
      invariant 0 <= idx <= |top| && idx <= |Distribution|
      invariant results == Gathered(top, idx, pageOf, extract)
    {
      if idx >= |Distribution| {
        break;
      }
      var subs := HarvestOne(top, idx, pageOf);
      GatheredStep(top, idx, pageOf, extract);
      results := AppendRecords(results, subs, extract);
      idx := idx + 1;
    }
    GatheredBound(top, if |top| < |Distribution| then |top| else |Distribution|, pageOf, extract);
  }

  /** The sub-links of the top result at idx, when it is a string. */
  method HarvestOne(top: seq<Json>, idx: nat, pageOf: string -> SubPage) returns (subs: seq<string>)
    requires idx < |top| && idx < |Distribution|
    ensures subs == Harvest(top, idx, pageOf)
  {
    subs := [];
    if top[idx].JStr? {
      subs := GetSubLinks(pageOf(top[idx].s), Distribution[idx]);
    }
  }

  /** The inner loop: one record per harvested link, appended in order. */
  method AppendRecords(results: seq<Record>, subs: seq<string>, extract: string -> Record) returns (out: seq<Record>)
    ensures out == results + Records(subs, extract)
  {
    out := results;
    var j := 0;
    while j < |subs|
      invariant 0 <= j <= |subs|
      invariant out == results + Records(subs[..j], extract)
    {
      assert Records(subs[..j + 1], extract) == Records(subs[..j], extract) + [extract(subs[j])];
      out := out + [extract(subs[j])];
      j := j + 1;
    }
    assert subs[..j] == subs;
  }
}
