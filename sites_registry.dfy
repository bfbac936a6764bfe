/** The registry of supported sites and the lookup of a link's site by its
    host name. */
module Sites {
  import opened Text
  import Alonhadat
  import Batdongsan

  /** Which parser an entry names. */
  datatype SiteId = AlonhadatSite | BatdongsanSite

  /** A registry entry: the domain looked for in the host, the parser, and
      the parser's preferred fetch strategy. */
  datatype Entry = Entry(domain: string, site: SiteId, strategy: string)

  /** `SITE_REGISTRY`, in its insertion order. */
  const Registry: seq<Entry> := [
    Entry("alonhadat.com.vn", AlonhadatSite, Alonhadat.DefaultStrategy),
    Entry("batdongsan.com.vn", BatdongsanSite, Batdongsan.DefaultStrategy)
  ]

  /** The index of the first entry whose domain occurs in `host`; |entries|
      when none does. */
  function FirstMatch(entries: seq<Entry>, host: string): (i: nat)
    ensures i <= |entries|
    ensures forall t :: 0 <= t < i ==> !Contains(host, entries[t].domain)
    ensures i < |entries| ==> Contains(host, entries[i].domain)
  {
    if entries == [] then 0
    else if Contains(host, entries[0].domain) then 0
    else
      var j := FirstMatch(entries[1..], host);
      assert forall t :: 1 <= t < |entries| ==> entries[t] == entries[1..][t - 1];
      1 + j
  }

  /** `pick_site(link)`, given the link's network location (`urlparse` is not
      part of this model): the first registered domain that is a substring of
      the lower-cased host, or `None`. */
  function PickSite(netloc: string): (r: Option<Entry>)
    ensures r.Some? ==> exists i :: 0 <= i < |Registry| && r.value == Registry[i]
                                    && Contains(Lower(netloc), Registry[i].domain)
                                    && forall t :: 0 <= t < i ==> !Contains(Lower(netloc), Registry[t].domain)
    ensures r.None? <==> forall i :: 0 <= i < |Registry| ==> !Contains(Lower(netloc), Registry[i].domain)
  {
    var i := FirstMatch(Registry, Lower(netloc));
    if i < |Registry| then Some(Registry[i]) else None
  }

  /** The two entries and their strategies. */
  lemma RegistryContents()
    ensures |Registry| == 2
    ensures Registry[0].domain == "alonhadat.com.vn" && Registry[1].domain == "batdongsan.com.vn"
    ensures Registry[0].site == AlonhadatSite && Registry[0].strategy == "requests"
    ensures Registry[1].site == BatdongsanSite && Registry[1].strategy == "cloudscraper"
  {
  }

  /** An empty host names no site. */
  lemma PickSiteEmptyHost()
    ensures PickSite("") == None
  {
    assert Lower("") == "";
    NotContainedInEmpty(Registry[0].domain);
    NotContainedInEmpty(Registry[1].domain);
  }

  /** The lookup ignores the case of the host. */
  lemma PickSiteIgnoresCase(netloc: string)
    ensures PickSite(Lower(netloc)) == PickSite(netloc)
  {
    LowerIdempotent(netloc);
  }

  /** Any host with "alonhadat.com.vn" anywhere in it, not only at its end,
      picks alonhadat. */
  lemma PickSiteSubstring(pre: string, post: string)
    ensures PickSite(pre + "alonhadat.com.vn" + post) == Some(Registry[0])
  {
    var d := "alonhadat.com.vn";
    var host := pre + d + post;
    LowerAppend(pre, d, post);
    assert Lower(d) == d;
    assert Lower(host)[|pre|..|pre| + |d|] == d;
    ContainsAt(Lower(host), d, |pre|);
  }

  /** Lower-casing works character by character. */
  lemma LowerAppend(a: string, b: string, c: string)
    ensures Lower(a + b + c) == Lower(a) + Lower(b) + Lower(c)
  {
    var s := a + b + c;
    assert forall k :: 0 <= k < |s| ==> Lower(s)[k] == (Lower(a) + Lower(b) + Lower(c))[k];
  }
}
