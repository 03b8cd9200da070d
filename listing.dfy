/**
 * The listing pages: which URL page n is requested from
 * (ML_LAB5.py:191-194) and how the `a.news_block` links found on it become
 * absolute URLs (ML_LAB5.py:209-214).
 */
module Listing {
  import opened Wrappers
  import opened Text

  const SITE_ROOT: string := "http://www.nsktv.ru"
  const NEWS_LIST_LINK: string := "http://www.nsktv.ru/news/"
  const PAGE_PARAM: string := "?PAGEN_1="

  /** A parsed listing page: the `href` attribute of each `a.news_block`,
      in document order, `None` where the attribute is missing. */
  datatype ListingPage = ListingPage(hrefs: seq<Option<string>>)

  /** The URL requested for listing page `n`: the bare listing for page 1,
      the page number as a query parameter for any other. */
  function PageUrl(n: nat): (r: string)
    ensures n == 1 ==> r == NEWS_LIST_LINK
    ensures n != 1 ==> r == NEWS_LIST_LINK + PAGE_PARAM + NatToString(n)
    ensures n != 1 ==> (StartsWith(r, NEWS_LIST_LINK + PAGE_PARAM) &&
                        ParseNat(r[|NEWS_LIST_LINK + PAGE_PARAM|..]) == n)
  {
    if n == 1 then NEWS_LIST_LINK
    else
      var r := NEWS_LIST_LINK + PAGE_PARAM + NatToString(n);
      assert r[..|NEWS_LIST_LINK + PAGE_PARAM|] == NEWS_LIST_LINK + PAGE_PARAM;
      assert r[|NEWS_LIST_LINK + PAGE_PARAM|..] == NatToString(n);
      ParseNatToString(n);
      r
  }

  /** Distinct page numbers request distinct URLs, so no page is fetched
      under another page's address. */
  lemma PageUrlInjective(m: nat, n: nat)
    requires PageUrl(m) == PageUrl(n)
    ensures m == n
  {
  }

  /** The absolute link for one `href`: none when the attribute is missing
      or empty; a site-relative path gets the site root in front; anything
      else passes through unchanged. The href always ends the result, and
      no result is itself site-relative. */
  function ResolveHref(href: Option<string>): (r: Option<string>)
    ensures r.None? <==> href.None? || href.value == ""
    ensures r.Some? ==> (r.value != "" && r.value[0] != '/' &&
                         |href.value| <= |r.value| &&
                         r.value[|r.value| - |href.value|..] == href.value)
    ensures r.Some? && href.value[0] == '/' ==> r.value == SITE_ROOT + href.value
    ensures r.Some? && href.value[0] == '/' ==> StartsWith(r.value, SITE_ROOT)
    ensures r.Some? && href.value[0] != '/' ==> r.value == href.value
  {
    match href
    case None => None
    case Some(h) =>
      if h == "" then None
      else if StartsWith(h, "/") then
        var r := SITE_ROOT + h;
        assert r[|r| - |h|..] == h;
        assert r[..|SITE_ROOT|] == SITE_ROOT;
        Some(r)
      else Some(h)
  }

  /** Resolving an already resolved link changes nothing. */
  lemma ResolveHrefIdempotent(href: Option<string>)
    requires ResolveHref(href).Some?
    ensures ResolveHref(ResolveHref(href)) == ResolveHref(href)
  {
  }

  /** The `found_urls` list built from a page's hrefs, in order. */
  function FoundUrls(hrefs: seq<Option<string>>): (r: seq<string>)
    ensures |r| <= |hrefs|
  {
    if hrefs == [] then [] else FoundUrls(hrefs[..|hrefs| - 1]) + Listed(ResolveHref(hrefs[|hrefs| - 1]))
  }

  /** The link, if any, as a list of zero or one element. */
  function Listed(link: Option<string>): (r: seq<string>)
    ensures |r| <= 1
  {
    if link.Some? then [link.value] else []
  }

  /** The `for a_tag in ...: found_urls.append(full_link)` loop. */
  method CollectLinks(hrefs: seq<Option<string>>) returns (found: seq<string>)
    ensures found == FoundUrls(hrefs)
  {
    found := [];
    for i := 0 to |hrefs|
      invariant found == FoundUrls(hrefs[..i])
    {
      assert hrefs[..i + 1][..i] == hrefs[..i];
      var link := ResolveHref(hrefs[i]);
      if link.Some? {
        found := found + [link.value];
      }
    }
    assert hrefs[..|hrefs|] == hrefs;
  }

  /** Every found URL comes from one of the page's hrefs. */
  /** The links of two runs of anchors are those of each run, one after
      the other: order and repeats are kept, anchor by anchor. */
  lemma {:induction false} FoundUrlsAppend(a: seq<Option<string>>, b: seq<Option<string>>)
    ensures FoundUrls(a + b) == FoundUrls(a) + FoundUrls(b)
    decreases |b|
  {
    if b == [] {
      assert a + b == a;
    } else {
      var n := |b| - 1;
      assert (a + b)[..|a + b| - 1] == a + b[..n];
      assert (a + b)[|a + b| - 1] == b[n];
      FoundUrlsAppend(a, b[..n]);
    }
  }

  lemma {:induction false} FoundUrlsFromHrefs(hrefs: seq<Option<string>>, u: string)
    requires u in FoundUrls(hrefs)
    ensures exists i :: 0 <= i < |hrefs| && ResolveHref(hrefs[i]) == Some(u)
  {
    var init := hrefs[..|hrefs| - 1];
    if u in FoundUrls(init) {
      FoundUrlsFromHrefs(init, u);
      var i :| 0 <= i < |init| && ResolveHref(init[i]) == Some(u);
      assert hrefs[i] == init[i];
    } else {
      assert ResolveHref(hrefs[|hrefs| - 1]) == Some(u);
    }
  }

  /** Every href that resolves is found. */
  lemma {:induction false} FoundUrlsHaveHrefs(hrefs: seq<Option<string>>, i: nat)
    requires i < |hrefs| && ResolveHref(hrefs[i]).Some?
    ensures ResolveHref(hrefs[i]).value in FoundUrls(hrefs)
  {
    var init := hrefs[..|hrefs| - 1];
    var link := ResolveHref(hrefs[|hrefs| - 1]);
    assert FoundUrls(hrefs) == FoundUrls(init) + Listed(link);
    if i < |init| {
      assert init[i] == hrefs[i];
      FoundUrlsHaveHrefs(init, i);
    }
  }

  /** A URL is found on the page exactly when one of its hrefs resolves to it. */
  lemma FoundUrlsMembers(hrefs: seq<Option<string>>, u: string)
    ensures u in FoundUrls(hrefs) <==> exists i :: 0 <= i < |hrefs| && ResolveHref(hrefs[i]) == Some(u)
  {
    if u in FoundUrls(hrefs) {
      FoundUrlsFromHrefs(hrefs, u);
    }
    if exists i :: 0 <= i < |hrefs| && ResolveHref(hrefs[i]) == Some(u) {
      var i :| 0 <= i < |hrefs| && ResolveHref(hrefs[i]) == Some(u);
      FoundUrlsHaveHrefs(hrefs, i);
    }
  }
}
