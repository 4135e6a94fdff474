/**
 * The paginated crawl of the transfer-list search that the three scrapers share:
 * fetch a results page, collect the player ids from its negotiation links, follow
 * the first link whose href contains `&pid=<page+1>`, and stop at a page cap or at
 * the first page without such a link.
 *
 * A listing page is the sequence of `href`s of its anchors, in document order; the
 * same anchors serve for the id links and for the next-page test.  Fetching is a
 * function from URL to page, so the browser is out of the picture.
 */
module ListingCrawl {
  import opened Wrappers
  import opened SeqUtil
  import opened PyText

  const BaseUrl: string := "https://www.pmanager.org"

  /** What the link pattern `comprar_jog_lista\.asp\?jg_id=` matches. */
  const NegotiationLink: string := "comprar_jog_lista.asp?jg_id="

  const IdMarker: string := "jg_id="

  type Fetch = string -> seq<string>

  // ---------------------------------------------------------------- ids on a page

  /** The id a single anchor contributes: `href.split('jg_id=')[1]` for a negotiation link, nothing otherwise. */
  function LinkId(h: string): Option<string> {
    if Contains(h, NegotiationLink) then SplitSecond(h, IdMarker) else None
  }

  /** Exactly the negotiation links contribute an id, so the `IndexError` branch is never taken. */
  lemma LinkIdSome(h: string)
    ensures LinkId(h).Some? <==> Contains(h, NegotiationLink)
  {
    if Contains(h, NegotiationLink) {
      var i := IndexOf(h, NegotiationLink).value;
      var j := i + |NegotiationLink| - |IdMarker|;
      assert h[j..j + |IdMarker|] == h[i..i + |NegotiationLink|][|NegotiationLink| - |IdMarker|..];
      ContainsAt(h, IdMarker, j);
    }
  }

  /** The ids a listing page links to, in document order. */
  function PageIds(anchors: seq<string>): seq<string> {
    FilterMap(LinkId, anchors)
  }

  /** The ids of a page are exactly the ids of its anchors, and there are no more of them than anchors. */
  lemma PageIdsSpec(anchors: seq<string>, id: string)
    ensures id in PageIds(anchors) <==> exists k :: 0 <= k < |anchors| && LinkId(anchors[k]) == Some(id)
    ensures |PageIds(anchors)| <= |anchors|
  {
    FilterMapSpec(LinkId, anchors, id);
  }

  // ---------------------------------------------------------------- the next-page link

  /** The text of the next-page test for page `n`: `&pid=<n>`. */
  function PidParam(n: nat): string {
    "&pid=" + DecimalString(n)
  }

  /** `soup.find('a', href=re.compile(pid))`: the first anchor whose href contains `pid`. */
  function NextHref(anchors: seq<string>, pid: string): Option<string> {
    if anchors == [] then None
    else if Contains(anchors[0], pid) then Some(anchors[0])
    else NextHref(anchors[1..], pid)
  }

  /** There is no next link exactly when no anchor passes the test. */
  lemma {:induction false} NextHrefNone(anchors: seq<string>, pid: string)
    ensures NextHref(anchors, pid).None? <==> forall k :: 0 <= k < |anchors| ==> !Contains(anchors[k], pid)
    decreases |anchors|
  {
    if anchors != [] {
      NextHrefNone(anchors[1..], pid);
      assert forall k :: 1 <= k < |anchors| ==> anchors[k] == anchors[1..][k - 1];
    }
  }

  /** The link followed is the first anchor, in document order, that passes the test. */
  lemma {:induction false} NextHrefFirst(anchors: seq<string>, pid: string)
    requires NextHref(anchors, pid).Some?
    ensures exists k :: 0 <= k < |anchors| && anchors[k] == NextHref(anchors, pid).value
                        && Contains(anchors[k], pid)
                        && forall k' :: 0 <= k' < k ==> !Contains(anchors[k'], pid)
    decreases |anchors|
  {
    if !Contains(anchors[0], pid) {
      NextHrefFirst(anchors[1..], pid);
      var k :| 0 <= k < |anchors[1..]| && anchors[1..][k] == NextHref(anchors, pid).value
               && Contains(anchors[1..][k], pid)
               && forall k' :: 0 <= k' < k ==> !Contains(anchors[1..][k'], pid);
      assert anchors[k + 1] == anchors[1..][k];
      forall k' | 0 <= k' < k + 1 ensures !Contains(anchors[k'], pid) {
        if k' > 0 { assert anchors[k'] == anchors[1..][k' - 1]; }
      }
    }
  }

  /** The next-page test is a substring test, so a link to page 20 also passes as the link to page 2. */
  lemma Page20PassesForPage2()
    ensures NextHref(["procurar.asp?action=proc_jog&pid=20"], PidParam(2)) == Some("procurar.asp?action=proc_jog&pid=20")
  {
    var h := "procurar.asp?action=proc_jog&pid=20";
    assert DecimalString(2) == "2";
    assert h[28..34] == "&pid=2";
    ContainsAt(h, PidParam(2), 28);
  }

  /** An href that starts with "http" is followed as it is; any other is taken relative to the site root. */
  function Resolve(href: string): string {
    if StartsWith(href, "http") then href else BaseUrl + "/" + href
  }

  /**
   * Either way the result is an absolute URL that ends with the href; it is the
   * href itself exactly when that was absolute, and resolving it again changes
   * nothing.
   */
  lemma ResolveSpec(href: string)
    ensures StartsWith(Resolve(href), "http")
    ensures |href| <= |Resolve(href)| && Resolve(href)[|Resolve(href)| - |href|..] == href
    ensures Resolve(href) == href <==> StartsWith(href, "http")
    ensures !StartsWith(href, "http") ==> StartsWith(Resolve(href), BaseUrl + "/")
    ensures Resolve(Resolve(href)) == Resolve(href)
  {
  }

  /** The URL of page `n` as linked from the page at `url`, if that page links to it. */
  function NextPage(fetch: Fetch, url: string, n: nat): Option<string> {
    match NextHref(fetch(url), PidParam(n))
    case None => None
    case Some(h) => Some(Resolve(h))
  }

  // ---------------------------------------------------------------- the walk over the pages

  /**
   * The URLs a crawl fetches, in order, when it is at page `page` on `url` with a
   * cap of `maxPages`, and `next(u, n)` is the URL of page `n` that page `u` links to.
   */
  function Walk(next: (string, nat) -> Option<string>, url: string, page: nat, maxPages: nat): (urls: seq<string>)
    ensures page <= maxPages ==> |urls| >= 1 && urls[0] == url
    ensures page > maxPages ==> urls == []
    decreases if page <= maxPages then maxPages + 1 - page else 0
  {
    if page > maxPages then []
    else
      match next(url, page + 1)
      case None => [url]
      case Some(u) => [url] + Walk(next, u, page + 1, maxPages)
  }

  /** The link-following step of the search crawl. */
  function Follow(fetch: Fetch): (string, nat) -> Option<string> {
    (u: string, n: nat) => NextPage(fetch, u, n)
  }

  /** The crawl of the search: each next page is the resolved `&pid=<n>` link of the current one. */
  function Visit(fetch: Fetch, url: string, page: nat, maxPages: nat): seq<string> {
    Walk(Follow(fetch), url, page, maxPages)
  }

  /** A walk never fetches more pages than the cap leaves. */
  lemma {:induction false} WalkBound(next: (string, nat) -> Option<string>, url: string, page: nat, maxPages: nat)
    requires page <= maxPages + 1
    ensures |Walk(next, url, page, maxPages)| <= maxPages + 1 - page
    decreases maxPages + 1 - page
  {
    if page <= maxPages {
      match next(url, page + 1)
      case None =>
      case Some(u) => WalkBound(next, u, page + 1, maxPages);
    }
  }

  /**
   * Page `page + k + 1` of a walk is the page that page `page + k` links to as
   * page `page + k + 1`: the counter moves by exactly one per followed link.
   */
  lemma {:induction false} WalkFollows(next: (string, nat) -> Option<string>, url: string, page: nat, maxPages: nat, k: nat)
    requires k + 1 < |Walk(next, url, page, maxPages)|
    ensures var w := Walk(next, url, page, maxPages);
            next(w[k], page + k + 1) == Some(w[k + 1])
    decreases k
  {
    var w := Walk(next, url, page, maxPages);
    match next(url, page + 1)
    case None =>
    case Some(u) =>
      if k > 0 {
        WalkFollows(next, u, page + 1, maxPages, k - 1);
        assert w[k] == Walk(next, u, page + 1, maxPages)[k - 1];
      }
  }

  /** A walk that ends below the cap ends on a page without a link to the following page. */
  lemma {:induction false} WalkStops(next: (string, nat) -> Option<string>, url: string, page: nat, maxPages: nat)
    requires page <= maxPages
    requires page + |Walk(next, url, page, maxPages)| <= maxPages
    ensures var w := Walk(next, url, page, maxPages);
            next(w[|w| - 1], page + |w|).None?
    decreases maxPages + 1 - page
  {
    match next(url, page + 1)
    case None =>
    case Some(u) =>
      var rest := Walk(next, u, page + 1, maxPages);
      assert Walk(next, url, page, maxPages) == [url] + rest;
      WalkStops(next, u, page + 1, maxPages);
  }

  /** A crawl that has fetched `fetched` and is now at page `page` on `url` is on the walk from `start`. */
  predicate OnWalk(next: (string, nat) -> Option<string>, start: string, maxPages: nat,
                   fetched: seq<string>, url: string, page: nat) {
    fetched + Walk(next, url, page, maxPages) == Walk(next, start, 1, maxPages)
  }

  lemma OnWalkNext(next: (string, nat) -> Option<string>, start: string, maxPages: nat,
                   fetched: seq<string>, url: string, page: nat)
    requires OnWalk(next, start, maxPages, fetched, url, page)
    requires page <= maxPages && next(url, page + 1).Some?
    ensures OnWalk(next, start, maxPages, fetched + [url], next(url, page + 1).value, page + 1)
  {
    var rest := Walk(next, next(url, page + 1).value, page + 1, maxPages);
    assert Walk(next, url, page, maxPages) == [url] + rest;
    assert (fetched + [url]) + rest == fetched + ([url] + rest);
  }

  lemma OnWalkLast(next: (string, nat) -> Option<string>, start: string, maxPages: nat,
                   fetched: seq<string>, url: string, page: nat)
    requires OnWalk(next, start, maxPages, fetched, url, page)
    requires page <= maxPages && next(url, page + 1).None?
    ensures fetched + [url] == Walk(next, start, 1, maxPages)
  {
  }

  /** The ids on all the pages `urls`. */
  function IdsOf(fetch: Fetch, urls: seq<string>): set<string> {
    if urls == [] then {} else IdsOf(fetch, urls[..|urls| - 1]) + ElemSet(PageIds(fetch(urls[|urls| - 1])))
  }

  /** The ids of page `u` as the crawl keeps them: through `list(set(...))` when `dedupEachPage`. */
  function KeptIds(fetch: Fetch, u: string, dedupEachPage: bool): seq<string> {
    if dedupEachPage then Dedup(PageIds(fetch(u))) else PageIds(fetch(u))
  }

  /** The accumulator of the crawl after the pages `urls`. */
  function Gathered(fetch: Fetch, urls: seq<string>, dedupEachPage: bool): seq<string> {
    if urls == [] then [] else Gathered(fetch, urls[..|urls| - 1], dedupEachPage) + KeptIds(fetch, urls[|urls| - 1], dedupEachPage)
  }

  lemma GatheredAppend(fetch: Fetch, urls: seq<string>, u: string, dedupEachPage: bool)
    ensures Gathered(fetch, urls + [u], dedupEachPage) == Gathered(fetch, urls, dedupEachPage) + KeptIds(fetch, u, dedupEachPage)
  {
    assert (urls + [u])[..|urls|] == urls;
  }

  /** Whether or not each page is deduplicated, the accumulator holds exactly the ids of the pages. */
  lemma {:induction false} GatheredIds(fetch: Fetch, urls: seq<string>, dedupEachPage: bool)
    ensures ElemSet(Gathered(fetch, urls, dedupEachPage)) == IdsOf(fetch, urls)
    decreases |urls|
  {
    if urls != [] {
      var init := urls[..|urls| - 1];
      GatheredIds(fetch, init, dedupEachPage);
      ElemSetAppend(Gathered(fetch, init, dedupEachPage), KeptIds(fetch, urls[|urls| - 1], dedupEachPage));
    }
  }

  /**
   * The crawl loop of the scrapers' search.  `dedupEachPage` says whether each
   * page's ids go through `list(set(...))` before they join the accumulator.  The
   * returned ids are the final `list(set(all_players))`; `fetched` are the pages
   * visited, in order.
   */
  method Crawl(fetch: Fetch, startUrl: string, maxPages: nat, dedupEachPage: bool)
    returns (ids: seq<string>, fetched: seq<string>)
    ensures fetched == Visit(fetch, startUrl, 1, maxPages)
    ensures |fetched| <= maxPages
    ensures NoDups(ids)
    ensures ElemSet(ids) == IdsOf(fetch, fetched)
  {
    ghost var next := Follow(fetch);
    var url := startUrl;
    var page: nat := 1;
    var all: seq<string> := [];
    var done := false;
    fetched := [];
    while page <= maxPages && !done
      invariant 1 <= page
      invariant !done ==> OnWalk(next, startUrl, maxPages, fetched, url, page)
      invariant done ==> fetched == Walk(next, startUrl, 1, maxPages)
      invariant all == Gathered(fetch, fetched, dedupEachPage)
      decreases maxPages + 1 - page, if done then 0 else 1
    {
      var anchors := fetch(url);
      var found := PageIds(anchors);
      var pageIds := if dedupEachPage then Dedup(found) else found;
      GatheredAppend(fetch, fetched, url, dedupEachPage);
      all := all + pageIds;
      var link := NextHref(anchors, PidParam(page + 1));
      assert next(url, page + 1) == if link.Some? then Some(Resolve(link.value)) else None;
      if link.Some? {
        OnWalkNext(next, startUrl, maxPages, fetched, url, page);
        fetched := fetched + [url];
        url := Resolve(link.value);
        page := page + 1;
      } else {
        OnWalkLast(next, startUrl, maxPages, fetched, url, page);
        fetched := fetched + [url];
        done := true;
      }
    }
    WalkBound(next, startUrl, 1, maxPages);
    GatheredIds(fetch, fetched, dedupEachPage);
    ids := Dedup(all);
  }
}
