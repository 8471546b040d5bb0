/** The stages of `ContactScraper.run` as functions from the scraper's state to
    its next state.  The methods of `Scraper.ContactScraper` carry out each stage
    on the object's fields and are proved to agree with these functions; the
    lemmas here state what the stages promise. */
module Pipeline {
  import opened Strings
  import opened Ordering
  import opened Phone
  import opened Env
  import opened Domain
  import opened Framework
  import opened Extraction

  /** The keywords that make `handle_hyperlinks` fetch a link. */
  const LinkKeywords: seq<string> := ["about", "contact"]

  /** `EDU_PATHS` */
  const EduPaths: seq<string> := [
    "/college", "/school", "/hss", "/contact", "/contact-us", "/contact/", "/reach-us", "/get-in-touch"
  ]

  /** The markers of `clean_emails`. */
  const Gibberish: seq<string> := ["example", "yoursite", ".png", ".svg", ".jpg", ".jpeg", ".gif"]

  /** The fields of a `ContactScraper` that change, and the requests and
      renderings made so far. */
  datatype St = St(
    content: string,
    isReact: bool,
    isVue: bool,
    hasSitemap: bool,
    emails: set<string>,
    phones: set<string>,
    aboutPages: seq<string>,
    seenLinks: seq<string>,
    calls: seq<Call>)

  /** What stays fixed for one scraper: the world, `self.url` and `self.root_domain`. */
  datatype Ctx = Ctx(w: World, url: string, root: string)

  /** A state, and whether a `RequestException` is on its way out. */
  datatype Step = Step(st: St, raised: bool)

  /** The state `__init__` leaves behind (`is_vue` is first set by `fetch_page`). */
  function Initial(): St
  {
    St("", false, false, false, {}, {}, [], [], [])
  }

  /** The fresh state keeps the invariant: nothing is recorded yet. */
  lemma InitialInv(c: Ctx)
    ensures Inv(c, Initial())
  {
    assert Initial().seenLinks == [] && Initial().aboutPages == [];
  }

  /** `__init__`: trailing slashes go, and the root domain is taken once. */
  function Start(w: World, url: string): (c: Ctx)
    ensures c.root == RootDomain(w.netloc(c.url)) && !EndsWith(c.url, "/")
  {
    var u := RStrip(url, '/');
    Ctx(w, u, RootDomain(w.netloc(u)))
  }

  /** `status_code // 100 in [4, 5]` */
  predicate IsErrorStatus(status: int)
  {
    status / 100 == 4 || status / 100 == 5
  }

  /** `status_code // 100 == 2` */
  predicate IsSuccessStatus(status: int)
  {
    status / 100 == 2
  }

  function Logged(st: St, call: Call): St
  {
    st.(calls := st.calls + [call])
  }

  /** The number of browser renderings in a log. */
  function Renders(calls: seq<Call>): nat
    decreases |calls|
  {
    if calls == [] then 0
    else Renders(calls[..|calls| - 1]) + (if calls[|calls| - 1].Render? then 1 else 0)
  }

  lemma {:induction false} RendersAppend(a: seq<Call>, b: seq<Call>)
    ensures Renders(a + b) == Renders(a) + Renders(b)
    decreases |b|
  {
    if b == [] {
      assert a + b == a;
    } else {
      var init := b[..|b| - 1];
      RendersAppend(a, init);
      assert (a + b)[..|a + b| - 1] == a + init;
    }
  }

  /** What an extraction or crawl step may do to the state: the emails and
      phones only grow, links and calls are only appended, and nothing else
      moves. */
  predicate Grows(a: St, b: St)
  {
    && b.content == a.content && b.isReact == a.isReact && b.isVue == a.isVue
    && b.hasSitemap == a.hasSitemap && b.aboutPages == a.aboutPages
    && a.emails <= b.emails && a.phones <= b.phones
    && a.seenLinks <= b.seenLinks && a.calls <= b.calls
  }

  lemma GrowsTransitive(a: St, b: St, c: St)
    requires Grows(a, b) && Grows(b, c)
    ensures Grows(a, c)
  {
  }

  /** The links recorded are distinct, start with `http` and are on the site. */
  predicate LinksInv(c: Ctx, st: St)
  {
    && NoDup(st.seenLinks)
    && forall k :: 0 <= k < |st.seenLinks| ==>
         StartsWith(st.seenLinks[k], "http") && SameRootDomain(c.w.netloc, c.root, st.seenLinks[k])
  }

  /** The about pages are distinct and on the site. */
  predicate AboutInv(c: Ctx, st: St)
  {
    && NoDup(st.aboutPages)
    && forall k :: 0 <= k < |st.aboutPages| ==> SameRootDomain(c.w.netloc, c.root, st.aboutPages[k])
  }

  /** What every stage keeps. */
  predicate Inv(c: Ctx, st: St)
  {
    LinksInv(c, st) && AboutInv(c, st) && !(st.isVue && st.isReact)
  }

  // ---------------------------------------------------------------- extraction

  /** `extract_from_text(text)`; the set `extract_from_contact_sections`
      returns is always empty, so only its own additions count. */
  function ExtractText(c: Ctx, text: string, st: St): (r: St)
    ensures Grows(st, r) && r.seenLinks == st.seenLinks && r.calls == st.calls
  {
    st.(emails := st.emails + TextEmails(c.w, text), phones := st.phones + TextPhones(c.w, text))
  }

  // ---------------------------------------------------------------- crawl

  /** One keyword of `handle_hyperlinks`: when it occurs in the lower-cased
      link, the link is fetched (no headers, five seconds) and a 200 answer is
      mined; a failed request raises. */
  function VisitKeyword(c: Ctx, href: string, k: string, st: St): (r: Step)
    ensures Grows(st, r.st) && r.st.seenLinks == st.seenLinks && Renders(r.st.calls) == Renders(st.calls)
  {
    if !Contains(Lower(href), k) then Step(st, false)
    else
      var req := Request(href, NoHeaders, 5);
        var s1 := Logged(st, HttpGet(req));
      LoggedGet(st, req);
      match c.w.fetch(req)
      case RequestFailed => Step(s1, true)
      case Got(res) => Step(if res.status == 200 then ExtractText(c, res.text, s1) else s1, false)
  }

  /** The keyword loop, over the first keywords of `ks`. */
  function VisitKeywords(c: Ctx, href: string, ks: seq<string>, st: St): (r: Step)
    ensures Grows(st, r.st) && r.st.seenLinks == st.seenLinks && Renders(r.st.calls) == Renders(st.calls)
    decreases |ks|
  {
    if ks == [] then Step(st, false)
    else
      var prev := VisitKeywords(c, href, ks[..|ks| - 1], st);
      if prev.raised then prev else VisitKeyword(c, href, ks[|ks| - 1], prev.st)
  }

  /** A link `handle_hyperlinks` records: an `href` starting with `http` and on the site. */
  predicate Recordable(c: Ctx, tag: Tag)
  {
    tag.href.Some? && StartsWith(tag.href.value, "http") && SameRootDomain(c.w.netloc, c.root, tag.href.value)
  }

  lemma HttpsIsHttp(href: string)
    ensures StartsWith(href, "https") ==> StartsWith(href, "http")
  {
    if StartsWith(href, "https") {
      assert href[..4] == href[..5][..4];
    }
  }

  /** One `<a>` of `handle_hyperlinks`: a new link starting with `http` on the
      same site is recorded and then visited once per keyword it contains. */
  function VisitAnchor(c: Ctx, tag: Tag, st: St): (r: Step)
    ensures Grows(st, r.st) && Renders(r.st.calls) == Renders(st.calls)
    ensures LinksInv(c, st) ==> LinksInv(c, r.st)
    ensures Recordable(c, tag) ==> tag.href.value in r.st.seenLinks
  {
    if tag.href.None? then Step(st, false)
    else
      var href := tag.href.value;
      if href in st.seenLinks || !(StartsWith(href, "https") || StartsWith(href, "http")) then
        Step(st, false)
      else if !SameRootDomain(c.w.netloc, c.root, href) then Step(st, false)
      else
        HttpsIsHttp(href);
        var s1 := st.(seenLinks := st.seenLinks + [href]);
        assert LinksInv(c, st) ==> LinksInv(c, s1);
        VisitKeywords(c, href, LinkKeywords, s1)
  }

  /** The loop of `handle_hyperlinks` over the first links of `links`. */
  function CrawlLinks(c: Ctx, links: seq<Tag>, st: St): (r: Step)
    ensures Grows(st, r.st) && Renders(r.st.calls) == Renders(st.calls)
    ensures LinksInv(c, st) ==> LinksInv(c, r.st)
    ensures !r.raised ==> forall k :: 0 <= k < |links| && Recordable(c, links[k]) ==> links[k].href.value in r.st.seenLinks
    decreases |links|
  {
    if links == [] then Step(st, false)
    else
      var init := links[..|links| - 1];
      var prev := CrawlLinks(c, init, st);
      if prev.raised then prev
      else
        var r := VisitAnchor(c, links[|links| - 1], prev.st);
        assert forall k :: 0 <= k < |init| ==> init[k] == links[k];
        assert forall x :: x in prev.st.seenLinks ==> x in r.st.seenLinks;
        r
  }

  /** `handle_hyperlinks(html)` */
  function HandleHyperlinks(c: Ctx, html: string, st: St): Step
  {
    CrawlLinks(c, Named(c.w.parse(html), "a"), st)
  }

  /** A link holding both keywords is fetched twice: the log gains the same
      request two times in a row. */
  lemma LinkWithBothKeywordsFetchedTwice(c: Ctx, href: string, st: St)
    requires Contains(Lower(href), "about") && Contains(Lower(href), "contact")
    requires c.w.fetch(Request(href, NoHeaders, 5)).Got?
    ensures var r := VisitKeywords(c, href, LinkKeywords, st);
      var req := HttpGet(Request(href, NoHeaders, 5));
      !r.raised && |r.st.calls| == |st.calls| + 2
      && r.st.calls[|st.calls|] == req && r.st.calls[|st.calls| + 1] == req
  {
    var one := LinkKeywords[..1];
    assert one == ["about"] && one[..0] == [] && one[0] == "about";
    assert VisitKeywords(c, href, one[..0], st) == Step(st, false);
    var first := VisitKeywords(c, href, one, st);
    assert first == VisitKeyword(c, href, "about", st);
    assert |first.st.calls| == |st.calls| + 1;
    assert LinkKeywords[1] == "contact";
  }

  // ---------------------------------------------------------------- sitemap

  /** The two addresses `_check_sitemap` tries, in order. */
  function SitemapUrls(url: string): seq<string>
  {
    [url + "/sitemap.xml", url + "/sitemap"]
  }

  /** The candidates on the same site, in the order they are iterated. */
  function SameSitePages(c: Ctx, found: seq<string>): (r: seq<string>)
    decreases |found|
  {
    if found == [] then []
    else
      var init := found[..|found| - 1];
      var last := found[|found| - 1];
      SameSitePages(c, init) + (if SameRootDomain(c.w.netloc, c.root, last) then [last] else [])
  }

  /** The pages kept are exactly the candidates on the site. */
  lemma {:induction false} SameSitePagesMembers(c: Ctx, found: seq<string>)
    ensures forall k :: 0 <= k < |SameSitePages(c, found)| ==>
      SameRootDomain(c.w.netloc, c.root, SameSitePages(c, found)[k]) && SameSitePages(c, found)[k] in found
    ensures forall x :: x in found && SameRootDomain(c.w.netloc, c.root, x) ==> x in SameSitePages(c, found)
    decreases |found|
  {
    if found != [] {
      var init := found[..|found| - 1];
      assert found == init + [found[|found| - 1]];
      SameSitePagesMembers(c, init);
    }
  }

  /** The same-site candidates of a sitemap text. */
  function SameSiteCandidates(c: Ctx, text: string): set<string>
  {
    set x | x in c.w.matches(AboutPage, text) && SameRootDomain(c.w.netloc, c.root, x)
  }

  /** A 2xx sitemap answer: the flag goes up, the same-site candidates that
      `ABOUT_PAGE` finds are appended, and the list is de-duplicated through a
      set. */
  function AcceptSitemap(c: Ctx, text: string, st: St): (r: St)
    ensures r.hasSitemap
    ensures r == st.(hasSitemap := true, aboutPages := r.aboutPages)
    ensures SetsEnumerate(c.w) ==> Elements(r.aboutPages) == Elements(st.aboutPages) + SameSiteCandidates(c, text)
    ensures SetsEnumerate(c.w) && AboutInv(c, st) ==> AboutInv(c, r)
  {
    var found := c.w.setOrder(Elements(c.w.matches(AboutPage, text)));
    var pages := st.aboutPages + SameSitePages(c, found);
    AcceptSitemapPages(c, text, st, found, pages);
    st.(hasSitemap := true, aboutPages := c.w.setOrder(Elements(pages)))
  }

  lemma AcceptSitemapPages(c: Ctx, text: string, st: St, found: seq<string>, pages: seq<string>)
    requires found == c.w.setOrder(Elements(c.w.matches(AboutPage, text)))
    requires pages == st.aboutPages + SameSitePages(c, found)
    ensures SetsEnumerate(c.w) ==>
      && IsEnumeration(c.w.setOrder(Elements(pages)), Elements(pages))
      && Elements(pages) == Elements(st.aboutPages) + SameSiteCandidates(c, text)
    ensures SetsEnumerate(c.w) && AboutInv(c, st) ==> AboutInv(c, st.(aboutPages := c.w.setOrder(Elements(pages))))
  {
    if SetsEnumerate(c.w) {
      var same := SameSitePages(c, found);
      SameSitePagesMembers(c, found);
      SameSiteElements(c, text, found);
      assert Elements(pages) == Elements(st.aboutPages) + Elements(same);
      var out := c.w.setOrder(Elements(pages));
      assert IsEnumeration(out, Elements(pages));
      if AboutInv(c, st) {
        AcceptedOnSite(c, st, same, out);
      }
    }
  }

  lemma SameSiteElements(c: Ctx, text: string, found: seq<string>)
    requires IsEnumeration(found, Elements(c.w.matches(AboutPage, text)))
    ensures Elements(SameSitePages(c, found)) == SameSiteCandidates(c, text)
  {
    var same := SameSitePages(c, found);
    SameSitePagesMembers(c, found);
    forall x ensures x in Elements(same) <==> x in SameSiteCandidates(c, text) {
      if x in SameSiteCandidates(c, text) {
        assert x in Elements(found);
      }
      if x in Elements(same) {
        var k :| 0 <= k < |same| && same[k] == x;
        assert x in found;
        assert x in Elements(found);
        assert x in Elements(c.w.matches(AboutPage, text));
      }
    }
  }

  lemma AcceptedOnSite(c: Ctx, st: St, same: seq<string>, out: seq<string>)
    requires AboutInv(c, st)
    requires forall k :: 0 <= k < |same| ==> SameRootDomain(c.w.netloc, c.root, same[k])
    requires IsEnumeration(out, Elements(st.aboutPages + same))
    ensures AboutInv(c, st.(aboutPages := out))
  {
    forall k | 0 <= k < |out| ensures SameRootDomain(c.w.netloc, c.root, out[k]) {
      assert out[k] in Elements(out);
      assert out[k] in st.aboutPages + same;
    }
  }

  /** What `_check_sitemap` leaves alone: everything but the flag, the about
      pages and the log, which only grows and gains no rendering. */
  predicate SitemapFrame(a: St, b: St)
  {
    && b.content == a.content && b.isVue == a.isVue && b.isReact == a.isReact
    && b.emails == a.emails && b.phones == a.phones && b.seenLinks == a.seenLinks
    && a.calls <= b.calls && Renders(b.calls) == Renders(a.calls)
  }

  lemma LoggedGet(st: St, req: Request)
    ensures Renders(Logged(st, HttpGet(req)).calls) == Renders(st.calls)
  {
    var calls := Logged(st, HttpGet(req)).calls;
    assert calls[..|calls| - 1] == st.calls;
  }

  /** A 2xx answer is taken as the sitemap; any other answer changes nothing. */
  function AcceptIfSuccess(c: Ctx, res: Response, st: St): (r: St)
    ensures r == st.(hasSitemap := r.hasSitemap, aboutPages := r.aboutPages)
    ensures SetsEnumerate(c.w) && AboutInv(c, st) ==> AboutInv(c, r)
  {
    if IsSuccessStatus(res.status) then AcceptSitemap(c, res.text, st) else st
  }

  /** The retry of a 4xx/5xx sitemap answer: `self.url` with `ALT_HEADERS`. */
  function SitemapRetry(c: Ctx, st: St): (r: Step)
    ensures SitemapFrame(st, r.st)
    ensures SetsEnumerate(c.w) && AboutInv(c, st) ==> AboutInv(c, r.st)
  {
    var alt := Request(c.url, AltHeaders, 5);
    var s1 := Logged(st, HttpGet(alt));
    LoggedGet(st, alt);
    match c.w.fetch(alt)
    case RequestFailed => Step(s1, true)
    case Got(res) => Step(AcceptIfSuccess(c, res, s1), false)
  }

  /** One sitemap address.  A 4xx/5xx answer is retried with `ALT_HEADERS` on
      `self.url`, not on the sitemap address.  A failed request raises. */
  function TrySitemap(c: Ctx, sitemap: string, st: St): (r: Step)
    ensures SitemapFrame(st, r.st)
    ensures SetsEnumerate(c.w) && AboutInv(c, st) ==> AboutInv(c, r.st)
  {
    var req := Request(sitemap, BrowserHeaders, 5);
    var s1 := Logged(st, HttpGet(req));
    LoggedGet(st, req);
    match c.w.fetch(req)
    case RequestFailed => Step(s1, true)
    case Got(res) =>
      if IsErrorStatus(res.status) then SitemapRetry(c, s1)
      else Step(AcceptIfSuccess(c, res, s1), false)
  }

  /** The loop over the first addresses of `urls`; a raise ends it. */
  function SitemapLoop(c: Ctx, urls: seq<string>, st: St): (r: Step)
    ensures SitemapFrame(st, r.st)
    ensures SetsEnumerate(c.w) && AboutInv(c, st) ==> AboutInv(c, r.st)
    decreases |urls|
  {
    if urls == [] then Step(st, false)
    else
      var prev := SitemapLoop(c, urls[..|urls| - 1], st);
      if prev.raised then prev else TrySitemap(c, urls[|urls| - 1], prev.st)
  }

  /** `_check_sitemap()`: the `RequestException` is swallowed. */
  function CheckSitemap(c: Ctx, st: St): (r: St)
    ensures SitemapFrame(st, r)
    ensures SetsEnumerate(c.w) && AboutInv(c, st) ==> AboutInv(c, r)
  {
    SitemapLoop(c, SitemapUrls(c.url), st).st
  }

  /** The first request of `_check_sitemap` is for `/sitemap.xml`; when that
      answer is a 4xx/5xx the next one is for the site's own page with the
      alternate headers; otherwise the next one is for `/sitemap`, even when
      `/sitemap.xml` was found. */
  lemma SitemapRequests(c: Ctx, st: St)
    requires c.w.fetch(Request(c.url + "/sitemap.xml", BrowserHeaders, 5)).Got?
    ensures var r := CheckSitemap(c, st);
      var res := c.w.fetch(Request(c.url + "/sitemap.xml", BrowserHeaders, 5)).response;
      var n := |st.calls|;
      && |r.calls| >= n + 2
      && r.calls[n] == HttpGet(Request(c.url + "/sitemap.xml", BrowserHeaders, 5))
      && r.calls[n + 1] == (if IsErrorStatus(res.status) then HttpGet(Request(c.url, AltHeaders, 5))
                            else HttpGet(Request(c.url + "/sitemap", BrowserHeaders, 5)))
  {
    var urls := SitemapUrls(c.url);
    var n := |st.calls|;
    assert urls[..1][..0] == [] && urls[..1][0] == c.url + "/sitemap.xml";
    assert SitemapLoop(c, urls[..1][..0], st) == Step(st, false);
    var first := SitemapLoop(c, urls[..1], st);
    assert first == TrySitemap(c, c.url + "/sitemap.xml", st);
    TrySitemapCalls(c, c.url + "/sitemap.xml", st);
    assert urls[..2 - 1] == urls[..1] && urls[1] == c.url + "/sitemap";
    var r := SitemapLoop(c, urls, st);
    assert r == if first.raised then first else TrySitemap(c, c.url + "/sitemap", first.st);
    if !first.raised {
      TrySitemapCalls(c, c.url + "/sitemap", first.st);
    }
    assert first.st.calls <= r.st.calls;
  }

  /** The calls one sitemap address makes: the address itself, then the alternate
      request on a 4xx/5xx answer. */
  lemma TrySitemapCalls(c: Ctx, sitemap: string, st: St)
    ensures var r := TrySitemap(c, sitemap, st);
      var req := Request(sitemap, BrowserHeaders, 5);
      var n := |st.calls|;
      && |r.st.calls| >= n + 1 && r.st.calls[n] == HttpGet(req)
      && (c.w.fetch(req).Got? && IsErrorStatus(c.w.fetch(req).response.status) ==>
            |r.st.calls| == n + 2 && r.st.calls[n + 1] == HttpGet(Request(c.url, AltHeaders, 5)))
      && (c.w.fetch(req).Got? && !IsErrorStatus(c.w.fetch(req).response.status) ==>
            !r.raised && |r.st.calls| == n + 1)
  {
  }

  // ---------------------------------------------------------------- fetch_page

  datatype Fetch = Fetch(ok: bool, st: St)

  /** What `fetch_page` records from the answer it keeps: the text, the Vue
      verdict, and the React verdict only when the page is not Vue. */
  function Classify(text: string, st: St): (r: St)
    ensures !(r.isVue && r.isReact)
  {
    var vue := IsVuePage(text);
    st.(content := text, isVue := vue, isReact := !vue && IsReactPage(text))
  }

  /** A kept answer: classified, then the sitemap is checked. */
  function Accept(c: Ctx, text: string, st: St): (r: St)
    ensures st.calls <= r.calls && Renders(r.calls) == Renders(st.calls)
    ensures r.emails == st.emails && r.phones == st.phones && r.seenLinks == st.seenLinks
    ensures !(r.isVue && r.isReact)
    ensures SetsEnumerate(c.w) && AboutInv(c, st) ==> AboutInv(c, r)
  {
    CheckSitemap(c, Classify(text, st))
  }

  /** The retry of a 4xx/5xx answer with `ALT_HEADERS`; its answer is kept
      whatever its status. */
  function FetchRetry(c: Ctx, st: St): (r: Fetch)
    ensures st.calls <= r.st.calls && Renders(r.st.calls) == Renders(st.calls)
    ensures r.st.emails == st.emails && r.st.phones == st.phones && r.st.seenLinks == st.seenLinks
    ensures !r.ok ==> r.st == st.(calls := r.st.calls)
    ensures r.ok ==> !(r.st.isVue && r.st.isReact)
    ensures SetsEnumerate(c.w) && AboutInv(c, st) ==> AboutInv(c, r.st)
  {
    var alt := Request(c.url, AltHeaders, 5);
    var s1 := Logged(st, HttpGet(alt));
    LoggedGet(st, alt);
    match c.w.fetch(alt)
    case RequestFailed => Fetch(false, s1)
    case Got(res) => Fetch(true, Accept(c, res.text, s1))
  }

  /** `fetch_page()`: the site with `HEADERS`, once more with `ALT_HEADERS` on a
      4xx/5xx answer, whatever status the kept answer has; then the sitemap.
      `ContactScraper.__init__` sets `captcha_detected` to False and
      `fetch_page` never sets it, so the captcha branch never stops the page. */
  function FetchPage(c: Ctx, st: St): (r: Fetch)
    ensures st.calls <= r.st.calls && Renders(r.st.calls) == Renders(st.calls)
    ensures r.st.emails == st.emails && r.st.phones == st.phones && r.st.seenLinks == st.seenLinks
    ensures !r.ok ==> r.st == st.(calls := r.st.calls)
    ensures r.ok ==> !(r.st.isVue && r.st.isReact)
    ensures SetsEnumerate(c.w) && AboutInv(c, st) ==> AboutInv(c, r.st)
  {
    var req := Request(c.url, BrowserHeaders, 5);
    var s1 := Logged(st, HttpGet(req));
    LoggedGet(st, req);
    match c.w.fetch(req)
    case RequestFailed => Fetch(false, s1)
    case Got(res) =>
      if IsErrorStatus(res.status) then FetchRetry(c, s1)
      else Fetch(true, Accept(c, res.text, s1))
  }

  /** After a successful `fetch_page` the page is Vue exactly when a Vue
      fingerprint occurs in it, and React exactly when it is not Vue and a React
      indicator occurs in it. */
  lemma FetchClassifies(c: Ctx, st: St)
    requires FetchPage(c, st).ok
    ensures var r := FetchPage(c, st).st;
      && r.isVue == IsVuePage(r.content)
      && r.isReact == (!IsVuePage(r.content) && IsReactPage(r.content))
  {
  }

  /** The page `fetch_page` keeps is the first answer unless that was a 4xx/5xx. */
  lemma FetchKeepsAnswer(c: Ctx, st: St)
    requires c.w.fetch(Request(c.url, BrowserHeaders, 5)).Got?
    ensures var first := c.w.fetch(Request(c.url, BrowserHeaders, 5)).response;
      var second := c.w.fetch(Request(c.url, AltHeaders, 5));
      var r := FetchPage(c, st);
      if !IsErrorStatus(first.status) then r.ok && r.st.content == first.text
      else r.ok == second.Got? && (r.ok ==> r.st.content == second.response.text)
  {
  }

  // ---------------------------------------------------------------- scrape_static

  /** The loop of `scrape_static` over the first about pages: each is fetched
      with `HEADERS`; a 200 answer is mined; a failed request is skipped. */
  function VisitAboutPages(c: Ctx, pages: seq<string>, st: St): (r: St)
    ensures Grows(st, r) && r.seenLinks == st.seenLinks && Renders(r.calls) == Renders(st.calls)
    decreases |pages|
  {
    if pages == [] then st
    else
      var prev := VisitAboutPages(c, pages[..|pages| - 1], st);
      var req := Request(pages[|pages| - 1], BrowserHeaders, 5);
      var s1 := Logged(prev, HttpGet(req));
      LoggedGet(prev, req);
      match c.w.fetch(req)
      case RequestFailed => s1
      case Got(res) => if res.status == 200 then ExtractText(c, res.text, s1) else s1
  }

  /** `scrape_static()`: nothing without content; otherwise the page is mined
      and crawled (a `RequestException` from the crawl escapes), then the about
      pages are visited when a sitemap was found. */
  function ScrapeStatic(c: Ctx, st: St): (r: Step)
    ensures Grows(st, r.st) && Renders(r.st.calls) == Renders(st.calls)
    ensures LinksInv(c, st) ==> LinksInv(c, r.st)
  {
    if st.content == "" then Step(st, false)
    else
      var h := HandleHyperlinks(c, st.content, ExtractText(c, st.content, st));
      if h.raised || !h.st.hasSitemap then h
      else Step(VisitAboutPages(c, h.st.aboutPages, h.st), false)
  }

  // ---------------------------------------------------------------- scrape_dynamic

  /** One browser pass of `scrape_dynamic`: render, mine the page source, crawl it,
      then take the `mailto:` addresses of the rendered links.  Any exception
      (a failed rendering, or a `RequestException` from the crawl) ends the
      pass and is swallowed, keeping what was gathered before it. */
  function DynamicPass(c: Ctx, url: string, st: St): (r: St)
    ensures Grows(st, r) && Renders(r.calls) == Renders(st.calls) + 1
    ensures LinksInv(c, st) ==> LinksInv(c, r)
  {
    var s1 := Logged(st, Render(url));
    assert s1.calls[..|s1.calls| - 1] == st.calls;
    match c.w.render(url)
    case RenderFailed => s1
    case Rendered(page) => MineRendered(c, page, s1)
  }

  /** The part of a browser pass after a successful rendering. */
  function MineRendered(c: Ctx, page: Page, st: St): (r: St)
    ensures Grows(st, r) && Renders(r.calls) == Renders(st.calls)
    ensures LinksInv(c, st) ==> LinksInv(c, r)
  {
    var h := HandleHyperlinks(c, page.source, ExtractText(c, page.source, st));
    if h.raised then h.st
    else h.st.(emails := h.st.emails + DriverEmails(c.w, page.anchorHrefs))
  }

  /** `scrape_dynamic(url, forced)`: a forced call makes one pass and then goes
      on into the ordinary branch, which makes another pass when the page was
      classified as Vue or React. */
  function ScrapeDynamic(c: Ctx, url: string, forced: bool, st: St): (r: St)
    ensures Grows(st, r)
    ensures Renders(r.calls) == Renders(st.calls) + (if forced then 1 else 0) + (if st.isVue || st.isReact then 1 else 0)
    ensures LinksInv(c, st) ==> LinksInv(c, r)
  {
    var s1 := if forced then DynamicPass(c, url, st) else st;
    if !(s1.isVue || s1.isReact) then s1 else DynamicPass(c, url, s1)
  }

  // ---------------------------------------------------------------- fetch_common_paths

  /** One path of `fetch_common_paths`: the site's address plus the path,
      without headers and with a three-second timeout; a 200 answer is mined
      and crawled, and any `RequestException` is swallowed. */
  function ProbePath(c: Ctx, path: string, st: St): (r: St)
    ensures Grows(st, r) && Renders(r.calls) == Renders(st.calls)
    ensures LinksInv(c, st) ==> LinksInv(c, r)
  {
    var req := Request(c.url + path, NoHeaders, 3);
    var s1 := Logged(st, HttpGet(req));
    LoggedGet(st, req);
    match c.w.fetch(req)
    case RequestFailed => s1
    case Got(res) =>
      if res.status != 200 then s1
      else HandleHyperlinks(c, res.text, ExtractText(c, res.text, s1)).st
  }

  /** The loop of `fetch_common_paths` over the first paths of `paths`. */
  function ProbePaths(c: Ctx, paths: seq<string>, st: St): (r: St)
    ensures Grows(st, r) && Renders(r.calls) == Renders(st.calls)
    ensures LinksInv(c, st) ==> LinksInv(c, r)
    decreases |paths|
  {
    if paths == [] then st
    else ProbePath(c, paths[|paths| - 1], ProbePaths(c, paths[..|paths| - 1], st))
  }

  // ---------------------------------------------------------------- clean_emails

  /** The emails left, and whether `set.remove` raised KeyError. */
  datatype Cleaned = Cleaned(emails: set<string>, failed: bool)

  /** The inner loop of `clean_emails` for one email, over the first markers of
      `marks`: the first marker found removes it; a second one finds it gone. */
  function RemoveMarked(email: string, marks: seq<string>, emails: set<string>): (r: Cleaned)
    ensures r.emails <= emails
    decreases |marks|
  {
    if marks == [] then Cleaned(emails, false)
    else
      var prev := RemoveMarked(email, marks[..|marks| - 1], emails);
      if prev.failed || !Contains(email, marks[|marks| - 1]) then prev
      else if email in prev.emails then Cleaned(prev.emails - {email}, false)
      else Cleaned(prev.emails, true)
  }

  /** The outer loop of `clean_emails`, over the first emails of `order`. */
  function CleanAll(order: seq<string>, emails: set<string>): (r: Cleaned)
    ensures r.emails <= emails
    decreases |order|
  {
    if order == [] then Cleaned(emails, false)
    else
      var prev := CleanAll(order[..|order| - 1], emails);
      if prev.failed then prev else RemoveMarked(order[|order| - 1], Gibberish, prev.emails)
  }

  /** One of `marks` occurs in `email`. */
  predicate Marked(email: string, marks: seq<string>)
  {
    exists k :: 0 <= k < |marks| && Contains(email, marks[k])
  }

  /** Two different entries of `marks` occur in `email`. */
  predicate TwiceMarked(email: string, marks: seq<string>)
  {
    exists i, j :: 0 <= i < j < |marks| && Contains(email, marks[i]) && Contains(email, marks[j])
  }

  /** The inner loop raises exactly when two markers occur in the email, and
      otherwise removes the email exactly when a marker occurs in it. */
  lemma {:induction false} RemoveMarkedSpec(email: string, marks: seq<string>, emails: set<string>)
    requires email in emails
    ensures var r := RemoveMarked(email, marks, emails);
      && (r.failed <==> TwiceMarked(email, marks))
      && (!r.failed ==> r.emails == if Marked(email, marks) then emails - {email} else emails)
    decreases |marks|
  {
    if marks != [] {
      RemoveMarkedSpec(email, marks[..|marks| - 1], emails);
      MarkedSnoc(email, marks);
      TwiceMarkedSnoc(email, marks);
    }
  }

  /** A marker list with one more entry at the end. */
  lemma MarkedSnoc(email: string, marks: seq<string>)
    requires marks != []
    ensures Marked(email, marks) <==> Marked(email, marks[..|marks| - 1]) || Contains(email, marks[|marks| - 1])
  {
    var init := marks[..|marks| - 1];
    if Marked(email, marks) && !Contains(email, marks[|marks| - 1]) {
      var k :| 0 <= k < |marks| && Contains(email, marks[k]);
      assert init[k] == marks[k];
    }
    if Marked(email, init) {
      var k :| 0 <= k < |init| && Contains(email, init[k]);
      assert init[k] == marks[k];
    }
  }

  lemma TwiceMarkedSnoc(email: string, marks: seq<string>)
    requires marks != []
    ensures var init := marks[..|marks| - 1];
      TwiceMarked(email, marks) <==> TwiceMarked(email, init) || (Marked(email, init) && Contains(email, marks[|marks| - 1]))
  {
    var init := marks[..|marks| - 1];
    var n := |marks| - 1;
    if TwiceMarked(email, marks) {
      var i, j :| 0 <= i < j < |marks| && Contains(email, marks[i]) && Contains(email, marks[j]);
      assert init[i] == marks[i];
      if j < n {
        assert init[j] == marks[j];
      }
    }
    if TwiceMarked(email, init) {
      var i, j :| 0 <= i < j < |init| && Contains(email, init[i]) && Contains(email, init[j]);
      assert init[i] == marks[i] && init[j] == marks[j];
    }
    if Marked(email, init) && Contains(email, marks[n]) {
      var i :| 0 <= i < |init| && Contains(email, init[i]);
      assert init[i] == marks[i];
    }
  }

  /** The emails of `order` that carry a marker. */
  function MarkedAmong(order: seq<string>): set<string>
  {
    set e | e in order && Marked(e, Gibberish)
  }

  /** Walking duplicate-free emails of the set: KeyError exactly when one of them
      carries two markers; otherwise exactly the marked ones are gone. */
  lemma {:induction false} CleanAllSpec(order: seq<string>, emails: set<string>)
    requires NoDup(order) && Elements(order) <= emails
    ensures var r := CleanAll(order, emails);
      && (r.failed <==> exists k :: 0 <= k < |order| && TwiceMarked(order[k], Gibberish))
      && (!r.failed ==> r.emails == emails - MarkedAmong(order))
    decreases |order|
  {
    if order != [] {
      var init := order[..|order| - 1];
      var last := order[|order| - 1];
      assert forall k :: 0 <= k < |init| ==> init[k] == order[k];
      assert Elements(init) <= emails;
      assert NoDup(init);
      CleanAllSpec(init, emails);
      var prev := CleanAll(init, emails);
      if !prev.failed {
        assert last !in init;
        assert last in emails;
        assert last !in MarkedAmong(init);
        RemoveMarkedSpec(last, Gibberish, prev.emails);
        assert order == init + [last];
        assert MarkedAmong(order) == MarkedAmong(init) + (if Marked(last, Gibberish) then {last} else {});
      } else {
        var k :| 0 <= k < |init| && TwiceMarked(init[k], Gibberish);
        assert TwiceMarked(order[k], Gibberish);
      }
    }
  }

  /** `clean_emails()`: walks a copy of the set in iteration order. */
  function CleanEmails(c: Ctx, st: St): (r: Cleaned)
    ensures r.emails <= st.emails
  {
    CleanAll(c.w.setOrder(st.emails), st.emails)
  }

  /** Whatever order the set is walked in, `clean_emails` raises KeyError exactly
      when some email carries two markers (`info@example.png` does), and
      otherwise keeps exactly the emails without a marker. */
  lemma CleanEmailsSpec(c: Ctx, st: St)
    requires SetsEnumerate(c.w)
    ensures var r := CleanEmails(c, st);
      && (r.failed <==> exists e :: e in st.emails && TwiceMarked(e, Gibberish))
      && (!r.failed ==> r.emails == set e | e in st.emails && !Marked(e, Gibberish))
  {
    var order := c.w.setOrder(st.emails);
    assert IsEnumeration(order, st.emails);
    CleanAllSpec(order, st.emails);
    if exists e :: e in st.emails && TwiceMarked(e, Gibberish) {
      var e :| e in st.emails && TwiceMarked(e, Gibberish);
      assert e in Elements(order);
      var k :| 0 <= k < |order| && order[k] == e;
    }
    assert MarkedAmong(order) == set e | e in st.emails && Marked(e, Gibberish);
  }

  /** An address like `info@example.png` carries two markers, so `clean_emails`
      raises KeyError on it. */
  lemma ImageAtExampleIsTwiceMarked(name: string)
    ensures TwiceMarked(name + "@example.png", Gibberish)
  {
    var e := name + "@example.png";
    var n := |name|;
    assert e[n + 1..n + 8] == "example";
    assert e[n + 8..n + 12] == ".png";
    ContainsAt(e, Gibberish[0], n + 1);
    ContainsAt(e, Gibberish[2], n + 8);
  }

  // ---------------------------------------------------------------- run

  /** A field of the result: `sorted(s)`, or "Not found" for an empty set. */
  datatype Field = Listed(items: seq<string>) | NotFound

  datatype Report = Report(website: string, emails: Field, numbers: Field)

  /** The exceptions that escape `run`. */
  datatype Failure = RequestError | KeyError

  datatype Outcome = Finished(report: Report) | Raised(error: Failure)

  datatype Run = Run(outcome: Outcome, st: St)

  /** `sorted(s) or "Not found"` */
  function AsField(w: World, s: set<string>): Field
  {
    var items := Sort(w.setOrder(s));
    if items == [] then NotFound else Listed(items)
  }

  /** The Vue/React pass that `run` makes after the static stage. */
  function DynamicStage(c: Ctx, st: St): St
  {
    if st.isReact || st.isVue then ScrapeDynamic(c, c.url, false, st) else st
  }

  /** The forced pass that `run` makes when a field is still empty. */
  function Fallback(c: Ctx, st: St): St
  {
    if |st.phones| == 0 || |st.emails| == 0 then ScrapeDynamic(c, c.url, true, st) else st
  }

  /** The state after the common paths, when fetch and static stage went through. */
  function Probed(c: Ctx, st: St): St
  {
    ProbePaths(c, EduPaths, DynamicStage(c, st))
  }

  /** `run()` from the state `st` has after `fetch_page`'s first request. */
  function RunFrom(c: Ctx, st: St): (r: Run)
    ensures r.outcome.Finished? ==> r.outcome.report.website == c.url
  {
    var f := FetchPage(c, st);
    if !f.ok then Run(Finished(Report(c.url, Listed([]), Listed([]))), f.st)
    else
      var s := ScrapeStatic(c, f.st);
      if s.raised then Run(Raised(RequestError), s.st)
      else Finish(c, s.st)
  }

  /** What `run()` does once the static stage went through: the browser passes,
      the common paths, `clean_emails` and the report. */
  function Finish(c: Ctx, st: St): (r: Run)
    ensures r.outcome.Finished? ==> r.outcome.report.website == c.url
  {
    var s4 := Fallback(c, Probed(c, st));
    var cl := CleanEmails(c, s4);
    var s5 := s4.(emails := cl.emails);
    if cl.failed then Run(Raised(KeyError), s5)
    else Run(Finished(Report(c.url, AsField(c.w, s5.emails), AsField(c.w, s5.phones))), s5)
  }

  /** The report's lists: sorted, each member once, and "Not found" exactly
      for an empty set; the order the set is walked in does not matter. */
  lemma AsFieldSpec(w: World, s: set<string>)
    requires SetsEnumerate(w)
    ensures AsField(w, s) == NotFound <==> s == {}
    ensures AsField(w, s).Listed? ==> Sorted(AsField(w, s).items) && IsEnumeration(AsField(w, s).items, s)
  {
    var order := w.setOrder(s);
    SortEnumeration(order, order, s);
    if s != {} {
      var x :| x in s;
      assert x in Elements(Sort(order));
      assert AsField(w, s) == Listed(Sort(order));
    } else {
      NoDupMultiset(order);
      assert |multiset(order)| == 0;
    }
  }

  /** Two iteration orders give the same report field. */
  lemma AsFieldOrderFree(w: World, v: World, s: set<string>)
    requires SetsEnumerate(w) && SetsEnumerate(v)
    ensures AsField(w, s) == AsField(v, s)
  {
    SortEnumeration(w.setOrder(s), v.setOrder(s), s);
  }

  /** The three ways `run` ends early or raises: a failed `fetch_page` gives the
      empty report, a `RequestException` from the static crawl escapes, and
      KeyError escapes from `clean_emails` exactly when a gathered email
      carries two markers. */
  lemma RunOutcomes(c: Ctx, st: St)
    requires SetsEnumerate(c.w)
    ensures var r := RunFrom(c, st);
      var f := FetchPage(c, st);
      var s := ScrapeStatic(c, f.st);
      var s4 := Fallback(c, Probed(c, s.st));
      && (!f.ok ==> r.outcome == Finished(Report(c.url, Listed([]), Listed([]))))
      && (r.outcome == Raised(RequestError) <==> f.ok && s.raised)
      && (r.outcome == Raised(KeyError) <==> f.ok && !s.raised && exists e :: e in s4.emails && TwiceMarked(e, Gibberish))
  {
    var f := FetchPage(c, st);
    var s := ScrapeStatic(c, f.st);
    if f.ok && !s.raised {
      CleanEmailsSpec(c, Fallback(c, Probed(c, s.st)));
    }
  }

  /** A finished `run` that got past `fetch_page` reports the cleaned emails and
      the phones it gathered: sorted, each once, "Not found" for an empty set,
      and no email left carries a marker. */
  lemma RunReport(c: Ctx, st: St)
    requires SetsEnumerate(c.w) && FetchPage(c, st).ok
    ensures var r := RunFrom(c, st);
      var s := ScrapeStatic(c, FetchPage(c, st).st);
      var s4 := Fallback(c, Probed(c, s.st));
      r.outcome.Finished? ==>
        && r.st.emails == (set e | e in s4.emails && !Marked(e, Gibberish))
        && r.st.phones == s4.phones
        && r.outcome.report.emails == AsField(c.w, r.st.emails)
        && r.outcome.report.numbers == AsField(c.w, r.st.phones)
        && (r.outcome.report.emails == NotFound <==> r.st.emails == {})
        && (r.outcome.report.numbers == NotFound <==> r.st.phones == {})
  {
    var r := RunFrom(c, st);
    var s := ScrapeStatic(c, FetchPage(c, st).st);
    if r.outcome.Finished? {
      CleanEmailsSpec(c, Fallback(c, Probed(c, s.st)));
      AsFieldSpec(c.w, r.st.emails);
      AsFieldSpec(c.w, r.st.phones);
    }
  }

  /** The browser is started once for a Vue or React page, and once more (twice
      for a Vue or React page) when phones or emails are still missing after the
      common paths. */
  lemma RunRenders(c: Ctx, st: St)
    requires FetchPage(c, st).ok && !ScrapeStatic(c, FetchPage(c, st).st).raised
    ensures var f := FetchPage(c, st).st;
      var framework := f.isVue || f.isReact;
      var p := Probed(c, ScrapeStatic(c, f).st);
      var missing := |p.phones| == 0 || |p.emails| == 0;
      Renders(RunFrom(c, st).st.calls)
        == Renders(st.calls) + (if framework then 1 else 0) + (if missing then 1 + (if framework then 1 else 0) else 0)
  {
    var f := FetchPage(c, st).st;
    var s := ScrapeStatic(c, f).st;
    var d := DynamicStage(c, s);
    var p := ProbePaths(c, EduPaths, d);
    assert Grows(d, p);
    assert RunFrom(c, st) == Finish(c, s);
    assert Finish(c, s).st.calls == Fallback(c, p).calls;
  }

  /** `run` keeps the invariant: recorded links distinct and on the site, about
      pages distinct and on the site, never both Vue and React. */
  lemma RunKeepsInv(c: Ctx, st: St)
    requires SetsEnumerate(c.w) && Inv(c, st)
    ensures Inv(c, RunFrom(c, st).st)
  {
    var f := FetchPage(c, st);
    if f.ok {
      var s := ScrapeStatic(c, f.st);
      if !s.raised {
        var s4 := Fallback(c, Probed(c, s.st));
        LaterStagesKeepInv(c, s.st);
        var cl := CleanEmails(c, s4);
        assert RunFrom(c, st) == Finish(c, s.st);
        assert Finish(c, s.st).st == s4.(emails := cl.emails);
      }
    }
  }

  /** The stages after the static one only let the state grow and keep the
      recorded links in order. */
  lemma LaterStagesKeepInv(c: Ctx, st: St)
    requires Inv(c, st)
    ensures Inv(c, Fallback(c, Probed(c, st)))
  {
    var d := DynamicStage(c, st);
    var p := ProbePaths(c, EduPaths, d);
    var s4 := Fallback(c, p);
    GrowsTransitive(st, d, p);
    GrowsTransitive(st, p, s4);
  }

  // ---------------------------------------------------------------- early exits

  /** Once the crawl has raised, the links after that point are not looked at. */
  lemma {:induction false} CrawlRaisedStays(c: Ctx, links: seq<Tag>, n: nat, st: St)
    requires n <= |links| && CrawlLinks(c, links[..n], st).raised
    ensures CrawlLinks(c, links, st) == CrawlLinks(c, links[..n], st)
    decreases |links| - n
  {
    if n < |links| {
      var init := links[..|links| - 1];
      assert init[..n] == links[..n];
      CrawlRaisedStays(c, init, n, st);
    } else {
      assert links[..n] == links;
    }
  }

  /** Once a keyword's request has raised, the later keywords are not tried. */
  lemma {:induction false} KeywordsRaisedStays(c: Ctx, href: string, ks: seq<string>, n: nat, st: St)
    requires n <= |ks| && VisitKeywords(c, href, ks[..n], st).raised
    ensures VisitKeywords(c, href, ks, st) == VisitKeywords(c, href, ks[..n], st)
    decreases |ks| - n
  {
    if n < |ks| {
      var init := ks[..|ks| - 1];
      assert init[..n] == ks[..n];
      KeywordsRaisedStays(c, href, init, n, st);
    } else {
      assert ks[..n] == ks;
    }
  }

  /** Once a sitemap request has raised, the later addresses are not tried. */
  lemma {:induction false} SitemapRaisedStays(c: Ctx, urls: seq<string>, n: nat, st: St)
    requires n <= |urls| && SitemapLoop(c, urls[..n], st).raised
    ensures SitemapLoop(c, urls, st) == SitemapLoop(c, urls[..n], st)
    decreases |urls| - n
  {
    if n < |urls| {
      var init := urls[..|urls| - 1];
      assert init[..n] == urls[..n];
      SitemapRaisedStays(c, init, n, st);
    } else {
      assert urls[..n] == urls;
    }
  }

  /** Once KeyError is raised for an email, its later markers are not looked at. */
  lemma {:induction false} RemoveMarkedStays(email: string, marks: seq<string>, n: nat, emails: set<string>)
    requires n <= |marks| && RemoveMarked(email, marks[..n], emails).failed
    ensures RemoveMarked(email, marks, emails) == RemoveMarked(email, marks[..n], emails)
    decreases |marks| - n
  {
    if n < |marks| {
      var init := marks[..|marks| - 1];
      assert init[..n] == marks[..n];
      RemoveMarkedStays(email, init, n, emails);
    } else {
      assert marks[..n] == marks;
    }
  }

  /** Once KeyError is raised, the later emails are not looked at. */
  lemma {:induction false} CleanAllStays(order: seq<string>, n: nat, emails: set<string>)
    requires n <= |order| && CleanAll(order[..n], emails).failed
    ensures CleanAll(order, emails) == CleanAll(order[..n], emails)
    decreases |order| - n
  {
    if n < |order| {
      var init := order[..|order| - 1];
      assert init[..n] == order[..n];
      CleanAllStays(init, n, emails);
    } else {
      assert order[..n] == order;
    }
  }
}
