/** `ContactScraper` as an object: each method updates the fields the way the
    source does, loop by loop, and is proved to leave exactly the state that the
    matching function of `Pipeline` computes.  The requests and renderings made
    so far are kept in `calls`. */
module Scraper {
  import opened Strings
  import opened Ordering
  import opened Phone
  import opened Env
  import opened Domain
  import opened Framework
  import opened Extraction
  import opened Pipeline

  lemma UnionRegroup<T>(a: set<T>, b: set<T>, c: set<T>)
    ensures (a + b) + c == a + (b + c)
  {
  }

  /** Splitting the last element off a prefix. */
  lemma PrefixStep<T>(s: seq<T>, i: nat)
    requires i < |s|
    ensures s[..i + 1][..i] == s[..i] && s[..i + 1][i] == s[i]
  {
  }

  lemma NormalizedAppend(ms: seq<string>, j: nat)
    requires j < |ms|
    ensures NormalizedPhones(ms[..j + 1]) == NormalizedPhones(ms[..j]) + NormalizedPhones([ms[j]])
  {
    assert ms[..j + 1][..j] == ms[..j];
    assert [ms[j]][..0] == [];
  }

  lemma ElementsStep<T>(ms: seq<T>, j: nat)
    requires j < |ms|
    ensures Elements(ms[..j + 1]) == Elements(ms[..j]) + {ms[j]}
  {
    assert ms[..j + 1] == ms[..j] + [ms[j]];
  }

  lemma PhonesStep(w: World, ps: seq<Pattern>, k: nat, text: string)
    requires k < |ps|
    ensures PhonesByPatterns(w, ps[..k + 1], text) == PhonesByPatterns(w, ps[..k], text) + NormalizedPhones(w.matches(ps[k], text))
  {
    assert ps[..k + 1][..k] == ps[..k];
  }

  lemma EmailsStep(w: World, ps: seq<Pattern>, k: nat, text: string)
    requires k < |ps|
    ensures EmailsByPatterns(w, ps[..k + 1], text) == EmailsByPatterns(w, ps[..k], text) + Elements(w.matches(ps[k], text))
  {
    assert ps[..k + 1][..k] == ps[..k];
  }

  /** The zone sets of one more zone text. */
  lemma ZoneStep(w: World, texts: seq<string>, t: string)
    ensures ZonePhones(w, texts + [t]) == ZonePhones(w, texts) + PhonesByPatterns(w, PhonePatterns, t)
    ensures ZoneEmails(w, texts + [t]) == ZoneEmails(w, texts) + EmailsByPatterns(w, ZoneEmailPatterns, t)
  {
    assert (texts + [t])[..|texts|] == texts;
  }

  /** The zone sets after one more tag of the keyword loop. */
  lemma GatedStep(w: World, tags: seq<Tag>, i: nat)
    requires i < |tags|
    ensures var before := GatedTexts(tags[..i]);
      var after := GatedTexts(tags[..i + 1]);
      var t := tags[i].text;
      && ZonePhones(w, after) == ZonePhones(w, before) + (if MentionsContact(t) then PhonesByPatterns(w, PhonePatterns, t) else {})
      && ZoneEmails(w, after) == ZoneEmails(w, before) + (if MentionsContact(t) then EmailsByPatterns(w, ZoneEmailPatterns, t) else {})
  {
    assert tags[..i + 1][..i] == tags[..i];
    if MentionsContact(tags[i].text) {
      ZoneStep(w, GatedTexts(tags[..i]), tags[i].text);
    } else {
      assert GatedTexts(tags[..i + 1]) == GatedTexts(tags[..i]);
    }
  }

  lemma LoweredStep(ms: seq<string>, i: nat)
    requires i < |ms|
    ensures Lowered(ms[..i + 1]) == Lowered(ms[..i]) + {Lower(ms[i])}
  {
    assert ms[..i + 1][..i] == ms[..i];
  }

  /** The link sets after one more link. */
  lemma LinkStep(w: World, links: seq<Tag>, i: nat)
    requires i < |links|
    ensures LinkEmails(w, links[..i + 1]) == LinkEmails(w, links[..i]) + LinkEmail(w, links[i])
    ensures LinkPhones(w, links[..i + 1]) == LinkPhones(w, links[..i]) + LinkPhone(w, links[i])
  {
    assert links[..i + 1][..i] == links[..i];
  }

  /** The zone sets of a document: the gated tags, then the first footer. */
  lemma ZoneTextsSplit(w: World, html: string)
    ensures var tags := w.parse(html);
      var gated := GatedTexts(NamedAny(tags, ContactTagNames));
      var footer := First(tags, "footer");
      && ZonePhones(w, ZoneTexts(w, html)) == ZonePhones(w, gated) + (if footer.Some? then PhonesByPatterns(w, PhonePatterns, footer.value.text) else {})
      && ZoneEmails(w, ZoneTexts(w, html)) == ZoneEmails(w, gated) + (if footer.Some? then EmailsByPatterns(w, ZoneEmailPatterns, footer.value.text) else {})
  {
    var tags := w.parse(html);
    var gated := GatedTexts(NamedAny(tags, ContactTagNames));
    var footer := First(tags, "footer");
    if footer.Some? {
      ZoneStep(w, gated, footer.value.text);
    } else {
      assert ZoneTexts(w, html) == gated;
    }
  }

  lemma SameSiteStep(c: Ctx, found: seq<string>, k: nat)
    requires k < |found|
    ensures SameSitePages(c, found[..k + 1]) == SameSitePages(c, found[..k])
      + (if SameRootDomain(c.w.netloc, c.root, found[k]) then [found[k]] else [])
  {
    assert found[..k + 1][..k] == found[..k];
  }

  lemma CrawlStep(c: Ctx, links: seq<Tag>, i: nat, st: St)
    requires i < |links| && !CrawlLinks(c, links[..i], st).raised
    ensures CrawlLinks(c, links[..i + 1], st) == Pipeline.VisitAnchor(c, links[i], CrawlLinks(c, links[..i], st).st)
  {
    assert links[..i + 1][..i] == links[..i];
  }

  lemma KeywordStep(c: Ctx, href: string, ks: seq<string>, j: nat, st: St)
    requires j < |ks| && !VisitKeywords(c, href, ks[..j], st).raised
    ensures VisitKeywords(c, href, ks[..j + 1], st) == Pipeline.VisitKeyword(c, href, ks[j], VisitKeywords(c, href, ks[..j], st).st)
  {
    assert ks[..j + 1][..j] == ks[..j];
  }

  lemma DriverStep(w: World, hrefs: seq<string>, i: nat)
    requires i < |hrefs|
    ensures DriverEmails(w, hrefs[..i + 1]) == DriverEmails(w, hrefs[..i])
      + (if MailtoEmail(w, hrefs[i]).Some? then {MailtoEmail(w, hrefs[i]).value} else {})
  {
    assert hrefs[..i + 1][..i] == hrefs[..i];
  }

  class ContactScraper {
    const url: string
    const rootDomain: string
    /** The outside world this scraper talks to. */
    const env: World

    var content: string
    var isReact: bool
    var isVue: bool
    var hasSitemap: bool
    var emails: set<string>
    var phones: set<string>
    var aboutPages: seq<string>
    var seenLinks: seq<string>
    var calls: seq<Call>

    /** The fields, as the state the pipeline functions work on. */
    function Snap(): St
      reads this
    {
      St(content, isReact, isVue, hasSitemap, emails, phones, aboutPages, seenLinks, calls)
    }

    function Here(): Ctx
    {
      Ctx(env, url, rootDomain)
    }

    /** The object invariant: the root domain is that of `url`, and the recorded
        links and about pages are distinct, on the site, and never both Vue and
        React. */
    predicate Valid()
      reads this
    {
      rootDomain == RootDomain(env.netloc(url)) && Inv(Here(), Snap())
    }

    /** `__init__`; the headless flag only configures Firefox. */
    constructor(url: string, w: World)
      ensures Here() == Start(w, url)
      ensures Snap() == Initial()
      ensures Valid()
    {
      var stripped := RStrip(url, '/');
      var root := RootDomain(w.netloc(stripped));
      assert Start(w, url) == Ctx(w, stripped, root);
      this.url := stripped;
      this.env := w;
      this.rootDomain := root;
      content := "";
      isReact := false;
      isVue := false;
      hasSitemap := false;
      emails := {};
      phones := {};
      aboutPages := [];
      seenLinks := [];
      calls := [];
      new;
      InitialInv(Ctx(w, stripped, root));
      assert Snap() == Initial();
    }

    /** `requests.get(req)`, logged. */
    method Get(req: Request) returns (f: Fetched)
      modifies this
      ensures f == env.fetch(req) && Snap() == Logged(old(Snap()), HttpGet(req))
    {
      calls := calls + [HttpGet(req)];
      f := env.fetch(req);
    }

    /** Starting Firefox and loading `url`, logged. */
    method Load(url: string) returns (r: Rendered)
      modifies this
      ensures r == env.render(url) && Snap() == Logged(old(Snap()), Render(url))
    {
      calls := calls + [Render(url)];
      r := env.render(url);
    }

    // ------------------------------------------------------------ extraction

    /** The body of a `finditer` loop over phone matches: a match that
        normalises is added. */
    method AddIfCanonical(m: string)
      modifies this
      ensures Snap() == old(Snap()).(phones := old(phones) + NormalizedPhones([m]))
    {
      var norm := NormalizePhone(m);
      assert NormalizedPhones([m]) == if norm.Canonical? then {norm.phone} else {} by {
        assert [m][..0] == [];
      }
      if norm.Canonical? {
        phones := phones + {norm.phone};
      }
    }

    /** One `finditer` loop over phone matches: each match that normalises is added. */
    method AddNormalized(ms: seq<string>)
      modifies this
      ensures Snap() == old(Snap()).(phones := old(phones) + NormalizedPhones(ms))
    {
      var j := 0;
      while j < |ms|
        invariant 0 <= j <= |ms|
        invariant content == old(content) && isReact == old(isReact) && isVue == old(isVue)
        invariant hasSitemap == old(hasSitemap) && aboutPages == old(aboutPages)
        invariant seenLinks == old(seenLinks) && calls == old(calls) && emails == old(emails)
        invariant phones == old(phones) + NormalizedPhones(ms[..j])
      {
        UnionRegroup(old(phones), NormalizedPhones(ms[..j]), NormalizedPhones([ms[j]]));
        AddIfCanonical(ms[j]);
        NormalizedAppend(ms, j);
        j := j + 1;
      }
      assert ms[..|ms|] == ms;
    }

    /** One `finditer` loop over email matches: each match is added as it is. */
    method AddMatches(ms: seq<string>)
      modifies this
      ensures Snap() == old(Snap()).(emails := old(emails) + Elements(ms))
    {
      var j := 0;
      while j < |ms|
        invariant 0 <= j <= |ms|
        invariant content == old(content) && isReact == old(isReact) && isVue == old(isVue)
        invariant hasSitemap == old(hasSitemap) && aboutPages == old(aboutPages)
        invariant seenLinks == old(seenLinks) && calls == old(calls) && phones == old(phones)
        invariant emails == old(emails) + Elements(ms[..j])
      {
        UnionRegroup(old(emails), Elements(ms[..j]), {ms[j]});
        emails := emails + {ms[j]};
        ElementsStep(ms, j);
        j := j + 1;
      }
      assert ms[..|ms|] == ms;
    }

    /** The pattern loops of one contact zone: the four phone expressions, then
        the two email expressions. */
    method MineZone(text: string)
      modifies this
      ensures Snap() == old(Snap()).(
        emails := old(emails) + EmailsByPatterns(env, ZoneEmailPatterns, text),
        phones := old(phones) + PhonesByPatterns(env, PhonePatterns, text))
    {
      var k := 0;
      while k < |PhonePatterns|
        invariant 0 <= k <= |PhonePatterns|
        invariant content == old(content) && isReact == old(isReact) && isVue == old(isVue)
        invariant hasSitemap == old(hasSitemap) && aboutPages == old(aboutPages)
        invariant seenLinks == old(seenLinks) && calls == old(calls) && emails == old(emails)
        invariant phones == old(phones) + PhonesByPatterns(env, PhonePatterns[..k], text)
      {
        UnionRegroup(old(phones), PhonesByPatterns(env, PhonePatterns[..k], text), NormalizedPhones(env.matches(PhonePatterns[k], text)));
        AddNormalized(env.matches(PhonePatterns[k], text));
        PhonesStep(env, PhonePatterns, k, text);
        k := k + 1;
      }
      assert PhonePatterns[..|PhonePatterns|] == PhonePatterns;
      ghost var afterPhones := Snap();
      k := 0;
      while k < |ZoneEmailPatterns|
        invariant 0 <= k <= |ZoneEmailPatterns|
        invariant content == old(content) && isReact == old(isReact) && isVue == old(isVue)
        invariant hasSitemap == old(hasSitemap) && aboutPages == old(aboutPages)
        invariant seenLinks == old(seenLinks) && calls == old(calls) && phones == afterPhones.phones
        invariant emails == old(emails) + EmailsByPatterns(env, ZoneEmailPatterns[..k], text)
      {
        UnionRegroup(old(emails), EmailsByPatterns(env, ZoneEmailPatterns[..k], text), Elements(env.matches(ZoneEmailPatterns[k], text)));
        AddMatches(env.matches(ZoneEmailPatterns[k], text));
        EmailsStep(env, ZoneEmailPatterns, k, text);
        k := k + 1;
      }
      assert ZoneEmailPatterns[..|ZoneEmailPatterns|] == ZoneEmailPatterns;
    }

    /** `extract_from_contact_sections(html)`: the tags that pass the keyword
        gate, then the first footer.  The set it returns is always empty. */
    method ExtractFromContactSections(html: string) returns (found: set<string>)
      modifies this
      ensures found == {}
      ensures Snap() == old(Snap()).(
        emails := old(emails) + ZoneEmails(env, ZoneTexts(env, html)),
        phones := old(phones) + ZonePhones(env, ZoneTexts(env, html)))
    {
      var tags := env.parse(html);
      ghost var gated := GatedTexts(NamedAny(tags, ContactTagNames));
      ghost var footer := First(tags, "footer");
      ghost var footerEmails := if footer.Some? then EmailsByPatterns(env, ZoneEmailPatterns, footer.value.text) else {};
      ghost var footerPhones := if footer.Some? then PhonesByPatterns(env, PhonePatterns, footer.value.text) else {};
      ghost var e0, p0 := emails, phones;
      ghost var ge, gp := ZoneEmails(env, gated), ZonePhones(env, gated);
      MineTags(NamedAny(tags, ContactTagNames));
      assert emails == e0 + ge && phones == p0 + gp;
      MineFooter(First(tags, "footer"));
      assert emails == (e0 + ge) + footerEmails && phones == (p0 + gp) + footerPhones;
      ZoneTextsSplit(env, html);
      assert ZoneEmails(env, ZoneTexts(env, html)) == ge + footerEmails;
      assert ZonePhones(env, ZoneTexts(env, html)) == gp + footerPhones;
      UnionRegroup(e0, ge, footerEmails);
      UnionRegroup(p0, gp, footerPhones);
      found := {};
    }

    /** The body of the keyword loop: a tag whose lower-cased text holds a
        contact keyword is mined. */
    method MineTag(tag: Tag)
      modifies this
      ensures Snap() == old(Snap()).(
        emails := old(emails) + (if MentionsContact(tag.text) then EmailsByPatterns(env, ZoneEmailPatterns, tag.text) else {}),
        phones := old(phones) + (if MentionsContact(tag.text) then PhonesByPatterns(env, PhonePatterns, tag.text) else {}))
    {
      if MentionsContact(tag.text) {
        MineZone(tag.text);
      }
    }

    /** The footer step of `extract_from_contact_sections`. */
    method MineFooter(footer: Option<Tag>)
      modifies this
      ensures Snap() == old(Snap()).(
        emails := old(emails) + (if footer.Some? then EmailsByPatterns(env, ZoneEmailPatterns, footer.value.text) else {}),
        phones := old(phones) + (if footer.Some? then PhonesByPatterns(env, PhonePatterns, footer.value.text) else {}))
    {
      if footer.Some? {
        MineZone(footer.value.text);
      }
    }

    /** The keyword loop of `extract_from_contact_sections`. */
    method MineTags(zone: seq<Tag>)
      modifies this
      ensures Snap() == old(Snap()).(
        emails := old(emails) + ZoneEmails(env, GatedTexts(zone)),
        phones := old(phones) + ZonePhones(env, GatedTexts(zone)))
    {
      var i := 0;
      while i < |zone|
        invariant 0 <= i <= |zone|
        invariant content == old(content) && isReact == old(isReact) && isVue == old(isVue)
        invariant hasSitemap == old(hasSitemap) && aboutPages == old(aboutPages)
        invariant seenLinks == old(seenLinks) && calls == old(calls)
        invariant emails == old(emails) + ZoneEmails(env, GatedTexts(zone[..i]))
        invariant phones == old(phones) + ZonePhones(env, GatedTexts(zone[..i]))
      {
        ghost var t := zone[i].text;
        UnionRegroup(old(emails), ZoneEmails(env, GatedTexts(zone[..i])),
          if MentionsContact(t) then EmailsByPatterns(env, ZoneEmailPatterns, t) else {});
        UnionRegroup(old(phones), ZonePhones(env, GatedTexts(zone[..i])),
          if MentionsContact(t) then PhonesByPatterns(env, PhonePatterns, t) else {});
        MineTag(zone[i]);
        GatedStep(env, zone, i);
        i := i + 1;
      }
      assert zone[..|zone|] == zone;
    }

    /** `extract_from_text(text)`: the `EMAIL` matches lower-cased, the
        `mailto:` and `tel:` links, then the contact zones. */
    method ExtractFromText(text: string)
      modifies this
      ensures Snap() == ExtractText(Here(), text, old(Snap()))
    {
      ghost var e0, p0 := emails, phones;
      ghost var links := Named(env.parse(text), "a");
      ghost var zones := ZoneTexts(env, text);
      AddLowered(env.matches(Email, text));
      AddLinks(Named(env.parse(text), "a"));
      var found := ExtractFromContactSections(text);
      phones := phones + found;
      ghost var lowered := Lowered(env.matches(Email, text));
      UnionRegroup(e0, lowered, LinkEmails(env, links));
      UnionRegroup(e0, lowered + LinkEmails(env, links), ZoneEmails(env, zones));
      UnionRegroup(p0, LinkPhones(env, links), ZonePhones(env, zones));
    }

    /** The `EMAIL.findall` loop of `extract_from_text`. */
    method AddLowered(ms: seq<string>)
      modifies this
      ensures Snap() == old(Snap()).(emails := old(emails) + Lowered(ms))
    {
      var i := 0;
      while i < |ms|
        invariant 0 <= i <= |ms|
        invariant content == old(content) && isReact == old(isReact) && isVue == old(isVue)
        invariant hasSitemap == old(hasSitemap) && aboutPages == old(aboutPages)
        invariant seenLinks == old(seenLinks) && calls == old(calls) && phones == old(phones)
        invariant emails == old(emails) + Lowered(ms[..i])
      {
        UnionRegroup(old(emails), Lowered(ms[..i]), {Lower(ms[i])});
        emails := emails + {Lower(ms[i])};
        LoweredStep(ms, i);
        i := i + 1;
      }
      assert ms[..|ms|] == ms;
    }

    /** The link loop of `extract_from_text`. */
    method AddLinks(links: seq<Tag>)
      modifies this
      ensures Snap() == old(Snap()).(
        emails := old(emails) + LinkEmails(env, links),
        phones := old(phones) + LinkPhones(env, links))
    {
      var i := 0;
      while i < |links|
        invariant 0 <= i <= |links|
        invariant content == old(content) && isReact == old(isReact) && isVue == old(isVue)
        invariant hasSitemap == old(hasSitemap) && aboutPages == old(aboutPages)
        invariant seenLinks == old(seenLinks) && calls == old(calls)
        invariant emails == old(emails) + LinkEmails(env, links[..i])
        invariant phones == old(phones) + LinkPhones(env, links[..i])
      {
        UnionRegroup(old(emails), LinkEmails(env, links[..i]), LinkEmail(env, links[i]));
        UnionRegroup(old(phones), LinkPhones(env, links[..i]), LinkPhone(env, links[i]));
        VisitLink(links[i]);
        LinkStep(env, links, i);
        i := i + 1;
      }
      assert links[..|links|] == links;
    }

    /** The body of the link loop of `extract_from_text`. */
    method VisitLink(link: Tag)
      modifies this
      ensures Snap() == old(Snap()).(emails := old(emails) + LinkEmail(env, link), phones := old(phones) + LinkPhone(env, link))
    {
      if link.href.Some? {
        var href := link.href.value;
        if StartsWith(href, "mailto:") {
          var email := BeforeFirst(href[7..], '?');
          if env.matchAtStart(Email, email) {
            emails := emails + {Lower(email)};
          }
        } else if StartsWith(href, "tel:") {
          var phone := href[4..];
          if env.search(PhoneNp, Strip(phone)) {
            phones := phones + {phone};
          } else if env.search(NewPhoneNp, Strip(phone)) {
            phones := phones + {phone};
          } else if env.search(NewNewPhoneNp, Strip(phone)) {
            phones := phones + {phone};
          } else if env.search(OtherPhoneNp, Strip(phone)) {
            phones := phones + {phone};
          }
        }
      }
    }

    // ------------------------------------------------------------ crawl

    /** One keyword of `handle_hyperlinks`. */
    method VisitKeyword(href: string, k: string) returns (raised: bool)
      modifies this
      ensures Step(Snap(), raised) == Pipeline.VisitKeyword(Here(), href, k, old(Snap()))
    {
      raised := false;
      if Contains(Lower(href), k) {
        var f := Get(Request(href, NoHeaders, 5));
        match f {
          case RequestFailed =>
            raised := true;
          case Got(res) =>
            if res.status == 200 {
              ExtractFromText(res.text);
            }
        }
      }
    }

    /** One `<a>` of `handle_hyperlinks`: record a new same-site `http` link,
        then visit it once per keyword it holds. */
    method VisitAnchor(tag: Tag) returns (raised: bool)
      modifies this
      ensures Step(Snap(), raised) == Pipeline.VisitAnchor(Here(), tag, old(Snap()))
    {
      raised := false;
      if tag.href.None? {
        return;
      }
      var href := tag.href.value;
      if href !in seenLinks && (StartsWith(href, "https") || StartsWith(href, "http")) {
        if SameRootDomain(env.netloc, rootDomain, href) {
          seenLinks := seenLinks + [href];
          ghost var recorded := Snap();
          var keywords := LinkKeywords;
          var j := 0;
          while j < |keywords| && !raised
            invariant 0 <= j <= |keywords|
            invariant Step(Snap(), raised) == VisitKeywords(Here(), href, keywords[..j], recorded)
          {
            KeywordStep(Here(), href, keywords, j, recorded);
            raised := VisitKeyword(href, keywords[j]);
            j := j + 1;
          }
          if raised {
            KeywordsRaisedStays(Here(), href, keywords, j, recorded);
          } else {
            assert keywords[..j] == keywords;
          }
        }
      }
    }

    /** `handle_hyperlinks(html)`; a `RequestException` escapes, reported as
        `raised` with the state it left. */
    method HandleHyperlinks(html: string) returns (raised: bool)
      modifies this
      ensures Step(Snap(), raised) == Pipeline.HandleHyperlinks(Here(), html, old(Snap()))
    {
      var links := Named(env.parse(html), "a");
      var i := 0;
      raised := false;
      while i < |links| && !raised
        invariant 0 <= i <= |links|
        invariant Step(Snap(), raised) == CrawlLinks(Here(), links[..i], old(Snap()))
      {
        CrawlStep(Here(), links, i, old(Snap()));
        raised := VisitAnchor(links[i]);
        i := i + 1;
      }
      if raised {
        CrawlRaisedStays(Here(), links, i, old(Snap()));
      } else {
        assert links[..i] == links;
      }
    }

    // ------------------------------------------------------------ sitemap

    /** A 2xx sitemap answer: the flag, the same-site candidates appended, and
        the list de-duplicated through a set. */
    method AcceptSitemap(text: string)
      modifies this
      ensures Snap() == Pipeline.AcceptSitemap(Here(), text, old(Snap()))
    {
      hasSitemap := true;
      var found := env.setOrder(Elements(env.matches(AboutPage, text)));
      AppendSameSite(found);
      aboutPages := env.setOrder(Elements(aboutPages));
    }

    /** The candidate loop of `check_sitemap`: each candidate on the site is appended. */
    method AppendSameSite(found: seq<string>)
      modifies this
      ensures Snap() == old(Snap()).(aboutPages := old(aboutPages) + SameSitePages(Here(), found))
    {
      var k := 0;
      while k < |found|
        invariant 0 <= k <= |found|
        invariant content == old(content) && isReact == old(isReact) && isVue == old(isVue)
        invariant hasSitemap == old(hasSitemap) && emails == old(emails) && phones == old(phones)
        invariant seenLinks == old(seenLinks) && calls == old(calls)
        invariant aboutPages == old(aboutPages) + SameSitePages(Here(), found[..k])
      {
        if SameRootDomain(env.netloc, rootDomain, found[k]) {
          aboutPages := aboutPages + [found[k]];
        }
        SameSiteStep(Here(), found, k);
        k := k + 1;
      }
      assert found[..|found|] == found;
    }

    /** One sitemap address of `_check_sitemap`. */
    method TrySitemap(sitemap: string) returns (raised: bool)
      modifies this
      ensures Step(Snap(), raised) == Pipeline.TrySitemap(Here(), sitemap, old(Snap()))
    {
      raised := false;
      var f := Get(Request(sitemap, BrowserHeaders, 5));
      if f.RequestFailed? {
        return true;
      }
      var res := f.response;
      if IsErrorStatus(res.status) {
        var f2 := Get(Request(url, AltHeaders, 5));
        if f2.RequestFailed? {
          return true;
        }
        res := f2.response;
      }
      if IsSuccessStatus(res.status) {
        AcceptSitemap(res.text);
      }
    }

    /** `_check_sitemap()`: both addresses in turn; a `RequestException` ends
        the loop and is swallowed. */
    method CheckSitemap()
      modifies this
      ensures Snap() == Pipeline.CheckSitemap(Here(), old(Snap()))
    {
      var urls := SitemapUrls(url);
      var i := 0;
      var raised := false;
      while i < |urls| && !raised
        invariant 0 <= i <= |urls|
        invariant Step(Snap(), raised) == SitemapLoop(Here(), urls[..i], old(Snap()))
      {
        PrefixStep(urls, i);
        raised := TrySitemap(urls[i]);
        i := i + 1;
      }
      if raised {
        SitemapRaisedStays(Here(), urls, i, old(Snap()));
      } else {
        assert urls[..i] == urls;
      }
    }

    // ------------------------------------------------------------ fetch_page

    /** `fetch_page()` */
    method FetchPage() returns (ok: bool)
      modifies this
      ensures Fetch(ok, Snap()) == Pipeline.FetchPage(Here(), old(Snap()))
    {
      var f := Get(Request(url, BrowserHeaders, 5));
      if f.RequestFailed? {
        return false;
      }
      var res := f.response;
      if IsErrorStatus(res.status) {
        var f2 := Get(Request(url, AltHeaders, 5));
        if f2.RequestFailed? {
          return false;
        }
        res := f2.response;
      }
      content := res.text;
      isVue := IsVuePage(content);
      if isVue {
        isReact := false;
      } else {
        isReact := IsReactPage(content);
      }
      CheckSitemap();
      ok := true;
    }

    // ------------------------------------------------------------ stages

    /** The about-page loop of `scrape_static`; every exception is skipped. */
    method VisitAboutPages(pages: seq<string>)
      modifies this
      ensures Snap() == Pipeline.VisitAboutPages(Here(), pages, old(Snap()))
    {
      var i := 0;
      while i < |pages|
        invariant 0 <= i <= |pages|
        invariant Snap() == Pipeline.VisitAboutPages(Here(), pages[..i], old(Snap()))
      {
        PrefixStep(pages, i);
        var f := Get(Request(pages[i], BrowserHeaders, 5));
        if f.Got? && f.response.status == 200 {
          ExtractFromText(f.response.text);
        }
        i := i + 1;
      }
      assert pages[..i] == pages;
    }

    /** `scrape_static()`; a `RequestException` from the crawl escapes. */
    method ScrapeStatic() returns (raised: bool)
      modifies this
      ensures Step(Snap(), raised) == Pipeline.ScrapeStatic(Here(), old(Snap()))
    {
      raised := false;
      if content == "" {
        return;
      }
      ExtractFromText(content);
      raised := HandleHyperlinks(content);
      if raised {
        return;
      }
      if hasSitemap {
        VisitAboutPages(aboutPages);
      }
    }

    /** The `mailto:` loop over the links Selenium reports. */
    method AddDriverEmails(hrefs: seq<string>)
      modifies this
      ensures Snap() == old(Snap()).(emails := old(emails) + DriverEmails(env, hrefs))
    {
      var i := 0;
      while i < |hrefs|
        invariant 0 <= i <= |hrefs|
        invariant content == old(content) && isReact == old(isReact) && isVue == old(isVue)
        invariant hasSitemap == old(hasSitemap) && aboutPages == old(aboutPages)
        invariant seenLinks == old(seenLinks) && calls == old(calls) && phones == old(phones)
        invariant emails == old(emails) + DriverEmails(env, hrefs[..i])
      {
        var href := hrefs[i];
        UnionRegroup(old(emails), DriverEmails(env, hrefs[..i]),
          if MailtoEmail(env, href).Some? then {MailtoEmail(env, href).value} else {});
        if StartsWith(href, "mailto:") {
          var email := BeforeFirst(href[7..], '?');
          if env.matchAtStart(Email, email) {
            emails := emails + {Lower(email)};
          }
        }
        DriverStep(env, hrefs, i);
        i := i + 1;
      }
      assert hrefs[..|hrefs|] == hrefs;
    }

    /** One browser pass of `scrape_dynamic`; every exception is swallowed. */
    method BrowserPass(url: string)
      modifies this
      ensures Snap() == DynamicPass(Here(), url, old(Snap()))
    {
      var rendered := Load(url);
      if rendered.RenderFailed? {
        return;
      }
      var page := rendered.page;
      ExtractFromText(page.source);
      var raised := HandleHyperlinks(page.source);
      if !raised {
        AddDriverEmails(page.anchorHrefs);
      }
    }

    /** `scrape_dynamic(url, forced)` */
    method ScrapeDynamic(url: string, forced: bool)
      modifies this
      ensures Snap() == Pipeline.ScrapeDynamic(Here(), url, forced, old(Snap()))
    {
      if forced {
        BrowserPass(url);
      }
      if !(isVue || isReact) {
        return;
      }
      BrowserPass(url);
    }

    /** `fetch_common_paths()`: each path without headers, three seconds; a
        `RequestException` skips to the next path. */
    method FetchCommonPaths()
      modifies this
      ensures Snap() == ProbePaths(Here(), EduPaths, old(Snap()))
    {
      var paths := EduPaths;
      var i := 0;
      while i < |paths|
        invariant 0 <= i <= |paths|
        invariant Snap() == ProbePaths(Here(), paths[..i], old(Snap()))
      {
        PrefixStep(paths, i);
        var f := Get(Request(url + paths[i], NoHeaders, 3));
        if f.Got? && f.response.status == 200 {
          ExtractFromText(f.response.text);
          var _ := HandleHyperlinks(f.response.text);
        }
        i := i + 1;
      }
      assert paths[..i] == paths;
    }

    // ------------------------------------------------------------ clean_emails

    /** The marker loop for one email; `set.remove` of an email already gone
        raises KeyError. */
    method RemoveMarked(email: string) returns (failed: bool)
      modifies this
      ensures Cleaned(emails, failed) == Pipeline.RemoveMarked(email, Gibberish, old(emails))
      ensures Snap() == old(Snap()).(emails := emails)
    {
      var j := 0;
      failed := false;
      while j < |Gibberish| && !failed
        invariant 0 <= j <= |Gibberish|
        invariant content == old(content) && isReact == old(isReact) && isVue == old(isVue)
        invariant hasSitemap == old(hasSitemap) && aboutPages == old(aboutPages)
        invariant seenLinks == old(seenLinks) && calls == old(calls) && phones == old(phones)
        invariant Cleaned(emails, failed) == Pipeline.RemoveMarked(email, Gibberish[..j], old(emails))
      {
        PrefixStep(Gibberish, j);
        if Contains(email, Gibberish[j]) {
          if email in emails {
            emails := emails - {email};
          } else {
            failed := true;
          }
        }
        j := j + 1;
      }
      if failed {
        RemoveMarkedStays(email, Gibberish, j, old(emails));
      } else {
        assert Gibberish[..j] == Gibberish;
      }
    }

    /** `clean_emails()`: a copy of the set is walked in iteration order. */
    method CleanEmails() returns (failed: bool)
      modifies this
      ensures Cleaned(emails, failed) == Pipeline.CleanEmails(Here(), old(Snap()))
      ensures Snap() == old(Snap()).(emails := emails)
    {
      var order := env.setOrder(emails);
      var i := 0;
      failed := false;
      while i < |order| && !failed
        invariant 0 <= i <= |order|
        invariant content == old(content) && isReact == old(isReact) && isVue == old(isVue)
        invariant hasSitemap == old(hasSitemap) && aboutPages == old(aboutPages)
        invariant seenLinks == old(seenLinks) && calls == old(calls) && phones == old(phones)
        invariant Cleaned(emails, failed) == CleanAll(order[..i], old(emails))
      {
        PrefixStep(order, i);
        failed := RemoveMarked(order[i]);
        i := i + 1;
      }
      if failed {
        CleanAllStays(order, i, old(emails));
      } else {
        assert order[..i] == order;
      }
    }

    // ------------------------------------------------------------ run

    /** The stages of `run()` after the static one. */
    method Finish() returns (outcome: Outcome)
      modifies this
      ensures Pipeline.Run(outcome, Snap()) == Pipeline.Finish(Here(), old(Snap()))
    {
      if isReact || isVue {
        ScrapeDynamic(url, false);
      }
      FetchCommonPaths();
      if |phones| == 0 || |emails| == 0 {
        ScrapeDynamic(url, true);
      }
      var failed := CleanEmails();
      if failed {
        outcome := Raised(KeyError);
      } else {
        outcome := Finished(Report(url, AsField(env, emails), AsField(env, phones)));
      }
    }

    /** `run()`: the report, or the exception that escapes it.  The object
        invariant survives it. */
    method Run() returns (outcome: Outcome)
      requires Valid()
      modifies this
      ensures Pipeline.Run(outcome, Snap()) == RunFrom(Here(), old(Snap()))
      ensures SetsEnumerate(env) ==> Valid()
    {
      ghost var start := Snap();
      var ok := FetchPage();
      if !ok {
        outcome := Finished(Report(url, Listed([]), Listed([])));
      } else {
        var raised := ScrapeStatic();
        if raised {
          outcome := Raised(RequestError);
        } else {
          outcome := Finish();
        }
      }
      if SetsEnumerate(env) {
        RunKeepsInv(Here(), start);
      }
    }
  }
}
