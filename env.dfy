/** Everything the scraper receives from outside: HTTP responses, the headless
    browser, the HTML parser, the regular-expression engine, `urlparse`, and the
    iteration order of Python sets.  Each is an oracle in `World`; the model
    never looks inside them. */
module Env {
  import opened Ordering
  import Phone

  datatype Option<T> = None | Some(value: T)

  /** The header profiles passed to `requests.get`: none at all, `HEADERS`
      (a desktop browser's User-Agent) and `ALT_HEADERS` (curl's). */
  datatype Headers = NoHeaders | BrowserHeaders | AltHeaders

  /** One `requests.get` call.  `allow_redirects` is always on and TLS
      verification always off, so neither is recorded. */
  datatype Request = Request(url: string, headers: Headers, timeout: nat)

  datatype Response = Response(status: int, text: string)

  /** A response, or the `requests.RequestException` the call raised. */
  datatype Fetched = Got(response: Response) | RequestFailed

  /** What Selenium shows after loading a page: `page_source`, and the `href` of
      every `<a>` element with `None` read as `""` (`ContactScraper.scrape_dynamic`
      writes `get_attribute("href") or ""`). */
  datatype Page = Page(source: string, anchorHrefs: seq<string>)

  /** A rendered page, or any exception from starting Firefox or loading the URL. */
  datatype Rendered = Rendered(page: Page) | RenderFailed

  /** An element of a parsed document: its tag name, `get_text()`, and its
      `href` attribute when it has one. */
  datatype Tag = Tag(name: string, text: string, href: Option<string>)

  /** The compiled expressions of `Patterns`. */
  datatype Pattern = Email | EmailStrict | PhoneNp | NewPhoneNp | NewNewPhoneNp | OtherPhoneNp | AboutPage

  /** One interaction with the outside world, in the order they happen. */
  datatype Call = HttpGet(request: Request) | Render(url: string)

  datatype World = World(
    /** `urlparse(url).netloc` */
    netloc: string -> string,
    /** `requests.get`; the same request always gets the same answer. */
    fetch: Request -> Fetched,
    /** `webdriver.Firefox(...).get(url)` */
    render: string -> Rendered,
    /** Every element BeautifulSoup finds in a document, in document order. */
    parse: string -> seq<Tag>,
    /** The whole-match strings of `pattern.finditer(text)` (for the patterns
        without a capturing group, also `pattern.findall(text)`). */
    matches: (Pattern, string) -> seq<string>,
    /** `bool(pattern.search(text))` */
    search: (Pattern, string) -> bool,
    /** `bool(pattern.match(text))` */
    matchAtStart: (Pattern, string) -> bool,
    /** The order in which Python iterates a set of strings. */
    setOrder: set<string> -> seq<string>)

  predicate IsPhonePattern(p: Pattern)
  {
    p == PhoneNp || p == NewPhoneNp || p == NewNewPhoneNp || p == OtherPhoneNp
  }

  /** Iterating a set lists each member once. */
  ghost predicate SetsEnumerate(w: World)
  {
    forall s :: IsEnumeration(w.setOrder(s), s)
  }

  /** Read with ASCII `\d`, each phone pattern needs at least five digits, of
      which the optional `977` and `0` prefixes take at most four, so
      `normalize_phone` always has a digit left to look at in a match.  With
      Python's Unicode `\d` this need not hold: `977-0-` followed by a
      Devanagari zero matches the mobile branch of `NEW_PHONE_NP` and keeps
      no ASCII digit past its prefixes. */
  ghost predicate PhoneMatchesKeepDigits(w: World)
  {
    forall p, text, m :: IsPhonePattern(p) && m in w.matches(p, text) ==> Phone.Significant(m) != []
  }

  /** The facts about the oracles the model relies on. */
  ghost predicate WellFormed(w: World)
  {
    SetsEnumerate(w) && PhoneMatchesKeepDigits(w)
  }

  /** Tags with the given name, in document order (`soup(name)`). */
  function Named(tags: seq<Tag>, name: string): (r: seq<Tag>)
    ensures forall k :: 0 <= k < |r| ==> r[k].name == name && r[k] in tags
    decreases |tags|
  {
    if tags == [] then []
    else (if tags[0].name == name then [tags[0]] else []) + Named(tags[1..], name)
  }

  /** Tags whose name is one of `names` (`soup.find_all(names)`). */
  function NamedAny(tags: seq<Tag>, names: seq<string>): (r: seq<Tag>)
    ensures forall k :: 0 <= k < |r| ==> r[k].name in names && r[k] in tags
    decreases |tags|
  {
    if tags == [] then []
    else (if tags[0].name in names then [tags[0]] else []) + NamedAny(tags[1..], names)
  }

  /** The first tag with the given name (`soup.find(name)`). */
  function First(tags: seq<Tag>, name: string): (r: Option<Tag>)
    ensures r.Some? <==> exists k :: 0 <= k < |tags| && tags[k].name == name
    ensures r.Some? ==> r.value.name == name && r.value in tags
    decreases |tags|
  {
    if tags == [] then None
    else if tags[0].name == name then Some(tags[0])
    else First(tags[1..], name)
  }

  /** `soup(name)` misses no tag: a tag is yielded exactly when it is in the
      document and has that name. */
  lemma {:induction false} NamedMembers(tags: seq<Tag>, name: string)
    ensures forall t :: t in Named(tags, name) <==> t in tags && t.name == name
    decreases |tags|
  {
    if tags != [] {
      NamedMembers(tags[1..], name);
      assert tags == [tags[0]] + tags[1..];
    }
  }

  /** `soup(name)` keeps document order: selecting from two stretches of the
      document one after the other gives the selection from the whole. */
  lemma {:induction false} NamedAppend(a: seq<Tag>, b: seq<Tag>, name: string)
    ensures Named(a + b, name) == Named(a, name) + Named(b, name)
    decreases |a|
  {
    if a == [] {
      assert a + b == b;
    } else {
      NamedAppend(a[1..], b, name);
      assert (a + b)[1..] == a[1..] + b && (a + b)[0] == a[0];
      var head := if a[0].name == name then [a[0]] else [];
      assert Named(a + b, name) == head + Named(a[1..] + b, name);
      assert Named(a, name) == head + Named(a[1..], name);
    }
  }

  /** `find_all(names)` misses no tag: a tag is yielded exactly when it is in
      the document and has one of the names. */
  lemma {:induction false} NamedAnyMembers(tags: seq<Tag>, names: seq<string>)
    ensures forall t :: t in NamedAny(tags, names) <==> t in tags && t.name in names
    decreases |tags|
  {
    if tags != [] {
      NamedAnyMembers(tags[1..], names);
      assert tags == [tags[0]] + tags[1..];
    }
  }

  /** `find_all(names)` keeps document order. */
  lemma {:induction false} NamedAnyAppend(a: seq<Tag>, b: seq<Tag>, names: seq<string>)
    ensures NamedAny(a + b, names) == NamedAny(a, names) + NamedAny(b, names)
    decreases |a|
  {
    if a == [] {
      assert a + b == b;
    } else {
      NamedAnyAppend(a[1..], b, names);
      assert (a + b)[1..] == a[1..] + b && (a + b)[0] == a[0];
      var head := if a[0].name in names then [a[0]] else [];
      assert NamedAny(a + b, names) == head + NamedAny(a[1..] + b, names);
      assert NamedAny(a, names) == head + NamedAny(a[1..], names);
    }
  }

  /** `soup.find(name)` is the first tag of `soup(name)`. */
  lemma {:induction false} FirstOfNamed(tags: seq<Tag>, name: string)
    ensures First(tags, name) == if Named(tags, name) == [] then None else Some(Named(tags, name)[0])
    decreases |tags|
  {
    if tags != [] {
      FirstOfNamed(tags[1..], name);
    }
  }

  /** `soup.find(name)` returns the earliest tag with that name. */
  lemma {:induction false} FirstIsEarliest(tags: seq<Tag>, name: string, k: nat)
    requires k < |tags| && tags[k].name == name
    requires forall j :: 0 <= j < k ==> tags[j].name != name
    ensures First(tags, name) == Some(tags[k])
    decreases k
  {
    if k > 0 {
      assert tags[0].name != name;
      FirstIsEarliest(tags[1..], name, k - 1);
    }
  }
}
