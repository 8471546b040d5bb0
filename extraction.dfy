/** What `extract_from_text` and `extract_from_contact_sections` find in one
    document, as sets: the scraper methods add exactly these to their fields. */
module Extraction {
  import opened Strings
  import opened Ordering
  import opened Phone
  import opened Env

  /** The tag names `extract_from_contact_sections` looks at. */
  const ContactTagNames: seq<string> := ["div", "section", "p", "li", "span", "footer", "a"]

  /** `CONTACT_KEYWORDS` */
  const ContactKeywords: seq<string> := [
    "contact", "email", "phone", "call", "mobile", "landline", "support",
    "reach us", "get in touch", "address", "location"
  ]

  /** The four phone expressions, in the order they are tried. */
  const PhonePatterns: seq<Pattern> := [PhoneNp, NewPhoneNp, NewNewPhoneNp, OtherPhoneNp]

  /** The two email expressions of a contact zone. */
  const ZoneEmailPatterns: seq<Pattern> := [Email, EmailStrict]

  /** The canonical numbers among the matches; a match that normalises to
      `None` is dropped (`if norm:`).  A match left without digits after its
      prefixes, on which `normalize_phone` raises IndexError, is dropped too:
      this agrees with `ContactScraper` only because no phone expression
      matches such a text, the assumption `Env.PhoneMatchesKeepDigits`
      (see `ZoneNormalizationNeverFails`). */
  function NormalizedPhones(ms: seq<string>): (r: set<string>)
    decreases |ms|
  {
    if ms == [] then {}
    else
      var init := ms[..|ms| - 1];
      var n := NormalizePhone(ms[|ms| - 1]);
      NormalizedPhones(init) + (if n.Canonical? then {n.phone} else {})
  }

  /** `{m.lower() for m in ms}` */
  function Lowered(ms: seq<string>): (r: set<string>)
    decreases |ms|
  {
    if ms == [] then {}
    else
      var init := ms[..|ms| - 1];
      Lowered(init) + {Lower(ms[|ms| - 1])}
  }

  /** The phones every pattern of `ps` finds in `text`, normalised. */
  function PhonesByPatterns(w: World, ps: seq<Pattern>, text: string): (r: set<string>)
    decreases |ps|
  {
    if ps == [] then {}
    else
      var init := ps[..|ps| - 1];
      PhonesByPatterns(w, init, text) + NormalizedPhones(w.matches(ps[|ps| - 1], text))
  }

  /** The matches of every pattern of `ps` in `text`, as found. */
  function EmailsByPatterns(w: World, ps: seq<Pattern>, text: string): (r: set<string>)
    decreases |ps|
  {
    if ps == [] then {}
    else
      var init := ps[..|ps| - 1];
      assert forall k :: 0 <= k < |init| ==> init[k] == ps[k];
      EmailsByPatterns(w, init, text) + Elements(w.matches(ps[|ps| - 1], text))
  }

  /** The keyword gate: a contact keyword occurs in the lower-cased text. */
  predicate MentionsContact(text: string)
  {
    ContainsAny(Lower(text), ContactKeywords)
  }

  /** The texts of the tags that pass the keyword gate, in document order. */
  function GatedTexts(tags: seq<Tag>): (r: seq<string>)
    decreases |tags|
  {
    if tags == [] then []
    else
      var init := tags[..|tags| - 1];
      var last := tags[|tags| - 1];
      GatedTexts(init) + (if MentionsContact(last.text) then [last.text] else [])
  }

  /** The texts `extract_from_contact_sections` mines: the gated tags, then the
      first `<footer>` whatever it says. */
  function ZoneTexts(w: World, html: string): seq<string>
  {
    var tags := w.parse(html);
    GatedTexts(NamedAny(tags, ContactTagNames))
      + (match First(tags, "footer") case Some(f) => [f.text] case None => [])
  }

  /** The phones found in the zones: normalised, so always canonical. */
  function ZonePhones(w: World, texts: seq<string>): (r: set<string>)
    decreases |texts|
  {
    if texts == [] then {}
    else
      var init := texts[..|texts| - 1];
      ZonePhones(w, init) + PhonesByPatterns(w, PhonePatterns, texts[|texts| - 1])
  }

  /** The emails found in the zones, exactly as matched: not lower-cased. */
  function ZoneEmails(w: World, texts: seq<string>): (r: set<string>)
    decreases |texts|
  {
    if texts == [] then {}
    else
      var init := texts[..|texts| - 1];
      assert forall j :: 0 <= j < |init| ==> init[j] == texts[j];
      ZoneEmails(w, init) + EmailsByPatterns(w, ZoneEmailPatterns, texts[|texts| - 1])
  }

  /** A `mailto:` link's address: the text after the scheme up to any `?`,
      kept lower-cased when `EMAIL` matches at its start. */
  function MailtoEmail(w: World, href: string): (r: Option<string>)
    ensures r.Some? ==> StartsWith(href, "mailto:") && IsLower(r.value) && '?' !in r.value
    ensures r.Some? <==> StartsWith(href, "mailto:") && w.matchAtStart(Email, BeforeFirst(href[7..], '?'))
    ensures r.Some? ==> r.value == Lower(BeforeFirst(href[7..], '?'))
  {
    if StartsWith(href, "mailto:") then
      var address := BeforeFirst(href[7..], '?');
      LowerIsLower(address);
      if w.matchAtStart(Email, address) then Some(Lower(address)) else None
    else None
  }

  /** `mailto:` links are read back: the address of `mailto:<a>` or
      `mailto:<a>?<query>`, for an `a` without `?`, is `a` lower-cased, when
      `EMAIL` accepts `a`. */
  lemma MailtoOfAddress(w: World, address: string, query: string)
    requires '?' !in address && (query == [] || query[0] == '?')
    ensures MailtoEmail(w, "mailto:" + address + query)
      == if w.matchAtStart(Email, address) then Some(Lower(address)) else None
  {
    var href := "mailto:" + address + query;
    assert href[7..] == address + query;
    BeforeFirstOf(address, query, '?');
  }

  /** The `if`/`elif` chain over the four phone expressions: one of them
      finds something in `s` (`PhonePatterns`, in order). */
  predicate FindsPhone(w: World, s: string)
  {
    w.search(PhoneNp, s) || w.search(NewPhoneNp, s) || w.search(NewNewPhoneNp, s) || w.search(OtherPhoneNp, s)
  }

  /** A `tel:` link's number: the raw text after the scheme, kept when one of
      the phone expressions finds something in it once stripped. */
  function TelPhone(w: World, href: string): (r: Option<string>)
    ensures r.Some? ==> href == "tel:" + r.value
    ensures r.Some? <==> !StartsWith(href, "mailto:") && StartsWith(href, "tel:") && FindsPhone(w, Strip(href[4..]))
  {
    if StartsWith(href, "mailto:") then None
    else if StartsWith(href, "tel:") then
      var phone := href[4..];
      assert href == href[..4] + phone;
      if FindsPhone(w, Strip(phone)) then Some(phone) else None
    else None
  }

  /** `tel:` links are read back: the number of `tel:<p>` is `p` itself,
      unstripped, when a phone expression finds something in `p` stripped. */
  lemma TelOfNumber(w: World, number: string)
    ensures TelPhone(w, "tel:" + number) == if FindsPhone(w, Strip(number)) then Some(number) else None
  {
    var href := "tel:" + number;
    assert href[0] == 't';
    assert !StartsWith(href, "mailto:");
    assert href[4..] == number;
  }

  /** What one link adds to the emails: its `mailto:` address, if any. */
  function LinkEmail(w: World, link: Tag): set<string>
  {
    if link.href.Some? && MailtoEmail(w, link.href.value).Some? then {MailtoEmail(w, link.href.value).value} else {}
  }

  /** What one link adds to the phones: its `tel:` number, if any. */
  function LinkPhone(w: World, link: Tag): set<string>
  {
    if link.href.Some? && TelPhone(w, link.href.value).Some? then {TelPhone(w, link.href.value).value} else {}
  }

  /** The addresses of the `mailto:` links among `links`. */
  function LinkEmails(w: World, links: seq<Tag>): (r: set<string>)
    decreases |links|
  {
    if links == [] then {}
    else LinkEmails(w, links[..|links| - 1]) + LinkEmail(w, links[|links| - 1])
  }

  /** The numbers of the `tel:` links among `links`. */
  function LinkPhones(w: World, links: seq<Tag>): (r: set<string>)
    decreases |links|
  {
    if links == [] then {}
    else LinkPhones(w, links[..|links| - 1]) + LinkPhone(w, links[|links| - 1])
  }

  /** The addresses of the `mailto:` links Selenium reports. */
  function DriverEmails(w: World, hrefs: seq<string>): (r: set<string>)
    decreases |hrefs|
  {
    if hrefs == [] then {}
    else
      var init := hrefs[..|hrefs| - 1];
      var last := MailtoEmail(w, hrefs[|hrefs| - 1]);
      assert forall k :: 0 <= k < |init| ==> init[k] == hrefs[k];
      DriverEmails(w, init) + (if last.Some? then {last.value} else {})
  }

  // ---------------------------------------------------------------- membership

  /** A phone is found exactly when some match normalises to it. */
  lemma NormalizedPhonesMembers(ms: seq<string>)
    ensures forall p :: p in NormalizedPhones(ms) <==> exists i :: 0 <= i < |ms| && NormalizePhone(ms[i]) == Canonical(p)
  {
    NormalizedPhonesAsImages(ms);
    CanonicalImagesMembers(NormalizePhone, ms);
  }

  /** The canonical results of any normaliser `f` over the matches; the
      membership argument does not depend on what `f` computes. */
  function CanonicalImages(f: string -> Normalized, ms: seq<string>): set<string>
    decreases |ms|
  {
    if ms == [] then {}
    else
      var n := f(ms[|ms| - 1]);
      CanonicalImages(f, ms[..|ms| - 1]) + (if n.Canonical? then {n.phone} else {})
  }

  lemma {:induction false} CanonicalImagesMembers(f: string -> Normalized, ms: seq<string>)
    ensures forall p :: p in CanonicalImages(f, ms) <==> exists i :: 0 <= i < |ms| && f(ms[i]) == Canonical(p)
    decreases |ms|
  {
    if ms != [] {
      var init := ms[..|ms| - 1];
      CanonicalImagesMembers(f, init);
      assert forall i :: 0 <= i < |init| ==> init[i] == ms[i];
    }
  }

  lemma {:induction false} NormalizedPhonesAsImages(ms: seq<string>)
    ensures NormalizedPhones(ms) == CanonicalImages(NormalizePhone, ms)
    decreases |ms|
  {
    if ms != [] {
      NormalizedPhonesAsImages(ms[..|ms| - 1]);
    }
  }

  /** An email is found exactly when it is a match, lower-cased. */
  lemma {:induction false} LoweredMembers(ms: seq<string>)
    ensures forall e :: e in Lowered(ms) <==> exists i :: 0 <= i < |ms| && e == Lower(ms[i])
    decreases |ms|
  {
    if ms != [] {
      var init := ms[..|ms| - 1];
      LoweredMembers(init);
      assert forall i :: 0 <= i < |init| ==> init[i] == ms[i];
    }
  }

  /** An email is found exactly when one of the patterns matches it. */
  lemma {:induction false} EmailsByPatternsMembers(w: World, ps: seq<Pattern>, text: string)
    ensures forall e :: e in EmailsByPatterns(w, ps, text) <==> exists k :: 0 <= k < |ps| && e in w.matches(ps[k], text)
    decreases |ps|
  {
    if ps != [] {
      var init := ps[..|ps| - 1];
      EmailsByPatternsMembers(w, init, text);
      assert forall k :: 0 <= k < |init| ==> init[k] == ps[k];
    }
  }

  /** An email is found in the zones exactly when one zone's patterns match it. */
  lemma {:induction false} ZoneEmailsMembers(w: World, texts: seq<string>)
    ensures forall e :: e in ZoneEmails(w, texts) <==> (exists j :: 0 <= j < |texts| && e in EmailsByPatterns(w, ZoneEmailPatterns, texts[j]))
    decreases |texts|
  {
    if texts != [] {
      var init := texts[..|texts| - 1];
      ZoneEmailsMembers(w, init);
      assert forall j :: 0 <= j < |init| ==> init[j] == texts[j];
    }
  }

  /** An email is found among the links exactly when one `mailto:` link yields it. */
  lemma {:induction false} LinkEmailsMembers(w: World, links: seq<Tag>)
    ensures forall e :: e in LinkEmails(w, links) <==> (exists k :: 0 <= k < |links| && links[k].href.Some? && MailtoEmail(w, links[k].href.value) == Some(e))
    decreases |links|
  {
    if links != [] {
      var init := links[..|links| - 1];
      LinkEmailsMembers(w, init);
      assert forall k :: 0 <= k < |init| ==> init[k] == links[k];
    }
  }

  /** A phone is found among the links exactly when one `tel:` link yields it. */
  lemma {:induction false} LinkPhonesMembers(w: World, links: seq<Tag>)
    ensures forall p :: p in LinkPhones(w, links) <==> (exists k :: 0 <= k < |links| && links[k].href.Some? && TelPhone(w, links[k].href.value) == Some(p))
    decreases |links|
  {
    if links != [] {
      var init := links[..|links| - 1];
      LinkPhonesMembers(w, init);
      assert forall k :: 0 <= k < |init| ==> init[k] == links[k];
    }
  }

  /** An email is found among the rendered links exactly when one of them yields it. */
  lemma {:induction false} DriverEmailsMembers(w: World, hrefs: seq<string>)
    ensures forall e :: e in DriverEmails(w, hrefs) <==> exists k :: 0 <= k < |hrefs| && MailtoEmail(w, hrefs[k]) == Some(e)
    decreases |hrefs|
  {
    if hrefs != [] {
      var init := hrefs[..|hrefs| - 1];
      DriverEmailsMembers(w, init);
      assert forall k :: 0 <= k < |init| ==> init[k] == hrefs[k];
    }
  }

  /** Every phone that normalisation keeps is canonical. */
  lemma NormalizedPhonesCanonical(ms: seq<string>)
    ensures forall p :: p in NormalizedPhones(ms) ==> IsCanonical(p)
  {
    NormalizedPhonesMembers(ms);
    forall p | p in NormalizedPhones(ms) ensures IsCanonical(p) {
      var i :| 0 <= i < |ms| && NormalizePhone(ms[i]) == Canonical(p);
      NormalizeOutcomes(ms[i]);
    }
  }

  /** Every phone the phone expressions yield is canonical. */
  lemma {:induction false} PhonesByPatternsCanonical(w: World, ps: seq<Pattern>, text: string)
    ensures forall p :: p in PhonesByPatterns(w, ps, text) ==> IsCanonical(p)
    decreases |ps|
  {
    if ps != [] {
      PhonesByPatternsCanonical(w, ps[..|ps| - 1], text);
      NormalizedPhonesCanonical(w.matches(ps[|ps| - 1], text));
    }
  }

  /** Every phone found in a contact zone is canonical. */
  lemma {:induction false} ZonePhonesCanonical(w: World, texts: seq<string>)
    ensures forall p :: p in ZonePhones(w, texts) ==> IsCanonical(p)
    decreases |texts|
  {
    if texts != [] {
      ZonePhonesCanonical(w, texts[..|texts| - 1]);
      PhonesByPatternsCanonical(w, PhonePatterns, texts[|texts| - 1]);
    }
  }

  /** Every text the keyword gate lets through mentions a contact keyword. */
  lemma {:induction false} GatedTextsMention(tags: seq<Tag>)
    ensures forall k :: 0 <= k < |GatedTexts(tags)| ==> MentionsContact(GatedTexts(tags)[k])
    decreases |tags|
  {
    if tags != [] {
      var init := tags[..|tags| - 1];
      GatedTextsMention(init);
      var r := GatedTexts(tags);
      forall k | 0 <= k < |r| ensures MentionsContact(r[k]) {
        if k < |GatedTexts(init)| {
          assert r[k] == GatedTexts(init)[k];
        }
      }
    }
  }

  /** A phone is found by the expressions exactly when one of them finds it. */
  lemma PhonesByPatternsMembers(w: World, ps: seq<Pattern>, text: string)
    ensures forall p :: p in PhonesByPatterns(w, ps, text) <==> exists k :: 0 <= k < |ps| && p in NormalizedPhones(w.matches(ps[k], text))
  {
    PhonesByPatternsAsGathered(w, ps, text);
    GatheredMembers(pat => NormalizedPhones(w.matches(pat, text)), ps);
  }

  lemma {:induction false} PhonesByPatternsAsGathered(w: World, ps: seq<Pattern>, text: string)
    ensures PhonesByPatterns(w, ps, text) == Gathered(pat => NormalizedPhones(w.matches(pat, text)), ps)
    decreases |ps|
  {
    if ps != [] {
      PhonesByPatternsAsGathered(w, ps[..|ps| - 1], text);
    }
  }

  /** Expressions that are exactly the phone expressions find a phone exactly
      when some match of a phone expression normalises to it. */
  lemma PhonesOfPhoneExpressions(w: World, ps: seq<Pattern>, text: string, p: string)
    requires forall pat :: pat in ps <==> IsPhonePattern(pat)
    ensures p in PhonesByPatterns(w, ps, text)
      <==> exists pat, m :: IsPhonePattern(pat) && m in w.matches(pat, text) && NormalizePhone(m) == Canonical(p)
  {
    PhonesByPatternsMembers(w, ps, text);
    if p in PhonesByPatterns(w, ps, text) {
      var k :| 0 <= k < |ps| && p in NormalizedPhones(w.matches(ps[k], text));
      var ms := w.matches(ps[k], text);
      NormalizedPhonesMembers(ms);
      var i :| 0 <= i < |ms| && NormalizePhone(ms[i]) == Canonical(p);
      assert IsPhonePattern(ps[k]) && ms[i] in ms;
    }
    if exists pat, m :: IsPhonePattern(pat) && m in w.matches(pat, text) && NormalizePhone(m) == Canonical(p) {
      var pat, m :| IsPhonePattern(pat) && m in w.matches(pat, text) && NormalizePhone(m) == Canonical(p);
      var k :| 0 <= k < |ps| && ps[k] == pat;
      var ms := w.matches(pat, text);
      var i :| 0 <= i < |ms| && ms[i] == m;
      NormalizedPhonesMembers(ms);
      assert p in NormalizedPhones(w.matches(ps[k], text));
    }
  }

  /** The union of `f` over `xs`; the membership argument does not depend on
      what `f` computes. */
  function Gathered<T>(f: T -> set<string>, xs: seq<T>): set<string>
    decreases |xs|
  {
    if xs == [] then {} else Gathered(f, xs[..|xs| - 1]) + f(xs[|xs| - 1])
  }

  lemma {:induction false} GatheredMembers<T>(f: T -> set<string>, xs: seq<T>)
    ensures forall p :: p in Gathered(f, xs) <==> exists j :: 0 <= j < |xs| && p in f(xs[j])
    decreases |xs|
  {
    if xs != [] {
      var init := xs[..|xs| - 1];
      GatheredMembers(f, init);
      assert forall j :: 0 <= j < |init| ==> init[j] == xs[j];
    }
  }

  lemma {:induction false} ZonePhonesAsGathered(w: World, texts: seq<string>)
    ensures ZonePhones(w, texts) == Gathered(t => PhonesByPatterns(w, PhonePatterns, t), texts)
    decreases |texts|
  {
    if texts != [] {
      ZonePhonesAsGathered(w, texts[..|texts| - 1]);
    }
  }

  /** A phone is found in the zones exactly when one zone's phone expressions
      yield it. */
  lemma ZonePhonesMembers(w: World, texts: seq<string>)
    ensures forall p :: p in ZonePhones(w, texts) <==> (exists j :: 0 <= j < |texts| && p in PhonesByPatterns(w, PhonePatterns, texts[j]))
  {
    ZonePhonesAsGathered(w, texts);
    GatheredMembers(t => PhonesByPatterns(w, PhonePatterns, t), texts);
  }

  /** A phone is found in the zones exactly when some match of one of the four
      phone expressions in one zone normalises to it. */
  lemma ZonePhonesFromMatches(w: World, texts: seq<string>, p: string)
    ensures p in ZonePhones(w, texts)
      <==> exists j, pat, m :: 0 <= j < |texts| && IsPhonePattern(pat) && m in w.matches(pat, texts[j]) && NormalizePhone(m) == Canonical(p)
  {
    var ps := PhonePatterns;
    assert forall pat :: pat in ps <==> IsPhonePattern(pat);
    ZonePhonesMembers(w, texts);
    if p in ZonePhones(w, texts) {
      var j :| 0 <= j < |texts| && p in PhonesByPatterns(w, ps, texts[j]);
      PhonesOfPhoneExpressions(w, ps, texts[j], p);
    }
    if exists j, pat, m :: 0 <= j < |texts| && IsPhonePattern(pat) && m in w.matches(pat, texts[j]) && NormalizePhone(m) == Canonical(p) {
      var j, pat, m :| 0 <= j < |texts| && IsPhonePattern(pat) && m in w.matches(pat, texts[j]) && NormalizePhone(m) == Canonical(p);
      PhonesOfPhoneExpressions(w, ps, texts[j], p);
    }
  }

  /** The keyword gate keeps exactly the texts that mention a contact keyword. */
  lemma {:induction false} GatedTextsMembers(tags: seq<Tag>)
    ensures forall s :: s in GatedTexts(tags) <==> (exists k :: 0 <= k < |tags| && tags[k].text == s) && MentionsContact(s)
    decreases |tags|
  {
    if tags != [] {
      var init := tags[..|tags| - 1];
      GatedTextsMembers(init);
      assert forall k :: 0 <= k < |init| ==> init[k] == tags[k];
    }
  }

  /** Everything `extract_from_text` adds to the emails. */
  function TextEmails(w: World, text: string): set<string>
  {
    Lowered(w.matches(Email, text)) + LinkEmails(w, Named(w.parse(text), "a")) + ZoneEmails(w, ZoneTexts(w, text))
  }

  /** Everything `extract_from_text` adds to the phones. */
  function TextPhones(w: World, text: string): set<string>
  {
    LinkPhones(w, Named(w.parse(text), "a")) + ZonePhones(w, ZoneTexts(w, text))
  }

  /** No match of a phone expression makes `normalize_phone` raise IndexError. */
  lemma ZoneNormalizationNeverFails(w: World, p: Pattern, text: string, m: string)
    requires PhoneMatchesKeepDigits(w) && IsPhonePattern(p) && m in w.matches(p, text)
    ensures NormalizePhone(m) != NoDigitsLeft
  {
    NormalizeOutcomes(m);
  }

  function TagHrefs(tags: seq<Tag>): (r: seq<Option<string>>)
    ensures |r| == |tags| && forall k :: 0 <= k < |tags| ==> r[k] == tags[k].href
  {
    seq(|tags|, k requires 0 <= k < |tags| => tags[k].href)
  }

  /** A phone `extract_from_text` adds is canonical unless it came raw from a
      `tel:` link. */
  lemma TextPhonesCanonicalOrTel(w: World, text: string, p: string)
    requires p in TextPhones(w, text)
    ensures !IsCanonical(p) ==> Some("tel:" + p) in TagHrefs(Named(w.parse(text), "a"))
  {
    var links := Named(w.parse(text), "a");
    var zone := ZonePhones(w, ZoneTexts(w, text));
    LinkPhonesMembers(w, links);
    if p in zone {
      ZonePhonesCanonical(w, ZoneTexts(w, text));
    } else {
      assert p in LinkPhones(w, links);
      var k :| 0 <= k < |links| && links[k].href.Some? && TelPhone(w, links[k].href.value) == Some(p);
      assert links[k].href == Some("tel:" + p);
      assert TagHrefs(links)[k] == links[k].href;
    }
  }

  /** An email `extract_from_text` adds is lower-case unless a contact zone
      matched it as it stands. */
  lemma TextEmailsLowerOrZone(w: World, text: string, e: string)
    requires e in TextEmails(w, text)
    ensures IsLower(e) || e in ZoneEmails(w, ZoneTexts(w, text))
  {
    var links := Named(w.parse(text), "a");
    LinkEmailsMembers(w, links);
    LoweredMembers(w.matches(Email, text));
    if e in LinkEmails(w, links) {
      var k :| 0 <= k < |links| && links[k].href.Some? && MailtoEmail(w, links[k].href.value) == Some(e);
    } else if e in Lowered(w.matches(Email, text)) {
      var i :| 0 <= i < |w.matches(Email, text)| && e == Lower(w.matches(Email, text)[i]);
      LowerIsLower(w.matches(Email, text)[i]);
    }
  }
}
