# Contact scraper core, modelled in Dafny

`scraper_v3.py` collects the e-mail addresses and telephone numbers of a
(mostly Nepali, mostly `.edu.np`) web site. A `ContactScraper` is built for
one URL. `run()` then works through these stages:

1. Fetch the home page, retrying with alternate headers on a 4xx/5xx answer.
2. Classify the page as Vue or React.
3. Look for a sitemap and collect its same-site about/contact pages.
4. Mine the page's text and contact zones, and crawl the same-site
   "about"/"contact" links.
5. Render the page in a headless browser when it is a Vue or React page.
6. Probe a fixed list of common paths (`EDU_PATHS`).
7. Make one forced browser pass if phones or e-mails are still missing.
8. Drop e-mails that look like placeholders or image names.
9. Report both sets sorted, or "Not found".

`normalize_phone` turns every number that was found into one canonical
spelling.

This project models that core:

- `phone.dfy` (module `Phone`): `normalize_phone`, branch by branch.
- `areacodes.dfy` (module `AreaCodes`): the alternation built from
  `_VALID_AREA_CODES`.
- `domain.dfy` (module `Domain`): `_get_root_domain` and
  `_is_same_root_domain`.
- `framework.dfy` (module `Framework`):
  - `is_vue_page`;
  - the React indicators.
- `extraction.dfy` (module `Extraction`):
  - what `extract_from_text` and `extract_from_contact_sections` find in one
    document;
  - the `mailto:`/`tel:` rules;
  - the Selenium `mailto:` loop.
- `pipeline.dfy` (module `Pipeline`): every method of `ContactScraper` as a
  function from one state to the next. It covers `fetch_page`,
  `_check_sitemap`, `handle_hyperlinks`, `scrape_static`, `scrape_dynamic`,
  `fetch_common_paths`, `clean_emails` and `run`. The properties of `run`
  are proved about these functions.
- `scraper.dfy` (module `Scraper`): the class `ContactScraper` itself.
  - Its fields are updated in place by methods with `while` loops that
    mirror the loops of `scraper_v3.py`.
  - Each method's `ensures` ties the new fields to the `Pipeline` function
    of the old fields.
  - The object invariant `Valid()` holds across `run`. It says that the
    recorded links and about pages are distinct and on the site, and that
    a page is never both Vue and React.
- `strings.dfy` and `ordering.dfy`: the string operations Python provides:
  - `split` and `join`;
  - `lower` and `strip`;
  - substring tests;
  - `sorted` over strings;
  - "a list that enumerates a set".

Everything outside the program is an oracle in `Env.World`:

- HTTP answers (`requests.get`);
- Firefox renderings;
- BeautifulSoup's parse;
- the regular-expression matches;
- `urlparse(...).netloc`;
- the order in which Python iterates a set.

The model never looks inside the oracles. It relies on two stated facts
about them:

- Iterating a set lists each member once (`Env.SetsEnumerate`).
- Every match of a phone expression keeps at least one digit after its
  `977`/`0` prefixes (`Env.PhoneMatchesKeepDigits`). This holds of the
  expressions read with ASCII `\d`: each demands at least five digits, and
  the prefixes take at most four of them. It does not follow from Python's
  Unicode `\d`: `977-0-०` matches the mobile branch of `NEW_PHONE_NP`, and
  `normalize_phone` returns `None` for it, while the model has no digit left.

Every request and rendering is appended to a log (`St.calls`), so the
lemmas can say which requests are made and in what order.

Behaviour that the code has and that its comments do not suggest, all of it
modelled as written:

- The length guard in `normalize_phone` (`7 > len(digits) > 15`, "Must be
  exactly 10 digits") can never be true.
  - A single digit such as `5` is accepted, as `05`.
  - The docstring's "10-digit" is never enforced: `9841234567` becomes
    `09841234567`.
- The `8`/`9` "mobile" branch of `normalize_phone` cannot be reached,
  because the branch before it already takes `2`..`9`. Every accepted
  number is therefore `0` followed by its significant digits.
- A mobile number that begins `977` loses those three digits as if they were
  the country code: `9771234567` becomes `01234567`.
- The e-mails found inside contact zones are not lower-cased. Those found by
  `extract_from_text` are.
- `extract_from_contact_sections` always returns an empty set. It adds
  straight to `self.phones`, so `phones.update(...)` adds nothing.
- `clean_emails` calls `set.remove` once per matching marker. An address
  holding two markers therefore raises `KeyError` out of `run`; addresses
  like `info@example.png` do.
- A link holding both "about" and "contact" is fetched twice.
- `_check_sitemap` answers a 4xx/5xx sitemap with a request for the site's
  own page. If that succeeds, it is taken as the sitemap.
- A `RequestException` from `handle_hyperlinks` during the static stage is
  not caught, and escapes `run`.
- In the browser stage, the same exception is swallowed together with
  everything else.
- `fetch_page` keeps a non-200 answer as the page content. Only a failed
  request makes it return `False`.

## Model

| member | source | states |
|---|---|---|
| Phone.NormalizeOutcomes | scraper_v3.py:247-271 | no digit left after the `977`/`0` prefixes is the IndexError, a leading `0` left is `None`, and otherwise the result is `0` plus the significant digits, which is canonical |
| Phone.FixedPointsAreCanonical | scraper_v3.py:247-271 | a string is returned unchanged by the normaliser exactly when it is canonical |
| Phone.NormalizeIdempotent | scraper_v3.py:247-271 | normalising a normalised number gives it back |
| Phone.NormalizeBySignificant | scraper_v3.py:249-271 | the outcome is determined by the significant digits alone, in all three cases |
| Phone.SignificantAfterCountryCode | scraper_v3.py:249-257 | a leading `977` is removed from the digits |
| Phone.SignificantPlain | scraper_v3.py:249-257 | digits beginning with neither `977` nor `0` are kept whole |
| Phone.NormalizePlainDigits | scraper_v3.py:247-271 | a digit string beginning with neither `977` nor `0` just gains a leading `0` |
| Phone.SeparatorsIgnored | scraper_v3.py:249 | separators play no part: only the digits of the input decide the result |
| Phone.CountryCodeDropped | scraper_v3.py:251-253 | `977` followed by digits not starting with `0` gives `0` plus those digits |
| Phone.ExampleKathmandu | scraper_v3.py:264-265 | `014261234` stays `014261234` |
| Phone.ExampleMobile | scraper_v3.py:266-269 | `9841234567` becomes `09841234567` through the landline branch, not the mobile one |
| Phone.ExampleMobileLikeCountryCode | scraper_v3.py:251-253 | `9771234567` loses its `977` and becomes `01234567` |
| Phone.ExampleOneDigit | scraper_v3.py:259-261 | the length guard rejects nothing: `5` becomes `05` |
| Phone.ExampleFailures | scraper_v3.py:263-271 | `0` leaves no digit (IndexError) and `(0 0)` leaves a `0` (`None`) |
| AreaCodes.LongestFirst | scraper_v3.py:59 | `sorted(..., key=len, reverse=True)`: longest first, same multiset of codes |
| AreaCodes.LongestFirstEnumerates | scraper_v3.py:59 | sorting an enumeration of the code set by length gives an enumeration of the same set |
| AreaCodes.LongestFirstShape | scraper_v3.py:59 | the length-sorted enumeration lists each code once, puts every 3-digit code before every shorter one, and `010` before `01` |
| AreaCodes.ThreeDigitCodesFirst | scraper_v3.py:42-59 | for any iteration order of the set, the alternation lists each code once and every 3-digit code before every shorter one, so `010` comes before `01` |
| Domain.RootDomainSuffix | scraper_v3.py:295-306 | the root domain is lower-case and a suffix of the lower-cased host |
| Domain.RootDomainLabels | scraper_v3.py:300-306 | its labels are the host's last `RootLabelCount` labels: 3 for an `edu.np` host with at least 3 labels, 2 for any other host with a dot, else the one label |
| Domain.RootDomainIdempotent | scraper_v3.py:295-306 | the root domain of a root domain is itself |
| Domain.SubdomainSameRoot | scraper_v3.py:295-306 | one more label in front of a host with at least two labels, other than a bare `edu.np`, keeps its root domain |
| Domain.SubdomainOfEduNp | scraper_v3.py:300-302 | one label in front of a bare `edu.np` becomes part of the root domain |
| Domain.ExampleEduNp | scraper_v3.py:296-302 | `eng.example.edu.np` has root domain `example.edu.np` |
| Domain.ExampleCom | scraper_v3.py:303-305 | `shop.example.com` has root domain `example.com` |
| Domain.SubdomainIsSameSite | scraper_v3.py:399-405 | an absolute URL on a subdomain of such a host is on the site exactly when the host's root domain is the site's, so every subdomain of the site is crawled |
| Framework.VueIgnoresCase | scraper_v3.py:620-639 | the Vue check classifies a page and its lower-cased copy alike |
| Framework.ReactIndicatorsReduce | scraper_v3.py:163-170 | a page is React exactly when it contains `id="root"`, `id='root'` or `react` |
| Framework.ReactIsCaseSensitive | scraper_v3.py:330 | a page that says only `React` is not recognised as React |
| Env.Named | scraper_v3.py:492 | `soup("a")` yields only tags of that name, taken from the document |
| Env.NamedMembers | scraper_v3.py:492 | `soup("a")` yields a tag exactly when the document has it and it is an `a` |
| Env.NamedAppend | scraper_v3.py:492 | `soup("a")` keeps document order: the selection from two stretches of a document is the two selections one after the other |
| Env.NamedAny | scraper_v3.py:420 | `find_all(names)` yields only tags with one of the names, taken from the document |
| Env.NamedAnyMembers | scraper_v3.py:420 | `find_all(names)` yields a tag exactly when the document has it and its name is one of the names |
| Env.NamedAnyAppend | scraper_v3.py:420 | `find_all(names)` keeps document order in the same sense |
| Env.First | scraper_v3.py:453-454 | `soup.find("footer")` finds a tag exactly when the document has a footer, and the one found is a footer of the document |
| Env.FirstOfNamed | scraper_v3.py:453-454 | `soup.find(name)` is the first tag of `soup(name)`, or nothing when that is empty |
| Env.FirstIsEarliest | scraper_v3.py:453-454 | `soup.find(name)` returns the earliest tag of the document with that name |
| Extraction.NormalizedPhonesMembers | scraper_v3.py:424-427 | a phone is added exactly when some match normalises to it |
| Extraction.NormalizedPhonesCanonical | scraper_v3.py:424-427 | every phone a `finditer` loop adds is canonical |
| Extraction.PhonesByPatternsCanonical | scraper_v3.py:424-442 | every phone the four phone expressions add is canonical |
| Extraction.ZonePhonesCanonical | scraper_v3.py:420-470 | every phone found in a contact zone is canonical |
| Extraction.PhonesByPatternsMembers | scraper_v3.py:424-442 | a phone is added by the expressions exactly when one of them adds it |
| Extraction.PhonesOfPhoneExpressions | scraper_v3.py:424-442 | the four phone expressions add a phone exactly when some match of one of them normalises to it |
| Extraction.ZonePhonesMembers | scraper_v3.py:420-470 | a phone comes from the zones exactly when one zone's phone expressions add it |
| Extraction.ZonePhonesFromMatches | scraper_v3.py:420-470 | a phone comes from the zones exactly when some match of a phone expression in one zone normalises to it |
| Extraction.GatedTextsMention | scraper_v3.py:420-422 | only texts mentioning a contact keyword are mined |
| Extraction.GatedTextsMembers | scraper_v3.py:420-422 | a text is mined exactly when it is the text of one of the tags and mentions a contact keyword |
| Extraction.EmailsByPatternsMembers | scraper_v3.py:444-450 | a zone e-mail is added exactly when one of the two expressions matches it, as matched |
| Extraction.ZoneEmailsMembers | scraper_v3.py:420-476 | an e-mail comes from the zones exactly when one zone's expressions match it |
| Extraction.LoweredMembers | scraper_v3.py:487-488 | an e-mail is added exactly when it is a lower-cased match |
| Extraction.MailtoEmail | scraper_v3.py:497-500 | an address is found exactly when the link is `mailto:` and `EMAIL` matches at the start of the text before the first `?`; it is that text lower-cased, so lower-case and free of `?` |
| Extraction.MailtoOfAddress | scraper_v3.py:497-500 | `mailto:<a>` or `mailto:<a>?<query>`, for `a` without `?`, yields `a` lower-cased exactly when `EMAIL` matches `a` |
| Extraction.TelPhone | scraper_v3.py:501-510 | a number is found exactly when the link is not `mailto:`, is `tel:`, and one of the four phone expressions finds something in the stripped rest; it is the raw text after the scheme |
| Extraction.TelOfNumber | scraper_v3.py:501-510 | `tel:<p>` yields `p` unstripped exactly when a phone expression finds something in `p` stripped |
| Extraction.LinkEmailsMembers | scraper_v3.py:492-500 | an e-mail comes from the links exactly when one `mailto:` link yields it |
| Extraction.LinkPhonesMembers | scraper_v3.py:492-510 | a phone comes from the links exactly when one `tel:` link yields it |
| Extraction.DriverEmailsMembers | scraper_v3.py:552-558 | an e-mail comes from the rendered links exactly when one of their `mailto:` addresses yields it |
| Extraction.ZoneNormalizationNeverFails | scraper_v3.py:424-426 | no match of a phone expression makes `normalize_phone` raise |
| Extraction.TextPhonesCanonicalOrTel | scraper_v3.py:485-517 | a phone `extract_from_text` adds is canonical unless it came raw from a `tel:` link |
| Extraction.TextEmailsLowerOrZone | scraper_v3.py:485-517 | an e-mail `extract_from_text` adds is lower-case unless a contact zone matched it |
| Pipeline.Start | scraper_v3.py:278-291 | the stored URL has no trailing slash and its root domain is the one stored |
| Pipeline.InitialInv | scraper_v3.py:278-291 | the freshly built scraper has no links and no about pages, so the invariant holds |
| Pipeline.ExtractText | scraper_v3.py:485-517 | mining only adds to e-mails and phones; links and the log are untouched |
| Pipeline.VisitKeyword | scraper_v3.py:606-618 | one keyword only grows the state, makes no rendering and records no link |
| Pipeline.VisitAnchor | scraper_v3.py:597-618 | one `<a>` keeps the links distinct and on the site, and records a new same-site `http` link |
| Pipeline.CrawlLinks | scraper_v3.py:594-618 | the crawl keeps the link invariant and, unless it raised, has recorded every same-site `http` link |
| Pipeline.LinkWithBothKeywordsFetchedTwice | scraper_v3.py:605-614 | a link holding both keywords is requested twice in a row |
| Pipeline.SameSitePagesMembers | scraper_v3.py:387-390 | the candidates kept are exactly the same-site ones found, and only those |
| Pipeline.AcceptSitemap | scraper_v3.py:384-391 | a 2xx answer sets the flag, changes only the about pages, adds exactly the same-site candidates to them, and keeps them distinct |
| Pipeline.TrySitemap | scraper_v3.py:368-391 | one address changes only the flag, the about pages and the log, and keeps the about pages distinct and on the site |
| Pipeline.TrySitemapCalls | scraper_v3.py:369-383 | one address requests itself, and then the site's own page with `ALT_HEADERS` on a 4xx/5xx answer |
| Pipeline.CheckSitemap | scraper_v3.py:365-397 | the sitemap check changes only the flag, the about pages and the log, and keeps the about-page invariant |
| Pipeline.SitemapRequests | scraper_v3.py:366-383 | `/sitemap.xml` is requested first; the second request is the alternate one on a 4xx/5xx answer, and `/sitemap` otherwise |
| Pipeline.Classify | scraper_v3.py:330-336 | a page is never both Vue and React |
| Pipeline.FetchPage | scraper_v3.py:308-345 | a failed fetch changes only the log; a successful one is never both Vue and React; e-mails, phones and links are untouched |
| Pipeline.FetchClassifies | scraper_v3.py:329-336 | after a successful fetch the page is Vue exactly when a fingerprint occurs, and React exactly when it is not Vue and an indicator occurs |
| Pipeline.FetchKeepsAnswer | scraper_v3.py:309-329 | the content kept is the first answer unless it was a 4xx/5xx, else the alternate answer, whose failure fails the fetch |
| Pipeline.VisitAboutPages | scraper_v3.py:524-538 | the about-page loop only grows e-mails and phones and renders nothing |
| Pipeline.ScrapeStatic | scraper_v3.py:519-538 | the static stage only grows the state, renders nothing and keeps the link invariant |
| Pipeline.DynamicPass | scraper_v3.py:566-587 | one browser pass renders exactly once, only grows the state and keeps the link invariant |
| Pipeline.ScrapeDynamic | scraper_v3.py:540-587 | a forced call renders once more, and a Vue or React page once more on top of that |
| Pipeline.ProbePaths | scraper_v3.py:347-363 | the common paths only grow the state, render nothing and keep the link invariant |
| Pipeline.RemoveMarkedSpec | scraper_v3.py:644-646 | the marker loop raises exactly when two markers occur in the e-mail, and otherwise removes it exactly when one occurs |
| Pipeline.CleanAllSpec | scraper_v3.py:643-646 | walking distinct e-mails raises exactly when one holds two markers, and otherwise removes exactly the marked ones |
| Pipeline.CleanEmailsSpec | scraper_v3.py:641-646 | for any iteration order, KeyError exactly when some e-mail holds two markers, and otherwise exactly the unmarked e-mails are left |
| Pipeline.ImageAtExampleIsTwiceMarked | scraper_v3.py:642 | `<name>@example.png` holds two markers |
| Pipeline.AsFieldSpec | scraper_v3.py:677-678 | a report field is "Not found" exactly for an empty set, and otherwise lists the set sorted, each member once |
| Pipeline.AsFieldOrderFree | scraper_v3.py:677-678 | the report field does not depend on the set's iteration order |
| Pipeline.RunFrom | scraper_v3.py:658-679 | a finished run reports the stored URL |
| Pipeline.Finish | scraper_v3.py:663-679 | once the static stage went through, a finished run reports the stored URL |
| Pipeline.RunOutcomes | scraper_v3.py:658-679 | a failed fetch gives the empty report; a RequestException escapes exactly when the static crawl raised; KeyError escapes exactly when a gathered e-mail holds two markers |
| Pipeline.RunReport | scraper_v3.py:660-679 | a finished run reports exactly the unmarked e-mails and all gathered phones, sorted, with "Not found" exactly for empty sets |
| Pipeline.RunRenders | scraper_v3.py:663-670 | the browser starts once for a Vue or React page, and once more (twice for Vue or React) when a field is still empty after the common paths |
| Pipeline.RunKeepsInv | scraper_v3.py:658-679 | `run` keeps links and about pages distinct and on the site, and a page never both Vue and React |
| Pipeline.CrawlRaisedStays | scraper_v3.py:597-618 | once a crawl request raised, no later link is looked at |
| Pipeline.KeywordsRaisedStays | scraper_v3.py:606-614 | once a keyword's request raised, the later keyword is not tried |
| Pipeline.SitemapRaisedStays | scraper_v3.py:367-397 | once a sitemap request raised, the later address is not tried |
| Pipeline.RemoveMarkedStays | scraper_v3.py:644-646 | once KeyError is raised, the later markers are not looked at |
| Pipeline.CleanAllStays | scraper_v3.py:643-646 | once KeyError is raised, the later e-mails are not looked at |
| Scraper.ContactScraper.constructor | scraper_v3.py:278-293 | the fields start empty, the URL loses its trailing slashes, the root domain is taken from it, and the invariant holds |
| Scraper.ContactScraper.AddIfCanonical | scraper_v3.py:425-427 | adds the normalised match when it is canonical and nothing otherwise; nothing else changes |
| Scraper.ContactScraper.AddNormalized | scraper_v3.py:424-427 | adds exactly the normalised matches to the phones; nothing else changes |
| Scraper.ContactScraper.AddMatches | scraper_v3.py:444-446 | adds exactly the matches to the e-mails; nothing else changes |
| Scraper.ContactScraper.MineZone | scraper_v3.py:424-450 | adds the zone's phones and e-mails of all six expressions; nothing else changes |
| Scraper.ContactScraper.MineTag | scraper_v3.py:421-450 | mines a tag exactly when its lower-cased text holds a contact keyword |
| Scraper.ContactScraper.MineTags | scraper_v3.py:420-450 | mines exactly the gated tags, in document order |
| Scraper.ContactScraper.MineFooter | scraper_v3.py:452-476 | mines the footer, when there is one |
| Scraper.ContactScraper.ExtractFromContactSections | scraper_v3.py:416-483 | returns the empty set and adds the phones and e-mails of all contact zones |
| Scraper.ContactScraper.AddLowered | scraper_v3.py:487-488 | adds exactly the lower-cased matches to the e-mails |
| Scraper.ContactScraper.VisitLink | scraper_v3.py:495-510 | adds a link's `mailto:` address or `tel:` number as the rules say |
| Scraper.ContactScraper.AddLinks | scraper_v3.py:492-510 | adds exactly the addresses and numbers of all links |
| Scraper.ContactScraper.ExtractFromText | scraper_v3.py:485-517 | the new state is `Pipeline.ExtractText` of the old |
| Scraper.ContactScraper.VisitKeyword | scraper_v3.py:606-618 | the new state and the raise are `Pipeline.VisitKeyword` of the old state |
| Scraper.ContactScraper.VisitAnchor | scraper_v3.py:597-618 | the new state and the raise are `Pipeline.VisitAnchor` of the old state |
| Scraper.ContactScraper.HandleHyperlinks | scraper_v3.py:589-618 | the new state and the raise are `Pipeline.HandleHyperlinks` of the old state |
| Scraper.ContactScraper.AcceptSitemap | scraper_v3.py:384-391 | the new state is `Pipeline.AcceptSitemap` of the old |
| Scraper.ContactScraper.AppendSameSite | scraper_v3.py:387-390 | appends exactly the same-site candidates, in iteration order; nothing else changes |
| Scraper.ContactScraper.TrySitemap | scraper_v3.py:368-391 | the new state and the raise are `Pipeline.TrySitemap` of the old state |
| Scraper.ContactScraper.CheckSitemap | scraper_v3.py:365-397 | the new state is `Pipeline.CheckSitemap` of the old |
| Scraper.ContactScraper.FetchPage | scraper_v3.py:308-345 | the result and the new state are `Pipeline.FetchPage` of the old state |
| Scraper.ContactScraper.VisitAboutPages | scraper_v3.py:524-538 | the new state is `Pipeline.VisitAboutPages` of the old |
| Scraper.ContactScraper.ScrapeStatic | scraper_v3.py:519-538 | the new state and the raise are `Pipeline.ScrapeStatic` of the old state |
| Scraper.ContactScraper.AddDriverEmails | scraper_v3.py:552-558 | adds exactly the rendered links' `mailto:` addresses |
| Scraper.ContactScraper.BrowserPass | scraper_v3.py:566-587 | the new state is `Pipeline.DynamicPass` of the old |
| Scraper.ContactScraper.ScrapeDynamic | scraper_v3.py:540-587 | the new state is `Pipeline.ScrapeDynamic` of the old |
| Scraper.ContactScraper.FetchCommonPaths | scraper_v3.py:347-363 | the new state is `Pipeline.ProbePaths` over `EDU_PATHS` of the old |
| Scraper.ContactScraper.RemoveMarked | scraper_v3.py:644-646 | the e-mails left and the raise are `Pipeline.RemoveMarked` of the old e-mails; nothing else changes |
| Scraper.ContactScraper.CleanEmails | scraper_v3.py:641-646 | the e-mails left and the raise are `Pipeline.CleanEmails` of the old state; nothing else changes |
| Scraper.ContactScraper.Finish | scraper_v3.py:663-679 | the outcome and the new state are `Pipeline.Finish` of the old state |
| Scraper.ContactScraper.Run | scraper_v3.py:658-679 | the outcome and the new state are `Pipeline.RunFrom` of the old state, and the object invariant is kept |

## Left out

- HTTP, Selenium/Firefox, BeautifulSoup, `re` and `urlparse` are oracles in
  `Env.World`. The model takes their answers as given and does not model
  HTML parsing or regular-expression matching. The expressions of
  `Patterns` are named, not interpreted.
- `requests.get` is taken to answer the same request the same way every
  time. Redirects are always followed and TLS is never verified; both are
  constant, so neither is recorded.
- The iteration order of Python sets is an oracle (`setOrder`). The model
  assumes that it lists each member once. Because `setOrder` is a function
  of the set, it also assumes that equal sets are iterated in the same
  order, which CPython does not promise for sets with different insertion
  histories (`list(set(self.about_pages))`, `self.emails.copy()`). No proved
  property depends on this: `Pipeline.CleanEmailsSpec`,
  `Pipeline.AsFieldOrderFree` and `AreaCodes.ThreeDigitCodesFirst` hold for
  every order.
- `Extraction.ZoneNormalizationNeverFails` and the IndexError of
  `normalize_phone`: the model assumes the phone expressions never give a
  match without digits past its prefixes. The regular expressions are not
  part of this model, so this is stated as an assumption on the oracle.
  `Phone.NormalizePhone` itself models the IndexError.
- `Strings.Lower`, `Framework.IsVuePage`: case folding covers ASCII letters
  only, while Python's `lower()` and `re.IGNORECASE` also fold other letters.
- `Phone.Significant`: `\D` removes every character outside the ASCII digits.
  Python's `\D` (and the phone expressions' `\d`) keep other Unicode decimal
  digits. When one of them leads the significant digits, `normalize_phone`
  returns `None`. Otherwise they stay in its result, which the model loses:
  for the `PHONE_NP` match `1-१२३४५६७` the program adds `01१२३४५६७`, the
  model `01`.
- `Framework.VueFingerprints`: the escaped dots of the `is_vue_page`
  expressions are read as literal dots, which is what they match.
- `Pipeline.IsErrorStatus`, `Pipeline.IsSuccessStatus`: these use Dafny's
  Euclidean division. It agrees with Python's `//` for the non-negative
  status codes HTTP has.
- The captcha branch of `fetch_page` is dead (`captcha_detected` is always
  `False`), and is not modelled.
- Logging, `log_*`, `pprint`, colorama, the `DEBUGGER`/`pdb` hook,
  `debug_phone_regex` (which only prints), `time.sleep` and `driver.quit`
  have no effect on the result and are left out.
- The headless option only configures Firefox, which is an oracle.
- `extract_from_html` is never called and is left out.
- `MapsScraper`, the command line, the thread pool and the GUI in
  `scraper_multi_gui.py` are not part of this model.
- `scrape_static`'s bare `except:` also catches exceptions the model cannot
  raise there. Only a failed request is modelled, and it is skipped.
- `Phone.ExampleMobile`, `Phone.ExampleKathmandu`: the worked examples use
  digit-only inputs. Inputs with separators such as `+977-61-531234` are
  covered by `Phone.SeparatorsIgnored` and `Phone.CountryCodeDropped`
  instead of one lemma per literal.
