/** `_get_root_domain` and `_is_same_root_domain`, on the host name that
    `urlparse` extracts (the parser itself is the `netloc` oracle). */
module Domain {
  import opened Strings

  function Labels(host: string): (parts: seq<string>)
    ensures |parts| >= 1
  {
    Split(Lower(host), '.')
  }

  /** How many trailing labels make the root domain: three for an `edu.np`
      host with at least three labels, two for any other host with a dot, and
      the one label of a host without a dot. */
  function RootLabelCount(parts: seq<string>): (k: nat)
    requires |parts| >= 1
    ensures 1 <= k <= |parts|
  {
    var n := |parts|;
    if n >= 3 && parts[n - 2] == "edu" && parts[n - 1] == "np" then 3
    else if n >= 2 then 2
    else 1
  }

  /** The root domain of a host: its last three labels when they end in
      `edu.np`, otherwise its last two, or the whole lower-cased host when it
      has no dot. */
  function RootDomain(netloc: string): string
  {
    var domain := Lower(netloc);
    var parts := Split(domain, '.');
    var n := |parts|;
    var k := RootLabelCount(parts);
    if k >= 2 then Join(parts[n - k..], '.') else domain
  }

  /** The root domain is lower case and ends the lower-cased host. */
  lemma RootDomainSuffix(netloc: string)
    ensures var r := RootDomain(netloc); IsLower(r) && EndsWith(Lower(netloc), r)
  {
    var domain := Lower(netloc);
    var parts := Split(domain, '.');
    var n := |parts|;
    var k := RootLabelCount(parts);
    LowerIsLower(netloc);
    if k >= 2 {
      JoinSplit(domain, '.');
      JoinTailIsSuffix(parts, '.', n - k);
      SuffixIsLower(domain, Join(parts[n - k..], '.'));
    } else {
      assert EndsWith(domain, domain);
    }
  }

  lemma SuffixIsLower(s: string, t: string)
    requires IsLower(s) && EndsWith(s, t)
    ensures IsLower(t)
  {
    forall i | 0 <= i < |t| ensures !('A' <= t[i] <= 'Z') {
      assert t[i] == s[|s| - |t| + i];
    }
  }

  lemma LowerOfLower(s: string)
    requires IsLower(s)
    ensures Lower(s) == s
  {
  }

  /** The last pieces of a split are free of the separator too. */
  lemma TailLabelsFree(domain: string, i: nat)
    requires i <= |Split(domain, '.')|
    ensures forall j :: 0 <= j < |Split(domain, '.')[i..]| ==> '.' !in Split(domain, '.')[i..][j]
  {
    var parts := Split(domain, '.');
    SplitPiecesFree(domain, '.');
    forall j | 0 <= j < |parts[i..]| ensures '.' !in parts[i..][j] {
      assert parts[i..][j] == parts[i + j];
    }
  }

  /** A lower-case string joined from dot-free labels has those labels. */
  lemma LabelsOfJoin(tail: seq<string>)
    requires |tail| >= 1 && IsLower(Join(tail, '.'))
    requires forall j :: 0 <= j < |tail| ==> '.' !in tail[j]
    ensures Labels(Join(tail, '.')) == tail
  {
    LowerOfLower(Join(tail, '.'));
    SplitJoin(tail, '.');
  }

  /** The labels of the root domain are the last `RootLabelCount` labels of
      the host. */
  lemma RootDomainLabels(netloc: string)
    ensures var parts := Labels(netloc);
      Labels(RootDomain(netloc)) == parts[|parts| - RootLabelCount(parts)..]
  {
    var parts := Labels(netloc);
    if RootLabelCount(parts) >= 2 {
      WideRootLabels(netloc);
    } else {
      SingleRootLabel(netloc);
    }
  }

  lemma SingleRootLabel(netloc: string)
    requires RootLabelCount(Labels(netloc)) < 2
    ensures var parts := Labels(netloc);
      Labels(RootDomain(netloc)) == parts[|parts| - RootLabelCount(parts)..]
  {
    var domain := Lower(netloc);
    var parts := Split(domain, '.');
    assert RootDomain(netloc) == domain;
    LowerIsLower(netloc);
    LowerOfLower(domain);
    assert Labels(domain) == parts;
    assert parts[|parts| - 1..] == parts;
  }

  lemma WideRootLabels(netloc: string)
    requires RootLabelCount(Labels(netloc)) >= 2
    ensures var parts := Labels(netloc);
      Labels(RootDomain(netloc)) == parts[|parts| - RootLabelCount(parts)..]
  {
    var domain := Lower(netloc);
    var parts := Split(domain, '.');
    var tail := parts[|parts| - RootLabelCount(parts)..];
    TailLabelsFree(domain, |parts| - RootLabelCount(parts));
    assert RootDomain(netloc) == Join(tail, '.');
    RootDomainSuffix(netloc);
    LabelsOfJoin(tail);
  }

  lemma RootDomainIdempotent(netloc: string)
    ensures RootDomain(RootDomain(netloc)) == RootDomain(netloc)
  {
    var r := RootDomain(netloc);
    var rr := RootDomain(r);
    var host := Labels(netloc);
    var k := RootLabelCount(host);
    var parts := Labels(r);
    RootDomainLabels(netloc);
    RootDomainLabels(r);
    assert parts == host[|host| - k..] && |parts| == k;
    if k == 3 {
      assert parts[1] == host[|host| - 2] && parts[2] == host[|host| - 1];
    }
    assert RootLabelCount(parts) == |parts|;
    assert Labels(rr) == parts;
    RootDomainSuffix(netloc);
    RootDomainSuffix(r);
    LowerOfLower(r);
    LowerOfLower(rr);
    JoinSplit(r, '.');
    JoinSplit(rr, '.');
  }

  /** `url.startswith(("http://", "https://"))` */
  predicate IsAbsolute(url: string)
  {
    StartsWith(url, "http://") || StartsWith(url, "https://")
  }

  /** `_is_same_root_domain`: a URL without an `http://` or `https://` scheme
      counts as relative and therefore as the same site.  `root` is the
      scraper's own root domain. */
  predicate SameRootDomain(netloc: string -> string, root: string, url: string)
  {
    !IsAbsolute(url) || RootDomain(netloc(url)) == root
  }

  /** Every URL without a scheme is on the same site, whatever it names. */
  lemma RelativeIsSameSite(netloc: string -> string, root: string, url: string)
    requires !IsAbsolute(url)
    ensures SameRootDomain(netloc, root, url)
  {
  }

  /** The scraper's own URL is on its own site. */
  lemma OwnUrlIsSameSite(netloc: string -> string, url: string)
    ensures SameRootDomain(netloc, RootDomain(netloc(url)), url)
  {
  }

  /** One more label in front of a host with at least two labels leaves its
      root domain alone, except in front of a bare `edu.np`, where the
      new label becomes the college name. */
  lemma SubdomainSameRoot(first: string, host: string)
    requires '.' !in first
    requires |Labels(host)| >= 2 && Labels(host) != ["edu", "np"]
    ensures RootDomain(first + "." + host) == RootDomain(host)
  {
    var parts := Labels(host);
    var sub := SubdomainLabels(first, host);
    var n := |parts|;
    assert sub[n + 1 - 2..] == parts[n - 2..];
    assert RootLabelCount(sub) == RootLabelCount(parts);
    var k := RootLabelCount(parts);
    assert sub[n + 1 - k..] == parts[n - k..];
  }

  /** Under a bare `edu.np` the new label is part of the root domain. */
  lemma SubdomainOfEduNp(first: string, host: string)
    requires '.' !in first
    requires Labels(host) == ["edu", "np"]
    ensures RootDomain(first + "." + host) == Lower(first) + ".edu.np"
  {
    var sub := SubdomainLabels(first, host);
    assert sub == [Lower(first), "edu", "np"];
    assert sub[3 - 3..] == sub;
    JoinCons(Lower(first), ["edu", "np"], '.');
    JoinCons("edu", ["np"], '.');
  }

  /** The labels of `first + "." + host`: the lower-cased label, then the host's. */
  lemma SubdomainLabels(first: string, host: string) returns (sub: seq<string>)
    requires '.' !in first
    ensures sub == Labels(first + "." + host) == [Lower(first)] + Labels(host)
  {
    LowerAppend(first, "." + host);
    LowerAppend(".", host);
    assert Lower(".") == ".";
    LowerKeepsDotFree(first);
    assert Lower(first + "." + host) == Lower(first) + ['.'] + Lower(host);
    SplitAfterPiece(Lower(first), Lower(host), '.');
    sub := Labels(first + "." + host);
  }

  /** A lower-case host made of exactly its root labels is its own root domain. */
  lemma {:induction false} RootHostIsOwnRoot(parts: seq<string>)
    requires |parts| >= 2 && RootLabelCount(parts) == |parts|
    requires forall j :: 0 <= j < |parts| ==> '.' !in parts[j]
    requires forall j :: 0 <= j < |parts| ==> IsLower(parts[j])
    ensures Labels(Join(parts, '.')) == parts
    ensures RootDomain(Join(parts, '.')) == Join(parts, '.')
  {
    var host := Join(parts, '.');
    JoinOfLower(parts);
    LabelsOfJoin(parts);
    assert Split(Lower(host), '.') == parts;
    assert parts[|parts| - |parts|..] == parts;
  }

  /** Lower-case labels join to a lower-case host. */
  lemma {:induction false} JoinOfLower(parts: seq<string>)
    requires |parts| >= 1
    requires forall j :: 0 <= j < |parts| ==> IsLower(parts[j])
    ensures IsLower(Join(parts, '.'))
    decreases |parts|
  {
    if |parts| > 1 {
      JoinOfLower(parts[1..]);
      var s := parts[0] + ['.'] + Join(parts[1..], '.');
      forall i | 0 <= i < |s| ensures !('A' <= s[i] <= 'Z') {
        if i < |parts[0]| {
          assert s[i] == parts[0][i];
        } else if i > |parts[0]| {
          assert s[i] == Join(parts[1..], '.')[i - |parts[0]| - 1];
        }
      }
    }
  }

  /** One label in front of a lower-case host made of exactly its root labels
      has that host as its root domain. */
  lemma SubdomainOfRootHost(first: string, parts: seq<string>)
    requires '.' !in first
    requires |parts| >= 2 && RootLabelCount(parts) == |parts| && parts != ["edu", "np"]
    requires forall j :: 0 <= j < |parts| ==> '.' !in parts[j] && IsLower(parts[j])
    ensures RootDomain(first + "." + Join(parts, '.')) == Join(parts, '.')
  {
    RootHostIsOwnRoot(parts);
    SubdomainSameRoot(first, Join(parts, '.'));
  }

  /** A college site under `edu.np` keeps three labels. */
  lemma ExampleEduNp()
    ensures RootDomain("eng.example.edu.np") == "example.edu.np"
  {
    var parts := ["example", "edu", "np"];
    assert Join(parts, '.') == "example.edu.np" by {
      JoinCons("example", ["edu", "np"], '.');
      JoinCons("edu", ["np"], '.');
    }
    assert "eng.example.edu.np" == "eng" + "." + "example.edu.np";
    SubdomainOfRootHost("eng", parts);
  }

  /** Any other site keeps two labels. */
  lemma ExampleCom()
    ensures RootDomain("shop.example.com") == "example.com"
  {
    var parts := ["example", "com"];
    assert Join(parts, '.') == "example.com" by {
      JoinCons("example", ["com"], '.');
    }
    assert "shop.example.com" == "shop" + "." + "example.com";
    SubdomainOfRootHost("shop", parts);
  }

  /** An absolute URL on a subdomain of a host is on the site exactly when the
      host is, so every subdomain of the scraper's own site is crawled. */
  lemma SubdomainIsSameSite(netloc: string -> string, root: string, other: string, first: string, host: string)
    requires IsAbsolute(other) && netloc(other) == first + "." + host
    requires '.' !in first
    requires |Labels(host)| >= 2 && Labels(host) != ["edu", "np"]
    ensures SameRootDomain(netloc, root, other) <==> RootDomain(host) == root
  {
    SubdomainSameRoot(first, host);
  }
}
