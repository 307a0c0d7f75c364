/**
 * `scraper.py`: link extraction from a fetched page and the URL test the
 * frontier applies (`is_valid`), which accepts `http`/`https` URLs on the
 * four allowed UCI host families whose path does not end in a binary file
 * extension.
 *
 * HTML parsing, `urljoin` and `urldefrag` are parameters (`LinkEnv`): the
 * parser maps page content to the `href` values of its anchors in document
 * order.
 */
module Scraper {
  import opened Strings
  import opened Numbers
  import opened Urls
  import UrlFilters

  /** `*.ics.uci.edu`, `*.cs.uci.edu`, `*.informatics.uci.edu`, `*.stat.uci.edu`. */
  const AllowedDomains: seq<DomainPattern> := [
    SubdomainsOf("ics.uci.edu"),
    SubdomainsOf("cs.uci.edu"),
    SubdomainsOf("informatics.uci.edu"),
    SubdomainsOf("stat.uci.edu")
  ]

  /** The alternatives of the extension pattern, with `jpe?g` and `tiff?` spelt out. */
  const BinaryExtensions: seq<string> := [
    "css", "js", "bmp", "gif", "jpg", "jpeg", "ico",
    "png", "tif", "tiff", "mid", "mp2", "mp3", "mp4",
    "wav", "avi", "mov", "mpeg", "ram", "m4v", "mkv", "ogg", "ogv", "pdf",
    "ps", "eps", "tex", "ppt", "pptx", "doc", "docx", "xls", "xlsx", "names",
    "data", "dat", "exe", "bz2", "tar", "msi", "bin", "7z", "psd", "dmg", "iso",
    "epub", "dll", "cnf", "tgz", "sha1",
    "thmx", "mso", "arff", "rtf", "jar", "csv",
    "rm", "smil", "wmv", "swf", "wma", "zip", "rar", "gz"
  ]

  /** `re.match(r".*\.(<extensions>)$", path)`: the path ends in a dot and one of the extensions. */
  predicate EndsInExtension(exts: seq<string>, path: string) {
    exists k :: 0 <= k < |exts| && EndsWith(path, "." + exts[k])
  }

  /** The tests of `is_valid` for a list of host patterns and a list of extensions. */
  predicate AcceptsWith(domains: seq<DomainPattern>, exts: seq<string>, p: Url) {
    if p.scheme != "http" && p.scheme != "https" then false
    else if p.netloc == [] then false
    else if !AnyMatches(domains, Lower(p.netloc)) then false
    else !EndsInExtension(exts, Lower(p.path))
  }

  /** `is_valid(url)` on the parsed URL. */
  predicate Accepts(p: Url) {
    AcceptsWith(AllowedDomains, BinaryExtensions, p)
  }

  /** `is_valid(url)`. */
  predicate IsValid(split: Splitter, url: string) { Accepts(split(url)) }

  /** Hosts in the four families are allowed, whatever the letter case. */
  lemma AllowedHost(p: Url, prefix: string, k: nat)
    requires k < |AllowedDomains|
    requires Lower(p.netloc) == AllowedDomains[k].suffix || (prefix != [] && Lower(p.netloc) == prefix + "." + AllowedDomains[k].suffix)
    ensures AnyMatches(AllowedDomains, Lower(p.netloc))
  {
    if Lower(p.netloc) != AllowedDomains[k].suffix {
      MatchesSubdomain(AllowedDomains[k], prefix);
    }
  }

  /** An allowed host other than the family names themselves has a dot right before the family name. */
  lemma AllowedHostHasDot(host: string) returns (k: nat, prefix: string)
    requires AnyMatches(AllowedDomains, host)
    ensures k < |AllowedDomains|
    ensures host == AllowedDomains[k].suffix || (prefix != [] && host == prefix + "." + AllowedDomains[k].suffix)
  {
    k :| 0 <= k < |AllowedDomains| && Matches(AllowedDomains[k], host);
    prefix := [];
    if host != AllowedDomains[k].suffix {
      prefix := MatchesSplits(AllowedDomains[k], host);
    }
  }

  // ---------------------------------------------------------------------------
  // Relation to the configurable `UrlFilter`

  /** `["." + e for e in exts]`. */
  function Dotted(exts: seq<string>): (r: seq<string>)
    ensures |r| == |exts|
    ensures forall k :: 0 <= k < |exts| ==> r[k] == "." + exts[k]
  {
    seq(|exts|, k requires 0 <= k < |exts| => "." + exts[k])
  }

  /** A `UrlFilter` configured with this module's host patterns and dotted extensions. */
  function CrawlerFilter(): UrlFilters.UrlFilter {
    UrlFilters.UrlFilter(AllowedDomains, Dotted(BinaryExtensions))
  }

  /** A filter configured with host patterns and dotted extensions runs the same basic tests as `is_valid`. */
  lemma DottedBasics(domains: seq<DomainPattern>, exts: seq<string>, p: Url)
    ensures UrlFilters.PassesBasics(UrlFilters.UrlFilter(domains, Dotted(exts)), p) <==> AcceptsWith(domains, exts, p)
  {
    var f := UrlFilters.UrlFilter(domains, Dotted(exts));
    if UrlFilters.HasBinaryExtension(f, p) {
      var k :| 0 <= k < |f.extensions| && EndsWith(Lower(p.path), f.extensions[k]);
      assert EndsWith(Lower(p.path), "." + exts[k]);
    }
  }

  /** Its checks before the trap tests are exactly `is_valid` of the scraper. */
  lemma CrawlerFilterBasics(p: Url)
    ensures UrlFilters.PassesBasics(CrawlerFilter(), p) <==> Accepts(p)
  {
    DottedBasics(AllowedDomains, BinaryExtensions, p);
  }

  /** So that filter accepts a URL only if the scraper does, and the two differ only by the trap tests. */
  lemma CrawlerFilterIsStricter(split: Splitter, url: string)
    ensures UrlFilters.IsValid(CrawlerFilter(), split, url) ==> IsValid(split, url)
    ensures IsValid(split, url) && (forall t: UrlFilters.Trap :: !UrlFilters.Fires(CrawlerFilter(), t, split(url)))
      ==> UrlFilters.IsValid(CrawlerFilter(), split, url)
  {
    CrawlerFilterBasics(split(url));
    UrlFilters.AcceptsIff(CrawlerFilter(), split(url));
  }

  // ---------------------------------------------------------------------------
  // Link extraction

  /** The fetched page: `resp.url`, `resp.status` and `resp.raw_response.content`, when present. */
  datatype Response = Response(url: string, status: int, content: Option<string>)

  /** HTML parsing (anchor `href`s in document order), `urljoin` and `urldefrag(...)[0]`. */
  datatype LinkEnv = LinkEnv(hrefs: string -> seq<string>, join: (string, string) -> string, defrag: string -> string)

  function Resolve(env: LinkEnv, base: string, hrefs: seq<string>): (links: seq<string>)
    ensures |links| == |hrefs|
    ensures forall i :: 0 <= i < |hrefs| ==> links[i] == env.defrag(env.join(base, hrefs[i]))
  {
    if hrefs == [] then [] else [env.defrag(env.join(base, hrefs[0]))] + Resolve(env, base, hrefs[1..])
  }

  /**
   * `extract_next_links(url, resp)`: nothing unless the status is 200 and the
   * page has content; otherwise each anchor, resolved against the page's own
   * URL (or the requested one when the response names none) and stripped of
   * its fragment.
   */
  function ExtractNextLinks(env: LinkEnv, url: string, resp: Response): (links: seq<string>)
    ensures resp.status != 200 ==> links == []
    ensures resp.content.None? || resp.content == Some([]) ==> links == []
    ensures resp.status == 200 && resp.content.Some? && resp.content.value != [] ==>
      |links| == |env.hrefs(resp.content.value)|
  {
    if resp.status != 200 then []
    else if resp.content.None? || resp.content.value == [] then []
    else
      var base := if resp.url != [] then resp.url else url;
      Resolve(env, base, env.hrefs(resp.content.value))
  }

  /** `[link for link in links if is_valid(link)]`. */
  function KeepValid(split: Splitter, links: seq<string>): (kept: seq<string>)
    ensures |kept| <= |links|
    ensures forall i :: 0 <= i < |kept| ==> IsValid(split, kept[i]) && kept[i] in links
    ensures forall l :: l in links && IsValid(split, l) ==> l in kept
  {
    if links == [] then []
    else (if IsValid(split, links[0]) then [links[0]] else []) + KeepValid(split, links[1..])
  }

  /** Filtering keeps the order of the links it keeps: it distributes over concatenation. */
  lemma {:induction false} KeepValidAppend(split: Splitter, a: seq<string>, b: seq<string>)
    ensures KeepValid(split, a + b) == KeepValid(split, a) + KeepValid(split, b)
  {
    if a == [] {
      assert a + b == b;
    } else {
      assert (a + b)[0] == a[0];
      assert (a + b)[1..] == a[1..] + b;
      KeepValidAppend(split, a[1..], b);
    }
  }

  /** Filtering twice is filtering once. */
  lemma {:induction false} KeepValidIdempotent(split: Splitter, links: seq<string>)
    ensures KeepValid(split, KeepValid(split, links)) == KeepValid(split, links)
  {
    if links != [] {
      var head := if IsValid(split, links[0]) then [links[0]] else [];
      KeepValidIdempotent(split, links[1..]);
      KeepValidAppend(split, head, KeepValid(split, links[1..]));
    }
  }

  /** `scraper(url, resp)`: the extracted links the frontier would accept. */
  function Scrape(env: LinkEnv, split: Splitter, url: string, resp: Response): (links: seq<string>)
    ensures forall i :: 0 <= i < |links| ==> IsValid(split, links[i])
    ensures forall l :: l in ExtractNextLinks(env, url, resp) && IsValid(split, l) ==> l in links
    ensures forall l :: l in links ==> l in ExtractNextLinks(env, url, resp)
    ensures resp.status != 200 ==> links == []
  {
    KeepValid(split, ExtractNextLinks(env, url, resp))
  }
}
