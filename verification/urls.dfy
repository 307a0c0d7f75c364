/**
 * URLs as the crawler sees them (`utils/__init__.py`): the six components
 * `urlparse` produces, the trailing-slash normalisation applied before a URL
 * is stored, and the key a URL is stored under.
 *
 * `urlparse` and `sha256(...).hexdigest()` are parameters of the model: a
 * `Splitter` maps a URL string to its components and a `Digest` maps the key
 * preimage to a hex string.  Nothing is assumed about either beyond being a
 * function, so no property proved here relies on the digest being injective.
 */
module Urls {
  import opened Strings

  /** The result of `urlparse(url)`. */
  datatype Url = Url(scheme: string, netloc: string, path: string, params: string, query: string, fragment: string)

  type Splitter = string -> Url

  type Digest = string -> string

  /** `s.rstrip("/")`. */
  function StripSlashes(s: string): (r: string)
    ensures |r| <= |s| && s[..|r|] == r
    ensures r == [] || r[|r| - 1] != '/'
    ensures forall i :: |r| <= i < |s| ==> s[i] == '/'
  {
    if s != [] && s[|s| - 1] == '/' then StripSlashes(s[..|s| - 1]) else s
  }

  /**
   * `normalize(url)`: a URL ending in `/` loses all its trailing slashes; any
   * other URL is returned unchanged.
   */
  function Normalize(url: string): (r: string)
    ensures |r| <= |url| && url[..|r|] == r
    ensures r == [] || r[|r| - 1] != '/'
    ensures forall i :: |r| <= i < |url| ==> url[i] == '/'
  {
    if EndsWith(url, "/") then StripSlashes(url) else url
  }

  /**
   * The contract of `Normalize` determines its result: the longest prefix
   * that does not end in `/` and is followed by slashes only.
   */
  lemma NormalizeUnique(url: string, r: string)
    requires |r| <= |url| && url[..|r|] == r
    requires r == [] || r[|r| - 1] != '/'
    requires forall i :: |r| <= i < |url| ==> url[i] == '/'
    ensures Normalize(url) == r
  {
    var n := Normalize(url);
    assert |n| == |r|;
  }

  lemma NormalizeIdempotent(url: string)
    ensures Normalize(Normalize(url)) == Normalize(url)
  {
    var n := Normalize(url);
    NormalizeUnique(n, n);
  }

  /** Trailing slashes do not tell URLs apart. */
  lemma NormalizeIgnoresTrailingSlash(url: string)
    ensures Normalize(url + "/") == Normalize(url)
  {
    var n := Normalize(url);
    var u := url + "/";
    assert u[..|n|] == url[..|n|];
    NormalizeUnique(u, n);
  }

  /** A URL that does not end in a slash is its own normal form. */
  lemma NormalizeKeepsUnslashed(url: string)
    requires url == [] || url[|url| - 1] != '/'
    ensures Normalize(url) == url
  {
    NormalizeUnique(url, url);
  }

  /** The string hashed by `get_urlhash`: every component but the scheme, joined by `/`. */
  function KeyInput(p: Url): string {
    p.netloc + "/" + p.path + "/" + p.params + "/" + p.query + "/" + p.fragment
  }

  /** `get_urlhash(url)`. */
  function UrlHash(split: Splitter, digest: Digest, url: string): string {
    digest(KeyInput(split(url)))
  }

  /** URLs that differ only in their scheme share a key. */
  lemma HashIgnoresScheme(split: Splitter, digest: Digest, u: string, v: string)
    requires split(v) == split(u).(scheme := split(v).scheme)
    ensures UrlHash(split, digest, u) == UrlHash(split, digest, v)
  {
  }

  /**
   * Joining with `/` loses where one component ends: a query `b/` with no
   * fragment and a query `b` with fragment `/` give the same key input, so
   * `http://h/a?b/` and `http://h/a?b#/` share a key.
   */
  lemma KeyInputAmbiguous(netloc: string, path: string)
    ensures Url("http", netloc, path, "", "b/", "") != Url("http", netloc, path, "", "b", "/")
    ensures KeyInput(Url("http", netloc, path, "", "b/", "")) == KeyInput(Url("http", netloc, path, "", "b", "/"))
  {
    var pre := netloc + "/" + path + "/" + "" + "/";
    assert KeyInput(Url("http", netloc, path, "", "b/", "")) == pre + "b/" + "/" + "";
    assert KeyInput(Url("http", netloc, path, "", "b", "/")) == pre + "b" + "/" + "/";
  }

  /**
   * A host pattern `^(.+\.)?<suffix>$`: the host is the suffix itself or
   * ends in `.<suffix>` after at least one more character.
   */
  datatype DomainPattern = SubdomainsOf(suffix: string)

  predicate Matches(p: DomainPattern, host: string) {
    host == p.suffix || (|host| >= |p.suffix| + 2 && EndsWith(host, "." + p.suffix))
  }

  /** Every non-empty label sequence in front of the suffix is accepted. */
  lemma MatchesSubdomain(p: DomainPattern, prefix: string)
    requires prefix != []
    ensures Matches(p, prefix + "." + p.suffix)
  {
    var host := prefix + "." + p.suffix;
    StartsAtIff(host, "." + p.suffix, |host| - |"." + p.suffix|);
    assert host[|prefix|..] == "." + p.suffix;
  }

  /** A matching host other than the suffix splits as `<non-empty prefix>.<suffix>`. */
  lemma MatchesSplits(p: DomainPattern, host: string) returns (prefix: string)
    requires Matches(p, host) && host != p.suffix
    ensures prefix != [] && host == prefix + "." + p.suffix
  {
    var k := |host| - |p.suffix| - 1;
    StartsAtIff(host, "." + p.suffix, k);
    prefix := host[..k];
    assert host == host[..k] + host[k..];
  }

  /** `any(p.match(host) for p in patterns)`. */
  predicate AnyMatches(patterns: seq<DomainPattern>, host: string) {
    exists i :: 0 <= i < |patterns| && Matches(patterns[i], host)
  }
}
