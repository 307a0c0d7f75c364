/**
 * `utils/url_filters.py`: the `UrlFilter` that decides whether a URL is
 * worth crawling.  A URL passes when its scheme is `http` or `https`, it has
 * a host, the lowered host matches an allowed pattern, the lowered path does
 * not end in a binary extension, and none of thirteen crawler-trap tests
 * fires.  The tests run in a fixed order; `Check` reports which test turned
 * the URL down first.
 */
module UrlFilters {
  import opened Strings
  import opened Numbers
  import opened Urls
  import opened UrlPatterns

  /** `UrlFilter(allowed_domain_patterns, binary_extensions)`. */
  datatype UrlFilter = UrlFilter(patterns: seq<DomainPattern>, extensions: seq<string>)

  const ExactTrapParams: set<string> := {"q", "s"}
  const ContainsTrapParams: seq<string> := ["search", "query", "filter", "share"]
  const MaxPaginationPage: nat := 5
  const PaginationQueryParams: seq<string> := ["p=", "cat=", "author=", "page_id="]

  const LoginScripts: seq<string> := ["wp-login.php", "login.php", "signin.php", "sign-in.php"]
  const EventViews: seq<string> :=
    ["/events/month/", "/events/day/", "/events/week/", "/events/list/", "/events/category/"]
  const DateWords: seq<string> := ["date", "year", "month", "day", "time", "timestamp", "ical"]
  const DownloadActions: seq<string> := ["do=media", "action=download", "action=export"]
  const GitLabViews: seq<string> :=
    [ "/-/commit", "/-/blob", "/-/tree", "/-/raw", "/-/blame", "/-/compare",
      "/-/merge_requests", "/-/jobs", "/-/pipelines", "/-/network", "/-/tags",
      "/-/commits", "/-/branches", "/-/issues", "/-/milestones", "/-/releases", "/-/forks" ]
  const WikiActions: seq<string> := ["do=", "idx=", "sectok="]
  const WikiViews: seq<string> := ["version=", "action=diff", "format=txt"]
  const EppsteinDirs: set<string> := {"junkyard", "pix", "ca", "untetra"}

  /** The crawler-trap tests, in the order `is_valid` runs them. */
  datatype Trap =
    | LoginPage | CalendarPath | ExtensionInQuery | WikiTrap | GitLabTrap | DisplayHtmlTrap
    | EppsteinPath | VideoPath | SlidePage | NumberedReport | PaginationTrap | SearchOrFilter
    | DirListingSort

  const TrapOrder: seq<Trap> :=
    [ LoginPage, CalendarPath, ExtensionInQuery, WikiTrap, GitLabTrap, DisplayHtmlTrap,
      EppsteinPath, VideoPath, SlidePage, NumberedReport, PaginationTrap, SearchOrFilter,
      DirListingSort ]

  /** `_is_login_page`. */
  predicate IsLoginPage(p: Url) { ContainsAny(Lower(p.path), LoginScripts) }

  /** `_is_calendar_path`. */
  predicate IsCalendarPath(p: Url) {
    var path := Lower(p.path);
    || HasYearMonth(Segments(path))
    || HasDate(path)
    || ContainsAny(path, EventViews)
    || Contains(path, "/timeline")
    || (p.query != [] && ContainsAny(Lower(p.query), DateWords))
  }

  /** `_has_file_extension_in_query`. */
  predicate HasExtensionInQuery(f: UrlFilter, p: Url) {
    p.query != [] && (ContainsAny(Lower(p.query), DownloadActions) || ContainsAny(Lower(p.query), f.extensions))
  }

  /** `_is_wiki_trap`. */
  predicate IsWikiTrap(p: Url) {
    && p.query != []
    && var q := Lower(p.query);
      || (Contains(Lower(p.path), "doku.php") && ContainsAny(q, WikiActions))
      || ContainsAny(q, WikiViews)
  }

  /** `_is_gitlab_trap`. */
  predicate IsGitLabTrap(p: Url) {
    Contains(Lower(p.netloc), "gitlab") && ContainsAny(Lower(p.path), GitLabViews)
  }

  /** The lowered non-empty path segments. */
  function LoweredSegments(p: Url): seq<string> { LowerAll(Segments(p.path)) }

  /** `_is_eppstein_filtered_path`. */
  predicate IsEppsteinPath(p: Url) {
    var segments := LoweredSegments(p);
    segments != [] && exists k :: 0 <= k < |segments| && segments[k] in EppsteinDirs
  }

  /** `_is_video_path`. */
  predicate IsVideoPath(p: Url) {
    var segments := LoweredSegments(p);
    "videos" in segments || "video" in segments
  }

  /** `_is_pagination_trap`. */
  predicate IsPaginationTrap(p: Url) {
    || (FirstPage(Lower(p.path)).Some? && FirstPage(Lower(p.path)).value > MaxPaginationPage)
    || (p.query != [] && ContainsAny(Lower(p.query), PaginationQueryParams))
  }

  /** A query key that marks a search or filter page. */
  predicate IsSearchKey(k: string) { k in ExactTrapParams || ContainsAny(k, ContainsTrapParams) }

  /** `_is_search_or_filter_page`. */
  predicate IsSearchOrFilterPage(p: Url) {
    var keys := LowerAll(QueryKeys(p.query));
    p.query != [] && exists k :: 0 <= k < |keys| && IsSearchKey(keys[k])
  }

  /** `_is_dir_listing_sort_query`. */
  predicate IsDirListingSort(p: Url) {
    p.query != [] && Contains(Lower(p.query), "c=") && Contains(Lower(p.query), "o=")
  }

  predicate Fires(f: UrlFilter, t: Trap, p: Url) {
    match t
    case LoginPage => IsLoginPage(p)
    case CalendarPath => IsCalendarPath(p)
    case ExtensionInQuery => HasExtensionInQuery(f, p)
    case WikiTrap => IsWikiTrap(p)
    case GitLabTrap => IsGitLabTrap(p)
    case DisplayHtmlTrap => UrlPatterns.IsDisplayHtmlTrap(Lower(p.path))
    case EppsteinPath => IsEppsteinPath(p)
    case VideoPath => IsVideoPath(p)
    case SlidePage => IsSlidePage(Lower(p.path))
    case NumberedReport => IsNumberedReport(Lower(p.path))
    case PaginationTrap => IsPaginationTrap(p)
    case SearchOrFilter => IsSearchOrFilterPage(p)
    case DirListingSort => IsDirListingSort(p)
  }

  lemma EveryTrapIsChecked(t: Trap)
    ensures t in TrapOrder
  {
    match t
    case LoginPage => assert TrapOrder[0] == t;
    case CalendarPath => assert TrapOrder[1] == t;
    case ExtensionInQuery => assert TrapOrder[2] == t;
    case WikiTrap => assert TrapOrder[3] == t;
    case GitLabTrap => assert TrapOrder[4] == t;
    case DisplayHtmlTrap => assert TrapOrder[5] == t;
    case EppsteinPath => assert TrapOrder[6] == t;
    case VideoPath => assert TrapOrder[7] == t;
    case SlidePage => assert TrapOrder[8] == t;
    case NumberedReport => assert TrapOrder[9] == t;
    case PaginationTrap => assert TrapOrder[10] == t;
    case SearchOrFilter => assert TrapOrder[11] == t;
    case DirListingSort => assert TrapOrder[12] == t;
  }

  /** The index of the first trap in `traps` that fires, or `|traps|` if none does. */
  function FirstFiring(f: UrlFilter, p: Url, traps: seq<Trap>): (k: nat)
    ensures k <= |traps|
    ensures k < |traps| ==> Fires(f, traps[k], p)
    ensures forall j :: 0 <= j < k ==> !Fires(f, traps[j], p)
  {
    if traps == [] then 0
    else if Fires(f, traps[0], p) then 0
    else 1 + FirstFiring(f, p, traps[1..])
  }

  /** Why a URL was turned down. */
  datatype Reason = BadScheme | MissingHost | ForeignHost | BinaryExtension | Trapped(trap: Trap)

  predicate HasAllowedScheme(p: Url) { p.scheme == "http" || p.scheme == "https" }

  /** `path_lower.endswith(ext)` for some configured extension. */
  predicate HasBinaryExtension(f: UrlFilter, p: Url) {
    exists k :: 0 <= k < |f.extensions| && EndsWith(Lower(p.path), f.extensions[k])
  }

  /** The checks of `is_valid` in order, stopping at the first that rejects. */
  function Check(f: UrlFilter, p: Url): (r: Option<Reason>)
    ensures r == Some(BadScheme) <==> !HasAllowedScheme(p)
    ensures r.Some? && r.value.Trapped? ==>
      && HasAllowedScheme(p) && p.netloc != [] && AnyMatches(f.patterns, Lower(p.netloc))
      && !HasBinaryExtension(f, p)
      && Fires(f, r.value.trap, p)
      && exists k :: 0 <= k < |TrapOrder| && TrapOrder[k] == r.value.trap
           && forall j :: 0 <= j < k ==> !Fires(f, TrapOrder[j], p)
  {
    if !HasAllowedScheme(p) then Some(BadScheme)
    else if p.netloc == [] then Some(MissingHost)
    else if !AnyMatches(f.patterns, Lower(p.netloc)) then Some(ForeignHost)
    else if HasBinaryExtension(f, p) then Some(BinaryExtension)
    else
      var k := FirstFiring(f, p, TrapOrder);
      if k < |TrapOrder| then Some(Trapped(TrapOrder[k])) else None
  }

  /** `UrlFilter.is_valid(url)`. */
  predicate IsValid(f: UrlFilter, split: Splitter, url: string) {
    Check(f, split(url)).None?
  }

  /** The basic checks that come before the trap tests. */
  predicate PassesBasics(f: UrlFilter, p: Url) {
    HasAllowedScheme(p) && p.netloc != [] && AnyMatches(f.patterns, Lower(p.netloc)) && !HasBinaryExtension(f, p)
  }

  /** A URL is accepted exactly when every check passes, whatever the order they run in. */
  lemma AcceptsIff(f: UrlFilter, p: Url)
    ensures Check(f, p).None? <==> PassesBasics(f, p) && forall t: Trap :: !Fires(f, t, p)
  {
    if Check(f, p).None? {
      forall t: Trap ensures !Fires(f, t, p) {
        EveryTrapIsChecked(t);
      }
    }
  }

  /** A firing trap rejects a URL, and the reason names the first trap in order that fires. */
  lemma TrapRejects(f: UrlFilter, p: Url, t: Trap)
    requires PassesBasics(f, p) && Fires(f, t, p)
    ensures Check(f, p).Some? && Check(f, p).value.Trapped?
  {
    EveryTrapIsChecked(t);
  }

  // ---------------------------------------------------------------------------
  // Properties of the individual checks

  /** The URL with host, path and query lowered. */
  function Lowered(p: Url): Url {
    p.(netloc := Lower(p.netloc), path := Lower(p.path), query := Lower(p.query))
  }

  lemma SegmentsLower(path: string)
    ensures LowerAll(Segments(Lower(path))) == LowerAll(Segments(path))
  {
    SplitLower(path, '/');
    NonEmptyLowerAll(Split(path, '/'));
    LowerAllIdempotent(Segments(path));
  }

  /** The tests that read the URL only through its lowered host, path and query. */
  lemma FiresLoweredPlain(f: UrlFilter, t: Trap, p: Url)
    requires !t.EppsteinPath? && !t.VideoPath? && !t.SearchOrFilter?
    ensures Fires(f, t, Lowered(p)) == Fires(f, t, p)
  {
    LowerIdempotent(p.netloc);
    LowerIdempotent(p.path);
    LowerIdempotent(p.query);
  }

  /** Lowering a URL does not change its lowered path segments. */
  lemma SegmentsOfLowered(p: Url)
    ensures LoweredSegments(Lowered(p)) == LoweredSegments(p)
  {
    SegmentsLower(p.path);
  }

  lemma EppsteinLowered(p: Url)
    ensures IsEppsteinPath(Lowered(p)) == IsEppsteinPath(p)
  {
    SegmentsOfLowered(p);
  }

  lemma VideoLowered(p: Url)
    ensures IsVideoPath(Lowered(p)) == IsVideoPath(p)
  {
    SegmentsOfLowered(p);
  }

  /** The search test reads the lowered keys of the query, which lowering the query leaves alone. */
  lemma SearchLowered(p: Url)
    ensures IsSearchOrFilterPage(Lowered(p)) == IsSearchOrFilterPage(p)
  {
    QueryKeysLower(p.query);
    LowerAllIdempotent(QueryKeys(p.query));
    assert LowerAll(QueryKeys(Lowered(p).query)) == LowerAll(QueryKeys(p.query));
  }

  lemma FiresLowered(f: UrlFilter, t: Trap, p: Url)
    ensures Fires(f, t, Lowered(p)) == Fires(f, t, p)
  {
    match t
    case EppsteinPath => EppsteinLowered(p);
    case VideoPath => VideoLowered(p);
    case SearchOrFilter => SearchLowered(p);
    case _ => FiresLoweredPlain(f, t, p);
  }

  /** Two URLs with the same scheme, lowered host and path, and trap outcomes get the same verdict. */
  lemma CheckAgree(f: UrlFilter, p: Url, q: Url)
    requires p.scheme == q.scheme && Lower(p.netloc) == Lower(q.netloc) && Lower(p.path) == Lower(q.path)
    requires p.netloc == [] <==> q.netloc == []
    requires forall t: Trap :: Fires(f, t, p) == Fires(f, t, q)
    ensures Check(f, p) == Check(f, q)
  {
    FirstFiringAgree(f, p, q, TrapOrder);
  }

  /** The filter ignores letter case in the host, path and query. */
  lemma CheckIgnoresCase(f: UrlFilter, p: Url)
    ensures Check(f, Lowered(p)) == Check(f, p)
  {
    LowerIdempotent(p.netloc);
    LowerIdempotent(p.path);
    forall t: Trap ensures Fires(f, t, Lowered(p)) == Fires(f, t, p) {
      FiresLowered(f, t, p);
    }
    CheckAgree(f, Lowered(p), p);
  }


  lemma {:induction false} FirstFiringAgree(f: UrlFilter, p: Url, q: Url, traps: seq<Trap>)
    requires forall t: Trap :: Fires(f, t, p) == Fires(f, t, q)
    ensures FirstFiring(f, p, traps) == FirstFiring(f, q, traps)
  {
    if traps != [] {
      FirstFiringAgree(f, p, q, traps[1..]);
    }
  }

  /** A search key among the lowered query keys fires the search-or-filter test. */
  lemma SearchKeyFires(f: UrlFilter, p: Url, i: nat)
    requires p.query != [] && i < |QueryKeys(p.query)|
    requires IsSearchKey(LowerAll(QueryKeys(p.query))[i])
    ensures Fires(f, SearchOrFilter, p)
  {
  }

  /** Appending `&name=value` to a query appends `name` to its keys. */
  lemma AppendField(query: string, name: string, value: string)
    requires '=' !in name && '&' !in name && '+' !in name && '&' !in value
    ensures QueryKeys(query + "&" + (name + "=" + value)) == QueryKeys(query) + [name]
  {
    QueryKeysAppend(query, name + "=" + value);
    FieldKey(name, value);
  }

  /** The last key of a query ending in `&q=<value>` is `q`, lowered or not. */
  lemma LastKeyIsQ(query: string, value: string)
    requires '&' !in value
    ensures var keys := LowerAll(QueryKeys(query + "&" + "q=" + value));
      keys != [] && keys[|keys| - 1] == "q"
  {
    assert query + "&" + "q=" + value == query + "&" + ("q" + "=" + value);
    AppendField(query, "q", value);
    var keys := QueryKeys(query + "&" + "q=" + value);
    assert LowerAll(keys)[|keys| - 1] == Lower("q");
    LowerQ();
  }

  lemma LowerQ()
    ensures Lower("q") == "q"
  {
  }

  /** Appending a `q` parameter to the query makes any URL a search page. */
  lemma SearchParameterRejects(f: UrlFilter, p: Url, value: string)
    requires '&' !in value
    ensures Fires(f, SearchOrFilter, p.(query := p.query + "&" + "q=" + value))
  {
    var p1 := p.(query := p.query + "&" + "q=" + value);
    LastKeyIsQ(p.query, value);
    assert "q" in ExactTrapParams;
    SearchKeyFires(f, p1, |QueryKeys(p1.query)| - 1);
  }

  /** Only the leftmost `/page/<n>` in the path counts, and it fires above 5. */
  lemma PaginationByLeftmostPage(p: Url, i: nat)
    requires PageAt(Lower(p.path), i)
    requires forall k: nat :: k < i ==> !PageAt(Lower(p.path), k)
    requires p.query == []
    ensures IsPaginationTrap(p) <==> PageNumber(Lower(p.path), i) > MaxPaginationPage
  {
    FirstPageIsLeftmost(Lower(p.path), i);
  }
}
