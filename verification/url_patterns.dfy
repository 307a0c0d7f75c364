/**
 * The regular expressions of `utils/url_filters.py`, read as predicates on
 * strings.  `re.search(p, s)` succeeds iff some index of `s` starts a match,
 * so each pattern is a predicate `XAt(s, i)` ("a match starts at `i`") and
 * the search is `exists i :: XAt(s, i)`.  Only the pagination pattern uses
 * the matched text, so only there does the leftmost match matter
 * (`FirstPage`).
 *
 * The patterns are applied to URL components, which contain no line breaks,
 * so `$` is the end of the string and `.` is any character; `\d` and `\w`
 * are their ASCII readings.
 */
module UrlPatterns {
  import opened Strings
  import opened Numbers

  /** The length of the run of digits starting at `j` (0 past the end). */
  function DigitRun(s: string, j: nat): (n: nat)
    ensures n == 0 || j + n <= |s|
    ensures forall k :: j <= k < j + n ==> IsDigit(s[k])
    ensures j + n >= |s| || !IsDigit(s[j + n])
    decreases |s| - j
  {
    if j < |s| && IsDigit(s[j]) then 1 + DigitRun(s, j + 1) else 0
  }

  /** The run of digits after `pre` is exactly `d` when the character after `d` is not a digit. */
  lemma {:induction false} DigitRunOf(pre: string, d: string, post: string)
    requires forall k :: 0 <= k < |d| ==> IsDigit(d[k])
    requires post == [] || !IsDigit(post[0])
    ensures DigitRun(pre + d + post, |pre|) == |d|
    decreases |d|
  {
    var s := pre + d + post;
    if d == [] {
      assert post != [] ==> s[|pre|] == post[0];
    } else {
      assert s == (pre + [d[0]]) + d[1..] + post;
      DigitRunOf(pre + [d[0]], d[1..], post);
      assert s[|pre|] == d[0];
    }
  }

  // ---------------------------------------------------------------------------
  // `\b\d{4}-\d{2}(-\d{2})?\b`

  /** `\b` before a word character at `i`. */
  predicate BoundaryBefore(s: string, i: nat) { i == 0 || (i <= |s| && !IsWordChar(s[i - 1])) }

  /** `\b` after a word character ending at `j`. */
  predicate BoundaryAfter(s: string, j: nat) { j >= |s| || !IsWordChar(s[j]) }

  predicate DigitsAt(s: string, i: nat, n: nat) {
    i + n <= |s| && forall k :: i <= k < i + n ==> IsDigit(s[k])
  }

  predicate DateAt(s: string, i: nat) {
    && BoundaryBefore(s, i) && DigitsAt(s, i, 4) && StartsAt(s, "-", i + 4) && DigitsAt(s, i + 5, 2)
    && (|| BoundaryAfter(s, i + 7)
        || (StartsAt(s, "-", i + 7) && DigitsAt(s, i + 8, 2) && BoundaryAfter(s, i + 10)))
  }

  predicate HasDate(s: string) { exists i: nat :: i <= |s| && DateAt(s, i) }

  /**
   * The optional `-dd` group never decides whether the pattern is found: when
   * it matches, the `-` after the month already is a word boundary.
   */
  lemma DayGroupIsRedundant(s: string, i: nat)
    ensures DateAt(s, i) <==>
      BoundaryBefore(s, i) && DigitsAt(s, i, 4) && StartsAt(s, "-", i + 4) && DigitsAt(s, i + 5, 2) && BoundaryAfter(s, i + 7)
  {
  }

  /** A `yyyy-mm` date set off from the surrounding word characters is found. */
  lemma DateIsFound(pre: string, year: string, month: string, post: string)
    requires pre == [] || !IsWordChar(pre[|pre| - 1])
    requires |year| == 4 && AllDigits(year) && |month| == 2 && AllDigits(month)
    requires post == [] || !IsWordChar(post[0])
    ensures HasDate(pre + year + "-" + month + post)
  {
    var s := pre + year + "-" + month + post;
    var i := |pre|;
    assert s[i + 4] == '-';
    assert forall k :: 0 <= k < 4 ==> s[i + k] == year[k];
    assert forall k :: 0 <= k < 2 ==> s[i + 5 + k] == month[k];
    assert post != [] ==> s[i + 7] == post[0];
    assert i > 0 ==> s[i - 1] == pre[|pre| - 1];
    assert DateAt(s, i);
  }

  // ---------------------------------------------------------------------------
  // `/page/(\d+)(?:/|$)`, leftmost match

  /** A match starts at `i`: the digit run after `/page/` is followed by `/` or the end. */
  predicate PageAt(s: string, i: nat) {
    && StartsAt(s, "/page/", i)
    && DigitRun(s, i + 6) >= 1
    && (var k := i + 6 + DigitRun(s, i + 6); k == |s| || StartsAt(s, "/", k))
  }

  /** `int(m.group(1))` for the match at `i`. */
  function PageNumber(s: string, i: nat): nat
    requires PageAt(s, i)
  {
    DigitsValue(s[i + 6..i + 6 + DigitRun(s, i + 6)])
  }

  /** `re.search` from index `i`: the number of the leftmost match at or after `i`. */
  function FirstPageFrom(s: string, i: nat): Option<nat>
    decreases |s| - i
  {
    if i > |s| then None
    else if PageAt(s, i) then Some(PageNumber(s, i))
    else FirstPageFrom(s, i + 1)
  }

  function FirstPage(s: string): Option<nat> { FirstPageFrom(s, 0) }

  /** `PageAt` holds nowhere beyond the end of the string. */
  lemma PageAtBound(s: string, i: nat)
    requires PageAt(s, i)
    ensures i <= |s|
  {
  }

  /** No match means no number; a number comes from a match with none before it. */
  lemma {:induction false} FirstPageFromIsLeftmost(s: string, i: nat) returns (j: nat)
    ensures FirstPageFrom(s, i).None? ==> forall k: nat :: i <= k ==> !PageAt(s, k)
    ensures FirstPageFrom(s, i).Some? ==>
      && i <= j && PageAt(s, j) && FirstPageFrom(s, i) == Some(PageNumber(s, j))
      && forall k: nat :: i <= k < j ==> !PageAt(s, k)
    decreases |s| - i
  {
    if i > |s| {
      forall k: nat | i <= k ensures !PageAt(s, k) {
        if PageAt(s, k) { PageAtBound(s, k); }
      }
      j := i;
    } else if PageAt(s, i) {
      j := i;
    } else {
      j := FirstPageFromIsLeftmost(s, i + 1);
    }
  }

  /** The number `re.search` reports is the one of the leftmost match. */
  lemma FirstPageIsLeftmost(s: string, i: nat)
    requires PageAt(s, i)
    requires forall k: nat :: k < i ==> !PageAt(s, k)
    ensures FirstPage(s) == Some(PageNumber(s, i))
  {
    var j := FirstPageFromIsLeftmost(s, 0);
  }

  // ---------------------------------------------------------------------------
  // `/(?:t)?sld\d+\.htm(l?)$` and `/r\d+a?\.html$`

  /** `\.htm(l?)$` at `e`. */
  predicate HtmEnd(s: string, e: nat) {
    StartsAt(s, ".htm", e) && (e + 4 == |s| || (e + 5 == |s| && StartsAt(s, "l", e + 4)))
  }

  /** `sld\d+\.htm(l?)$` at `k`. */
  predicate SlideTail(s: string, k: nat) {
    StartsAt(s, "sld", k) && DigitRun(s, k + 3) >= 1 && HtmEnd(s, k + 3 + DigitRun(s, k + 3))
  }

  /** A slide-page match from `i` to the end of `s`; the optional `t` is taken when present. */
  predicate SlideAt(s: string, i: nat) {
    StartsAt(s, "/", i) && SlideTail(s, if StartsAt(s, "t", i + 1) then i + 2 else i + 1)
  }

  predicate IsSlidePage(s: string) { exists i: nat :: i <= |s| && SlideAt(s, i) }

  /** The text `sld<digits>.htm[l]`. */
  function SlideTailText(digits: string, l: string): string { "sld" + digits + ".htm" + l }

  /** A marker, a run of digits and a tail: the marker sits after `pre`, the run is exactly the digits and the tail follows it. */
  lemma MarkedDigits(pre: string, m: string, digits: string, tail: string)
    requires AllDigits(digits)
    requires tail != [] && !IsDigit(tail[0])
    ensures StartsAt(pre + m + digits + tail, m, |pre|)
    ensures DigitRun(pre + m + digits + tail, |pre| + |m|) == |digits|
    ensures StartsAt(pre + m + digits + tail, tail, |pre| + |m| + |digits|)
  {
    RegroupTail(pre, m, digits, tail);
    StartsAtConcat(pre, m, digits + tail);
    DigitRunOf(pre + m, digits, tail);
    StartsAtConcat(pre + m + digits, tail, []);
  }

  /** Re-bracketing of a four-part concatenation, and an empty tail. */
  lemma RegroupTail(a: string, b: string, c: string, d: string)
    ensures a + b + c + d == a + b + (c + d)
    ensures a + b + c + d + [] == a + b + c + d
  {
  }

  /** Re-bracketing of a five-part concatenation. */
  lemma Regroup(a: string, b: string, c: string, d: string, e: string)
    ensures a + (b + c + d + e) == a + b + c + (d + e)
  {
  }

  lemma SlideTailShape(a: string, digits: string, l: string)
    requires AllDigits(digits)
    requires l == "" || l == "l"
    ensures SlideTail(a + SlideTailText(digits, l), |a|)
  {
    var s := a + SlideTailText(digits, l);
    var e := |a| + 3 + |digits|;
    Regroup(a, "sld", digits, ".htm", l);
    MarkedDigits(a, "sld", digits, ".htm" + l);
    StartsAtSplit(s, ".htm", l, e);
  }

  /** A one-character pattern occurs at `j` iff that character is there. */
  lemma StartsAtChar(s: string, c: char, j: nat)
    ensures StartsAt(s, [c], j) <==> j < |s| && s[j] == c
  {
    assert [c][1..] == [];
  }

  /** The leading `/` and the optional `t`, which is taken exactly when present. */
  lemma SlideHead(pre: string, t: string, rest: string)
    requires t == "" || t == "t"
    requires rest != [] && rest[0] == 's'
    ensures StartsAt(pre + "/" + t + rest, "/", |pre|)
    ensures StartsAt(pre + "/" + t + rest, "t", |pre| + 1) <==> t == "t"
  {
    var s := pre + "/" + t + rest;
    var i := |pre|;
    StartsAtChar(s, '/', i);
    StartsAtChar(s, 't', i + 1);
    assert s[i] == '/';
    assert s[i + 1] == if t == "t" then 't' else 's';
  }

  /** Every path of the shape `…/[t]sld<digits>.htm[l]` is a slide page. */
  lemma SlidePageShape(pre: string, t: string, digits: string, l: string)
    requires t == "" || t == "t"
    requires AllDigits(digits)
    requires l == "" || l == "l"
    ensures IsSlidePage(pre + "/" + t + SlideTailText(digits, l))
  {
    SlideHead(pre, t, SlideTailText(digits, l));
    SlideTailShape(pre + "/" + t, digits, l);
    assert SlideAt(pre + "/" + t + SlideTailText(digits, l), |pre|);
  }

  /** A numbered-report match from `i` to the end of `s`. */
  predicate ReportAt(s: string, i: nat) {
    && StartsAt(s, "/r", i)
    && DigitRun(s, i + 2) >= 1
    && var e := i + 2 + DigitRun(s, i + 2);
      || (StartsAt(s, ".html", e) && e + 5 == |s|)
      || (StartsAt(s, "a.html", e) && e + 6 == |s|)
  }

  predicate IsNumberedReport(s: string) { exists i: nat :: i <= |s| && ReportAt(s, i) }

  /** Every path of the shape `…/r<digits>[a].html` is a numbered report. */
  lemma ReportShape(pre: string, digits: string, a: string)
    requires AllDigits(digits)
    requires a == "" || a == "a"
    ensures IsNumberedReport(pre + "/r" + digits + a + ".html")
  {
    MarkedDigits(pre, "/r", digits, a + ".html");
    assert pre + "/r" + digits + a + ".html" == pre + "/r" + digits + (a + ".html");
    assert ReportAt(pre + "/r" + digits + a + ".html", |pre|);
  }

  // ---------------------------------------------------------------------------
  // `display\.html/.+`

  predicate DisplayHtmlAt(s: string, i: nat) { StartsAt(s, "display.html/", i) && i + 13 < |s| }

  predicate IsDisplayHtmlTrap(s: string) { exists i: nat :: i <= |s| && DisplayHtmlAt(s, i) }

  /** `display.html/` followed by at least one character is found anywhere in the path. */
  lemma DisplayHtmlWithTail(pre: string, post: string)
    requires post != []
    ensures IsDisplayHtmlTrap(pre + "display.html/" + post)
  {
    StartsAtConcat(pre, "display.html/", post);
    assert DisplayHtmlAt(pre + "display.html/" + post, |pre|);
  }

  // ---------------------------------------------------------------------------
  // `/YYYY/MM` segment pairs

  predicate YearSegment(y: string) { |y| == 4 && AllDigits(y) && 1900 <= DigitsValue(y) <= 2099 }

  predicate MonthSegment(m: string) { AllDigits(m) && 1 <= DigitsValue(m) <= 12 }

  /** The loop at url_filters.py:62-68: a year segment directly followed by a month segment. */
  predicate HasYearMonth(segments: seq<string>) {
    exists k :: 0 <= k < |segments| - 1 && YearSegment(segments[k]) && MonthSegment(segments[k + 1])
  }

  // ---------------------------------------------------------------------------
  // Query-string keys, as `parse_qs(query, keep_blank_values=True)` names them

  /** `+` read as a space. */
  function PlusToSpace(s: string): (r: string)
    ensures |r| == |s|
    ensures forall i :: 0 <= i < |s| ==> r[i] == (if s[i] == '+' then ' ' else s[i])
  {
    if s == [] then [] else [if s[0] == '+' then ' ' else s[0]] + PlusToSpace(s[1..])
  }

  /** The name of a `name=value` field: everything before the first `=`. */
  function FieldName(field: string): string {
    PlusToSpace(Split(field, '=')[0])
  }

  function FieldNames(fields: seq<string>): (r: seq<string>)
    ensures |r| == |fields|
    ensures forall i :: 0 <= i < |fields| ==> r[i] == FieldName(fields[i])
  {
    if fields == [] then [] else [FieldName(fields[0])] + FieldNames(fields[1..])
  }

  /** The keys of the parsed query: one per non-empty `&`-separated field. */
  function QueryKeys(query: string): seq<string> {
    FieldNames(NonEmpty(Split(query, '&')))
  }

  lemma {:induction false} NonEmptyAppend(a: seq<string>, b: seq<string>)
    ensures NonEmpty(a + b) == NonEmpty(a) + NonEmpty(b)
  {
    if a == [] {
      assert a + b == b;
    } else {
      assert (a + b)[0] == a[0];
      assert (a + b)[1..] == a[1..] + b;
      NonEmptyAppend(a[1..], b);
    }
  }

  /** Joining two queries with `&` joins their key lists. */
  lemma QueryKeysAppend(q1: string, q2: string)
    ensures QueryKeys(q1 + "&" + q2) == QueryKeys(q1) + QueryKeys(q2)
  {
    SplitAppend(q1, '&', q2);
    NonEmptyAppend(Split(q1, '&'), Split(q2, '&'));
    FieldNamesAppend(NonEmpty(Split(q1, '&')), NonEmpty(Split(q2, '&')));
  }

  lemma {:induction false} FieldNamesAppend(a: seq<string>, b: seq<string>)
    ensures FieldNames(a + b) == FieldNames(a) + FieldNames(b)
  {
    if a == [] {
      assert a + b == b;
    } else {
      assert (a + b)[0] == a[0] && (a + b)[1..] == a[1..] + b;
      FieldNamesAppend(a[1..], b);
    }
  }

  /** The field `name=value` is named `name` when the name holds no `=`, `&` or `+`. */
  lemma FieldKey(name: string, value: string)
    requires '=' !in name && '&' !in name && '+' !in name && '&' !in value
    ensures QueryKeys(name + "=" + value) == [name]
  {
    var field := name + "=" + value;
    SplitNoSeparator(field, '&');
    assert NonEmpty([field]) == [field];
    SplitAppend(name, '=', value);
    SplitNoSeparator(name, '=');
    assert Split(field, '=')[0] == name;
    assert PlusToSpace(name) == name;
  }

  lemma FieldNameLower(field: string)
    ensures FieldName(Lower(field)) == Lower(FieldName(field))
  {
    SplitLower(field, '=');
    assert Split(Lower(field), '=')[0] == Lower(Split(field, '=')[0]);
  }

  /** The keys of a lowered query are the lowered keys. */
  lemma QueryKeysLower(query: string)
    ensures QueryKeys(Lower(query)) == LowerAll(QueryKeys(query))
  {
    SplitLower(query, '&');
    NonEmptyLowerAll(Split(query, '&'));
    var fields := NonEmpty(Split(query, '&'));
    forall k | 0 <= k < |fields| ensures FieldNames(LowerAll(fields))[k] == LowerAll(FieldNames(fields))[k] {
      FieldNameLower(fields[k]);
    }
  }
}
