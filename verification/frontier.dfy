/**
 * `crawler/frontier.py`: the frontier hands URLs to workers one domain at a
 * time, never serving a domain again before `time_delay` has passed since its
 * last dispatch, and remembers every URL it has seen (with a completion flag)
 * in a persistent store keyed by the URL's hash.
 *
 * The state is what the `Frontier` object holds: the per-domain queues in the
 * dict's insertion order (`order` lists the domains, `queues` maps each to
 * its URLs), the last dispatch time per domain, the number of active
 * workers, and the store.  The condition variable and its lock are
 * abstracted away: each operation is one atomic transition, and one call of
 * `GetTbdUrl` is one pass of the `while True` loop, whose outcome says whether
 * the caller gets a URL, learns the crawl is over, waits, or loops again
 * straight away.  Clock readings are integer ticks; `now` is the reading at
 * the top of the pass and `stamp` the one taken when a URL is handed out.
 */
module Frontier {
  import opened Numbers
  import opened Urls
  import Scraper

  /**
   * `config.time_delay` in ticks, `urlparse`, the digest behind
   * `get_urlhash`, and the URL test `_parse_save_file` applies.  The
   * frontier imports `is_valid` from `scraper.py`; every result here holds
   * for any test, and `ScraperTest` pins it to that one.
   */
  datatype Env = Env(delay: int, split: Splitter, digest: Digest, accepts: string -> bool)

  /** The frontier's URL test is the scraper's `is_valid`. */
  ghost predicate ScraperTest(env: Env) {
    forall url :: env.accepts(url) == Scraper.IsValid(env.split, url)
  }

  /** `Condition.wait(timeout=1.0)` when every queue is empty but workers are active, in ticks. */
  const IdleWait: int := 1000

  /** A stored `(url, completed)` pair. */
  datatype Record = Record(url: string, completed: bool)

  datatype Frontier = Frontier(
    order: seq<string>,
    queues: map<string, seq<string>>,
    lastRequest: map<string, int>,
    active: int,
    save: map<string, Record>)

  /** `_get_domain(url)`. */
  function DomainOf(env: Env, url: string): string { env.split(url).netloc }

  /** `get_urlhash(url)`. */
  function KeyOf(env: Env, url: string): string { UrlHash(env.split, env.digest, url) }

  /** The URLs queued for domain `d` (none when it has no queue). */
  function QueueOf(s: Frontier, d: string): seq<string> {
    if d in s.queues then s.queues[d] else []
  }

  /** `self.last_request_time.get(domain, 0)`. */
  function LastRequest(s: Frontier, d: string): int {
    if d in s.lastRequest then s.lastRequest[d] else 0
  }

  predicate IsReady(env: Env, s: Frontier, now: int, d: string) {
    now - LastRequest(s, d) >= env.delay
  }

  /** `time_delay - elapsed`: how long domain `d` still has to cool down. */
  function Remaining(env: Env, s: Frontier, now: int, d: string): int {
    env.delay - (now - LastRequest(s, d))
  }

  /** `any(q for q in self.domain_queues.values())`. */
  predicate HasUrls(s: Frontier) {
    exists i :: 0 <= i < |s.order| && QueueOf(s, s.order[i]) != []
  }

  function Min(a: Option<int>, b: int): (m: int)
    ensures m <= b && (a.Some? ==> m <= a.value)
    ensures m == b || (a.Some? && m == a.value)
  {
    if a.Some? && a.value <= b then a.value else b
  }

  // ---------------------------------------------------------------------------
  // Well-formedness

  predicate ListedOnce(order: seq<string>) {
    forall i, j :: 0 <= i < j < |order| ==> order[i] != order[j]
  }

  /**
   * The dict of queues: each domain listed once, the listed domains are the
   * queues' keys, no queue is kept empty, and every URL sits in the queue of
   * its own domain.
   */
  predicate WellFormed(env: Env, s: Frontier) {
    && ListedOnce(s.order)
    && (forall i :: 0 <= i < |s.order| ==> s.order[i] in s.queues)
    && (forall d :: d in s.queues ==> d in s.order)
    && (forall d :: d in s.queues ==> s.queues[d] != [])
    && (forall d, j :: d in s.queues && 0 <= j < |s.queues[d]| ==> DomainOf(env, s.queues[d][j]) == d)
  }

  /** Every stored record sits under the key of its own URL. */
  predicate StoreConsistent(env: Env, s: Frontier) {
    forall k :: k in s.save ==> KeyOf(env, s.save[k].url) == k
  }

  // ---------------------------------------------------------------------------
  // add_url

  /** `domain_queues[d].append(url)`, creating the queue at the end of the dict if needed. */
  function Enqueue(s: Frontier, d: string, url: string): (r: Frontier)
    ensures r.lastRequest == s.lastRequest && r.active == s.active && r.save == s.save
    ensures forall e :: QueueOf(r, e) == if e == d then QueueOf(s, d) + [url] else QueueOf(s, e)
    ensures r.order == if d in s.queues then s.order else s.order + [d]
    ensures r.queues.Keys == s.queues.Keys + {d}
  {
    if d in s.queues then s.(queues := s.queues[d := s.queues[d] + [url]])
    else s.(order := s.order + [d], queues := s.queues[d := [url]])
  }

  /**
   * `add_url(url)`: the URL is normalised and keyed; an unseen key is stored
   * as not completed and the URL joins its domain's queue.  A seen key
   * changes nothing.
   */
  function AddUrl(env: Env, s: Frontier, url: string): (r: Frontier)
    ensures var u := Normalize(url);
      KeyOf(env, u) in r.save && r.save[KeyOf(env, u)] == (if KeyOf(env, u) in s.save then s.save[KeyOf(env, u)] else Record(u, false))
    ensures KeyOf(env, Normalize(url)) in s.save ==> r == s
    ensures r.save.Keys == s.save.Keys + {KeyOf(env, Normalize(url))}
    ensures forall k :: k in s.save ==> r.save[k] == s.save[k]
    ensures r.lastRequest == s.lastRequest && r.active == s.active
    ensures var u := Normalize(url);
      forall d :: QueueOf(r, d) == QueueOf(s, d) + (if KeyOf(env, u) !in s.save && d == DomainOf(env, u) then [u] else [])
  {
    var u := Normalize(url);
    var key := KeyOf(env, u);
    if key in s.save then s
    else Enqueue(s.(save := s.save[key := Record(u, false)]), DomainOf(env, u), u)
  }

  /** Adding the same URL twice is adding it once. */
  lemma AddUrlIdempotent(env: Env, s: Frontier, url: string)
    ensures AddUrl(env, AddUrl(env, s, url), url) == AddUrl(env, s, url)
  {
  }

  /** A URL and the same URL with a trailing slash are one entry. */
  lemma AddUrlIgnoresTrailingSlash(env: Env, s: Frontier, url: string)
    ensures AddUrl(env, s, url + "/") == AddUrl(env, s, url)
  {
    NormalizeIgnoresTrailingSlash(url);
  }

  // ---------------------------------------------------------------------------
  // mark_url_complete

  /**
   * `mark_url_complete(url)`: the URL (not normalised) is stored as completed
   * under its key and one worker fewer is active.  The flag reports the
   * "have not seen it before" error the source logs; the record is written
   * either way.
   */
  function MarkUrlComplete(env: Env, s: Frontier, url: string): (r: (Frontier, bool))
    ensures r.1 <==> KeyOf(env, url) !in s.save
    ensures KeyOf(env, url) in r.0.save && r.0.save[KeyOf(env, url)] == Record(url, true)
    ensures r.0.save.Keys == s.save.Keys + {KeyOf(env, url)}
    ensures forall k :: k in s.save && k != KeyOf(env, url) ==> r.0.save[k] == s.save[k]
    ensures r.0.active == s.active - 1
    ensures r.0.order == s.order && r.0.queues == s.queues && r.0.lastRequest == s.lastRequest
  {
    var key := KeyOf(env, url);
    (s.(save := s.save[key := Record(url, true)], active := s.active - 1), key !in s.save)
  }

  // ---------------------------------------------------------------------------
  // get_tbd_url

  /** The result of the scan over the queues at lines 76-90. */
  datatype Scan = Ready(index: nat) | NoneReady(shortest: Option<int>)

  /**
   * The scan from position `i` of the dict: stop at the first non-empty
   * queue whose domain has cooled down, otherwise track the shortest
   * remaining cooldown.
   */
  function ScanFrom(env: Env, s: Frontier, now: int, i: nat, shortest: Option<int>): (r: Scan)
    requires i <= |s.order|
    ensures r.Ready? ==>
      && i <= r.index < |s.order|
      && QueueOf(s, s.order[r.index]) != [] && IsReady(env, s, now, s.order[r.index])
      && forall j :: i <= j < r.index && QueueOf(s, s.order[j]) != [] ==> !IsReady(env, s, now, s.order[j])
    ensures r.NoneReady? ==>
      forall j :: i <= j < |s.order| && QueueOf(s, s.order[j]) != [] ==> !IsReady(env, s, now, s.order[j])
    ensures r.NoneReady? ==>
      (r.shortest.None? <==> shortest.None? && forall j :: i <= j < |s.order| ==> QueueOf(s, s.order[j]) == [])
    ensures r.NoneReady? && r.shortest.Some? ==>
      && (shortest.Some? ==> r.shortest.value <= shortest.value)
      && (forall j :: i <= j < |s.order| && QueueOf(s, s.order[j]) != [] ==> r.shortest.value <= Remaining(env, s, now, s.order[j]))
      && ((shortest.Some? && r.shortest.value == shortest.value)
          || exists j :: i <= j < |s.order| && QueueOf(s, s.order[j]) != [] && r.shortest.value == Remaining(env, s, now, s.order[j]))
    decreases |s.order| - i
  {
    if i == |s.order| then NoneReady(shortest)
    else
      var d := s.order[i];
      if QueueOf(s, d) == [] then ScanFrom(env, s, now, i + 1, shortest)
      else if IsReady(env, s, now, d) then Ready(i)
      else ScanFrom(env, s, now, i + 1, Some(Min(shortest, Remaining(env, s, now, d))))
  }

  /**
   * The queue of `d` loses its head; an emptied queue is deleted from the
   * dict, which keeps the other domains in their order (`RemoveSplit`).
   */
  function PopFront(s: Frontier, d: string): (r: Frontier)
    ensures forall e :: QueueOf(r, e) == if e == d && QueueOf(s, d) != [] then QueueOf(s, d)[1..] else QueueOf(s, e)
    ensures QueueOf(s, d) != [] ==> r.order == if |QueueOf(s, d)| == 1 then Remove(s.order, d) else s.order
    ensures d !in s.queues ==> r == s
    ensures r.lastRequest == s.lastRequest && r.active == s.active && r.save == s.save
  {
    if d !in s.queues then s
    else if |s.queues[d]| <= 1 then s.(order := Remove(s.order, d), queues := s.queues - {d})
    else s.(queues := s.queues[d := s.queues[d][1..]])
  }

  /** `order` without `d`, the rest in order. */
  function Remove(order: seq<string>, d: string): (r: seq<string>)
    ensures forall e :: e in r <==> e in order && e != d
    ensures |r| <= |order|
    ensures d !in order ==> r == order
  {
    if order == [] then []
    else (if order[0] == d then [] else [order[0]]) + Remove(order[1..], d)
  }

  /** Removing a domain listed once closes the gap it leaves: the domains before and after keep their order. */
  lemma {:induction false} RemoveSplit(a: seq<string>, d: string, b: seq<string>)
    requires d !in a && d !in b
    ensures Remove(a + [d] + b, d) == a + b
  {
    if a == [] {
      assert (a + [d] + b)[1..] == b;
    } else {
      assert (a + [d] + b)[1..] == a[1..] + [d] + b;
      RemoveSplit(a[1..], d, b);
      assert a + b == [a[0]] + (a[1..] + b);
    }
  }

  /** Removing a domain keeps the others listed once. */
  lemma {:induction false} RemoveDistinct(order: seq<string>, d: string)
    requires ListedOnce(order)
    ensures ListedOnce(Remove(order, d))
  {
    if order != [] {
      var rest := order[1..];
      assert ListedOnce(rest) by {
        forall i, j | 0 <= i < j < |rest| ensures rest[i] != rest[j] {
          assert rest[i] == order[i + 1] && rest[j] == order[j + 1];
        }
      }
      RemoveDistinct(rest, d);
      var tail := Remove(rest, d);
      if order[0] != d {
        assert order[0] !in rest by {
          forall j | 0 <= j < |rest| ensures rest[j] != order[0] {
            assert rest[j] == order[j + 1];
          }
        }
        var r := [order[0]] + tail;
        forall i, j | 0 <= i < j < |r| ensures r[i] != r[j] {
          if i == 0 {
            assert r[j] == tail[j - 1] && r[j] in tail;
          } else {
            assert r[i] == tail[i - 1] && r[j] == tail[j - 1];
          }
        }
      } else {
        assert Remove(order, d) == tail;
      }
    }
  }

  /** What one pass of the loop in `get_tbd_url` ends with. */
  datatype Outcome = Dispatch(url: string) | Finished | Wait(timeout: int) | Retry

  /** One pass of `get_tbd_url` at clock reading `now`; `stamp` is the reading stored on dispatch. */
  function GetTbdUrl(env: Env, s: Frontier, now: int, stamp: int): (r: (Outcome, Frontier))
    ensures !r.0.Dispatch? ==> r.1 == s
    ensures r.0.Finished? <==> !HasUrls(s) && s.active == 0
    ensures r.0.Retry? <==> !HasUrls(s) && s.active < 0
    ensures r.0.Dispatch? <==> exists i :: 0 <= i < |s.order| && QueueOf(s, s.order[i]) != [] && IsReady(env, s, now, s.order[i])
    ensures r.0.Wait? ==> r.0.timeout > 0 && (HasUrls(s) || (s.active > 0 && r.0.timeout == IdleWait))
  {
    match ScanFrom(env, s, now, 0, None)
    case Ready(k) =>
      var d := s.order[k];
      var t := PopFront(s, d);
      (Dispatch(QueueOf(s, d)[0]), t.(lastRequest := s.lastRequest[d := stamp], active := s.active + 1))
    case NoneReady(w) =>
      if !HasUrls(s) && s.active == 0 then (Finished, s)
      else if !HasUrls(s) && s.active > 0 then (Wait(IdleWait), s)
      else if w.Some? then (Wait(w.value), s)
      else (Retry, s)
  }

  /**
   * A dispatch takes the head of the first non-empty queue, in dict order,
   * whose domain has cooled down; it stamps that domain, counts one more
   * active worker and changes no other queue.
   */
  lemma DispatchIsFirstReady(env: Env, s: Frontier, now: int, stamp: int) returns (k: nat)
    requires GetTbdUrl(env, s, now, stamp).0.Dispatch?
    ensures k < |s.order| && QueueOf(s, s.order[k]) != [] && IsReady(env, s, now, s.order[k])
    ensures forall j :: 0 <= j < k && QueueOf(s, s.order[j]) != [] ==> !IsReady(env, s, now, s.order[j])
    ensures var r := GetTbdUrl(env, s, now, stamp); var d := s.order[k];
      && r.0.url == QueueOf(s, d)[0]
      && r.1.lastRequest == s.lastRequest[d := stamp]
      && r.1.active == s.active + 1
      && r.1.save == s.save
      && (forall e :: QueueOf(r.1, e) == if e == d then QueueOf(s, d)[1..] else QueueOf(s, e))
      && r.1.order == if |QueueOf(s, d)| == 1 then Remove(s.order, d) else s.order
  {
    k := ScanFrom(env, s, now, 0, None).index;
  }

  /**
   * In a well-formed frontier a dispatch leaves the dict's order alone,
   * except that a domain whose last URL it hands out drops out of its place.
   */
  lemma DispatchKeepsOrder(env: Env, s: Frontier, now: int, stamp: int) returns (k: nat)
    requires WellFormed(env, s) && GetTbdUrl(env, s, now, stamp).0.Dispatch?
    ensures k < |s.order| && GetTbdUrl(env, s, now, stamp).0.url == QueueOf(s, s.order[k])[0]
    ensures GetTbdUrl(env, s, now, stamp).1.order ==
      if |QueueOf(s, s.order[k])| == 1 then s.order[..k] + s.order[k + 1..] else s.order
  {
    k := DispatchIsFirstReady(env, s, now, stamp);
    RemoveListedAt(s.order, k);
  }

  /** Removing the domain at position `k` of a list without repeats leaves the list around it. */
  lemma RemoveListedAt(order: seq<string>, k: nat)
    requires ListedOnce(order) && k < |order|
    ensures Remove(order, order[k]) == order[..k] + order[k + 1..]
  {
    ListedNowhereElse(order, k);
    RemoveAt(order, k);
  }

  /** In a list without repeats the domain at `k` occurs neither before nor after `k`. */
  lemma ListedNowhereElse(order: seq<string>, k: nat)
    requires ListedOnce(order) && k < |order|
    ensures order[k] !in order[..k] && order[k] !in order[k + 1..]
  {
    var a, b := order[..k], order[k + 1..];
    forall j | 0 <= j < |a| ensures a[j] != order[k] {
      assert a[j] == order[j];
    }
    forall j | 0 <= j < |b| ensures b[j] != order[k] {
      assert b[j] == order[k + 1 + j];
    }
  }

  lemma RemoveAt(order: seq<string>, k: nat)
    requires k < |order| && order[k] !in order[..k] && order[k] !in order[k + 1..]
    ensures Remove(order, order[k]) == order[..k] + order[k + 1..]
  {
    assert order == order[..k] + [order[k]] + order[k + 1..];
    RemoveSplit(order[..k], order[k], order[k + 1..]);
  }

  /** With URLs queued and none ready, the wait is the least remaining cooldown over the non-empty queues. */
  lemma CooldownWaitIsLeast(env: Env, s: Frontier, now: int, stamp: int) returns (j: nat)
    requires HasUrls(s) && !GetTbdUrl(env, s, now, stamp).0.Dispatch?
    ensures GetTbdUrl(env, s, now, stamp).0.Wait?
    ensures j < |s.order| && QueueOf(s, s.order[j]) != []
    ensures GetTbdUrl(env, s, now, stamp).0.timeout == Remaining(env, s, now, s.order[j])
    ensures forall i :: 0 <= i < |s.order| && QueueOf(s, s.order[i]) != [] ==>
      GetTbdUrl(env, s, now, stamp).0.timeout <= Remaining(env, s, now, s.order[i])
  {
    var w := ScanFrom(env, s, now, 0, None).shortest;
    j :| 0 <= j < |s.order| && QueueOf(s, s.order[j]) != [] && w.value == Remaining(env, s, now, s.order[j]);
  }

  /** Waiting out the cooldown is enough: after `t` ticks the domain that set it is served. */
  lemma CooldownWaitSuffices(env: Env, s: Frontier, now: int, stamp: int, later: int)
    requires HasUrls(s) && GetTbdUrl(env, s, now, stamp).0.Wait?
    ensures GetTbdUrl(env, s, now + GetTbdUrl(env, s, now, stamp).0.timeout, later).0.Dispatch?
  {
    var t := GetTbdUrl(env, s, now, stamp).0.timeout;
    var j := CooldownWaitIsLeast(env, s, now, stamp);
    assert IsReady(env, s, now + t, s.order[j]);
  }

  /**
   * And it is no longer than needed: any earlier pass finds nothing ready
   * and waits for the rest of the same cooldown.
   */
  lemma CooldownWaitIsMinimal(env: Env, s: Frontier, now: int, stamp: int, now': int, stamp': int)
    requires HasUrls(s) && GetTbdUrl(env, s, now, stamp).0.Wait?
    requires now <= now' < now + GetTbdUrl(env, s, now, stamp).0.timeout
    ensures GetTbdUrl(env, s, now', stamp').0 == Wait(GetTbdUrl(env, s, now, stamp).0.timeout - (now' - now))
  {
    var t := GetTbdUrl(env, s, now, stamp).0.timeout;
    var j := CooldownWaitIsLeast(env, s, now, stamp);
    assert forall i :: 0 <= i < |s.order| && QueueOf(s, s.order[i]) != [] ==> !IsReady(env, s, now', s.order[i]);
    var j' := CooldownWaitIsLeast(env, s, now', stamp');
    assert GetTbdUrl(env, s, now', stamp').0.timeout <= Remaining(env, s, now', s.order[j]);
  }

  // ---------------------------------------------------------------------------
  // The dict of queues stays well formed

  /** Queuing keeps every listed domain queued once, and every queue listed and non-empty. */
  lemma EnqueueListing(env: Env, s: Frontier, url: string)
    requires WellFormed(env, s)
    ensures var r := Enqueue(s, DomainOf(env, url), url);
      && ListedOnce(r.order)
      && (forall i :: 0 <= i < |r.order| ==> r.order[i] in r.queues)
      && (forall d :: d in r.queues ==> d in r.order)
      && (forall d :: d in r.queues ==> r.queues[d] != [])
  {
    var d := DomainOf(env, url);
    if d !in s.queues {
      assert forall i :: 0 <= i < |s.order| ==> s.order[i] in s.queues;
    }
  }

  /** Queuing a URL under its own domain keeps every queue to its domain. */
  lemma EnqueueDomains(env: Env, s: Frontier, url: string)
    requires WellFormed(env, s)
    ensures var r := Enqueue(s, DomainOf(env, url), url);
      forall e, j :: e in r.queues && 0 <= j < |r.queues[e]| ==> DomainOf(env, r.queues[e][j]) == e
  {
    var d := DomainOf(env, url);
    var r := Enqueue(s, d, url);
    forall e, j | e in r.queues && 0 <= j < |r.queues[e]|
      ensures DomainOf(env, r.queues[e][j]) == e
    {
      assert r.queues[e] == QueueOf(r, e);
      if e == d && j == |r.queues[e]| - 1 {
      } else {
        assert e in s.queues && r.queues[e][j] == s.queues[e][j];
      }
    }
  }

  lemma EnqueueWellFormed(env: Env, s: Frontier, url: string)
    requires WellFormed(env, s)
    ensures WellFormed(env, Enqueue(s, DomainOf(env, url), url))
  {
    EnqueueListing(env, s, url);
    EnqueueDomains(env, s, url);
  }

  lemma AddUrlWellFormed(env: Env, s: Frontier, url: string)
    requires WellFormed(env, s) && StoreConsistent(env, s)
    ensures WellFormed(env, AddUrl(env, s, url)) && StoreConsistent(env, AddUrl(env, s, url))
  {
    var u := Normalize(url);
    if KeyOf(env, u) !in s.save {
      EnqueueWellFormed(env, s.(save := s.save[KeyOf(env, u) := Record(u, false)]), u);
    }
  }

  lemma MarkUrlCompleteWellFormed(env: Env, s: Frontier, url: string)
    requires WellFormed(env, s) && StoreConsistent(env, s)
    ensures WellFormed(env, MarkUrlComplete(env, s, url).0) && StoreConsistent(env, MarkUrlComplete(env, s, url).0)
  {
  }

  lemma PopFrontWellFormed(env: Env, s: Frontier, d: string)
    requires WellFormed(env, s)
    ensures WellFormed(env, PopFront(s, d))
  {
    var r := PopFront(s, d);
    if d in s.queues && |s.queues[d]| <= 1 {
      RemoveDistinct(s.order, d);
      forall i | 0 <= i < |r.order| ensures r.order[i] in r.queues {
        assert r.order[i] in r.order;
      }
    } else if d in s.queues {
      forall e, j | e in r.queues && 0 <= j < |r.queues[e]|
        ensures DomainOf(env, r.queues[e][j]) == e
      {
        if e == d {
          assert r.queues[e][j] == s.queues[e][j + 1];
        }
      }
    }
  }

  lemma GetTbdUrlWellFormed(env: Env, s: Frontier, now: int, stamp: int)
    requires WellFormed(env, s) && StoreConsistent(env, s)
    ensures WellFormed(env, GetTbdUrl(env, s, now, stamp).1) && StoreConsistent(env, GetTbdUrl(env, s, now, stamp).1)
  {
    if GetTbdUrl(env, s, now, stamp).0.Dispatch? {
      var k := ScanFrom(env, s, now, 0, None).index;
      PopFrontWellFormed(env, s, s.order[k]);
    }
  }

  /** The URL handed out belongs to the domain whose clock is stamped. */
  lemma DispatchedDomain(env: Env, s: Frontier, now: int, stamp: int)
    requires WellFormed(env, s) && GetTbdUrl(env, s, now, stamp).0.Dispatch?
    ensures var r := GetTbdUrl(env, s, now, stamp);
      r.1.lastRequest == s.lastRequest[DomainOf(env, r.0.url) := stamp]
      && IsReady(env, s, now, DomainOf(env, r.0.url))
  {
    var k := DispatchIsFirstReady(env, s, now, stamp);
    assert s.order[k] in s.queues;
  }

  // ---------------------------------------------------------------------------
  // Start-up: _parse_save_file and __init__

  /** The frontier before any URL is queued, over store `save`. */
  function Empty(save: map<string, Record>): Frontier {
    Frontier([], map[], map[], 0, save)
  }

  /** Whether the record under `k` is to be downloaded again: stored, not completed and accepted by `is_valid`. */
  predicate IsPending(env: Env, save: map<string, Record>, k: string) {
    k in save && !save[k].completed && env.accepts(save[k].url)
  }

  /** The URLs of the pending records, in the store's iteration order `keys`. */
  function Pending(env: Env, save: map<string, Record>, keys: seq<string>): seq<string> {
    if keys == [] then []
    else if IsPending(env, save, keys[0]) then [save[keys[0]].url] + Pending(env, save, keys[1..])
    else Pending(env, save, keys[1..])
  }

  /** The pending URLs are exactly the URLs of the pending records, none invented. */
  lemma {:induction false} PendingMeaning(env: Env, save: map<string, Record>, keys: seq<string>)
    ensures |Pending(env, save, keys)| <= |keys|
    ensures forall u :: u in Pending(env, save, keys) ==>
      exists i :: 0 <= i < |keys| && IsPending(env, save, keys[i]) && save[keys[i]].url == u
    ensures forall i :: 0 <= i < |keys| && IsPending(env, save, keys[i]) ==> save[keys[i]].url in Pending(env, save, keys)
  {
    if keys != [] {
      PendingMeaning(env, save, keys[1..]);
      var p := Pending(env, save, keys);
      forall u | u in p
        ensures exists i :: 0 <= i < |keys| && IsPending(env, save, keys[i]) && save[keys[i]].url == u
      {
        if IsPending(env, save, keys[0]) && u == save[keys[0]].url {
          assert IsPending(env, save, keys[0]) && save[keys[0]].url == u;
        } else {
          var i :| 0 <= i < |keys[1..]| && IsPending(env, save, keys[1..][i]) && save[keys[1..][i]].url == u;
          assert keys[1..][i] == keys[i + 1];
        }
      }
      forall i | 0 <= i < |keys| && IsPending(env, save, keys[i]) ensures save[keys[i]].url in p {
        if i > 0 {
          assert keys[i] == keys[1..][i - 1];
        }
      }
    }
  }

  /** An empty store has nothing pending. */
  lemma {:induction false} NothingPending(env: Env, save: map<string, Record>, keys: seq<string>)
    requires save == map[]
    ensures Pending(env, save, keys) == []
    decreases |keys|
  {
    if keys != [] {
      NothingPending(env, save, keys[1..]);
    }
  }

  /** With the scraper's test, every URL queued again at start-up passes `scraper.is_valid`. */
  lemma PendingPassScraper(env: Env, save: map<string, Record>, keys: seq<string>)
    requires ScraperTest(env)
    ensures forall u :: u in Pending(env, save, keys) ==> Scraper.IsValid(env.split, u)
  {
    PendingMeaning(env, save, keys);
  }

  /** The URLs of `urls` on domain `d`, in order. */
  function OfDomain(env: Env, urls: seq<string>, d: string): seq<string> {
    if urls == [] then []
    else (if DomainOf(env, urls[0]) == d then [urls[0]] else []) + OfDomain(env, urls[1..], d)
  }

  /** A domain's share of the URLs is exactly the URLs on that domain. */
  lemma {:induction false} OfDomainMeaning(env: Env, urls: seq<string>, d: string)
    ensures forall u :: u in OfDomain(env, urls, d) <==> u in urls && DomainOf(env, u) == d
  {
    if urls != [] {
      OfDomainMeaning(env, urls[1..], d);
      assert urls == [urls[0]] + urls[1..];
    }
  }

  /**
   * `_parse_save_file()`: every pending record, visited in the store's
   * order, joins the queue of its domain (`ParseSaveFileQueues`); the store
   * itself is untouched.
   */
  function ParseSaveFile(env: Env, s: Frontier, keys: seq<string>): (r: Frontier)
    ensures r.save == s.save && r.lastRequest == s.lastRequest && r.active == s.active
    decreases |keys|
  {
    if keys == [] then s
    else
      var k := keys[0];
      var s1 := if IsPending(env, s.save, k) then Enqueue(s, DomainOf(env, s.save[k].url), s.save[k].url) else s;
      ParseSaveFile(env, s1, keys[1..])
  }

  lemma {:induction false} OfDomainAppend(env: Env, a: seq<string>, b: seq<string>, d: string)
    ensures OfDomain(env, a + b, d) == OfDomain(env, a, d) + OfDomain(env, b, d)
  {
    if a != [] {
      assert (a + b)[1..] == a[1..] + b;
      OfDomainAppend(env, a[1..], b, d);
    } else {
      assert a + b == b;
    }
  }

  /** One record's contribution: the queue of `d` gains the record's URL if it is pending and on `d`. */
  lemma ParseOneRecord(env: Env, s: Frontier, k: string, d: string)
    ensures var s1 := if IsPending(env, s.save, k) then Enqueue(s, DomainOf(env, s.save[k].url), s.save[k].url) else s;
      QueueOf(s1, d) == QueueOf(s, d) + OfDomain(env, if IsPending(env, s.save, k) then [s.save[k].url] else [], d)
  {
    if IsPending(env, s.save, k) {
      var u := s.save[k].url;
      assert OfDomain(env, [u], d) == (if DomainOf(env, u) == d then [u] else []) + OfDomain(env, [], d);
    }
  }

  /** The queue of one domain is extended by the pending URLs on that domain, in store order. */
  lemma {:induction false} ParseSaveFileQueue(env: Env, s: Frontier, keys: seq<string>, d: string)
    ensures QueueOf(ParseSaveFile(env, s, keys), d) == QueueOf(s, d) + OfDomain(env, Pending(env, s.save, keys), d)
    decreases |keys|
  {
    if keys != [] {
      var k := keys[0];
      var s1 := if IsPending(env, s.save, k) then Enqueue(s, DomainOf(env, s.save[k].url), s.save[k].url) else s;
      var head := if IsPending(env, s.save, k) then [s.save[k].url] else [];
      var rest := Pending(env, s.save, keys[1..]);
      assert ParseSaveFile(env, s, keys) == ParseSaveFile(env, s1, keys[1..]);
      assert Pending(env, s.save, keys) == head + rest;
      ParseSaveFileQueue(env, s1, keys[1..], d);
      OfDomainAppend(env, head, rest, d);
      ParseOneRecord(env, s, k, d);
    }
  }

  /** Each domain's queue is extended by the pending URLs on that domain, in store order. */
  lemma ParseSaveFileQueues(env: Env, s: Frontier, keys: seq<string>)
    ensures forall d :: QueueOf(ParseSaveFile(env, s, keys), d) == QueueOf(s, d) + OfDomain(env, Pending(env, s.save, keys), d)
  {
    forall d ensures QueueOf(ParseSaveFile(env, s, keys), d) == QueueOf(s, d) + OfDomain(env, Pending(env, s.save, keys), d) {
      ParseSaveFileQueue(env, s, keys, d);
    }
  }

  /**
   * The URLs a run of `add_url` over `urls` queues, in order: each
   * normalised URL whose key is neither in `seen` nor the key of an earlier
   * URL of the run.
   */
  function NewUrls(env: Env, seen: set<string>, urls: seq<string>): seq<string>
    decreases |urls|
  {
    if urls == [] then []
    else
      var u := Normalize(urls[0]);
      if KeyOf(env, u) in seen then NewUrls(env, seen, urls[1..])
      else [u] + NewUrls(env, seen + {KeyOf(env, u)}, urls[1..])
  }

  /** `urls[i]` is the first URL of the run with its key, and that key is not in `seen`. */
  predicate FirstNew(env: Env, seen: set<string>, urls: seq<string>, i: nat)
    requires i < |urls|
  {
    && KeyOf(env, Normalize(urls[i])) !in seen
    && forall j :: 0 <= j < i ==> KeyOf(env, Normalize(urls[j])) != KeyOf(env, Normalize(urls[i]))
  }

  /** Every queued URL is a normalised URL of the run whose key was unseen. */
  lemma {:induction false} NewUrlsSound(env: Env, seen: set<string>, urls: seq<string>)
    ensures forall v :: v in NewUrls(env, seen, urls) ==>
      KeyOf(env, v) !in seen && exists i :: 0 <= i < |urls| && v == Normalize(urls[i])
    decreases |urls|
  {
    if urls != [] {
      var u := Normalize(urls[0]);
      var rest := urls[1..];
      var seen' := if KeyOf(env, u) in seen then seen else seen + {KeyOf(env, u)};
      NewUrlsSound(env, seen', rest);
      var n := NewUrls(env, seen, urls);
      assert n == (if KeyOf(env, u) in seen then [] else [u]) + NewUrls(env, seen', rest);
      forall v | v in n
        ensures KeyOf(env, v) !in seen && exists i :: 0 <= i < |urls| && v == Normalize(urls[i])
      {
        if v !in NewUrls(env, seen', rest) {
          assert v == Normalize(urls[0]);
        } else {
          var i :| 0 <= i < |rest| && v == Normalize(rest[i]);
          assert v == Normalize(urls[i + 1]);
        }
      }
    }
  }

  /** The first URL of the run with each unseen key is queued. */
  lemma {:induction false} NewUrlsComplete(env: Env, seen: set<string>, urls: seq<string>)
    ensures forall i :: 0 <= i < |urls| && FirstNew(env, seen, urls, i) ==> Normalize(urls[i]) in NewUrls(env, seen, urls)
    decreases |urls|
  {
    if urls != [] {
      var u := Normalize(urls[0]);
      var rest := urls[1..];
      var seen' := if KeyOf(env, u) in seen then seen else seen + {KeyOf(env, u)};
      NewUrlsComplete(env, seen', rest);
      var n := NewUrls(env, seen, urls);
      assert n == (if KeyOf(env, u) in seen then [] else [u]) + NewUrls(env, seen', rest);
      forall i | 0 <= i < |urls| && FirstNew(env, seen, urls, i) ensures Normalize(urls[i]) in n {
        if i > 0 {
          assert rest[i - 1] == urls[i];
          assert FirstNew(env, seen', rest, i - 1) by {
            forall j | 0 <= j < i - 1
              ensures KeyOf(env, Normalize(rest[j])) != KeyOf(env, Normalize(rest[i - 1]))
            {
              assert rest[j] == urls[j + 1];
            }
          }
        }
      }
    }
  }

  /** One `add_url` of a run: its URL moves from the run's new URLs into the queues. */
  lemma AddAllStep(env: Env, s: Frontier, urls: seq<string>)
    requires urls != []
    ensures var s1 := AddUrl(env, s, urls[0]);
      forall d :: QueueOf(s1, d) + OfDomain(env, NewUrls(env, s1.save.Keys, urls[1..]), d)
        == QueueOf(s, d) + OfDomain(env, NewUrls(env, s.save.Keys, urls), d)
  {
    var u := Normalize(urls[0]);
    var s1 := AddUrl(env, s, urls[0]);
    var rest := NewUrls(env, s1.save.Keys, urls[1..]);
    if KeyOf(env, u) !in s.save {
      assert NewUrls(env, s.save.Keys, urls) == [u] + rest;
      forall d ensures QueueOf(s1, d) + OfDomain(env, rest, d) == QueueOf(s, d) + OfDomain(env, [u] + rest, d) {
        OfDomainAppend(env, [u], rest, d);
        assert OfDomain(env, [u], d) == (if DomainOf(env, u) == d then [u] else []) + OfDomain(env, [], d);
      }
    }
  }

  /** `for url in seed_urls: add_url(url)`: each new URL is stored as not completed and joins its domain's queue. */
  function AddAll(env: Env, s: Frontier, urls: seq<string>): (r: Frontier)
    ensures r.save.Keys == s.save.Keys + set u | u in urls :: KeyOf(env, Normalize(u))
    ensures forall k :: k in s.save ==> r.save[k] == s.save[k]
    ensures forall k :: k in r.save && k !in s.save ==> !r.save[k].completed
    ensures r.lastRequest == s.lastRequest && r.active == s.active
    ensures forall d :: QueueOf(r, d) == QueueOf(s, d) + OfDomain(env, NewUrls(env, s.save.Keys, urls), d)
    decreases |urls|
  {
    if urls == [] then s
    else
      AddAllStep(env, s, urls);
      AddAll(env, AddUrl(env, s, urls[0]), urls[1..])
  }

  /**
   * `Frontier(config, restart)`, with the save file given as its contents
   * `stored` and their iteration order `keys` (an absent or deleted file is
   * an empty store).  A restart starts from the seeds over an empty store;
   * otherwise the pending records are queued, and the seeds are added only
   * when the store is empty.
   */
  function Open(env: Env, seeds: seq<string>, restart: bool, stored: map<string, Record>, keys: seq<string>): (r: Frontier)
    ensures r.active == 0 && r.lastRequest == map[]
    ensures restart || stored == map[] ==>
      && r.save.Keys == (set u | u in seeds :: KeyOf(env, Normalize(u)))
      && (forall k :: k in r.save ==> !r.save[k].completed)
      && forall d :: QueueOf(r, d) == OfDomain(env, NewUrls(env, {}, seeds), d)
    ensures !restart && stored != map[] ==>
      && r.save == stored
      && forall d :: QueueOf(r, d) == OfDomain(env, Pending(env, stored, keys), d)
  {
    if restart then
      SeedsOnly(env, Empty(map[]), seeds);
      AddAll(env, Empty(map[]), seeds)
    else
      var p := ParseSaveFile(env, Empty(stored), keys);
      if |stored| == 0 then
        ParseEmptyStore(env, stored, keys);
        SeedsOnly(env, p, seeds);
        AddAll(env, p, seeds)
      else
        ParseSaveFileQueues(env, Empty(stored), keys);
        p
  }

  /** Parsing an empty store queues nothing. */
  lemma ParseEmptyStore(env: Env, stored: map<string, Record>, keys: seq<string>)
    requires stored == map[]
    ensures var p := ParseSaveFile(env, Empty(stored), keys);
      p.save == map[] && forall d :: QueueOf(p, d) == []
  {
    ParseSaveFileQueues(env, Empty(stored), keys);
    NothingPending(env, stored, keys);
  }

  /** Seeding a frontier with no store and no queues queues exactly the new seeds. */
  lemma SeedsOnly(env: Env, s: Frontier, seeds: seq<string>)
    requires s.save == map[] && forall d :: QueueOf(s, d) == []
    ensures forall d :: QueueOf(AddAll(env, s, seeds), d) == OfDomain(env, NewUrls(env, {}, seeds), d)
  {
    assert s.save.Keys == {};
  }
}
