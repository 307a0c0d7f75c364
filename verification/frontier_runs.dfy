/**
 * Runs of the frontier: sequences of `get_tbd_url`, `add_url` and
 * `mark_url_complete` calls, each applied atomically as under the
 * frontier's lock, and what holds over any such run: a domain is never
 * served twice within `time_delay`, no URL key is handed out twice, the
 * active-worker count is dispatches minus completions, and stored records
 * are never lost or un-completed.
 */
module FrontierRuns {
  import opened Numbers
  import opened Urls
  import opened Frontier

  // ---------------------------------------------------------------------------
  // The keys waiting in the queues

  function Lookup(q: map<string, seq<string>>, d: string): seq<string> {
    if d in q then q[d] else []
  }

  /** The keys of `urls`, with multiplicity. */
  function KeysOf(env: Env, urls: seq<string>): (m: multiset<string>)
    ensures |m| == |urls|
  {
    if urls == [] then multiset{} else multiset{KeyOf(env, urls[0])} + KeysOf(env, urls[1..])
  }

  /** The keys queued for the domains of `order`. */
  function QueuedIn(env: Env, q: map<string, seq<string>>, order: seq<string>): multiset<string> {
    if order == [] then multiset{} else KeysOf(env, Lookup(q, order[0])) + QueuedIn(env, q, order[1..])
  }

  /** The keys of every queued URL, with multiplicity. */
  function QueuedKeys(env: Env, s: Frontier): multiset<string> {
    QueuedIn(env, s.queues, s.order)
  }

  lemma {:induction false} KeysOfAppend(env: Env, a: seq<string>, b: seq<string>)
    ensures KeysOf(env, a + b) == KeysOf(env, a) + KeysOf(env, b)
  {
    if a == [] {
      assert a + b == b;
    } else {
      assert (a + b)[1..] == a[1..] + b;
      KeysOfAppend(env, a[1..], b);
    }
  }

  lemma {:induction false} QueuedInAgree(env: Env, q1: map<string, seq<string>>, q2: map<string, seq<string>>, order: seq<string>)
    requires forall i :: 0 <= i < |order| ==> Lookup(q1, order[i]) == Lookup(q2, order[i])
    ensures QueuedIn(env, q1, order) == QueuedIn(env, q2, order)
  {
    if order != [] {
      QueuedInAgree(env, q1, q2, order[1..]);
    }
  }

  lemma {:induction false} QueuedInAppend(env: Env, q: map<string, seq<string>>, order: seq<string>, d: string)
    ensures QueuedIn(env, q, order + [d]) == QueuedIn(env, q, order) + KeysOf(env, Lookup(q, d))
  {
    if order == [] {
      assert order + [d] == [d];
    } else {
      assert (order + [d])[1..] == order[1..] + [d];
      QueuedInAppend(env, q, order[1..], d);
    }
  }

  /** Instances of the multiset laws `QueuedInUpdate` needs, stated for the solver. */
  lemma UnionAssoc(a: multiset<string>, b: multiset<string>, c: multiset<string>)
    ensures a + b + c == a + (b + c) && a + b == b + a
  {
  }

  lemma UnionSwap(a: multiset<string>, b: multiset<string>, c: multiset<string>)
    ensures a + b + c == c + b + a
  {
  }

  lemma UnionCancel(a: multiset<string>, b: multiset<string>, c: multiset<string>)
    requires a + c == b + c
    ensures a == b
  {
    forall k ensures a[k] == b[k] {
      assert (a + c)[k] == (b + c)[k];
    }
  }

  lemma CancelAdd(a: multiset<string>, b: multiset<string>, k: multiset<string>, m: multiset<string>)
    requires a + k == b + (k + m)
    ensures a == b + m
  {
    forall x ensures a[x] == (b + m)[x] {
      assert (a + k)[x] == (b + (k + m))[x];
    }
  }

  /** Replacing the queue of a listed domain replaces its keys. */
  lemma {:induction false} QueuedInUpdate(env: Env, q: map<string, seq<string>>, order: seq<string>, d: string, x: seq<string>)
    requires ListedOnce(order)
    ensures QueuedIn(env, q[d := x], order) + (if d in order then KeysOf(env, Lookup(q, d)) else multiset{})
         == QueuedIn(env, q, order) + (if d in order then KeysOf(env, x) else multiset{})
  {
    if order != [] {
      var rest := order[1..];
      assert ListedOnce(rest) && order[0] !in rest;
      QueuedInUpdate(env, q, rest, d, x);
      assert d in order <==> d == order[0] || d in rest;
      assert QueuedIn(env, q[d := x], order) == KeysOf(env, Lookup(q[d := x], order[0])) + QueuedIn(env, q[d := x], rest);
      assert QueuedIn(env, q, order) == KeysOf(env, Lookup(q, order[0])) + QueuedIn(env, q, rest);
      if order[0] == d {
        assert d !in rest;
        assert Lookup(q[d := x], order[0]) == x;
        var a := KeysOf(env, Lookup(q, d));
        var none: multiset<string> := multiset{};
        assert QueuedIn(env, q[d := x], rest) + none == QueuedIn(env, q, rest) + none;
        assert QueuedIn(env, q[d := x], rest) + none == QueuedIn(env, q[d := x], rest);
        assert QueuedIn(env, q, rest) + none == QueuedIn(env, q, rest);
        UnionSwap(KeysOf(env, x), QueuedIn(env, q, rest), a);
      } else {
        var a := KeysOf(env, Lookup(q, order[0]));
        assert Lookup(q[d := x], order[0]) == Lookup(q, order[0]);
        assert d in order <==> d in rest;
        var m := if d in order then KeysOf(env, Lookup(q, d)) else multiset{};
        var n := if d in order then KeysOf(env, x) else multiset{};
        UnionAssoc(a, QueuedIn(env, q[d := x], rest), m);
        UnionAssoc(a, QueuedIn(env, q, rest), n);
      }
    }
  }

  /** Unlisting a domain removes its keys. */
  lemma {:induction false} QueuedInRemove(env: Env, q: map<string, seq<string>>, order: seq<string>, d: string)
    requires ListedOnce(order)
    ensures QueuedIn(env, q, Remove(order, d)) + (if d in order then KeysOf(env, Lookup(q, d)) else multiset{})
         == QueuedIn(env, q, order)
  {
    if order != [] {
      var rest := order[1..];
      assert ListedOnce(rest) && order[0] !in rest;
      QueuedInRemove(env, q, rest, d);
      assert d in order <==> d == order[0] || d in rest;
      if order[0] == d {
        assert Remove(order, d) == Remove(rest, d);
      } else {
        assert Remove(order, d) == [order[0]] + Remove(rest, d);
        assert ([order[0]] + Remove(rest, d))[1..] == Remove(rest, d);
      }
    }
  }

  /** A URL appended to a listed domain's queue adds its key. */
  lemma QueuedInExtend(env: Env, q: map<string, seq<string>>, order: seq<string>, d: string, url: string)
    requires ListedOnce(order) && d in q && d in order
    ensures QueuedIn(env, q[d := q[d] + [url]], order) == QueuedIn(env, q, order) + multiset{KeyOf(env, url)}
  {
    var k := KeysOf(env, q[d]);
    QueuedInUpdate(env, q, order, d, q[d] + [url]);
    assert Lookup(q, d) == q[d];
    KeysOfAppend(env, q[d], [url]);
    assert KeysOf(env, [url]) == multiset{KeyOf(env, url)};
    CancelAdd(QueuedIn(env, q[d := q[d] + [url]], order), QueuedIn(env, q, order), k, multiset{KeyOf(env, url)});
  }

  /** A new domain listed last with one URL adds that URL's key. */
  lemma QueuedInNewDomain(env: Env, q: map<string, seq<string>>, order: seq<string>, d: string, url: string)
    requires d !in order
    ensures QueuedIn(env, q[d := [url]], order + [d]) == QueuedIn(env, q, order) + multiset{KeyOf(env, url)}
  {
    var q' := q[d := [url]];
    QueuedInAppend(env, q', order, d);
    forall i | 0 <= i < |order| ensures Lookup(q', order[i]) == Lookup(q, order[i]) {
      assert order[i] in order;
    }
    QueuedInAgree(env, q', q, order);
    assert KeysOf(env, [url]) == multiset{KeyOf(env, url)};
  }

  /** Enqueueing a URL queues one more copy of its key. */
  lemma QueuedKeysEnqueue(env: Env, s: Frontier, url: string)
    requires ListedOnce(s.order) && forall e :: e in s.queues <==> e in s.order
    ensures QueuedKeys(env, Enqueue(s, DomainOf(env, url), url)) == QueuedKeys(env, s) + multiset{KeyOf(env, url)}
  {
    var d := DomainOf(env, url);
    if d in s.queues {
      QueuedInExtend(env, s.queues, s.order, d, url);
    } else {
      QueuedInNewDomain(env, s.queues, s.order, d, url);
    }
  }

  /** A queue of one URL unlisted with its domain takes that URL's key. */
  lemma QueuedInDropLast(env: Env, q: map<string, seq<string>>, order: seq<string>, d: string)
    requires ListedOnce(order) && d in order && d in q && |q[d]| == 1
    ensures QueuedIn(env, q - {d}, Remove(order, d)) + multiset{KeyOf(env, q[d][0])} == QueuedIn(env, q, order)
  {
    var r := Remove(order, d);
    QueuedInRemove(env, q, order, d);
    forall i | 0 <= i < |r| ensures Lookup(q - {d}, r[i]) == Lookup(q, r[i]) {
      assert r[i] in r;
    }
    QueuedInAgree(env, q - {d}, q, r);
    assert q[d] == [q[d][0]];
    assert KeysOf(env, q[d]) == multiset{KeyOf(env, q[d][0])};
  }

  /** A longer queue losing its head takes the head's key. */
  lemma QueuedInDropHead(env: Env, q: map<string, seq<string>>, order: seq<string>, d: string)
    requires ListedOnce(order) && d in order && d in q && |q[d]| > 1
    ensures QueuedIn(env, q[d := q[d][1..]], order) + multiset{KeyOf(env, q[d][0])} == QueuedIn(env, q, order)
  {
    var rest := KeysOf(env, q[d][1..]);
    QueuedInUpdate(env, q, order, d, q[d][1..]);
    assert KeysOf(env, q[d]) == multiset{KeyOf(env, q[d][0])} + rest;
    UnionCancel(QueuedIn(env, q[d := q[d][1..]], order) + multiset{KeyOf(env, q[d][0])}, QueuedIn(env, q, order), rest);
  }

  /** Taking the head of a queue removes one copy of its key. */
  lemma QueuedKeysPop(env: Env, s: Frontier, d: string)
    requires ListedOnce(s.order) && d in s.queues && d in s.order && s.queues[d] != []
    ensures QueuedKeys(env, PopFront(s, d)) + multiset{KeyOf(env, s.queues[d][0])} == QueuedKeys(env, s)
  {
    if |s.queues[d]| <= 1 {
      QueuedInDropLast(env, s.queues, s.order, d);
    } else {
      QueuedInDropHead(env, s.queues, s.order, d);
    }
  }

  // ---------------------------------------------------------------------------
  // The invariant

  /** No key is queued twice. */
  ghost predicate NoDuplicates(env: Env, s: Frontier) {
    forall k :: QueuedKeys(env, s)[k] <= 1
  }

  /** Every queued key is in the store. */
  predicate QueuedAreStored(env: Env, s: Frontier) {
    forall k :: k in QueuedKeys(env, s) ==> k in s.save
  }

  ghost predicate Inv(env: Env, s: Frontier) {
    WellFormed(env, s) && StoreConsistent(env, s) && NoDuplicates(env, s) && QueuedAreStored(env, s)
  }

  // ---------------------------------------------------------------------------
  // Runs

  /** A call on the frontier: `get_tbd_url` reading the clock at `now` and, on dispatch, at `stamp`. */
  datatype Event = Get(now: int, stamp: int) | Add(url: string) | Complete(url: string)

  /** A URL handed to a worker, its domain, and the time its domain was stamped with. */
  datatype Dispatched = Dispatched(url: string, domain: string, stamp: int)

  function Step(env: Env, s: Frontier, e: Event): (r: (Frontier, seq<Dispatched>))
    ensures |r.1| <= 1 && (r.1 != [] ==> e.Get? && r.1[0].stamp == e.stamp)
    ensures r.1 == [] ==> r.0.lastRequest == s.lastRequest
  {
    match e
    case Get(now, stamp) =>
      var g := GetTbdUrl(env, s, now, stamp);
      (g.1, if g.0.Dispatch? then [Dispatched(g.0.url, DomainOf(env, g.0.url), stamp)] else [])
    case Add(url) => (AddUrl(env, s, url), [])
    case Complete(url) => (MarkUrlComplete(env, s, url).0, [])
  }

  /** The state after the calls `evs`, in order, and the URLs they dispatched. */
  function Run(env: Env, s: Frontier, evs: seq<Event>): (r: (Frontier, seq<Dispatched>))
    ensures |r.1| <= |evs|
    decreases |evs|
  {
    if evs == [] then (s, [])
    else
      var a := Step(env, s, evs[0]);
      var b := Run(env, a.0, evs[1..]);
      (b.0, a.1 + b.1)
  }

  function Completions(evs: seq<Event>): nat {
    if evs == [] then 0 else (if evs[0].Complete? then 1 else 0) + Completions(evs[1..])
  }

  /**
   * `s1` follows `s` without losing ground: the invariant holds, no stored
   * key is lost, and no key already stored gains a queue entry.
   */
  ghost predicate Advances(env: Env, s: Frontier, s1: Frontier) {
    && Inv(env, s1)
    && s.save.Keys <= s1.save.Keys
    && (forall k :: k in s.save ==> QueuedKeys(env, s1)[k] <= QueuedKeys(env, s)[k])
  }

  /** Adding a key that is not there keeps every count at most one. */
  lemma AddFreshOnce(a: multiset<string>, k: string)
    requires (forall x :: a[x] <= 1) && k !in a
    ensures forall x :: (a + multiset{k})[x] <= 1
  {
  }

  /** A state whose queued keys are a sub-multiset of the old ones, over a store that only grew, advances. */
  lemma ShrinkAdvances(env: Env, s: Frontier, s1: Frontier)
    requires Inv(env, s) && WellFormed(env, s1) && StoreConsistent(env, s1)
    requires s.save.Keys <= s1.save.Keys
    requires forall x :: QueuedKeys(env, s1)[x] <= QueuedKeys(env, s)[x]
    ensures Advances(env, s, s1)
  {
    forall x | x in QueuedKeys(env, s1) ensures x in s1.save {
      assert x in QueuedKeys(env, s);
    }
  }

  /** A dispatch takes one copy of the handed-out URL's key off the queues. */
  lemma GetTakesOneKey(env: Env, s: Frontier, now: int, stamp: int)
    requires WellFormed(env, s) && GetTbdUrl(env, s, now, stamp).0.Dispatch?
    ensures var g := GetTbdUrl(env, s, now, stamp);
      && KeyOf(env, g.0.url) in QueuedKeys(env, s)
      && QueuedKeys(env, g.1) + multiset{KeyOf(env, g.0.url)} == QueuedKeys(env, s)
  {
    var g := GetTbdUrl(env, s, now, stamp);
    var k := ScanFrom(env, s, now, 0, None).index;
    var d := s.order[k];
    assert d in s.queues;
    QueuedKeysPop(env, s, d);
    assert g.1.order == PopFront(s, d).order && g.1.queues == PopFront(s, d).queues;
    assert QueuedKeys(env, g.1) == QueuedKeys(env, PopFront(s, d));
  }

  /** `get_tbd_url` keeps the invariant, and a dispatch takes exactly one queued key. */
  lemma GetKeepsInv(env: Env, s: Frontier, now: int, stamp: int)
    requires Inv(env, s)
    ensures var g := GetTbdUrl(env, s, now, stamp);
      && Advances(env, s, g.1)
      && (g.0.Dispatch? ==>
            KeyOf(env, g.0.url) in QueuedKeys(env, s)
            && QueuedKeys(env, g.1) + multiset{KeyOf(env, g.0.url)} == QueuedKeys(env, s))
  {
    var g := GetTbdUrl(env, s, now, stamp);
    GetTbdUrlWellFormed(env, s, now, stamp);
    if g.0.Dispatch? {
      GetTakesOneKey(env, s, now, stamp);
      forall x ensures QueuedKeys(env, g.1)[x] <= QueuedKeys(env, s)[x] {
        assert (QueuedKeys(env, g.1) + multiset{KeyOf(env, g.0.url)})[x] == QueuedKeys(env, s)[x];
      }
    }
    ShrinkAdvances(env, s, g.1);
  }

  /** `add_url` keeps the invariant; a new key is queued once. */
  lemma AddKeepsInv(env: Env, s: Frontier, url: string)
    requires Inv(env, s)
    ensures Advances(env, s, AddUrl(env, s, url))
  {
    var u := Normalize(url);
    var key := KeyOf(env, u);
    if key !in s.save {
      var s' := s.(save := s.save[key := Record(u, false)]);
      assert QueuedKeys(env, s') == QueuedKeys(env, s);
      assert Inv(env, s');
      EnqueueStoredKeepsInv(env, s', u);
      assert AddUrl(env, s, url) == Enqueue(s', DomainOf(env, u), u);
    }
  }

  /** `mark_url_complete` keeps the invariant; the queues are untouched. */
  lemma CompleteKeepsInv(env: Env, s: Frontier, url: string)
    requires Inv(env, s)
    ensures Advances(env, s, MarkUrlComplete(env, s, url).0)
  {
    MarkUrlCompleteWellFormed(env, s, url);
    assert QueuedKeys(env, MarkUrlComplete(env, s, url).0) == QueuedKeys(env, s);
  }

  /** Completing a URL the frontier handed out never takes the "have not seen it before" branch. */
  lemma DispatchedIsSeen(env: Env, s: Frontier, now: int, stamp: int)
    requires Inv(env, s) && GetTbdUrl(env, s, now, stamp).0.Dispatch?
    ensures var g := GetTbdUrl(env, s, now, stamp); !MarkUrlComplete(env, g.1, g.0.url).1
  {
    GetKeepsInv(env, s, now, stamp);
    var g := GetTbdUrl(env, s, now, stamp);
    var _ := DispatchIsFirstReady(env, s, now, stamp);
    assert g.1.save == s.save;
  }

  /** So does every call, and a dispatch takes exactly one queued key. */
  lemma StepKeepsInv(env: Env, s: Frontier, e: Event)
    requires Inv(env, s)
    ensures var r := Step(env, s, e);
      && Advances(env, s, r.0)
      && (r.1 != [] ==>
            KeyOf(env, r.1[0].url) in QueuedKeys(env, s)
            && QueuedKeys(env, r.0) + multiset{KeyOf(env, r.1[0].url)} == QueuedKeys(env, s))
  {
    match e
    case Get(now, stamp) => GetKeepsInv(env, s, now, stamp);
    case Add(url) => AddKeepsInv(env, s, url);
    case Complete(url) => CompleteKeepsInv(env, s, url);
  }

  lemma {:induction false} RunKeepsInv(env: Env, s: Frontier, evs: seq<Event>)
    requires Inv(env, s)
    ensures Inv(env, Run(env, s, evs).0)
    decreases |evs|
  {
    if evs != [] {
      StepKeepsInv(env, s, evs[0]);
      RunKeepsInv(env, Step(env, s, evs[0]).0, evs[1..]);
    }
  }

  /** `active_workers` moves up on each dispatch and down on each completion. */
  lemma {:induction false} ActiveCount(env: Env, s: Frontier, evs: seq<Event>)
    ensures Run(env, s, evs).0.active == s.active + |Run(env, s, evs).1| - Completions(evs)
    decreases |evs|
  {
    if evs != [] {
      var a := Step(env, s, evs[0]);
      ActiveCount(env, a.0, evs[1..]);
      match evs[0]
      case Get(now, stamp) =>
        if a.1 != [] {
          var _ := DispatchIsFirstReady(env, s, now, stamp);
        }
      case Add(url) =>
      case Complete(url) =>
    }
  }

  // ---------------------------------------------------------------------------
  // Properties of a dispatch log

  /** No dispatched key is in `done`. */
  predicate KeysAvoid(env: Env, log: seq<Dispatched>, done: set<string>) {
    forall j :: 0 <= j < |log| ==> KeyOf(env, log[j].url) !in done
  }

  /** No key is dispatched twice. */
  predicate KeysDistinct(env: Env, log: seq<Dispatched>) {
    forall i, j :: 0 <= i < j < |log| ==> KeyOf(env, log[i].url) != KeyOf(env, log[j].url)
  }

  lemma KeysCons(env: Env, x: Dispatched, rest: seq<Dispatched>, done: set<string>)
    requires KeyOf(env, x.url) !in done
    requires KeysAvoid(env, rest, done + {KeyOf(env, x.url)}) && KeysDistinct(env, rest)
    ensures KeysAvoid(env, [x] + rest, done) && KeysDistinct(env, [x] + rest)
  {
    var log := [x] + rest;
    forall i, j | 0 <= i < j < |log| ensures KeyOf(env, log[i].url) != KeyOf(env, log[j].url) {
      assert log[j] == rest[j - 1];
      if i > 0 {
        assert log[i] == rest[i - 1];
      }
    }
    forall j | 0 <= j < |log| ensures KeyOf(env, log[j].url) !in done {
      if j > 0 {
        assert log[j] == rest[j - 1];
      }
    }
  }

  /** Each dispatch comes at least `delay` after its domain's stamp in `s`. */
  predicate StampsFollow(log: seq<Dispatched>, s: Frontier, delay: int) {
    forall j :: 0 <= j < |log| ==> log[j].stamp >= LastRequest(s, log[j].domain) + delay
  }

  /** Two dispatches to one domain are stamped at least `delay` apart. */
  predicate Spaced(log: seq<Dispatched>, delay: int) {
    forall i, j :: 0 <= i < j < |log| && log[i].domain == log[j].domain ==> log[j].stamp - log[i].stamp >= delay
  }

  lemma SpacedCons(x: Dispatched, rest: seq<Dispatched>, s: Frontier, s1: Frontier, delay: int)
    requires delay >= 0
    requires x.stamp >= LastRequest(s, x.domain) + delay
    requires forall e :: LastRequest(s1, e) == if e == x.domain then x.stamp else LastRequest(s, e)
    requires StampsFollow(rest, s1, delay) && Spaced(rest, delay)
    ensures StampsFollow([x] + rest, s, delay) && Spaced([x] + rest, delay)
  {
    var log := [x] + rest;
    forall j | 0 <= j < |log| ensures log[j].stamp >= LastRequest(s, log[j].domain) + delay {
      if j > 0 {
        assert log[j] == rest[j - 1];
      }
    }
    forall i, j | 0 <= i < j < |log| && log[i].domain == log[j].domain
      ensures log[j].stamp - log[i].stamp >= delay
    {
      assert log[j] == rest[j - 1];
      if i > 0 {
        assert log[i] == rest[i - 1];
      }
    }
  }

  lemma RunCons(env: Env, s: Frontier, e: Event, rest: seq<Event>)
    ensures Run(env, s, [e] + rest).1 == Step(env, s, e).1 + Run(env, Step(env, s, e).0, rest).1
  {
    assert ([e] + rest)[1..] == rest;
  }

  lemma RunLast(env: Env, s: Frontier, e: Event)
    ensures Run(env, s, [e]).1 == Step(env, s, e).1
  {
    RunCons(env, s, e, []);
    assert [e] + [] == [e];
  }

  lemma RunConsKnown(env: Env, s: Frontier, t: Frontier, e: Event, rest: seq<Event>, out: seq<Dispatched>, log: seq<Dispatched>)
    requires Step(env, s, e) == (t, out) && Run(env, t, rest).1 == log
    ensures Run(env, s, [e] + rest).1 == out + log
  {
    RunCons(env, s, e, rest);
  }

  lemma RunUnfold(env: Env, s: Frontier, evs: seq<Event>)
    requires evs != []
    ensures Run(env, s, evs).0 == Run(env, Step(env, s, evs[0]).0, evs[1..]).0
    ensures Run(env, s, evs).1 == Step(env, s, evs[0]).1 + Run(env, Step(env, s, evs[0]).0, evs[1..]).1
  {
  }

  /** After a step, the keys handed out so far are stored and no longer queued. */
  lemma DoneAfterStep(env: Env, s: Frontier, s1: Frontier, out: seq<Dispatched>, done: set<string>) returns (done': set<string>)
    requires Inv(env, s) && Advances(env, s, s1)
    requires out != [] ==>
      && KeyOf(env, out[0].url) in QueuedKeys(env, s)
      && QueuedKeys(env, s1) + multiset{KeyOf(env, out[0].url)} == QueuedKeys(env, s)
    requires forall k :: k in done ==> k in s.save && k !in QueuedKeys(env, s)
    ensures done' == if out == [] then done else done + {KeyOf(env, out[0].url)}
    ensures forall k :: k in done' ==> k in s1.save && k !in QueuedKeys(env, s1)
    ensures out != [] ==> KeyOf(env, out[0].url) !in done
  {
    done' := if out == [] then done else done + {KeyOf(env, out[0].url)};
    forall k | k in done' ensures k in s1.save && k !in QueuedKeys(env, s1) {
      if k in done {
        assert QueuedKeys(env, s1)[k] <= QueuedKeys(env, s)[k];
      } else {
        var q := QueuedKeys(env, s);
        assert (QueuedKeys(env, s1) + multiset{k})[k] == q[k] <= 1;
      }
    }
  }

  /**
   * No URL key is handed out twice, nor one handed out before the run
   * (`done`): every dispatched key was queued, and a stored key is never
   * queued again.
   */
  lemma {:induction false} NoRedispatch(env: Env, s: Frontier, evs: seq<Event>, done: set<string>)
    requires Inv(env, s)
    requires forall k :: k in done ==> k in s.save && k !in QueuedKeys(env, s)
    ensures KeysAvoid(env, Run(env, s, evs).1, done) && KeysDistinct(env, Run(env, s, evs).1)
    decreases |evs|
  {
    if evs != [] {
      var a := Step(env, s, evs[0]);
      StepKeepsInv(env, s, evs[0]);
      var done' := DoneAfterStep(env, s, a.0, a.1, done);
      NoRedispatch(env, a.0, evs[1..], done');
      RunUnfold(env, s, evs);
      var rest := Run(env, a.0, evs[1..]).1;
      if a.1 != [] {
        KeysCons(env, a.1[0], rest, done);
        assert a.1 == [a.1[0]];
      } else {
        assert Run(env, s, evs).1 == rest;
      }
    }
  }

  /** A dispatch at `stamp` is `time_delay` after its domain's previous stamp, which it replaces. */
  lemma DispatchStamps(env: Env, s: Frontier, now: int, stamp: int)
    requires WellFormed(env, s) && now <= stamp
    requires GetTbdUrl(env, s, now, stamp).0.Dispatch?
    ensures var g := GetTbdUrl(env, s, now, stamp); var d := DomainOf(env, g.0.url);
      && stamp >= LastRequest(s, d) + env.delay
      && forall e :: LastRequest(g.1, e) == if e == d then stamp else LastRequest(s, e)
  {
    DispatchedDomain(env, s, now, stamp);
  }

  /** Every `get_tbd_url` call reads the clock for the stamp no earlier than for the readiness test. */
  predicate ClockReadsOrdered(evs: seq<Event>) {
    forall i :: 0 <= i < |evs| && evs[i].Get? ==> evs[i].now <= evs[i].stamp
  }

  /** Every call keeps the queues well formed and every record under its own URL's key. */
  lemma StepWellFormed(env: Env, s: Frontier, e: Event)
    requires WellFormed(env, s) && StoreConsistent(env, s)
    ensures WellFormed(env, Step(env, s, e).0) && StoreConsistent(env, Step(env, s, e).0)
  {
    match e
    case Get(now, stamp) => GetTbdUrlWellFormed(env, s, now, stamp);
    case Add(url) => AddUrlWellFormed(env, s, url);
    case Complete(url) => MarkUrlCompleteWellFormed(env, s, url);
  }

  lemma ClockReadsTail(evs: seq<Event>)
    requires evs != [] && ClockReadsOrdered(evs)
    ensures ClockReadsOrdered(evs[1..]) && (evs[0].Get? ==> evs[0].now <= evs[0].stamp)
  {
    forall i | 0 <= i < |evs| - 1 && evs[1..][i].Get? ensures evs[1..][i].now <= evs[1..][i].stamp {
      assert evs[1..][i] == evs[i + 1];
    }
  }

  /**
   * One call: a dispatch is stamped `time_delay` after its domain's last
   * stamp and that stamp replaces it; a call that dispatches nothing moves
   * no stamp.
   */
  lemma StepStamps(env: Env, s: Frontier, e: Event)
    requires WellFormed(env, s) && (e.Get? ==> e.now <= e.stamp)
    ensures var a := Step(env, s, e);
      a.1 != [] ==>
        && a.1[0].stamp >= LastRequest(s, a.1[0].domain) + env.delay
        && forall d :: LastRequest(a.0, d) == if d == a.1[0].domain then a.1[0].stamp else LastRequest(s, d)
    ensures var a := Step(env, s, e);
      a.1 == [] ==> forall d :: LastRequest(a.0, d) == LastRequest(s, d)
  {
    if Step(env, s, e).1 != [] {
      DispatchStamps(env, s, e.now, e.stamp);
    }
  }

  /** The spacing of a run's log extends to one more call in front. */
  lemma PoliteCons(out: seq<Dispatched>, rest: seq<Dispatched>, s: Frontier, s1: Frontier, delay: int)
    requires delay >= 0 && |out| <= 1
    requires out != [] ==>
      && out[0].stamp >= LastRequest(s, out[0].domain) + delay
      && forall e :: LastRequest(s1, e) == if e == out[0].domain then out[0].stamp else LastRequest(s, e)
    requires out == [] ==> forall e :: LastRequest(s1, e) == LastRequest(s, e)
    requires StampsFollow(rest, s1, delay) && Spaced(rest, delay)
    ensures StampsFollow(out + rest, s, delay) && Spaced(out + rest, delay)
  {
    if out != [] {
      SpacedCons(out[0], rest, s, s1, delay);
      assert out == [out[0]];
    } else {
      assert out + rest == rest;
    }
  }

  /**
   * Politeness: each dispatch comes at least `time_delay` after the
   * domain's last stamp before the run, and two dispatches to one domain
   * are stamped at least `time_delay` apart.
   */
  lemma {:induction false} Polite(env: Env, s: Frontier, evs: seq<Event>)
    requires WellFormed(env, s) && StoreConsistent(env, s) && env.delay >= 0 && ClockReadsOrdered(evs)
    ensures StampsFollow(Run(env, s, evs).1, s, env.delay) && Spaced(Run(env, s, evs).1, env.delay)
    decreases |evs|
  {
    if evs != [] {
      var a := Step(env, s, evs[0]);
      StepWellFormed(env, s, evs[0]);
      ClockReadsTail(evs);
      Polite(env, a.0, evs[1..]);
      RunUnfold(env, s, evs);
      StepStamps(env, s, evs[0]);
      PoliteCons(a.1, Run(env, a.0, evs[1..]).1, s, a.0, env.delay);
    }
  }

  /** Stored records are never lost, and a completed one stays completed. */
  lemma {:induction false} RecordsPersist(env: Env, s: Frontier, evs: seq<Event>)
    ensures forall k :: k in s.save ==> k in Run(env, s, evs).0.save
    ensures forall k :: k in s.save && s.save[k].completed ==> Run(env, s, evs).0.save[k].completed
    decreases |evs|
  {
    if evs != [] {
      var a := Step(env, s, evs[0]);
      RecordsPersist(env, a.0, evs[1..]);
      match evs[0]
      case Get(now, stamp) =>
        if a.1 != [] {
          var _ := DispatchIsFirstReady(env, s, now, stamp);
        }
      case Add(url) =>
      case Complete(url) =>
    }
  }

  // ---------------------------------------------------------------------------
  // Start-up establishes the invariant

  lemma {:induction false} AddAllKeepsInv(env: Env, s: Frontier, urls: seq<string>)
    requires Inv(env, s)
    ensures Inv(env, AddAll(env, s, urls))
    decreases |urls|
  {
    if urls != [] {
      StepKeepsInv(env, s, Add(urls[0]));
      AddAllKeepsInv(env, AddUrl(env, s, urls[0]), urls[1..]);
    }
  }

  /** Queuing a stored URL whose key is not queued yet keeps the invariant and queues that key once. */
  lemma EnqueueStoredKeepsInv(env: Env, s: Frontier, u: string)
    requires Inv(env, s)
    requires KeyOf(env, u) in s.save && KeyOf(env, u) !in QueuedKeys(env, s)
    ensures Inv(env, Enqueue(s, DomainOf(env, u), u))
    ensures QueuedKeys(env, Enqueue(s, DomainOf(env, u), u)) == QueuedKeys(env, s) + multiset{KeyOf(env, u)}
  {
    EnqueueWellFormed(env, s, u);
    QueuedKeysEnqueue(env, s, u);
    AddFreshOnce(QueuedKeys(env, s), KeyOf(env, u));
  }

  lemma {:induction false} ParseKeepsInv(env: Env, s: Frontier, keys: seq<string>)
    requires Inv(env, s) && ListedOnce(keys)
    requires forall i :: 0 <= i < |keys| ==> keys[i] !in QueuedKeys(env, s)
    ensures Inv(env, ParseSaveFile(env, s, keys))
    decreases |keys|
  {
    if keys != [] {
      var k := keys[0];
      assert ListedOnce(keys[1..]) && keys[0] !in keys[1..];
      var s1 := if IsPending(env, s.save, k) then Enqueue(s, DomainOf(env, s.save[k].url), s.save[k].url) else s;
      assert ParseSaveFile(env, s, keys) == ParseSaveFile(env, s1, keys[1..]);
      if IsPending(env, s.save, k) {
        EnqueueStoredKeepsInv(env, s, s.save[k].url);
      }
      assert forall x :: x in QueuedKeys(env, s1) ==> x in QueuedKeys(env, s) || x == k;
      forall i | 0 <= i < |keys| - 1 ensures keys[1..][i] !in QueuedKeys(env, s1) {
        assert keys[1..][i] in keys[1..];
      }
      ParseKeepsInv(env, s1, keys[1..]);
    }
  }

  /**
   * A frontier opened over a store written by the frontier itself (each
   * record under its own URL's key), iterated with each key once, satisfies
   * the invariant.
   */
  lemma OpenKeepsInv(env: Env, seeds: seq<string>, restart: bool, stored: map<string, Record>, keys: seq<string>)
    requires forall k :: k in stored ==> KeyOf(env, stored[k].url) == k
    requires ListedOnce(keys)
    ensures Inv(env, Open(env, seeds, restart, stored, keys))
  {
    assert QueuedKeys(env, Empty(map[])) == multiset{};
    assert QueuedKeys(env, Empty(stored)) == multiset{};
    if restart {
      AddAllKeepsInv(env, Empty(map[]), seeds);
    } else {
      ParseKeepsInv(env, Empty(stored), keys);
      if |stored| == 0 {
        AddAllKeepsInv(env, ParseSaveFile(env, Empty(stored), keys), seeds);
      }
    }
  }

  /**
   * Opened from the seeds (a restart or an empty store), the frontier has
   * the first seed queued, so its first `get_tbd_url` does not report the
   * crawl finished.
   */
  lemma OpenSeedsQueued(env: Env, seeds: seq<string>, restart: bool, stored: map<string, Record>, keys: seq<string>, now: int, stamp: int)
    requires forall k :: k in stored ==> KeyOf(env, stored[k].url) == k
    requires ListedOnce(keys)
    requires (restart || stored == map[]) && seeds != []
    ensures HasUrls(Open(env, seeds, restart, stored, keys))
    ensures !GetTbdUrl(env, Open(env, seeds, restart, stored, keys), now, stamp).0.Finished?
  {
    var r := Open(env, seeds, restart, stored, keys);
    OpenKeepsInv(env, seeds, restart, stored, keys);
    var u := Normalize(seeds[0]);
    var queued := NewUrls(env, {}, seeds);
    assert FirstNew(env, {}, seeds, 0);
    NewUrlsComplete(env, {}, seeds);
    OfDomainMeaning(env, queued, DomainOf(env, u));
    assert u in QueueOf(r, DomainOf(env, u));
    SomeQueueListed(env, r, DomainOf(env, u));
  }

  /** In a well-formed frontier, a domain with URLs queued is listed in the dict's order. */
  lemma SomeQueueListed(env: Env, s: Frontier, d: string)
    requires WellFormed(env, s) && QueueOf(s, d) != []
    ensures HasUrls(s)
  {
    assert d in s.order;
    var i :| 0 <= i < |s.order| && s.order[i] == d;
  }

  // ---------------------------------------------------------------------------
  // A worked run: two hosts, a 500-tick delay, URLs `a1`, `a2` on host a and
  // `b1` on host b

  /** Both hosts queued, nothing dispatched yet. */
  function Start(a1: string, a2: string, b1: string, save: map<string, Record>): Frontier {
    Frontier(["a", "b"], map["a" := [a1, a2], "b" := [b1]], map[], 0, save)
  }

  /** At 1000 both hosts have cooled down; the first host in the dict is served. */
  lemma TwoHostsFirst(env: Env, a1: string, a2: string, b1: string, save: map<string, Record>)
    requires env.delay == 500
    ensures GetTbdUrl(env, Start(a1, a2, b1, save), 1000, 1000)
         == (Dispatch(a1), Frontier(["a", "b"], map["a" := [a2], "b" := [b1]], map["a" := 1000], 1, save))
  {
    var s := Start(a1, a2, b1, save);
    assert QueueOf(s, "a") == [a1, a2] && IsReady(env, s, 1000, "a");
    assert ScanFrom(env, s, 1000, 0, None) == Ready(0);
    assert [a1, a2][1..] == [a2];
    assert PopFront(s, "a").queues == map["a" := [a2], "b" := [b1]];
  }

  /** At 1100 host a is still cooling down, so host b is served and its emptied queue dropped. */
  lemma TwoHostsSecond(env: Env, a2: string, b1: string, save: map<string, Record>)
    requires env.delay == 500
    ensures GetTbdUrl(env, Frontier(["a", "b"], map["a" := [a2], "b" := [b1]], map["a" := 1000], 1, save), 1100, 1100)
         == (Dispatch(b1), Frontier(["a"], map["a" := [a2]], map["a" := 1000, "b" := 1100], 2, save))
  {
    var s := Frontier(["a", "b"], map["a" := [a2], "b" := [b1]], map["a" := 1000], 1, save);
    assert QueueOf(s, "a") == [a2] && !IsReady(env, s, 1100, "a");
    assert QueueOf(s, "b") == [b1] && IsReady(env, s, 1100, "b");
    assert ScanFrom(env, s, 1100, 1, Some(400)) == Ready(1);
    assert ScanFrom(env, s, 1100, 0, None) == Ready(1);
    assert Remove(["a", "b"], "b") == ["a"] by {
      assert Remove(["b"], "b") == [] + Remove([], "b");
      assert ["a", "b"][1..] == ["b"];
    }
    assert s.queues - {"b"} == map["a" := [a2]];
  }

  /** At 1200 only host a has URLs, 200 ticks into its cooldown: wait the other 300. */
  lemma TwoHostsWait(env: Env, a2: string, save: map<string, Record>)
    requires env.delay == 500
    ensures GetTbdUrl(env, Frontier(["a"], map["a" := [a2]], map["a" := 1000, "b" := 1100], 2, save), 1200, 1200).0 == Wait(300)
  {
    var s := Frontier(["a"], map["a" := [a2]], map["a" := 1000, "b" := 1100], 2, save);
    assert QueueOf(s, "a") == [a2] && !IsReady(env, s, 1200, "a") && Remaining(env, s, 1200, "a") == 300;
    assert ScanFrom(env, s, 1200, 1, Some(300)) == NoneReady(Some(300));
    assert ScanFrom(env, s, 1200, 0, None) == NoneReady(Some(300));
    assert HasUrls(s);
  }

  /** At 1500 host a has cooled down again and is served. */
  lemma TwoHostsThird(env: Env, a2: string, save: map<string, Record>)
    requires env.delay == 500
    ensures GetTbdUrl(env, Frontier(["a"], map["a" := [a2]], map["a" := 1000, "b" := 1100], 2, save), 1500, 1500).0 == Dispatch(a2)
  {
    var s := Frontier(["a"], map["a" := [a2]], map["a" := 1000, "b" := 1100], 2, save);
    assert QueueOf(s, "a") == [a2] && IsReady(env, s, 1500, "a");
    assert ScanFrom(env, s, 1500, 0, None) == Ready(0);
  }

  lemma Nested<T>(a: T, b: T, c: T, d: T)
    ensures [a] + ([b] + ([c] + [d])) == [a, b, c, d]
    ensures [a] + ([b] + ([] + [c])) == [a, b, c]
  {
  }

  /** Four calls whose steps are known, of which the third dispatches nothing. */
  lemma RunOfSteps(env: Env, s0: Frontier, s1: Frontier, s2: Frontier, g1: Event, g2: Event, g3: Event, g4: Event,
                   d1: Dispatched, d2: Dispatched, d3: Dispatched)
    requires Step(env, s0, g1) == (s1, [d1]) && Step(env, s1, g2) == (s2, [d2])
    requires Step(env, s2, g3) == (s2, []) && Step(env, s2, g4).1 == [d3]
    ensures Run(env, s0, [g1] + ([g2] + ([g3] + [g4]))).1 == [d1] + ([d2] + ([] + [d3]))
  {
    RunLast(env, s2, g4);
    RunConsKnown(env, s2, s2, g3, [g4], [], [d3]);
    RunConsKnown(env, s1, s2, g2, [g3] + [g4], [d2], [] + [d3]);
    RunConsKnown(env, s0, s1, g1, [g2] + ([g3] + [g4]), [d1], [d2] + ([] + [d3]));
  }

  /** The four calls one by one. */
  lemma TwoHostsSteps(env: Env, a1: string, a2: string, b1: string, save: map<string, Record>)
    requires env.delay == 500
    requires DomainOf(env, a1) == "a" && DomainOf(env, a2) == "a" && DomainOf(env, b1) == "b"
    ensures var s1 := Frontier(["a", "b"], map["a" := [a2], "b" := [b1]], map["a" := 1000], 1, save);
      var s2 := Frontier(["a"], map["a" := [a2]], map["a" := 1000, "b" := 1100], 2, save);
      && Step(env, Start(a1, a2, b1, save), Get(1000, 1000)) == (s1, [Dispatched(a1, "a", 1000)])
      && Step(env, s1, Get(1100, 1100)) == (s2, [Dispatched(b1, "b", 1100)])
      && Step(env, s2, Get(1200, 1200)) == (s2, [])
      && Step(env, s2, Get(1500, 1500)).1 == [Dispatched(a2, "a", 1500)]
  {
    TwoHostsFirst(env, a1, a2, b1, save);
    TwoHostsSecond(env, a2, b1, save);
    TwoHostsWait(env, a2, save);
    TwoHostsThird(env, a2, save);
  }

  /**
   * The whole run: hosts are served alternately while the other cools down,
   * and the call at 1200 dispatches nothing.
   */
  lemma TwoHosts(env: Env, a1: string, a2: string, b1: string, save: map<string, Record>)
    requires env.delay == 500
    requires DomainOf(env, a1) == "a" && DomainOf(env, a2) == "a" && DomainOf(env, b1) == "b"
    ensures Run(env, Start(a1, a2, b1, save), [Get(1000, 1000), Get(1100, 1100), Get(1200, 1200), Get(1500, 1500)]).1
         == [Dispatched(a1, "a", 1000), Dispatched(b1, "b", 1100), Dispatched(a2, "a", 1500)]
  {
    var s1 := Frontier(["a", "b"], map["a" := [a2], "b" := [b1]], map["a" := 1000], 1, save);
    var s2 := Frontier(["a"], map["a" := [a2]], map["a" := 1000, "b" := 1100], 2, save);
    TwoHostsSteps(env, a1, a2, b1, save);
    RunOfSteps(env, Start(a1, a2, b1, save), s1, s2, Get(1000, 1000), Get(1100, 1100), Get(1200, 1200), Get(1500, 1500),
      Dispatched(a1, "a", 1000), Dispatched(b1, "b", 1100), Dispatched(a2, "a", 1500));
    Nested(Get(1000, 1000), Get(1100, 1100), Get(1200, 1200), Get(1500, 1500));
    Nested(Dispatched(a1, "a", 1000), Dispatched(b1, "b", 1100), Dispatched(a2, "a", 1500), Dispatched(a2, "a", 1500));
  }
}
