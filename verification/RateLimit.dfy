/**
 The fixed-window rate limiter over a Redis counter per key and window, and the
 multi-limiter that applies several limits to the same counter.

 Times are nanoseconds since the zero time, which is what time.Truncate counts from.
 */
module RateLimit {
  import opened Wrappers
  import opened Strings

  const SECOND := 1_000_000_000
  /** Seconds from the zero time to the Unix epoch. */
  const EPOCH := 62_135_596_800

  // ─── Redis ───

  /** "{prefix}{key}:{unix}", kept as its two parts. */
  datatype RedisKey = RedisKey(name: string, unix: int)

  datatype Counter = Counter(count: nat, expireAt: Option<int>)

  type Store = map<RedisKey, Counter>

  predicate Live(s: Store, k: RedisKey, now: int) {
    k in s && (s[k].expireAt.Some? ==> now < s[k].expireAt.value)
  }

  /** INCR: an expired key starts again from nothing, without an expiry. */
  function Incr(s: Store, k: RedisKey, now: int): Store {
    if Live(s, k, now) then s[k := s[k].(count := s[k].count + 1)] else s[k := Counter(1, None)]
  }

  /** Redis answers TTL in seconds, to the nearest. */
  function ToSeconds(d: int): int {
    (d + SECOND / 2) / SECOND * SECOND
  }

  /** TTL: negative when the key has no expiry. */
  function Ttl(s: Store, k: RedisKey, now: int): int
    requires k in s
  {
    if s[k].expireAt.Some? then ToSeconds(s[k].expireAt.value - now) else -1
  }

  // ─── Allow ───

  datatype Result = Result(allowed: bool, remaining: int, retryAfter: int, windowTTL: int, hits: nat)

  /** Whole seconds, so that every window has a Unix second of its own. */
  predicate WholeSeconds(window: int) {
    window > 0 && window % SECOND == 0
  }

  function WindowOf(now: int, window: int): int
    requires window > 0
  {
    now / window
  }

  function NameOf(prefix: string, key: string): string {
    (if prefix == "" then "rl:" else prefix) + ReplaceAll(key, ' ', '_')
  }

  function KeyAt(name: string, now: int, window: int): RedisKey
    requires window > 0
  {
    RedisKey(name, (now - now % window) / SECOND - EPOCH)
  }

  /** The key of a window carries the Unix second of its start. */
  lemma KeyUnix(name: string, unix: int, window: int)
    requires WholeSeconds(window) && (unix + EPOCH) * SECOND % window == 0
    ensures KeyAt(name, (unix + EPOCH) * SECOND, window) == RedisKey(name, unix)
  {}

  /** math.Ceil(Window.Seconds()) seconds */
  function CeilSeconds(window: int): int {
    (window + SECOND - 1) / SECOND * SECOND
  }

  /** Up to the next whole second. */
  lemma RoundedUp(d: int)
    ensures exists q :: CeilSeconds(d) == q * SECOND
    ensures d <= CeilSeconds(d) < d + SECOND
  {
    assert CeilSeconds(d) == (d + SECOND - 1) / SECOND * SECOND;
  }

  /** To the nearest whole second. */
  lemma RoundedToNearest(d: int)
    ensures exists q :: ToSeconds(d) == q * SECOND
    ensures d - SECOND / 2 < ToSeconds(d) <= d + SECOND / 2
  {
    assert ToSeconds(d) == (d + SECOND / 2) / SECOND * SECOND;
  }

  class Redis {
    var store: Store

    constructor ()
      ensures store == map[]
    {
      store := map[];
    }
  }

  /** What Allow answers, and what it leaves in Redis; EXPIRE on the first hit may fail unnoticed. */
  function Allowed(s: Store, name: string, max: int, window: int, now: int, expireFails: bool): (Store, Result)
    requires window > 0
  {
    var k := KeyAt(name, now, window);
    var s1 := Incr(s, k, now);
    var hits := s1[k].count;
    var s2 := if hits == 1 && !expireFails then s1[k := s1[k].(expireAt := Some(now + window))] else s1;
    var ttl := Ttl(s2, k, now);
    var retry := if hits <= max then 0 else if ttl < 0 then CeilSeconds(window) else ttl;
    (s2, Result(hits <= max, if max - hits < 0 then 0 else max - hits, retry, ttl, hits))
  }

  /** A key counts up while it lives, and starts again at one from the instant of its expiry. */
  lemma Counting(s: Store, name: string, max: int, window: int, now: int, fails: bool)
    requires window > 0
    ensures var k := KeyAt(name, now, window);
            var hits := Allowed(s, name, max, window, now, fails).1.hits;
            && (k !in s ==> hits == 1)
            && (k in s && s[k].expireAt.None? ==> hits == s[k].count + 1)
            && (k in s && s[k].expireAt.Some? ==> hits == if now < s[k].expireAt.value then s[k].count + 1 else 1)
  {}

  class RedisLimiter {
    const client: Redis
    const prefix: string
    const max: int
    const window: int

    constructor (client: Redis, prefix: string, max: int, window: int)
      ensures this.client == client && this.max == max && this.window == window
      ensures this.prefix == if prefix == "" then "rl:" else prefix
    {
      this.client, this.max, this.window := client, max, window;
      this.prefix := if prefix == "" then "rl:" else prefix;
    }

    method Allow(key: string, now: int, expireFails: bool) returns (res: Result)
      requires window > 0 && prefix != ""
      modifies client
      ensures (client.store, res) == Allowed(old(client.store), NameOf(prefix, key), max, window, now, expireFails)
    {
      var k := KeyAt(NameOf(prefix, key), now, window);
      client.store := Incr(client.store, k, now);
      var hits := client.store[k].count;
      var ttl := Ttl(client.store, k, now);
      if hits == 1 {
        if !expireFails {
          client.store := client.store[k := client.store[k].(expireAt := Some(now + window))];
        }
        ttl := Ttl(client.store, k, now);
      }
      var allowed := hits <= max;
      var remaining := max - hits;
      if remaining < 0 {
        remaining := 0;
      }
      var retryAfter := 0;
      if !allowed {
        retryAfter := ttl;
        if retryAfter < 0 {
          retryAfter := CeilSeconds(window);
        }
      }
      res := Result(allowed, remaining, retryAfter, ttl, hits);
    }
  }

  // ─── Several limits over one Redis ───

  datatype Setting = Setting(limit: int, window: int)

  class MultiRedisLimiter {
    const client: Redis
    const prefix: string
    var limiters: map<Setting, RedisLimiter>

    /** Every cached limiter is the one its setting asks for. */
    ghost predicate Valid()
      reads this
    {
      && prefix != ""
      && forall c | c in limiters ::
           && limiters[c].client == client && limiters[c].prefix == prefix
           && limiters[c].max == c.limit && limiters[c].window == c.window
    }

    constructor (client: Redis, prefix: string)
      ensures Valid() && this.client == client && limiters == map[]
      ensures this.prefix == if prefix == "" then "rl:" else prefix
    {
      this.client := client;
      this.prefix := if prefix == "" then "rl:" else prefix;
      limiters := map[];
    }

    /** As if the limiter had been built for this call: the cache is never seen from outside. */
    method AllowWithLimits(key: string, limit: int, window: int, now: int, expireFails: bool) returns (res: Result)
      requires Valid() && window > 0
      modifies this`limiters, client
      ensures Valid()
      ensures (client.store, res) == Allowed(old(client.store), NameOf(prefix, key), limit, window, now, expireFails)
    {
      var c := Setting(limit, window);
      if c !in limiters {
        var limiter := new RedisLimiter(client, prefix, limit, window);
        limiters := limiters[c := limiter];
      }
      res := limiters[c].Allow(key, now, expireFails);
    }
  }

  // ─── Runs ───

  datatype Request = Request(time: int, name: string, max: int, expireFails: bool)

  /** A request together with the answer it got. */
  datatype Hit = Hit(req: Request, res: Result)

  function Play(window: int, reqs: seq<Request>): (Store, seq<Hit>)
    requires window > 0
  {
    if reqs == [] then (map[], [])
    else
      var (s, hits) := Play(window, reqs[..|reqs| - 1]);
      var r := reqs[|reqs| - 1];
      var (s', res) := Allowed(s, r.name, r.max, window, r.time, r.expireFails);
      (s', hits + [Hit(r, res)])
  }

  predicate InWindow(r: Request, name: string, window: int, w: int)
    requires window > 0
  {
    r.name == name && WindowOf(r.time, window) == w
  }

  /** Requests for a name in one window. */
  function Arrived(reqs: seq<Request>, name: string, window: int, w: int): nat
    requires window > 0
  {
    if reqs == [] then 0
    else
      Arrived(reqs[..|reqs| - 1], name, window, w) + if InWindow(reqs[|reqs| - 1], name, window, w) then 1 else 0
  }

  /** The first of them. */
  function FirstOf(reqs: seq<Request>, name: string, window: int, w: int): (first: Option<Request>)
    requires window > 0
    ensures first.Some? <==> Arrived(reqs, name, window, w) > 0
    ensures first.Some? ==> InWindow(first.value, name, window, w)
  {
    if reqs == [] then None
    else
      var r := reqs[|reqs| - 1];
      match FirstOf(reqs[..|reqs| - 1], name, window, w)
      case Some(first) => Some(first)
      case None => if InWindow(r, name, window, w) then Some(r) else None
  }

  predicate Ordered(reqs: seq<Request>) {
    forall i, j | 0 <= i < j < |reqs| :: reqs[i].time <= reqs[j].time
  }

  lemma WindowBounds(t: int, window: int)
    requires window > 0
    ensures WindowOf(t, window) * window == t - t % window
    ensures WindowOf(t, window) * window <= t < (WindowOf(t, window) + 1) * window
  {}

  /** With whole-second windows different windows have different keys. */
  lemma KeysDiffer(window: int, t: int, u: int, name: string)
    requires WholeSeconds(window)
    requires KeyAt(name, t, window) == KeyAt(name, u, window)
    ensures WindowOf(t, window) == WindowOf(u, window)
  {}

  lemma SameWindowSameKey(window: int, t: int, u: int, name: string)
    requires window > 0 && WindowOf(t, window) == WindowOf(u, window)
    ensures KeyAt(name, t, window) == KeyAt(name, u, window)
  {}

  /**
   The counter of a window holds the number of requests that arrived in it.  It lives for one window length
   from the first of them, which is past the window's end, or for ever if that one's EXPIRE failed.
   */
  ghost predicate CounterOk(s: Store, reqs: seq<Request>, window: int, name: string, t: int)
    requires window > 0
  {
    var k := KeyAt(name, t, window);
    var n := Arrived(reqs, name, window, WindowOf(t, window));
    if n == 0 then k !in s
    else
      var first := FirstOf(reqs, name, window, WindowOf(t, window)).value;
      k in s && s[k] == Counter(n, if first.expireFails then None else Some(first.time + window))
  }

  /** The counter a request finds is live, and the request is one more. */
  lemma FindsCounter(s: Store, reqs: seq<Request>, window: int, r: Request)
    requires WholeSeconds(window) && CounterOk(s, reqs, window, r.name, r.time)
    ensures var n := Arrived(reqs, r.name, window, WindowOf(r.time, window));
            var k := KeyAt(r.name, r.time, window);
            && (n > 0 ==> Live(s, k, r.time) && s[k].count == n)
            && (n == 0 ==> k !in s)
  {
    var w := WindowOf(r.time, window);
    if Arrived(reqs, r.name, window, w) > 0 {
      WindowBounds(FirstOf(reqs, r.name, window, w).value.time, window);
      WindowBounds(r.time, window);
      assert (w + 1) * window == w * window + window;
    }
  }

  /** A request leaves the counters of other windows and names alone. */
  lemma OtherCounter(s: Store, reqs: seq<Request>, window: int, r: Request, name: string, t: int)
    requires WholeSeconds(window) && CounterOk(s, reqs, window, name, t)
    requires !InWindow(r, name, window, WindowOf(t, window))
    ensures CounterOk(Allowed(s, r.name, r.max, window, r.time, r.expireFails).0, reqs + [r], window, name, t)
  {
    assert (reqs + [r])[..|reqs|] == reqs;
    if r.name == name && KeyAt(name, t, window) == KeyAt(name, r.time, window) {
      KeysDiffer(window, t, r.time, name);
    }
  }

  /** And counts in its own. */
  lemma OwnCounter(s: Store, reqs: seq<Request>, window: int, r: Request)
    requires WholeSeconds(window) && CounterOk(s, reqs, window, r.name, r.time)
    ensures CounterOk(Allowed(s, r.name, r.max, window, r.time, r.expireFails).0, reqs + [r], window, r.name, r.time)
  {
    assert (reqs + [r])[..|reqs|] == reqs;
    FindsCounter(s, reqs, window, r);
  }

  lemma SameCounter(s: Store, reqs: seq<Request>, window: int, name: string, t: int, u: int)
    requires window > 0 && WindowOf(t, window) == WindowOf(u, window)
    requires CounterOk(s, reqs, window, name, t)
    ensures CounterOk(s, reqs, window, name, u)
  {
    SameWindowSameKey(window, t, u, name);
  }

  lemma {:induction false} CountersOk(window: int, reqs: seq<Request>, name: string, t: int)
    requires WholeSeconds(window) && Ordered(reqs)
    ensures CounterOk(Play(window, reqs).0, reqs, window, name, t)
  {
    if reqs != [] {
      var front, r := reqs[..|reqs| - 1], reqs[|reqs| - 1];
      var s := Play(window, front).0;
      assert reqs == front + [r];
      CountersOk(window, front, name, t);
      if InWindow(r, name, window, WindowOf(t, window)) {
        SameCounter(s, front, window, name, t, r.time);
        OwnCounter(s, front, window, r);
        SameCounter(Play(window, reqs).0, reqs, window, name, r.time, t);
      } else {
        OtherCounter(s, front, window, r, name, t);
      }
    }
  }

  /**
   A request is counted as the n-th of its window where n is how many have arrived for its name
   in that window, whatever their limits: the expiry never resets a counter inside its window.
   */
  lemma {:induction false} HitsAreArrivals(window: int, reqs: seq<Request>, i: nat)
    requires WholeSeconds(window) && Ordered(reqs) && i < |reqs|
    ensures |Play(window, reqs).1| == |reqs|
    ensures var h := Play(window, reqs).1[i];
            && h.req == reqs[i]
            && h.res.hits == Arrived(reqs[..i + 1], reqs[i].name, window, WindowOf(reqs[i].time, window))
            && (h.res.allowed <==> h.res.hits <= reqs[i].max)
            && h.res.remaining == if h.res.allowed then reqs[i].max - h.res.hits else 0
  {
    var front, r := reqs[..|reqs| - 1], reqs[|reqs| - 1];
    PlayLength(window, front);
    if i < |front| {
      HitsAreArrivals(window, front, i);
      assert front[..i + 1] == reqs[..i + 1];
    } else {
      assert reqs[..i + 1] == reqs;
      CountersOk(window, front, r.name, r.time);
      FindsCounter(Play(window, front).0, front, window, r);
    }
  }

  lemma {:induction false} PlayLength(window: int, reqs: seq<Request>)
    requires window > 0
    ensures |Play(window, reqs).1| == |reqs|
  {
    if reqs != [] {
      PlayLength(window, reqs[..|reqs| - 1]);
    }
  }

  // ─── Bounds ───

  /** Answered requests of one limit for one name that were let through, and satisfy `p`. */
  function Passed(hits: seq<Hit>, name: string, max: int, p: int -> bool): nat {
    if hits == [] then 0
    else
      var h := hits[|hits| - 1];
      Passed(hits[..|hits| - 1], name, max, p)
      + if h.res.allowed && h.req.name == name && h.req.max == max && p(h.req.time) then 1 else 0
  }

  lemma {:induction false} PassedWeaker(hits: seq<Hit>, name: string, max: int, p: int -> bool, q: int -> bool)
    requires forall t :: p(t) ==> q(t)
    ensures Passed(hits, name, max, p) <= Passed(hits, name, max, q)
  {
    if hits != [] {
      PassedWeaker(hits[..|hits| - 1], name, max, p, q);
    }
  }

  lemma {:induction false} PassedSplit(hits: seq<Hit>, name: string, max: int, p: int -> bool, q: int -> bool, pq: int -> bool)
    requires forall t :: pq(t) ==> p(t) || q(t)
    ensures Passed(hits, name, max, pq) <= Passed(hits, name, max, p) + Passed(hits, name, max, q)
  {
    if hits != [] {
      PassedSplit(hits[..|hits| - 1], name, max, p, q, pq);
    }
  }

  /** Those of one aligned window. */
  function PassedIn(hits: seq<Hit>, name: string, max: int, window: int, w: int): nat
    requires window > 0
  {
    Passed(hits, name, max, t => WindowOf(t, window) == w)
  }

  /** At most Max requests pass per aligned window, each limit on a shared counter keeping its own bound. */
  lemma {:induction false} PerWindow(window: int, reqs: seq<Request>, name: string, max: nat, w: int)
    requires WholeSeconds(window) && Ordered(reqs)
    ensures var n := PassedIn(Play(window, reqs).1, name, max, window, w);
            n <= Arrived(reqs, name, window, w) && n <= max
  {
    if reqs != [] {
      var front := reqs[..|reqs| - 1];
      PerWindow(window, front, name, max, w);
      HitsAreArrivals(window, reqs, |reqs| - 1);
      assert reqs[..|reqs|] == reqs;
      PlayLength(window, front);
      assert Play(window, reqs).1[..|front|] == Play(window, front).1;
    }
  }

  /** The first Max requests of a window are exactly the ones that pass when they all carry the same limit. */
  lemma FirstMaxPass(window: int, reqs: seq<Request>, i: nat)
    requires WholeSeconds(window) && Ordered(reqs) && i < |reqs|
    ensures |Play(window, reqs).1| == |reqs|
    ensures Play(window, reqs).1[i].res.allowed <==>
            Arrived(reqs[..i], reqs[i].name, window, WindowOf(reqs[i].time, window)) < reqs[i].max
  {
    HitsAreArrivals(window, reqs, i);
    assert reqs[..i + 1][..i] == reqs[..i];
  }

  // ─── Limiter keys ───

  /** Two keys are one to the limiter: equal, but for spaces and underscores. */
  predicate SameKey(a: string, b: string) {
    |a| == |b| && forall i | 0 <= i < |a| :: a[i] == b[i] || (a[i] in " _" && b[i] in " _")
  }

  /** Under one prefix exactly such keys share their counters. */
  lemma SharedIff(prefix: string, a: string, b: string)
    ensures NameOf(prefix, a) == NameOf(prefix, b) <==> SameKey(a, b)
    ensures NameOf("", a) == NameOf("rl:", a)
  {
    var p := if prefix == "" then "rl:" else prefix;
    var x, y := ReplaceAll(a, ' ', '_'), ReplaceAll(b, ' ', '_');
    if NameOf(prefix, a) == NameOf(prefix, b) {
      assert |p + x| == |p + y|;
      forall i | 0 <= i < |a| ensures x[i] == y[i] {
        assert (p + x)[|p| + i] == (p + y)[|p| + i];
      }
    }
    if SameKey(a, b) {
      assert forall i | 0 <= i < |a| :: x[i] == y[i];
      assert x == y;
    }
  }

  /** A request for one key changes neither the counters of another nor the answer that one gets next. */
  lemma OtherKeyUntouched(s: Store, prefix: string, a: string, b: string, max: int, window: int, now: int, fails: bool,
                          max': int, window': int, now': int, fails': bool)
    requires window > 0 && window' > 0 && !SameKey(a, b)
    ensures var n := Allowed(s, NameOf(prefix, a), max, window, now, fails).0;
            && (forall k: RedisKey | k.name == NameOf(prefix, b) :: k in n <==> k in s)
            && (forall k: RedisKey | k.name == NameOf(prefix, b) && k in s :: n[k] == s[k])
            && Allowed(n, NameOf(prefix, b), max', window', now', fails').1
               == Allowed(s, NameOf(prefix, b), max', window', now', fails').1
  {
    SharedIff(prefix, a, b);
  }

  /** A request as the caller makes it. */
  datatype Call = Call(time: int, key: string, max: int, expireFails: bool)

  function Requests(prefix: string, calls: seq<Call>): (reqs: seq<Request>)
    ensures |reqs| == |calls|
  {
    if calls == [] then []
    else
      var c := calls[|calls| - 1];
      Requests(prefix, calls[..|calls| - 1]) + [Request(c.time, NameOf(prefix, c.key), c.max, c.expireFails)]
  }

  lemma {:induction false} RequestAt(prefix: string, calls: seq<Call>, i: nat)
    requires i < |calls|
    ensures var c := calls[i]; Requests(prefix, calls)[i] == Request(c.time, NameOf(prefix, c.key), c.max, c.expireFails)
    ensures Requests(prefix, calls)[..i + 1] == Requests(prefix, calls[..i + 1])
    decreases |calls|
  {
    var front := calls[..|calls| - 1];
    assert Requests(prefix, calls)[..|front|] == Requests(prefix, front);
    if i < |front| {
      RequestAt(prefix, front, i);
      assert front[..i + 1] == calls[..i + 1];
      assert Requests(prefix, calls)[..i + 1] == Requests(prefix, front)[..i + 1];
    } else {
      assert calls[..i + 1] == calls;
    }
  }

  predicate TimesAscend(calls: seq<Call>) {
    forall i, j | 0 <= i < j < |calls| :: calls[i].time <= calls[j].time
  }

  lemma RequestsOrdered(prefix: string, calls: seq<Call>)
    requires TimesAscend(calls)
    ensures Ordered(Requests(prefix, calls))
  {
    forall i | 0 <= i < |calls| ensures Requests(prefix, calls)[i].time == calls[i].time {
      RequestAt(prefix, calls, i);
    }
  }

  /** Calls for that key, or one that is the same to the limiter, in one aligned window. */
  function CallsIn(calls: seq<Call>, key: string, window: int, w: int): nat
    requires window > 0
  {
    if calls == [] then 0
    else
      var c := calls[|calls| - 1];
      CallsIn(calls[..|calls| - 1], key, window, w) + if SameKey(c.key, key) && WindowOf(c.time, window) == w then 1 else 0
  }

  lemma {:induction false} ArrivedCalls(prefix: string, calls: seq<Call>, key: string, window: int, w: int)
    requires window > 0
    ensures Arrived(Requests(prefix, calls), NameOf(prefix, key), window, w) == CallsIn(calls, key, window, w)
  {
    if calls != [] {
      var front := calls[..|calls| - 1];
      ArrivedCalls(prefix, front, key, window, w);
      SharedIff(prefix, calls[|front|].key, key);
      assert Requests(prefix, calls)[..|front|] == Requests(prefix, front);
    }
  }

  /** The answer to a call counts the calls for its own key in its window, itself included, and nobody else's. */
  lemma KeyHits(window: int, prefix: string, calls: seq<Call>, i: nat)
    requires WholeSeconds(window) && TimesAscend(calls) && i < |calls|
    ensures |Play(window, Requests(prefix, calls)).1| == |calls|
    ensures var res := Play(window, Requests(prefix, calls)).1[i].res;
            && res.hits == CallsIn(calls[..i + 1], calls[i].key, window, WindowOf(calls[i].time, window))
            && (res.allowed <==> res.hits <= calls[i].max)
            && res.remaining == if res.allowed then calls[i].max - res.hits else 0
  {
    var reqs := Requests(prefix, calls);
    RequestsOrdered(prefix, calls);
    RequestAt(prefix, calls, i);
    HitsAreArrivals(window, reqs, i);
    assert reqs[i].max == calls[i].max && reqs[i].name == NameOf(prefix, calls[i].key) && reqs[i].time == calls[i].time;
    ArrivedCalls(prefix, calls[..i + 1], calls[i].key, window, WindowOf(calls[i].time, window));
  }

  /** Calls for the key with that limit that were let through in one aligned window. */
  function Through(calls: seq<Call>, hits: seq<Hit>, key: string, max: int, window: int, w: int): nat
    requires window > 0 && |hits| == |calls|
  {
    if calls == [] then 0
    else
      var n := |calls| - 1;
      var c := calls[n];
      Through(calls[..n], hits[..n], key, max, window, w)
      + if hits[n].res.allowed && SameKey(c.key, key) && c.max == max && WindowOf(c.time, window) == w then 1 else 0
  }

  lemma {:induction false} ThroughPassed(window: int, prefix: string, calls: seq<Call>, key: string, max: int, w: int)
    requires window > 0
    ensures |Play(window, Requests(prefix, calls)).1| == |calls|
    ensures Through(calls, Play(window, Requests(prefix, calls)).1, key, max, window, w)
         == PassedIn(Play(window, Requests(prefix, calls)).1, NameOf(prefix, key), max, window, w)
  {
    PlayLength(window, Requests(prefix, calls));
    if calls != [] {
      var front := calls[..|calls| - 1];
      ThroughPassed(window, prefix, front, key, max, w);
      SharedIff(prefix, calls[|front|].key, key);
      assert Requests(prefix, calls)[..|front|] == Requests(prefix, front);
      PlayLength(window, Requests(prefix, front));
      var hits := Play(window, Requests(prefix, calls)).1;
      assert hits[..|front|] == Play(window, Requests(prefix, front)).1;
    }
  }

  /** At most Max calls for a key pass per aligned window, however many calls other keys make. */
  lemma PerKeyAndWindow(window: int, prefix: string, calls: seq<Call>, key: string, max: nat, w: int)
    requires WholeSeconds(window) && TimesAscend(calls)
    ensures |Play(window, Requests(prefix, calls)).1| == |calls|
    ensures Through(calls, Play(window, Requests(prefix, calls)).1, key, max, window, w) <= max
  {
    RequestsOrdered(prefix, calls);
    ThroughPassed(window, prefix, calls, key, max, w);
    PerWindow(window, Requests(prefix, calls), NameOf(prefix, key), max, w);
  }

  // ─── Any interval ───

  /** A bound per window adds up over n windows in a row. */
  lemma {:induction false} SomeWindows(hits: seq<Hit>, window: int, name: string, max: nat, w: int, n: nat)
    requires window > 0
    requires forall v :: PassedIn(hits, name, max, window, v) <= max
    ensures Passed(hits, name, max, t => w <= WindowOf(t, window) < w + n) <= n * max
  {
    if n == 0 {
      NonePass(hits, name, max, t => w <= WindowOf(t, window) < w + n);
    } else {
      SomeWindows(hits, window, name, max, w, n - 1);
      assert PassedIn(hits, name, max, window, w + n - 1) <= max;
      PassedSplit(hits, name, max, t => w <= WindowOf(t, window) < w + (n - 1),
                  t => WindowOf(t, window) == w + n - 1, t => w <= WindowOf(t, window) < w + n);
      assert n * max == (n - 1) * max + max;
    }
  }

  lemma {:induction false} NonePass(hits: seq<Hit>, name: string, max: int, p: int -> bool)
    requires forall t :: !p(t)
    ensures Passed(hits, name, max, p) == 0
  {
    if hits != [] {
      NonePass(hits[..|hits| - 1], name, max, p);
    }
  }

  /** Any interval of k window lengths, aligned or not, lets at most (k + 1) * Max requests pass. */
  lemma AnyInterval(window: int, reqs: seq<Request>, name: string, max: nat, start: int, k: nat)
    requires WholeSeconds(window) && Ordered(reqs)
    ensures Passed(Play(window, reqs).1, name, max, t => start <= t < start + k * window) <= (k + 1) * max
  {
    var w := WindowOf(start, window);
    var hits := Play(window, reqs).1;
    forall v ensures PassedIn(hits, name, max, window, v) <= max {
      PerWindow(window, reqs, name, max, v);
    }
    SomeWindows(hits, window, name, max, w, k + 1);
    forall t | start <= t < start + k * window
      ensures w <= WindowOf(t, window) < w + (k + 1)
    {
      WindowBounds(start, window);
      WindowBounds(t, window);
      assert (w + 1 + k) * window == (w + 1) * window + k * window;
      Below(WindowOf(t, window), w + 1 + k, window);
      Below(w, WindowOf(t, window) + 1, window);
    }
    PassedWeaker(hits, name, max, t => start <= t < start + k * window,
                 t => w <= WindowOf(t, window) < w + (k + 1));
  }

  lemma Below(a: int, b: int, m: int)
    requires m > 0 && a * m < b * m
    ensures a < b
  {}

  // ─── RetryAfter ───

  lemma MulMonotone(a: int, b: int, m: int)
    requires m > 0 && a <= b
    ensures a * m <= b * m
  {}

  lemma LaterWindow(t: int, window: int, w: int)
    requires window > 0
    ensures WindowOf(t, window) > w <==> t >= (w + 1) * window
  {
    WindowBounds(t, window);
    if WindowOf(t, window) > w {
      MulMonotone(w + 1, WindowOf(t, window), window);
    } else {
      MulMonotone(WindowOf(t, window) + 1, w + 1, window);
    }
  }

  lemma WholeWindow(window: int)
    requires WholeSeconds(window)
    ensures CeilSeconds(window) == window && ToSeconds(window) == window
  {}

  lemma RefusedFirst(s: Store, window: int, r: Request)
    requires WholeSeconds(window) && KeyAt(r.name, r.time, window) !in s
    requires !Allowed(s, r.name, r.max, window, r.time, r.expireFails).1.allowed
    ensures Allowed(s, r.name, r.max, window, r.time, r.expireFails).1.retryAfter == window == ToSeconds(window)
  {
    WholeWindow(window);
  }

  lemma RefusedLater(s: Store, window: int, r: Request)
    requires WholeSeconds(window)
    requires var k := KeyAt(r.name, r.time, window); Live(s, k, r.time) && s[k].count > 0
    requires !Allowed(s, r.name, r.max, window, r.time, r.expireFails).1.allowed
    ensures var res := Allowed(s, r.name, r.max, window, r.time, r.expireFails).1;
            var c := s[KeyAt(r.name, r.time, window)];
            res.retryAfter == if c.expireAt.None? then window else ToSeconds(c.expireAt.value - r.time)
  {
    WholeWindow(window);
  }

  /** The wait a refusal names, by when the window's first request came. */
  lemma RefusedWait(s: Store, window: int, reqs: seq<Request>, r: Request)
    requires WholeSeconds(window) && CounterOk(s, reqs, window, r.name, r.time)
    requires !Allowed(s, r.name, r.max, window, r.time, r.expireFails).1.allowed
    ensures var res := Allowed(s, r.name, r.max, window, r.time, r.expireFails).1;
            var w := WindowOf(r.time, window);
            var first := if Arrived(reqs, r.name, window, w) == 0 then r else FirstOf(reqs, r.name, window, w).value;
            res.retryAfter == if first.expireFails then window else ToSeconds(first.time + window - r.time)
  {
    FindsCounter(s, reqs, window, r);
    if Arrived(reqs, r.name, window, WindowOf(r.time, window)) == 0 {
      RefusedFirst(s, window, r);
    } else {
      RefusedLater(s, window, r);
    }
  }

  lemma AddWhole(q: int, y: int)
    ensures (q * SECOND + y) / SECOND == q + y / SECOND
  {}

  /** Rounded to the second, `left + off` covers `left` if and only if the fraction of `left` is made up for. */
  lemma RoundingIff(left: int, off: int)
    requires left >= 0 && off >= 0
    ensures ToSeconds(left + off) >= left <==> left % SECOND == 0 || left % SECOND + off >= SECOND / 2
    ensures ToSeconds(left + off) > left - SECOND / 2
  {
    var q, x := left / SECOND, left % SECOND;
    var n := (x + off + SECOND / 2) / SECOND;
    assert left + off + SECOND / 2 == q * SECOND + (x + off + SECOND / 2);
    AddWhole(q, x + off + SECOND / 2);
    assert (left + off + SECOND / 2) / SECOND == q + n;
    assert ToSeconds(left + off) == (q + n) * SECOND;
  }

  /** WindowTTL tells the rest of the counter's life, to the second, or -1 for a counter that never expires. */
  lemma WindowTtl(window: int, reqs: seq<Request>, r: Request)
    requires WholeSeconds(window) && Ordered(reqs)
    ensures var res := Allowed(Play(window, reqs).0, r.name, r.max, window, r.time, r.expireFails).1;
            var w := WindowOf(r.time, window);
            var first := if Arrived(reqs, r.name, window, w) == 0 then r else FirstOf(reqs, r.name, window, w).value;
            && res.windowTTL == (if first.expireFails then -1 else ToSeconds(first.time + window - r.time))
            && (res.allowed ==> res.retryAfter == 0)
  {
    CountersOk(window, reqs, r.name, r.time);
    FindsCounter(Play(window, reqs).0, reqs, window, r);
  }

  /** The caller refused at t comes back after its window exactly under the condition, and never half a second early. */
  predicate ComesBack(window: int, t: int, first: Request, res: Result)
    requires window > 0
  {
    var w := WindowOf(t, window);
    var left, off := (w + 1) * window - t, first.time - w * window;
    && (WindowOf(t + res.retryAfter, window) > w
        <==> first.expireFails || left % SECOND == 0 || left % SECOND + off >= SECOND / 2)
    && t + res.retryAfter > (w + 1) * window - SECOND / 2
  }

  lemma WaitIff(window: int, t: int, first: Request, res: Result)
    requires window > 0 && WindowOf(first.time, window) == WindowOf(t, window)
    requires res.retryAfter == if first.expireFails then window else ToSeconds(first.time + window - t)
    ensures ComesBack(window, t, first, res)
  {
    var w := WindowOf(t, window);
    WindowBounds(t, window);
    WindowBounds(first.time, window);
    LaterWindow(t + res.retryAfter, window, w);
    var left, off := (w + 1) * window - t, first.time - w * window;
    assert (w + 1) * window == w * window + window;
    assert first.time + window - t == left + off;
    RoundingIff(left, off);
  }

  /**
   When a refused caller that waits RetryAfter comes back in a later window: if and only if the EXPIRE of the
   window's first request failed, or the rest of the window is whole seconds, or the fraction above whole
   seconds together with the offset of the window's first request is at least half a second.  It is never
   half a second early.
   */
  lemma RetryAfterIff(window: int, reqs: seq<Request>, r: Request)
    requires WholeSeconds(window) && Ordered(reqs + [r])
    requires |Play(window, reqs + [r]).1| == |reqs| + 1 && !Play(window, reqs + [r]).1[|reqs|].res.allowed
    ensures var res := Play(window, reqs + [r]).1[|reqs|].res;
            && Arrived(reqs + [r], r.name, window, WindowOf(r.time, window)) > 0
            && ComesBack(window, r.time, FirstOf(reqs + [r], r.name, window, WindowOf(r.time, window)).value, res)
  {
    var all := reqs + [r];
    assert all[..|reqs|] == reqs && all[|reqs|] == r;
    assert forall i | 0 <= i < |reqs| :: all[i] == reqs[i];
    PlayLength(window, reqs);
    CountersOk(window, reqs, r.name, r.time);
    var s := Play(window, reqs).0;
    RefusedWait(s, window, reqs, r);
    var res := Allowed(s, r.name, r.max, window, r.time, r.expireFails).1;
    WaitIff(window, r.time, FirstOf(all, r.name, window, WindowOf(r.time, window)).value, res);
  }

  /**
   A minute's window whose first request comes at its start: a request refused 0.6 s later is told to wait
   59 s and comes back 0.4 s before the window ends.
   */
  lemma RetryTooEarly()
    ensures var window := 60 * SECOND;
            var reqs := [Request(0, "rl:k", 1, false), Request(600_000_000, "rl:k", 1, false)];
            var hits := Play(window, reqs).1;
            && |hits| == 2 && !hits[1].res.allowed && hits[1].res.retryAfter == 59 * SECOND
            && WindowOf(reqs[1].time + hits[1].res.retryAfter, window) == WindowOf(reqs[1].time, window)
  {
    var window := 60 * SECOND;
    var a, b := Request(0, "rl:k", 1, false), Request(600_000_000, "rl:k", 1, false);
    assert [a, b][..1] == [a] && [a][..0] == [];
    var s1 := Allowed(map[], "rl:k", 1, window, 0, false);
    var k := KeyAt("rl:k", 0, window);
    assert KeyAt("rl:k", b.time, window) == k;
    assert s1.0 == map[k := Counter(1, Some(window))];
    assert Play(window, []) == (map[], []);
    assert Play(window, [a]).0 == s1.0 && Play(window, [a]).1 == [Hit(a, s1.1)];
  }
}
