/**
 Signing keys: a repository keeps one active and one retiring key per keyring, the
 keystore caches the active key, and tokens outlive both.  Every token must find
 its public key by KID until it expires.

 Times are nanoseconds; expiry claims and retirement times are cut to seconds.
 */
module Keystore {
  import opened Wrappers

  type Kid = string

  const SECOND := 1_000_000_000

  /** time.Time.Unix() */
  function Unix(t: int): int {
    t / SECOND
  }

  // ─── The key repository ───

  datatype Retiring = Retiring(kid: Kid, retiredAt: int, graceSeconds: int)

  /** One key directory: active.json and, after a rotation, retiring.json. */
  datatype Ring = Ring(active: Kid, retiring: Option<Retiring>)

  predicate WithinGrace(r: Retiring, now: int) {
    r.graceSeconds <= 0 || r.retiredAt <= 0 || now < (r.retiredAt + r.graceSeconds) * SECOND
  }

  /** The KIDs GetJWKS lists. */
  function Jwks(ring: Ring, now: int): seq<Kid> {
    [ring.active] + if ring.retiring.Some? && WithinGrace(ring.retiring.value, now) then [ring.retiring.value.kid] else []
  }

  /** Rotate: the active key goes into the one retiring slot, whatever was there. */
  function Rotated(ring: Ring, kid: Kid, graceSeconds: int, now: int): Ring {
    Ring(kid, Some(Retiring(ring.active, Unix(now), graceSeconds)))
  }

  /** The replaced key stays listed for the grace in whole seconds; without one, or retired at no known time, for good. */
  lemma RetiredUntil(ring: Ring, kid: Kid, graceSeconds: int, at: int, now: int)
    ensures kid in Jwks(Rotated(ring, kid, graceSeconds, at), now)
    ensures ring.active in Jwks(Rotated(ring, kid, graceSeconds, at), now) <==>
            ring.active == kid || graceSeconds <= 0 || Unix(at) <= 0 || Unix(now) < Unix(at) + graceSeconds
  {}

  /** PublicKeyByKID: the cached key, however old, or the repository's JWKS. */
  predicate Found(ring: Ring, cached: Option<Kid>, kid: Kid, now: int) {
    cached == Some(kid) || kid in Jwks(ring, now)
  }

  // ─── The keystore ───

  class PersistentKeystore {
    const cacheTTL: int
    const jwksTTL: int
    var activeKid: Option<Kid>
    var cacheUntil: int
    var lastJwks: Option<seq<Kid>>
    var jwksUntil: int

    constructor ()
      ensures cacheTTL == 30 * SECOND && jwksTTL == 15 * SECOND
      ensures activeKid == None && lastJwks == None
    {
      cacheTTL, jwksTTL := 30 * SECOND, 15 * SECOND;
      activeKid, lastJwks, cacheUntil, jwksUntil := None, None, 0, 0;
    }

    /** The key to sign with; only the global keyring is cached. */
    method ActiveForTenant(tenant: string, ring: Ring, now: int) returns (kid: Kid)
      modifies this`activeKid, this`cacheUntil
      ensures tenant != "" ==> kid == ring.active && activeKid == old(activeKid) && cacheUntil == old(cacheUntil)
      ensures tenant == "" && now < old(cacheUntil) && old(activeKid).Some? ==>
                Some(kid) == activeKid == old(activeKid) && cacheUntil == old(cacheUntil)
      ensures tenant == "" && !(now < old(cacheUntil) && old(activeKid).Some?) ==>
                kid == ring.active && activeKid == Some(kid) && cacheUntil == now + cacheTTL
    {
      if tenant == "" {
        if now < cacheUntil && activeKid.Some? {
          return activeKid.value;
        }
      }
      kid := ring.active;
      if tenant == "" {
        activeKid := Some(kid);
        cacheUntil := now + cacheTTL;
      }
    }

    method PublicKeyByKid(ring: Ring, kid: Kid, now: int) returns (found: bool)
      ensures found <==> kid != "" && Found(ring, activeKid, kid, now)
    {
      if kid == "" {
        return false;
      }
      if activeKid == Some(kid) {
        return true;
      }
      var keys := Jwks(ring, now);
      for i := 0 to |keys|
        invariant kid !in keys[..i]
      {
        if keys[i] == kid {
          return true;
        }
      }
      assert keys[..|keys|] == keys;
      found := false;
    }

    method JwksForTenant(tenant: string, ring: Ring, now: int) returns (keys: seq<Kid>)
      modifies this`lastJwks, this`jwksUntil
      ensures tenant != "" ==> keys == Jwks(ring, now) && lastJwks == old(lastJwks) && jwksUntil == old(jwksUntil)
      ensures tenant == "" && now < old(jwksUntil) && old(lastJwks).Some? ==>
                Some(keys) == lastJwks == old(lastJwks) && jwksUntil == old(jwksUntil)
      ensures tenant == "" && !(now < old(jwksUntil) && old(lastJwks).Some?) ==>
                keys == Jwks(ring, now) && lastJwks == Some(keys) && jwksUntil == now + jwksTTL
    {
      if tenant == "" {
        if now < jwksUntil && lastJwks.Some? {
          return lastJwks.value;
        }
      }
      keys := Jwks(ring, now);
      if tenant == "" {
        lastJwks := Some(keys);
        jwksUntil := now + jwksTTL;
      }
    }
  }

  // ─── Runs ───

  /**
   `caching` is on for the global keyring.  `delay` bounds the time between a read of
   the repository and the store of what it returned, `ttl` the life of a token.  Operators
   rotate with no grace at all or with at least `minGrace` seconds, and at least `spacing` apart.
   */
  datatype Config = Config(caching: bool, cacheTTL: int, delay: int, ttl: int, minGrace: int, spacing: int)

  datatype Token = Token(kid: Kid, exp: int)

  /** A read of the repository that has not been stored yet. */
  datatype Load = Load(kid: Kid, at: int)

  /** `rotatedAt` is the moment of the last rotation, unrounded; it is 0 before the first. */
  datatype State = State(now: int, ring: Ring, rotatedAt: int, cached: Option<Kid>, until: int,
                         loads: seq<Load>, tokens: seq<Token>)

  datatype Label =
    | Tick(span: nat)
    | Rotate(kid: Kid, graceSeconds: int)
    | ReadActive(started: int, ttl: int)       // a miss: read the repository and sign with what it returns
    | StoreActive(i: nat)                      // put load i in the cache
    | IssueCached(started: int, ttl: int)      // a hit: sign with the cached key

  predicate Caches(c: Config) {
    c.caching && c.cacheTTL > 0
  }

  /** How long after a rotation a token signed with the replaced key may expire; a cached key is used strictly before its end. */
  function Slack(c: Config): int {
    if Caches(c) then c.cacheTTL + c.delay + c.ttl - 1 else c.ttl
  }

  /** Grace and spacing cover the slack. */
  predicate Safe(c: Config) {
    c.minGrace * SECOND >= Slack(c) && c.spacing >= Slack(c)
  }

  predicate Enabled(c: Config, s: State, l: Label) {
    match l
    case Tick(_) => true
    case Rotate(_, grace) =>
      && (grace <= 0 || grace >= c.minGrace)
      && (s.ring.retiring.Some? ==> s.now >= s.rotatedAt + c.spacing)
    case ReadActive(started, ttl) => started <= s.now && 0 < ttl <= c.ttl
    case StoreActive(i) => c.caching && i < |s.loads| && s.now <= s.loads[i].at + c.delay
    case IssueCached(started, ttl) => c.caching && s.cached.Some? && s.now < s.until && started <= s.now && 0 < ttl <= c.ttl
  }

  function Step(c: Config, s: State, l: Label): State
    requires Enabled(c, s, l)
  {
    match l
    case Tick(span) => s.(now := s.now + span)
    case Rotate(kid, grace) => s.(ring := Rotated(s.ring, kid, grace, s.now), rotatedAt := s.now)
    case ReadActive(started, ttl) =>
      s.(loads := s.loads + [Load(s.ring.active, s.now)],
         tokens := s.tokens + [Token(s.ring.active, Unix(started + ttl))])
    case StoreActive(i) => s.(cached := Some(s.loads[i].kid), until := s.now + c.cacheTTL)
    case IssueCached(started, ttl) => s.(tokens := s.tokens + [Token(s.cached.value, Unix(started + ttl))])
  }

  predicate Start(s: State) {
    s.ring.retiring.None? && s.cached.None? && s.loads == [] && s.tokens == []
  }

  predicate Sane(c: Config) {
    c.cacheTTL >= 0 && c.delay >= 0 && c.ttl > 0 && c.minGrace >= 1 && c.spacing >= 0
  }

  predicate IsRetiring(s: State, kid: Kid) {
    s.ring.retiring.Some? && s.ring.retiring.value.kid == kid
  }

  ghost predicate RingInv(c: Config, s: State) {
    s.ring.retiring.Some? ==>
      && s.rotatedAt <= s.now && s.ring.retiring.value.retiredAt == Unix(s.rotatedAt)
      && (s.ring.retiring.value.graceSeconds <= 0 || s.ring.retiring.value.graceSeconds * SECOND >= Slack(c))
  }

  ghost predicate CacheInv(c: Config, s: State) {
    s.cached.Some? ==>
      && s.until <= s.now + c.cacheTTL
      && (|| !Caches(c)
          || s.cached.value == s.ring.active
          || (IsRetiring(s, s.cached.value) && s.until <= s.rotatedAt + c.delay + c.cacheTTL)
          || s.until <= s.now)
  }

  ghost predicate LoadInv(c: Config, s: State, d: Load) {
    && d.at <= s.now
    && (Caches(c) ==>
        || d.kid == s.ring.active
        || (IsRetiring(s, d.kid) && d.at <= s.rotatedAt)
        || d.at + c.delay < s.now)
  }

  ghost predicate TokenInv(c: Config, s: State, t: Token) {
    && t.exp <= Unix(s.now + c.ttl)
    && (|| t.kid == s.ring.active
        || (IsRetiring(s, t.kid) && t.exp <= Unix(s.rotatedAt + Slack(c)))
        || t.exp * SECOND <= s.now)
  }

  /** A key that has left both slots can no longer be signed with, and its tokens have expired. */
  ghost predicate Inv(c: Config, s: State) {
    && RingInv(c, s) && CacheInv(c, s)
    && (forall i | 0 <= i < |s.loads| :: LoadInv(c, s, s.loads[i]))
    && (forall i | 0 <= i < |s.tokens| :: TokenInv(c, s, s.tokens[i]))
  }

  lemma UnixMonotone(a: int, b: int)
    requires a <= b
    ensures Unix(a) <= Unix(b) && Unix(a) * SECOND <= a
  {}

  lemma OldLoad(c: Config, s: State, l: Label, d: Load)
    requires Sane(c) && Safe(c) && RingInv(c, s) && Enabled(c, s, l) && LoadInv(c, s, d)
    ensures LoadInv(c, Step(c, s, l), d)
  {}

  lemma OldToken(c: Config, s: State, l: Label, t: Token)
    requires Sane(c) && Safe(c) && RingInv(c, s) && Enabled(c, s, l) && TokenInv(c, s, t)
    ensures TokenInv(c, Step(c, s, l), t)
  {}

  lemma CacheStep(c: Config, s: State, l: Label)
    requires Sane(c) && Safe(c) && RingInv(c, s) && CacheInv(c, s) && Enabled(c, s, l)
    requires l.StoreActive? ==> LoadInv(c, s, s.loads[l.i])
    ensures RingInv(c, Step(c, s, l)) && CacheInv(c, Step(c, s, l))
  {}

  lemma StepInv(c: Config, s: State, l: Label)
    requires Sane(c) && Safe(c) && Inv(c, s) && Enabled(c, s, l)
    ensures Inv(c, Step(c, s, l))
  {
    var n := Step(c, s, l);
    CacheStep(c, s, l);
    forall i | 0 <= i < |n.loads| ensures LoadInv(c, n, n.loads[i]) {
      if i < |s.loads| {
        OldLoad(c, s, l, s.loads[i]);
      }
    }
    forall i | 0 <= i < |n.tokens| ensures TokenInv(c, n, n.tokens[i]) {
      if i < |s.tokens| {
        OldToken(c, s, l, s.tokens[i]);
      }
    }
  }

  function RunFrom(c: Config, s: State, labels: seq<Label>): Option<State> {
    if labels == [] then Some(s)
    else
      var m := RunFrom(c, s, labels[..|labels| - 1]);
      if m.Some? && Enabled(c, m.value, labels[|labels| - 1]) then Some(Step(c, m.value, labels[|labels| - 1])) else None
  }

  lemma {:induction false} RunInv(c: Config, s: State, labels: seq<Label>)
    requires Sane(c) && Safe(c) && Start(s) && RunFrom(c, s, labels).Some?
    ensures Inv(c, RunFrom(c, s, labels).value)
  {
    if labels != [] {
      RunInv(c, s, labels[..|labels| - 1]);
      StepInv(c, RunFrom(c, s, labels[..|labels| - 1]).value, labels[|labels| - 1]);
    }
  }

  /** Every token that has not expired finds its key. */
  ghost predicate AllFound(n: State) {
    forall i | 0 <= i < |n.tokens| && n.now < n.tokens[i].exp * SECOND :: n.tokens[i].kid in Jwks(n.ring, n.now)
  }

  /** The same for a lookup by KID, which also answers from the cached key. */
  ghost predicate AllAnswered(n: State) {
    forall i | 0 <= i < |n.tokens| && n.now < n.tokens[i].exp * SECOND ::
      Found(n.ring, n.cached, n.tokens[i].kid, n.now)
  }

  lemma TokenFound(c: Config, n: State, t: Token)
    requires Sane(c) && Safe(c) && RingInv(c, n) && TokenInv(c, n, t) && n.now < t.exp * SECOND
    ensures t.kid in Jwks(n.ring, n.now)
  {
    if t.kid != n.ring.active {
      var r := n.ring.retiring.value;
      if r.graceSeconds > 0 {
        UnixMonotone(n.rotatedAt + Slack(c), n.rotatedAt + r.graceSeconds * SECOND);
        assert Unix(n.rotatedAt + r.graceSeconds * SECOND) == Unix(n.rotatedAt) + r.graceSeconds;
      }
    }
  }

  /**
   In every run, whatever the interleaving of issuing, cache refreshes and rotations, a
   token that has not expired finds its key.  For a tenant keyring the slack is the token TTL alone.
   */
  lemma NoTokenLosesItsKey(c: Config, s: State, labels: seq<Label>)
    requires Sane(c) && Safe(c) && Start(s) && RunFrom(c, s, labels).Some?
    ensures AllFound(RunFrom(c, s, labels).value)
  {
    RunInv(c, s, labels);
    var n := RunFrom(c, s, labels).value;
    forall i | 0 <= i < |n.tokens| && n.now < n.tokens[i].exp * SECOND
      ensures n.tokens[i].kid in Jwks(n.ring, n.now)
    {
      TokenFound(c, n, n.tokens[i]);
    }
  }

  // ─── The bounds are exact ───

  lemma Extend(c: Config, start: State, s: State, labels: seq<Label>, l: Label) returns (next: State, longer: seq<Label>)
    requires RunFrom(c, start, labels) == Some(s) && Enabled(c, s, l)
    ensures longer == labels + [l] && next == Step(c, s, l) && RunFrom(c, start, longer) == Some(next)
  {
    longer, next := labels + [l], Step(c, s, l);
    assert longer[..|labels|] == labels;
  }

  /** A moment after the first second whose slack ends on a full second, so that the token keeps every nanosecond of it. */
  function Moment(c: Config): int {
    SECOND + Slack(c) * (SECOND - 1)
  }

  lemma MomentFacts(c: Config)
    requires Sane(c)
    ensures Slack(c) >= c.ttl && Moment(c) >= SECOND
    ensures Moment(c) + Slack(c) == SECOND * (Slack(c) + 1)
    ensures Unix(Moment(c) + Slack(c)) * SECOND == Moment(c) + Slack(c)
    ensures Unix(Moment(c)) > 0 && Unix(Moment(c)) * SECOND <= Moment(c)
  {}

  /** A keyring with one key and nothing issued yet. */
  function Fresh(now: int): State {
    State(now, Ring("old", None), 0, None, now, [], [])
  }

  /**
   Right before a rotation some goroutine reads the key; its tokens are signed with it for as long as the cache
   allows.  The last one is still good one nanosecond before the slack is over.
   */
  lemma LastToken(c: Config, grace: int) returns (n: State, labels: seq<Label>)
    requires Sane(c) && (grace <= 0 || grace >= c.minGrace)
    ensures RunFrom(c, Fresh(Moment(c)), labels) == Some(n)
    ensures n.ring == Rotated(Ring("old", None), "new", grace, Moment(c)) && n.rotatedAt == Moment(c)
    ensures n.now == Moment(c) + Slack(c) - 1
    ensures Token("old", Unix(Moment(c) + Slack(c))) in n.tokens
    ensures !Caches(c) ==> n.cached.None?
  {
    var r := Moment(c);
    var start := Fresh(r);
    n, labels := Extend(c, start, start, [], ReadActive(r, c.ttl));
    n, labels := Extend(c, start, n, labels, Rotate("new", grace));
    if Caches(c) {
      n, labels := Extend(c, start, n, labels, Tick(c.delay));
      n, labels := Extend(c, start, n, labels, StoreActive(0));
      n, labels := Extend(c, start, n, labels, Tick(c.cacheTTL - 1));
      n, labels := Extend(c, start, n, labels, IssueCached(n.now, c.ttl));
      assert n.tokens[1] == Token("old", Unix(r + Slack(c)));
    } else {
      assert n.tokens[0] == Token("old", Unix(r + Slack(c)));
    }
    n, labels := Extend(c, start, n, labels, Tick(c.ttl - 1));
  }

  /** Any grace or spacing below the slack, by however little, has a run in which a live token's key is gone. */
  lemma KeyLost(c: Config) returns (s: State, labels: seq<Label>)
    requires Sane(c) && !Safe(c)
    ensures Start(s) && RunFrom(c, s, labels).Some?
    ensures !AllFound(RunFrom(c, s, labels).value) && !AllAnswered(RunFrom(c, s, labels).value)
  {
    var r := Moment(c);
    MomentFacts(c);
    s := Fresh(r);
    var token := Token("old", Unix(r + Slack(c)));
    var n: State;
    if c.minGrace * SECOND < Slack(c) {
      n, labels := LastToken(c, c.minGrace);
      GraceOver(Unix(r), c.minGrace, r, Slack(c));
    } else {
      n, labels := LastToken(c, 0);
      n, labels := Extend(c, s, n, labels, Rotate("newer", 0));
    }
    n, labels := CacheRenewed(c, s, n, labels);
    var i :| 0 <= i < |n.tokens| && n.tokens[i] == token;
    assert "old" !in Jwks(n.ring, n.now) && n.now < n.tokens[i].exp * SECOND;
  }

  /** A caching node reads the active key again, so that its cache no longer answers for the old one. */
  lemma CacheRenewed(c: Config, start: State, n: State, labels: seq<Label>) returns (m: State, longer: seq<Label>)
    requires Sane(c) && RunFrom(c, start, labels) == Some(n) && (!Caches(c) ==> n.cached.None?)
    ensures RunFrom(c, start, longer) == Some(m) && m.ring == n.ring && m.now == n.now
    ensures forall t | t in n.tokens :: t in m.tokens
    ensures m.cached == None || m.cached == Some(n.ring.active)
  {
    m, longer := n, labels;
    if Caches(c) {
      m, longer := Extend(c, start, m, longer, ReadActive(n.now, c.ttl));
      m, longer := Extend(c, start, m, longer, StoreActive(|n.loads|));
    }
  }

  lemma GraceOver(retiredAt: int, grace: int, r: int, slack: int)
    requires retiredAt * SECOND <= r && grace * SECOND < slack
    ensures (retiredAt + grace) * SECOND <= r + slack - 1
  {}

  /**
   Exactly which policies keep every live token's key, in the JWKS and for a lookup by KID: a grace and a
   spacing of at least the cache TTL, the store delay and the token TTL together, less the last nanosecond;
   without a cache, of at least the token TTL.
   */
  lemma TokensKeepKeysIff(c: Config)
    requires Sane(c)
    ensures (forall s, labels: seq<Label> | Start(s) && RunFrom(c, s, labels).Some? :: AllFound(RunFrom(c, s, labels).value))
       <==> Safe(c)
    ensures (forall s, labels: seq<Label> | Start(s) && RunFrom(c, s, labels).Some? :: AllAnswered(RunFrom(c, s, labels).value))
       <==> Safe(c)
  {
    if Safe(c) {
      forall s, labels: seq<Label> | Start(s) && RunFrom(c, s, labels).Some?
        ensures AllFound(RunFrom(c, s, labels).value) && AllAnswered(RunFrom(c, s, labels).value)
      {
        NoTokenLosesItsKey(c, s, labels);
      }
    } else {
      var s, labels := KeyLost(c);
    }
  }
}
