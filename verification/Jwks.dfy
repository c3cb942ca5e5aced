/**
 How stale a served JWKS can be, and whose it is.  The HTTP layer reads through a
 JWKSCache with an entry per tenant; its loader resolves the tenant and reads through
 the keystore, which caches the global JWKS only, from the repository.  Neither has
 single-flight: any number of loads run at once and finish in any order.

 The history gives what the repository holds for a keyring at each instant.
 */
module Jwks {
  import opened Wrappers
  import opened Strings

  type Thread = nat
  type History = (string, int) -> string

  // ─── Whose JWKS ───

  /** `delay` bounds the time between the keystore's read of the repository and its store; `resolve` finds a tenant's slug. */
  datatype Config = Config(ttl: int, jwksTTL: int, delay: int, resolve: string -> Option<string>)

  function Lower(c: char): char {
    if 'A' <= c <= 'Z' then 'a' + (c - 'A') else c
  }

  /** strings.EqualFold(tenant, "global"), whose letters fold to nothing outside ASCII. */
  predicate FoldsToGlobal(tenant: string) {
    |tenant| == 6 && forall i | 0 <= i < 6 :: Lower(tenant[i]) == "global"[i]
  }

  /** What the loader asks the keystore for, "" being the global JWKS; None where it does not find the tenant. */
  function Asked(c: Config, tenant: string): Option<string> {
    if Blank(tenant) || FoldsToGlobal(tenant) then Some("") else c.resolve(tenant)
  }

  /** Blank names and "global" in any case ask for the global JWKS, every other name for the tenant it resolves to. */
  lemma AskedSpelled(c: Config, tenant: string)
    ensures (forall i | 0 <= i < |tenant| :: IsSpace(tenant[i])) ==> Asked(c, tenant) == Some("")
    ensures |tenant| == 6 && (forall i | 0 <= i < 6 :: tenant[i] == "global"[i] || tenant[i] == "GLOBAL"[i]) ==>
              Asked(c, tenant) == Some("")
    ensures Asked(c, tenant) != c.resolve(tenant) ==>
              || (forall i | 0 <= i < |tenant| :: IsSpace(tenant[i]))
              || (|tenant| == 6 && forall i | 0 <= i < 6 :: tenant[i] == "global"[i] || tenant[i] == "GLOBAL"[i])
  {}

  /** The keyring the repository reads for that. */
  function RingOf(asked: string): (ring: string)
    ensures ring == "global" <==> asked == "" || asked == "global"
    ensures asked != "" ==> ring == asked
  {
    if asked == "" then "global" else asked
  }

  /** The key a tenant's entry is kept under. */
  function KeyFor(tenant: string): (key: string)
    ensures key == "global" <==> tenant == "" || tenant == "global"
    ensures tenant != "" ==> key == tenant
  {
    if tenant == "" then "global" else tenant
  }

  lemma KeyAsks(c: Config, tenant: string)
    ensures Asked(c, KeyFor(tenant)) == Asked(c, tenant)
  {
    assert Blank("");
    assert FoldsToGlobal("global");
  }

  // ─── Interleaved loads ───

  datatype Cached = Cached(data: string, until: int)

  /** What JWKSCache holds, with the number of the load that brought it. */
  datatype Entry = Entry(data: string, until: int, load: nat)

  /** A Get that missed: for whom, the clock it read when it began, and the number of its load. */
  datatype Get = Get(tenant: string, since: int, load: nat)

  datatype Progress =
    | Loading(get: Get)
    | Read(get: Get, data: string, at: int)   // the keystore has read the repository
    | Have(get: Get, data: string)            // the loader has returned

  datatype Served = Served(tenant: string, since: int, data: string)

  datatype State = State(now: int, inner: Option<Cached>, outer: map<string, Entry>,
                         threads: map<Thread, Progress>, served: seq<Served>, loads: nat)

  datatype Label =
    | Tick(span: nat)
    | Hit(tenant: string, since: int)    // Get finds an entry that was fresh when it looked at the clock
    | Miss(t: Thread, tenant: string)    // Get starts a load
    | InnerHit(t: Thread)                // the keystore's cache is fresh
    | InnerRead(t: Thread)               // repo.GetJWKS
    | InnerStore(t: Thread)              // lastJWKS, jwksUntil
    | Return(t: Thread)                  // for a tenant's own keyring nothing is stored there
    | OuterStore(t: Thread)              // items[key] = ..., and Get returns
    | Fail(t: Thread)                    // the loader returns an error, and so does Get
    | Invalidate(tenant: string)

  predicate Enabled(c: Config, s: State, l: Label) {
    match l
    case Tick(_) => true
    case Hit(tenant, since) =>
      KeyFor(tenant) in s.outer && since <= s.now && since < s.outer[KeyFor(tenant)].until
    case Miss(t, _) => t !in s.threads
    case InnerHit(t) =>
      && t in s.threads && s.threads[t].Loading? && Asked(c, s.threads[t].get.tenant) == Some("")
      && s.inner.Some? && s.now < s.inner.value.until
    case InnerRead(t) => t in s.threads && s.threads[t].Loading? && Asked(c, s.threads[t].get.tenant).Some?
    case InnerStore(t) =>
      && t in s.threads && s.threads[t].Read? && Asked(c, s.threads[t].get.tenant) == Some("")
      && s.now <= s.threads[t].at + c.delay
    case Return(t) => t in s.threads && s.threads[t].Read? && Asked(c, s.threads[t].get.tenant) != Some("")
    case OuterStore(t) => t in s.threads && s.threads[t].Have?
    case Fail(t) => t in s.threads && !s.threads[t].Have?
    case Invalidate(_) => true
  }

  function Step(c: Config, h: History, s: State, l: Label): State
    requires Enabled(c, s, l)
  {
    match l
    case Tick(span) => s.(now := s.now + span)
    case Hit(tenant, since) => s.(served := s.served + [Served(tenant, since, s.outer[KeyFor(tenant)].data)])
    case Miss(t, tenant) => s.(threads := s.threads[t := Loading(Get(tenant, s.now, s.loads))], loads := s.loads + 1)
    case InnerHit(t) => s.(threads := s.threads[t := Have(s.threads[t].get, s.inner.value.data)])
    case InnerRead(t) =>
      var get := s.threads[t].get;
      s.(threads := s.threads[t := Read(get, h(RingOf(Asked(c, get.tenant).value), s.now), s.now)])
    case InnerStore(t) =>
      s.(inner := Some(Cached(s.threads[t].data, s.now + c.jwksTTL)),
         threads := s.threads[t := Have(s.threads[t].get, s.threads[t].data)])
    case Return(t) => s.(threads := s.threads[t := Have(s.threads[t].get, s.threads[t].data)])
    case OuterStore(t) =>
      var p := s.threads[t];
      s.(outer := s.outer[KeyFor(p.get.tenant) := Entry(p.data, p.get.since + c.ttl, p.get.load)],
         threads := s.threads - {t}, served := s.served + [Served(p.get.tenant, p.get.since, p.data)])
    case Fail(t) => s.(threads := s.threads - {t})
    case Invalidate(tenant) => s.(outer := s.outer - {KeyFor(tenant)})
  }

  /** The repository held `data` for the tenant's keyring at some time after `lo`, and no later than `hi`. */
  ghost predicate HeldAfter(c: Config, h: History, tenant: string, data: string, lo: int, hi: int) {
    Asked(c, tenant).Some? && exists r: int :: lo < r <= hi && h(RingOf(Asked(c, tenant).value), r) == data
  }

  /** How old what the keystore returns may be; a tenant's own keyring is read during the load. */
  function InnerBound(c: Config, tenant: string): int {
    if Asked(c, tenant) == Some("") then c.jwksTTL + c.delay else 1
  }

  /** How old what is served may be; an entry answers strictly before its expiry. */
  function Bound(c: Config, tenant: string): int {
    InnerBound(c, tenant) + if c.ttl > 0 then c.ttl - 1 else 0
  }

  predicate Sane(c: Config) {
    c.ttl >= 0 && c.jwksTTL > 0 && c.delay >= 0
  }

  ghost predicate ThreadOk(c: Config, h: History, now: int, p: Progress) {
    var tenant := p.get.tenant;
    var since := p.get.since;
    && since <= now
    && (p.Read? ==> Asked(c, tenant).Some? && since <= p.at <= now && p.data == h(RingOf(Asked(c, tenant).value), p.at))
    && (p.Have? ==> HeldAfter(c, h, tenant, p.data, since - InnerBound(c, tenant), now))
  }

  ghost predicate InnerOk(c: Config, h: History, s: State) {
    s.inner.Some? ==> HeldAfter(c, h, "", s.inner.value.data, s.inner.value.until - InnerBound(c, "") - 1, s.now)
  }

  ghost predicate OuterOk(c: Config, h: History, s: State) {
    forall key | key in s.outer ::
      HeldAfter(c, h, key, s.outer[key].data, s.outer[key].until - c.ttl - InnerBound(c, key), s.now)
  }

  ghost predicate ThreadsOk(c: Config, h: History, s: State) {
    forall t | t in s.threads :: ThreadOk(c, h, s.now, s.threads[t])
  }

  ghost predicate ServedOk(c: Config, h: History, s: State) {
    forall i | 0 <= i < |s.served| ::
      HeldAfter(c, h, s.served[i].tenant, s.served[i].data, s.served[i].since - Bound(c, s.served[i].tenant), s.now)
  }

  ghost predicate Inv(c: Config, h: History, s: State) {
    InnerOk(c, h, s) && OuterOk(c, h, s) && ThreadsOk(c, h, s) && ServedOk(c, h, s)
  }

  lemma Later(c: Config, h: History, tenant: string, data: string, lo: int, hi: int, lower: int, higher: int)
    requires HeldAfter(c, h, tenant, data, lo, hi) && lower <= lo && hi <= higher
    ensures HeldAfter(c, h, tenant, data, lower, higher)
  {}

  /** What is held under a tenant's key is held for the tenant. */
  lemma SameKeyring(c: Config, h: History, tenant: string, data: string, lo: int, hi: int)
    ensures HeldAfter(c, h, KeyFor(tenant), data, lo, hi) <==> HeldAfter(c, h, tenant, data, lo, hi)
    ensures InnerBound(c, KeyFor(tenant)) == InnerBound(c, tenant)
  {
    KeyAsks(c, tenant);
  }

  lemma TickInv(c: Config, h: History, s: State, span: nat)
    requires Inv(c, h, s)
    ensures Inv(c, h, Step(c, h, s, Tick(span)))
  {
    forall tenant, data, lo: int | HeldAfter(c, h, tenant, data, lo, s.now)
      ensures HeldAfter(c, h, tenant, data, lo, s.now + span)
    {
      Later(c, h, tenant, data, lo, s.now, lo, s.now + span);
    }
  }

  lemma HitInv(c: Config, h: History, s: State, tenant: string, since: int)
    requires Sane(c) && Inv(c, h, s) && Enabled(c, s, Hit(tenant, since))
    ensures Inv(c, h, Step(c, h, s, Hit(tenant, since)))
  {
    var e := s.outer[KeyFor(tenant)];
    var lo := e.until - c.ttl - InnerBound(c, tenant);
    SameKeyring(c, h, tenant, e.data, lo, s.now);
    Later(c, h, tenant, e.data, lo, s.now, since - Bound(c, tenant), s.now);
  }

  /** What the keystore returns is as fresh as its bound says. */
  lemma ReturnedOk(c: Config, h: History, s: State, l: Label)
    requires Sane(c) && Inv(c, h, s) && Enabled(c, s, l) && (l.InnerHit? || l.InnerRead? || l.InnerStore? || l.Return?)
    ensures ThreadOk(c, h, s.now, Step(c, h, s, l).threads[l.t])
  {
    assert Blank("");
  }

  lemma LoadInv(c: Config, h: History, s: State, l: Label)
    requires Sane(c) && Inv(c, h, s) && Enabled(c, s, l) && (l.InnerHit? || l.InnerRead? || l.InnerStore? || l.Return?)
    ensures Inv(c, h, Step(c, h, s, l))
  {
    ReturnedOk(c, h, s, l);
    assert Blank("");
  }

  lemma OuterStoreInv(c: Config, h: History, s: State, t: Thread)
    requires Sane(c) && Inv(c, h, s) && Enabled(c, s, OuterStore(t))
    ensures Inv(c, h, Step(c, h, s, OuterStore(t)))
  {
    var get, data := s.threads[t].get, s.threads[t].data;
    var lo := get.since - InnerBound(c, get.tenant);
    SameKeyring(c, h, get.tenant, data, lo, s.now);
    Later(c, h, get.tenant, data, lo, s.now, get.since - Bound(c, get.tenant), s.now);
  }

  lemma StepInv(c: Config, h: History, s: State, l: Label)
    requires Sane(c) && Inv(c, h, s) && Enabled(c, s, l)
    ensures Inv(c, h, Step(c, h, s, l))
  {
    match l
    case Tick(span) => TickInv(c, h, s, span);
    case Hit(tenant, since) => HitInv(c, h, s, tenant, since);
    case OuterStore(t) => OuterStoreInv(c, h, s, t);
    case Miss(_, _) =>
    case Fail(_) =>
    case Invalidate(_) =>
    case _ => LoadInv(c, h, s, l);
  }

  function RunFrom(c: Config, h: History, s: State, labels: seq<Label>): Option<State> {
    if labels == [] then Some(s)
    else
      var m := RunFrom(c, h, s, labels[..|labels| - 1]);
      if m.Some? && Enabled(c, m.value, labels[|labels| - 1]) then Some(Step(c, h, m.value, labels[|labels| - 1]))
      else None
  }

  predicate Start(s: State) {
    s.inner.None? && s.outer == map[] && s.threads == map[] && s.served == []
  }

  lemma {:induction false} RunInv(c: Config, h: History, s: State, labels: seq<Label>)
    requires Sane(c) && Start(s) && RunFrom(c, h, s, labels).Some?
    ensures Inv(c, h, RunFrom(c, h, s, labels).value)
  {
    if labels != [] {
      RunInv(c, h, s, labels[..|labels| - 1]);
      StepInv(c, h, RunFrom(c, h, s, labels[..|labels| - 1]).value, labels[|labels| - 1]);
    }
  }

  /** Everything served to the tenant was held for its keyring less than b before the Get began. */
  ghost predicate Within(c: Config, h: History, n: State, tenant: string, b: int) {
    forall i | 0 <= i < |n.served| && n.served[i].tenant == tenant ::
      HeldAfter(c, h, tenant, n.served[i].data, n.served[i].since - b, n.now)
  }

  /**
   Whatever loads overlap, for whichever tenants, a Get that began at time t returns what the repository held
   for its tenant's keyring: for the global one later than t less both TTLs and the store delay, for any other
   later than t less the outer TTL; as an entry answers strictly before its expiry, a nanosecond less.
   */
  lemma StalenessBound(c: Config, h: History, s: State, labels: seq<Label>, tenant: string)
    requires Sane(c) && Start(s) && RunFrom(c, h, s, labels).Some?
    ensures Within(c, h, RunFrom(c, h, s, labels).value, tenant, Bound(c, tenant))
  {
    RunInv(c, h, s, labels);
  }

  /** A repository that held the old document for one instant only. */
  function Once(): History {
    (ring, r) => if r == 0 then "old" else "new"
  }

  const QUIET := State(0, None, map[], map[], [], 0)

  /** The global document is read at its one instant and sits in the keystore's cache as long as it can. */
  lemma OldInKeystore(c: Config, tenant: string) returns (s: State, labels: seq<Label>)
    requires Sane(c) && Asked(c, tenant) == Some("")
    ensures RunFrom(c, Once(), QUIET, labels) == Some(s)
    ensures s.now == InnerBound(c, tenant) - 1 && s.inner == Some(Cached("old", InnerBound(c, tenant)))
    ensures s.threads == map[0 := Have(Get(tenant, 0, 0), "old")] && s.outer == map[] && s.served == []
    ensures s.loads == 1
  {
    var h, get := Once(), Get(tenant, 0, 0);
    s, labels := Extend(c, h, QUIET, QUIET, [], Miss(0, tenant));
    assert s.threads == map[0 := Loading(get)];
    s, labels := Extend(c, h, QUIET, s, labels, InnerRead(0));
    assert s.threads == map[0 := Read(get, "old", 0)];
    s, labels := Extend(c, h, QUIET, s, labels, Tick(c.delay));
    s, labels := Extend(c, h, QUIET, s, labels, InnerStore(0));
    assert s.threads == map[0 := Have(get, "old")];
    s, labels := Extend(c, h, QUIET, s, labels, Tick(c.jwksTTL - 1));
  }

  /** At its last moment there a load takes it. */
  lemma OldGlobal(c: Config, tenant: string) returns (s: State, labels: seq<Label>)
    requires Sane(c) && Asked(c, tenant) == Some("")
    ensures RunFrom(c, Once(), QUIET, labels) == Some(s)
    ensures 1 in s.threads && s.threads[1] == Have(Get(tenant, s.now, 1), "old")
    ensures s.now == InnerBound(c, tenant) - 1 && s.served == []
  {
    var h := Once();
    s, labels := OldInKeystore(c, tenant);
    s, labels := Extend(c, h, QUIET, s, labels, Miss(1, tenant));
    s, labels := Extend(c, h, QUIET, s, labels, InnerHit(1));
  }

  /** The document of a tenant's own keyring is read at its one instant. */
  lemma OldOwn(c: Config, tenant: string) returns (s: State, labels: seq<Label>)
    requires Sane(c) && Asked(c, tenant).Some? && Asked(c, tenant) != Some("")
    ensures RunFrom(c, Once(), QUIET, labels) == Some(s)
    ensures 1 in s.threads && s.threads[1] == Have(Get(tenant, s.now, 0), "old")
    ensures s.now == InnerBound(c, tenant) - 1 && s.served == []
  {
    var h, get := Once(), Get(tenant, 0, 0);
    s, labels := Extend(c, h, QUIET, QUIET, [], Miss(1, tenant));
    s, labels := Extend(c, h, QUIET, s, labels, InnerRead(1));
    assert s.threads[1] == Read(get, "old", 0);
    s, labels := Extend(c, h, QUIET, s, labels, Return(1));
  }

  /** It goes into the outer cache, whose last answer is as old as the bound allows. */
  lemma OldestServed(c: Config, tenant: string) returns (s: State, labels: seq<Label>)
    requires Sane(c) && Asked(c, tenant).Some?
    ensures RunFrom(c, Once(), QUIET, labels) == Some(s)
    ensures exists i :: 0 <= i < |s.served| && s.served[i] == Served(tenant, Bound(c, tenant) - 1, "old")
  {
    var h := Once();
    if Asked(c, tenant) == Some("") {
      s, labels := OldGlobal(c, tenant);
    } else {
      s, labels := OldOwn(c, tenant);
    }
    s, labels := Extend(c, h, QUIET, s, labels, OuterStore(1));
    assert s.served[0] == Served(tenant, InnerBound(c, tenant) - 1, "old");
    if c.ttl > 0 {
      s, labels := Extend(c, h, QUIET, s, labels, Tick(c.ttl - 1));
      s, labels := Extend(c, h, QUIET, s, labels, Hit(tenant, s.now));
      assert s.served[1] == Served(tenant, Bound(c, tenant) - 1, "old");
    }
  }

  /** For every tenant the loader finds, the bound is exact: no smaller one holds in every run. */
  lemma StalenessExactIff(c: Config, tenant: string, b: int)
    requires Sane(c) && Asked(c, tenant).Some?
    ensures (forall h: History, s, labels: seq<Label> | Start(s) && RunFrom(c, h, s, labels).Some? ::
               Within(c, h, RunFrom(c, h, s, labels).value, tenant, b))
       <==> b >= Bound(c, tenant)
  {
    if b >= Bound(c, tenant) {
      forall h: History, s, labels: seq<Label> | Start(s) && RunFrom(c, h, s, labels).Some?
        ensures Within(c, h, RunFrom(c, h, s, labels).value, tenant, b)
      {
        StalenessBound(c, h, s, labels, tenant);
        WithinMore(c, h, RunFrom(c, h, s, labels).value, tenant, Bound(c, tenant), b);
      }
    } else {
      var n, labels := OldestServed(c, tenant);
      assert Start(QUIET);
      var i :| 0 <= i < |n.served| && n.served[i] == Served(tenant, Bound(c, tenant) - 1, "old");
      assert !HeldAfter(c, Once(), tenant, n.served[i].data, n.served[i].since - b, n.now);
      assert !Within(c, Once(), n, tenant, b);
    }
  }

  lemma WithinMore(c: Config, h: History, n: State, tenant: string, b: int, more: int)
    requires Within(c, h, n, tenant, b) && b <= more
    ensures Within(c, h, n, tenant, more)
  {}

  /** A load that finishes late leaves an entry that is already expired: it answers no later Get. */
  lemma LateLoadServesNobody(c: Config, h: History, s: State, t: Thread, tenant: string, since: int)
    requires Enabled(c, s, OuterStore(t)) && s.threads[t].get.since + c.ttl <= since
    requires KeyFor(tenant) == KeyFor(s.threads[t].get.tenant)
    ensures !Enabled(c, Step(c, h, s, OuterStore(t)), Hit(tenant, since))
  {}

  // ─── Invalidate ───

  /**
   The step at i of a run after an Invalidate of the tenant at s stores an earlier load of the same key that is
   still good for a Get begun then.
   */
  ghost predicate LateStoreAt(c: Config, h: History, s: State, tenant: string, b: seq<Label>, i: nat) {
    i < |b| && b[i].OuterStore?
    && var n := RunFrom(c, h, Step(c, h, s, Invalidate(tenant)), b[..i]);
       && n.Some? && b[i].t in n.value.threads
       && var get := n.value.threads[b[i].t].get;
          KeyFor(get.tenant) == KeyFor(tenant) && get.load < s.loads && s.now < get.since + c.ttl
  }

  /** After i steps a Get of the tenant begun at or after the Invalidate would be served from a load begun before it. */
  ghost predicate OldServedAt(c: Config, h: History, s: State, tenant: string, b: seq<Label>, i: nat, since: int) {
    i <= |b| && since >= s.now
    && var n := RunFrom(c, h, Step(c, h, s, Invalidate(tenant)), b[..i]);
       n.Some? && Enabled(c, n.value, Hit(tenant, since)) && n.value.outer[KeyFor(tenant)].load < s.loads
  }

  lemma {:induction false} ClockAdvances(c: Config, h: History, s: State, b: seq<Label>)
    requires RunFrom(c, h, s, b).Some?
    ensures RunFrom(c, h, s, b).value.now >= s.now
  {
    if b != [] {
      ClockAdvances(c, h, s, b[..|b| - 1]);
    }
  }

  lemma {:induction false} RunPrefix(c: Config, h: History, s: State, b: seq<Label>, i: nat)
    requires RunFrom(c, h, s, b).Some? && i < |b|
    ensures var n := RunFrom(c, h, s, b[..i]);
            n.Some? && Enabled(c, n.value, b[i]) && RunFrom(c, h, s, b[..i + 1]) == Some(Step(c, h, n.value, b[i]))
    decreases |b|
  {
    if i == |b| - 1 {
      assert b[..i + 1] == b;
    } else {
      var front := b[..|b| - 1];
      assert front[..i] == b[..i] && front[..i + 1] == b[..i + 1];
      RunPrefix(c, h, s, front, i);
    }
  }

  /** Without a late store, what is in the cache is a later load or no longer good. */
  lemma {:induction false} NothingOld(c: Config, h: History, s: State, tenant: string, b: seq<Label>, i: nat)
    requires RunFrom(c, h, Step(c, h, s, Invalidate(tenant)), b).Some? && i <= |b|
    requires forall k: nat :: !LateStoreAt(c, h, s, tenant, b, k)
    ensures var n := RunFrom(c, h, Step(c, h, s, Invalidate(tenant)), b[..i]);
            && n.Some?
            && (KeyFor(tenant) in n.value.outer ==>
                  var e := n.value.outer[KeyFor(tenant)]; e.load >= s.loads || e.until <= s.now)
  {
    if i == 0 {
      assert b[..0] == [];
    } else {
      NothingOld(c, h, s, tenant, b, i - 1);
      RunPrefix(c, h, Step(c, h, s, Invalidate(tenant)), b, i - 1);
      assert !LateStoreAt(c, h, s, tenant, b, i - 1);
    }
  }

  lemma LateStoreServes(c: Config, h: History, s: State, tenant: string, b: seq<Label>, k: nat)
    requires RunFrom(c, h, Step(c, h, s, Invalidate(tenant)), b).Some? && LateStoreAt(c, h, s, tenant, b, k)
    ensures OldServedAt(c, h, s, tenant, b, k + 1, s.now)
  {
    var s0 := Step(c, h, s, Invalidate(tenant));
    RunPrefix(c, h, s0, b, k);
    ClockAdvances(c, h, s0, b[..k + 1]);
  }

  /**
   Exactly when Invalidate holds: in a run after it, no Get of the tenant begun at or after it can be served from
   a load begun before it, if and only if no load of the same key in flight at that moment stores its document
   later while its TTL, counted from its own begin, reaches past the moment.
   */
  lemma InvalidateHoldsIff(c: Config, h: History, s: State, tenant: string, b: seq<Label>)
    requires RunFrom(c, h, Step(c, h, s, Invalidate(tenant)), b).Some?
    ensures (forall i: nat, since :: !OldServedAt(c, h, s, tenant, b, i, since))
       <==> forall k: nat :: !LateStoreAt(c, h, s, tenant, b, k)
  {
    if k: nat :| LateStoreAt(c, h, s, tenant, b, k) {
      LateStoreServes(c, h, s, tenant, b, k);
    } else {
      forall i: nat, since
        ensures !OldServedAt(c, h, s, tenant, b, i, since)
      {
        if i <= |b| {
          NothingOld(c, h, s, tenant, b, i);
        }
      }
    }
  }

  /** What is served for the tenant's key after the Invalidate is as fresh as the keystore makes it. */
  ghost predicate Renewed(c: Config, h: History, s: State, tenant: string, n: State) {
    var lo := s.now - InnerBound(c, tenant);
    && n.now >= s.now
    && (forall t | t in n.threads && n.threads[t].get.load >= s.loads :: n.threads[t].get.since >= s.now)
    && n.loads >= s.loads
    && (KeyFor(tenant) in n.outer && n.outer[KeyFor(tenant)].until > s.now ==>
          HeldAfter(c, h, tenant, n.outer[KeyFor(tenant)].data, lo, n.now))
    && |n.served| >= |s.served|
    && (forall i | |s.served| <= i < |n.served| && n.served[i].tenant == tenant && n.served[i].since >= s.now ::
          HeldAfter(c, h, tenant, n.served[i].data, lo, n.now))
  }

  lemma OuterStoreRenewed(c: Config, h: History, s: State, tenant: string, n: State, t: Thread)
    requires Sane(c) && Inv(c, h, n) && Enabled(c, n, OuterStore(t)) && Renewed(c, h, s, tenant, n)
    requires var get := n.threads[t].get;
             KeyFor(get.tenant) == KeyFor(tenant) ==> get.load >= s.loads || get.since + c.ttl <= s.now
    ensures Renewed(c, h, s, tenant, Step(c, h, n, OuterStore(t)))
  {
    var get, data := n.threads[t].get, n.threads[t].data;
    if KeyFor(get.tenant) == KeyFor(tenant) && get.since >= s.now {
      var lo := get.since - InnerBound(c, tenant);
      SameKeyring(c, h, get.tenant, data, lo, n.now);
      SameKeyring(c, h, tenant, data, lo, n.now);
      Later(c, h, tenant, data, lo, n.now, s.now - InnerBound(c, tenant), n.now);
    }
  }

  lemma TickRenewed(c: Config, h: History, s: State, tenant: string, n: State, span: nat)
    requires Renewed(c, h, s, tenant, n)
    ensures Renewed(c, h, s, tenant, Step(c, h, n, Tick(span)))
  {
    forall data, lo: int | HeldAfter(c, h, tenant, data, lo, n.now)
      ensures HeldAfter(c, h, tenant, data, lo, n.now + span)
    {
      Later(c, h, tenant, data, lo, n.now, lo, n.now + span);
    }
  }

  lemma StepRenewed(c: Config, h: History, s: State, tenant: string, n: State, l: Label)
    requires Sane(c) && Inv(c, h, n) && Enabled(c, n, l) && Renewed(c, h, s, tenant, n)
    requires l.OuterStore? && KeyFor(n.threads[l.t].get.tenant) == KeyFor(tenant) ==>
               n.threads[l.t].get.load >= s.loads || n.threads[l.t].get.since + c.ttl <= s.now
    ensures Renewed(c, h, s, tenant, Step(c, h, n, l))
  {
    match l
    case Tick(span) => TickRenewed(c, h, s, tenant, n, span);
    case OuterStore(t) => OuterStoreRenewed(c, h, s, tenant, n, t);
    case _ =>
  }

  lemma {:induction false} RunRenewed(c: Config, h: History, s: State, tenant: string, b: seq<Label>, i: nat)
    requires Sane(c) && Inv(c, h, s) && i <= |b|
    requires forall t | t in s.threads :: s.threads[t].get.load < s.loads
    requires RunFrom(c, h, Step(c, h, s, Invalidate(tenant)), b).Some?
    requires forall k: nat :: !LateStoreAt(c, h, s, tenant, b, k)
    ensures var n := RunFrom(c, h, Step(c, h, s, Invalidate(tenant)), b[..i]);
            n.Some? && Inv(c, h, n.value) && Renewed(c, h, s, tenant, n.value)
  {
    var s0 := Step(c, h, s, Invalidate(tenant));
    if i == 0 {
      assert b[..0] == [];
      StepInv(c, h, s, Invalidate(tenant));
    } else {
      RunRenewed(c, h, s, tenant, b, i - 1);
      RunPrefix(c, h, s0, b, i - 1);
      var n := RunFrom(c, h, s0, b[..i - 1]).value;
      StepInv(c, h, n, b[i - 1]);
      assert !LateStoreAt(c, h, s, tenant, b, i - 1);
      StepRenewed(c, h, s, tenant, n, b[i - 1]);
    }
  }

  lemma {:induction false} LoadsNumbered(c: Config, h: History, s: State, labels: seq<Label>)
    requires Start(s) && RunFrom(c, h, s, labels).Some?
    ensures var n := RunFrom(c, h, s, labels).value; forall t | t in n.threads :: n.threads[t].get.load < n.loads
  {
    if labels != [] {
      LoadsNumbered(c, h, s, labels[..|labels| - 1]);
    }
  }

  /**
   What Invalidate at T guarantees where no load in flight stores late: a Get begun at or after T gets what the
   repository held for its keyring later than T less the keystore's own bound, which Invalidate does not reach.
   */
  lemma FreshAfterInvalidate(c: Config, h: History, start: State, labels: seq<Label>, tenant: string, b: seq<Label>, i: nat)
    requires Sane(c) && Start(start) && RunFrom(c, h, start, labels).Some?
    requires var s := RunFrom(c, h, start, labels).value;
             && RunFrom(c, h, Step(c, h, s, Invalidate(tenant)), b).Some?
             && (forall k: nat :: !LateStoreAt(c, h, s, tenant, b, k))
             && var n := RunFrom(c, h, Step(c, h, s, Invalidate(tenant)), b).value;
                |s.served| <= i < |n.served| && n.served[i].tenant == tenant && n.served[i].since >= s.now
    ensures var s := RunFrom(c, h, start, labels).value;
            var n := RunFrom(c, h, Step(c, h, s, Invalidate(tenant)), b).value;
            HeldAfter(c, h, tenant, n.served[i].data, s.now - InnerBound(c, tenant), n.now)
  {
    var s := RunFrom(c, h, start, labels).value;
    RunInv(c, h, start, labels);
    LoadsNumbered(c, h, start, labels);
    RunRenewed(c, h, s, tenant, b, |b|);
    assert b[..|b|] == b;
  }

  /** A load of the global document, returned at 0 and not yet stored at 1. */
  lemma LoadInFlight(c: Config, h: History) returns (s: State, labels: seq<Label>)
    requires c.delay >= 0
    ensures labels == [Miss(0, ""), InnerRead(0), InnerStore(0), Tick(1)] && RunFrom(c, h, QUIET, labels) == Some(s)
    ensures s.now == 1 && s.threads == map[0 := Have(Get("", 0, 0), h("global", 0))] && s.outer == map[] && s.served == []
  {
    var get, doc := Get("", 0, 0), h("global", 0);
    assert Blank("");
    s, labels := Extend(c, h, QUIET, QUIET, [], Miss(0, ""));
    assert s.threads == map[0 := Loading(get)];
    s, labels := Extend(c, h, QUIET, s, labels, InnerRead(0));
    assert s.threads == map[0 := Read(get, doc, 0)];
    s, labels := Extend(c, h, QUIET, s, labels, InnerStore(0));
    assert s.threads == map[0 := Have(get, doc)];
    s, labels := Extend(c, h, QUIET, s, labels, Tick(1));
  }

  /** A load read before the change, stored after the Invalidate: the older document is served again. */
  lemma InvalidateThenLateStore(c: Config, h: History)
    requires c.ttl >= 2 && c.jwksTTL > 0 && c.delay >= 0 && h("global", 0) != h("global", 1)
    ensures var labels := [Miss(0, ""), InnerRead(0), InnerStore(0), Tick(1), Invalidate(""), OuterStore(0), Hit("", 1)];
            var n := RunFrom(c, h, QUIET, labels);
            n.Some? && |n.value.served| == 2 && n.value.served[1] == Served("", 1, h("global", 0))
  {
    var s, ls := LoadInFlight(c, h);
    s, ls := Extend(c, h, QUIET, s, ls, Invalidate(""));
    s, ls := Extend(c, h, QUIET, s, ls, OuterStore(0));
    assert s.outer["global"] == Entry(h("global", 0), c.ttl, 0);
    s, ls := Extend(c, h, QUIET, s, ls, Hit("", 1));
    assert ls == [Miss(0, ""), InnerRead(0), InnerStore(0), Tick(1), Invalidate(""), OuterStore(0), Hit("", 1)];
  }

  lemma Extend(c: Config, h: History, start: State, s: State, labels: seq<Label>, l: Label)
    returns (next: State, longer: seq<Label>)
    requires RunFrom(c, h, start, labels) == Some(s) && Enabled(c, s, l)
    ensures longer == labels + [l] && next == Step(c, h, s, l) && RunFrom(c, h, start, longer) == Some(next)
  {
    longer, next := labels + [l], Step(c, h, s, l);
    assert longer[..|labels|] == labels;
  }

  // ─── JWKSCache, run by one goroutine ───

  /** Two names of one keyring: the same name, or "" and "global". */
  predicate SameEntry(a: string, b: string) {
    a == b || (a in {"", "global"} && b in {"", "global"})
  }

  class JwksCache {
    const ttl: int
    var items: map<string, Cached>

    constructor (ttl: int)
      ensures this.ttl == ttl && items == map[]
    {
      this.ttl, items := ttl, map[];
    }

    /** What a Get of the tenant at that time is answered without a load. */
    function Live(tenant: string, now: int): Option<string>
      reads this
    {
      var key := KeyFor(tenant);
      if key in items && now < items[key].until then Some(items[key].data) else None
    }

    /** `began` is the clock at entry, `loaded` what the loader returns if it is asked (None: an error). */
    method Get(tenant: string, began: int, loaded: Option<string>) returns (data: Option<string>)
      modifies this`items
      ensures data == if old(Live(tenant, began)).Some? then old(Live(tenant, began)) else loaded
      ensures old(Live(tenant, began)).Some? || loaded.None? ==> items == old(items)
      ensures old(Live(tenant, began)).None? && loaded.Some? ==>
                forall other, now {:trigger Live(other, now)} | SameEntry(tenant, other) ::
                  Live(other, now) == if now < began + ttl then loaded else None
      ensures forall other, now {:trigger Live(other, now)} | !SameEntry(tenant, other) ::
                Live(other, now) == old(Live(other, now))
    {
      var key := KeyFor(tenant);
      if key in items && began < items[key].until {
        return Some(items[key].data);
      }
      if loaded.None? {
        return None;
      }
      items := items[key := Cached(loaded.value, began + ttl)];
      data := loaded;
    }

    method Invalidate(tenant: string)
      modifies this`items
      ensures forall other, now {:trigger Live(other, now)} ::
                Live(other, now) == if SameEntry(tenant, other) then None else old(Live(other, now))
    {
      items := items - {KeyFor(tenant)};
    }
  }
}
