/**
 The manager: data access per tenant, cached under the tenant's slug and its ID,
 in front of the factory that resolves a tenant and connects it through the pool.
 */
module Manager {
  import opened Wrappers
  import opened Strings
  import Pool

  type Conn = Pool.Conn

  // ─── Resolving a tenant ───

  /** The part of a tenant that decides its data access; no UserDB is an empty driver. */
  datatype Tenant = Tenant(slug: string, id: string, driver: string, dsn: string, dsnEnc: string, schema: string)

  /** The tenant directories in the order ReadDir lists them. */
  type Directory = seq<Tenant>

  predicate DistinctSlugs(dir: Directory) {
    forall i, j | 0 <= i < j < |dir| :: dir[i].slug != dir[j].slug
  }

  function FindSlug(dir: Directory, slug: string): (r: Option<Tenant>)
    ensures r.Some? ==> r.value in dir && r.value.slug == slug
    ensures r.None? ==> forall t | t in dir :: t.slug != slug
  {
    if dir == [] then None else if dir[0].slug == slug then Some(dir[0]) else FindSlug(dir[1..], slug)
  }

  predicate Hidden(slug: string) {
    slug != "" && slug[0] == '.'
  }

  /** The first listed tenant with that ID; List leaves out hidden directories. */
  function FindId(dir: Directory, id: string): (r: Option<Tenant>)
    ensures r.Some? ==> r.value in dir && r.value.id == id && !Hidden(r.value.slug)
    ensures r.None? ==> forall t | t in dir :: t.id == id ==> Hidden(t.slug)
  {
    if dir == [] then None
    else if dir[0].id == id && !Hidden(dir[0].slug) then Some(dir[0])
    else FindId(dir[1..], id)
  }

  /** The first directory with the ID whose name does not start with a dot. */
  predicate FirstListed(dir: Directory, id: string, i: nat) {
    && i < |dir| && dir[i].id == id && !("." <= dir[i].slug)
    && forall j | 0 <= j < i && dir[j].id == id :: "." <= dir[j].slug
  }

  lemma {:induction false} FirstWithId(dir: Directory, id: string, i: nat)
    requires FirstListed(dir, id, i)
    ensures FindId(dir, id) == Some(dir[i])
  {
    if i > 0 {
      forall j | 0 <= j < i - 1 && dir[1..][j].id == id ensures "." <= dir[1..][j].slug {
        assert dir[1..][j] == dir[j + 1];
      }
      FirstWithId(dir[1..], id, i - 1);
    }
  }

  function Resolve(dir: Directory, slugOrId: string): Option<Tenant> {
    match FindSlug(dir, slugOrId)
    case Some(t) => Some(t)
    case None => FindId(dir, slugOrId)
  }

  lemma {:induction false} SlugResolves(dir: Directory, t: Tenant)
    requires DistinctSlugs(dir) && t in dir
    ensures Resolve(dir, t.slug) == Some(t)
  {}

  // ─── The factory ───

  datatype DbConfig = DbConfig(driver: string, dsn: string, schema: string)

  predicate ValidDb(cfg: DbConfig) {
    !Blank(cfg.driver) && !Blank(cfg.dsn)
  }

  datatype Config = Config(dir: Directory, defaultDb: Option<DbConfig>, decrypt: string -> Option<string>)

  /** What is wrong, if anything, then the database to use, if any. */
  datatype Choice = Broken | NoDb | UseDb(db: DbConfig)

  function ChooseDb(cfg: Config, t: Tenant): Choice {
    if t.driver != "" then
      if t.dsn == "" && t.dsnEnc != "" then
        match cfg.decrypt(t.dsnEnc)
        case None => Broken
        case Some(dsn) => UseValid(DbConfig(t.driver, dsn, t.schema))
      else UseValid(DbConfig(t.driver, t.dsn, t.schema))
    else if cfg.defaultDb.Some? then UseValid(cfg.defaultDb.value)
    else NoDb
  }

  function UseValid(db: DbConfig): Choice {
    if ValidDb(db) then UseDb(db) else NoDb
  }

  datatype Access = Access(tenant: Tenant, conn: Option<Conn>)

  predicate DbConfigured(t: Tenant) {
    t.driver != ""
  }

  /** A configured database without a connection is tried again instead. */
  predicate Cacheable(a: Access) {
    a.conn.Some? || !DbConfigured(a.tenant)
  }

  // ─── Interleaved steps ───

  /** What is left to do of a ForTenant call that missed. */
  datatype Stage = Fetched | UnderSlug | Stored

  datatype Call = Call(access: Access, stage: Stage)

  datatype State = State(
    cache: map<string, Access>,
    pooled: map<string, Conn>,
    dials: seq<DbConfig>,      // one per connection, what it was dialed with
    closed: set<Conn>,
    calls: seq<Call>)

  const START := State(map[], map[], [], {}, [])

  datatype Label =
    | Fetch(key: string, dialed: bool)   // factory.ForTenant after a miss
    | StoreSlug(call: nat)
    | StoreId(call: nat)
    | Forget(key: string)                // ClearTenant, and the first half of RefreshTenant
    | ForgetAll                          // ClearCache
    | ClosePooled(slug: string)          // pool.Close, the second half of RefreshTenant

  predicate Enabled(s: State, l: Label) {
    match l
    case StoreSlug(i) => i < |s.calls| && s.calls[i].stage == Fetched
    case StoreId(i) => i < |s.calls| && s.calls[i].stage == UnderSlug
    case _ => true
  }

  /** pool.Get, its answer and the pool afterwards. */
  function Connect(s: State, slug: string, db: DbConfig, dialed: bool): (State, Option<Conn>) {
    if slug in s.pooled then (s, Some(s.pooled[slug]))
    else if !dialed then (s, None)
    else (s.(pooled := s.pooled[slug := |s.dials|], dials := s.dials + [db]), Some(|s.dials|))
  }

  /** factory.ForTenant: None where it returns an error. */
  function Fetching(cfg: Config, s: State, key: string, dialed: bool): (State, Option<Access>) {
    match Resolve(cfg.dir, key)
    case None => (s, None)
    case Some(t) =>
      match ChooseDb(cfg, t)
      case Broken => (s, None)
      case NoDb => (s, Some(Access(t, None)))
      case UseDb(db) =>
        var (s', conn) := Connect(s, t.slug, db, dialed);
        (s', Some(Access(t, conn)))
  }

  function Step(cfg: Config, s: State, l: Label): State
    requires Enabled(s, l)
  {
    match l
    case Fetch(key, dialed) =>
      var (s', a) := Fetching(cfg, s, key, dialed);
      if a.Some? && Cacheable(a.value) then s'.(calls := s'.calls + [Call(a.value, Fetched)]) else s'
    case StoreSlug(i) =>
      var a := s.calls[i].access;
      s.(cache := s.cache[a.tenant.slug := a],
         calls := s.calls[i := Call(a, if a.tenant.id == a.tenant.slug then Stored else UnderSlug)])
    case StoreId(i) =>
      var a := s.calls[i].access;
      s.(cache := s.cache[a.tenant.id := a], calls := s.calls[i := Call(a, Stored)])
    case Forget(key) => s.(cache := s.cache - {key})
    case ForgetAll => s.(cache := map[])
    case ClosePooled(slug) =>
      if slug in s.pooled then s.(pooled := s.pooled - {slug}, closed := s.closed + {s.pooled[slug]}) else s
  }

  function RunFrom(cfg: Config, start: State, labels: seq<Label>): Option<State> {
    if labels == [] then Some(start)
    else
      var s := RunFrom(cfg, start, labels[..|labels| - 1]);
      if s.Some? && Enabled(s.value, labels[|labels| - 1]) then Some(Step(cfg, s.value, labels[|labels| - 1])) else None
  }

  // ─── What every run keeps ───

  /** A connection belongs to its tenant: it is the pooled one, or has been closed. */
  ghost predicate Honest(cfg: Config, s: State, a: Access) {
    && a.tenant in cfg.dir && Cacheable(a) && ChooseDb(cfg, a.tenant) != Broken
    && (a.conn.Some? ==>
          && a.conn.value < |s.dials|
          && (DistinctSlugs(cfg.dir) ==> ChooseDb(cfg, a.tenant) == UseDb(s.dials[a.conn.value]))
          && (a.conn.value in s.closed || (a.tenant.slug in s.pooled && s.pooled[a.tenant.slug] == a.conn.value)))
  }

  ghost predicate Inv(cfg: Config, s: State) {
    && (forall slug | slug in s.pooled :: s.pooled[slug] < |s.dials| && s.pooled[slug] !in s.closed)
    && (DistinctSlugs(cfg.dir) ==> forall t | t in cfg.dir && t.slug in s.pooled ::
          ChooseDb(cfg, t) == UseDb(s.dials[s.pooled[t.slug]]))
    && (forall a, b | a in s.pooled && b in s.pooled :: s.pooled[a] == s.pooled[b] ==> a == b)
    && (forall c | c in s.closed :: c < |s.dials|)
    && (forall i | 0 <= i < |s.calls| :: Honest(cfg, s, s.calls[i].access))
    && (forall key | key in s.cache :: Honest(cfg, s, s.cache[key]))
    && (forall i | 0 <= i < |s.calls| && s.calls[i].stage == UnderSlug ::
          s.calls[i].access.tenant.id != s.calls[i].access.tenant.slug)
  }

  /** What was honest stays so while its connection is pooled or gets closed. */
  lemma StillHonest(cfg: Config, s: State, n: State, a: Access)
    requires Honest(cfg, s, a)
    requires s.dials <= n.dials && s.closed <= n.closed
    requires forall slug | slug in s.pooled ::
               (slug in n.pooled && n.pooled[slug] == s.pooled[slug]) || s.pooled[slug] in n.closed
    ensures Honest(cfg, n, a)
  {}

  lemma ConnectInv(cfg: Config, s: State, t: Tenant, db: DbConfig, dialed: bool)
    requires Inv(cfg, s) && t in cfg.dir && ChooseDb(cfg, t) == UseDb(db)
    ensures var (n, conn) := Connect(s, t.slug, db, dialed);
            && Inv(cfg, n) && n.cache == s.cache && n.calls == s.calls && n.closed == s.closed
            && (conn.Some? ==> t.slug in n.pooled && n.pooled[t.slug] == conn.value)
  {
    var n := Connect(s, t.slug, db, dialed).0;
    forall u | DistinctSlugs(cfg.dir) && u in cfg.dir && u.slug in n.pooled
      ensures ChooseDb(cfg, u) == UseDb(n.dials[n.pooled[u.slug]])
    {
      if u.slug == t.slug {
        SlugResolves(cfg.dir, t);
        SlugResolves(cfg.dir, u);
      }
    }
    forall i | 0 <= i < |s.calls| ensures Honest(cfg, n, s.calls[i].access) {
      StillHonest(cfg, s, n, s.calls[i].access);
    }
    forall key | key in s.cache ensures Honest(cfg, n, s.cache[key]) {
      StillHonest(cfg, s, n, s.cache[key]);
    }
  }

  /** A call that has just been answered honestly. */
  lemma AddCallInv(cfg: Config, s: State, a: Access)
    requires Inv(cfg, s) && Honest(cfg, s, a)
    ensures Inv(cfg, s.(calls := s.calls + [Call(a, Fetched)]))
  {
    var n := s.(calls := s.calls + [Call(a, Fetched)]);
    forall b: Access | Honest(cfg, s, b) ensures Honest(cfg, n, b) {}
    forall i | 0 <= i < |n.calls|
      ensures Honest(cfg, n, n.calls[i].access)
      ensures n.calls[i].stage == UnderSlug ==> n.calls[i].access.tenant.id != n.calls[i].access.tenant.slug
    {
      if i < |s.calls| {
        assert n.calls[i] == s.calls[i];
      }
    }
  }

  lemma FetchInv(cfg: Config, s: State, key: string, dialed: bool)
    requires Inv(cfg, s)
    ensures Inv(cfg, Step(cfg, s, Fetch(key, dialed)))
  {
    FetchingInv(cfg, s, key, dialed);
    var (n, a) := Fetching(cfg, s, key, dialed);
    if a.Some? && Cacheable(a.value) {
      AddCallInv(cfg, n, a.value);
    }
  }

  lemma FetchingInv(cfg: Config, s: State, key: string, dialed: bool)
    requires Inv(cfg, s)
    ensures var (n, a) := Fetching(cfg, s, key, dialed);
            Inv(cfg, n) && n.calls == s.calls && (a.Some? && Cacheable(a.value) ==> Honest(cfg, n, a.value))
  {
    var t := Resolve(cfg.dir, key);
    if t.Some? && ChooseDb(cfg, t.value).UseDb? {
      ConnectInv(cfg, s, t.value, ChooseDb(cfg, t.value).db, dialed);
    }
  }

  lemma CloseInv(cfg: Config, s: State, slug: string)
    requires Inv(cfg, s)
    ensures Inv(cfg, Step(cfg, s, ClosePooled(slug)))
  {}

  lemma StoreInv(cfg: Config, s: State, l: Label)
    requires Inv(cfg, s) && Enabled(s, l) && (l.StoreSlug? || l.StoreId?)
    ensures Inv(cfg, Step(cfg, s, l))
  {
    var n := Step(cfg, s, l);
    forall a: Access | Honest(cfg, s, a) ensures Honest(cfg, n, a) {
      StillHonest(cfg, s, n, a);
    }
    assert Honest(cfg, s, s.calls[l.call].access);
  }

  lemma StepInv(cfg: Config, s: State, l: Label)
    requires Inv(cfg, s) && Enabled(s, l)
    ensures Inv(cfg, Step(cfg, s, l))
  {
    match l
    case Fetch(key, dialed) => FetchInv(cfg, s, key, dialed);
    case StoreSlug(i) => StoreInv(cfg, s, l);
    case StoreId(i) => StoreInv(cfg, s, l);
    case Forget(key) =>
    case ForgetAll =>
    case ClosePooled(slug) => CloseInv(cfg, s, slug);
  }

  lemma {:induction false} RunInv(cfg: Config, start: State, labels: seq<Label>)
    requires Inv(cfg, start) && RunFrom(cfg, start, labels).Some?
    ensures Inv(cfg, RunFrom(cfg, start, labels).value)
  {
    if labels != [] {
      RunInv(cfg, start, labels[..|labels| - 1]);
      StepInv(cfg, RunFrom(cfg, start, labels[..|labels| - 1]).value, labels[|labels| - 1]);
    }
  }

  /** Under every interleaving, a cached access of a tenant with a database driver has a connection. */
  lemma NeverCachesBrokenDb(cfg: Config, labels: seq<Label>, key: string)
    requires RunFrom(cfg, START, labels).Some?
    requires key in RunFrom(cfg, START, labels).value.cache
    ensures var a := RunFrom(cfg, START, labels).value.cache[key]; DbConfigured(a.tenant) ==> a.conn.Some?
  {
    RunInv(cfg, START, labels);
  }

  // ─── Which database a tenant gets ───

  /**
   The database the settings name: the tenant's own if it has a driver, with the plain DSN or else the decrypted
   one, and the default otherwise; a driver or a DSN of nothing but spaces names none.
   */
  predicate Suits(cfg: Config, t: Tenant, db: DbConfig) {
    && (exists k :: 0 <= k < |db.driver| && !IsSpace(db.driver[k]))
    && (exists k :: 0 <= k < |db.dsn| && !IsSpace(db.dsn[k]))
    && if t.driver == "" then cfg.defaultDb == Some(db)
       else
         && db.driver == t.driver && db.schema == t.schema
         && if t.dsn != "" || t.dsnEnc == "" then db.dsn == t.dsn else cfg.decrypt(t.dsnEnc) == Some(db.dsn)
  }

  /** A tenant's own encrypted DSN that cannot be decrypted is the one fatal error. */
  predicate Undecryptable(cfg: Config, t: Tenant) {
    t.driver != "" && t.dsn == "" && t.dsnEnc != "" && cfg.decrypt(t.dsnEnc) == None
  }

  lemma ChoiceSuits(cfg: Config, t: Tenant, db: DbConfig)
    ensures ChooseDb(cfg, t) == UseDb(db) <==> Suits(cfg, t, db)
    ensures ChooseDb(cfg, t) == Broken <==> Undecryptable(cfg, t)
  {}

  /** The factory dials the database that suits the tenant, if there is one and no connection is pooled. */
  lemma FactoryDials(cfg: Config, s: State, key: string, dialed: bool)
    ensures var t, (n, a) := Resolve(cfg.dir, key), Fetching(cfg, s, key, dialed);
            if t.None? || Undecryptable(cfg, t.value) then n == s && a == None
            else if t.value.slug in s.pooled || forall db :: !Suits(cfg, t.value, db) then
              n == s && a.Some? && a.value.tenant == t.value
              && (a.value.conn.Some? ==> t.value.slug in s.pooled && a.value.conn == Some(s.pooled[t.value.slug]))
              && ((exists db :: Suits(cfg, t.value, db)) ==> a.value.conn.Some?)
            else
              a == Some(Access(t.value, if dialed then Some(|s.dials|) else None))
              && forall db | Suits(cfg, t.value, db) :: n.dials == if dialed then s.dials + [db] else s.dials
  {
    var t := Resolve(cfg.dir, key);
    if t.Some? {
      var choice := ChooseDb(cfg, t.value);
      forall db ensures choice == UseDb(db) <==> Suits(cfg, t.value, db) {
        ChoiceSuits(cfg, t.value, db);
      }
      ChoiceSuits(cfg, t.value, DbConfig("", "", ""));
      assert choice.UseDb? ==> Suits(cfg, t.value, choice.db);
    }
  }

  predicate Connected(cfg: Config, dials: seq<DbConfig>, access: Option<Access>) {
    access.Some? && access.value.conn.Some? ==>
      access.value.conn.value < |dials| && Suits(cfg, access.value.tenant, dials[access.value.conn.value])
  }

  lemma HonestSuits(cfg: Config, s: State, a: Access)
    requires DistinctSlugs(cfg.dir) && Honest(cfg, s, a)
    ensures Connected(cfg, s.dials, Some(a))
  {
    if a.conn.Some? {
      ChoiceSuits(cfg, a.tenant, s.dials[a.conn.value]);
    }
  }

  lemma FetchedSuits(cfg: Config, s: State, key: string, dialed: bool)
    requires DistinctSlugs(cfg.dir) && Inv(cfg, s)
    ensures var (n, a) := Fetching(cfg, s, key, dialed); Connected(cfg, n.dials, a)
  {
    FetchingInv(cfg, s, key, dialed);
    var (n, a) := Fetching(cfg, s, key, dialed);
    if a.Some? && a.value.conn.Some? {
      HonestSuits(cfg, n, a.value);
    }
  }

  /** Under every interleaving, a cached access is connected to the database that suits its tenant. */
  lemma CachedSuits(cfg: Config, labels: seq<Label>, key: string)
    requires DistinctSlugs(cfg.dir) && RunFrom(cfg, START, labels).Some?
    requires key in RunFrom(cfg, START, labels).value.cache
    ensures var s := RunFrom(cfg, START, labels).value; Connected(cfg, s.dials, Some(s.cache[key]))
  {
    RunInv(cfg, START, labels);
    var s := RunFrom(cfg, START, labels).value;
    HonestSuits(cfg, s, s.cache[key]);
  }

  // ─── The cache agrees with the resolver ───

  /** Every cached answer is for the tenant the key resolves to. */
  ghost predicate Agrees(cfg: Config, s: State) {
    forall key | key in s.cache :: Resolve(cfg.dir, key) == Some(s.cache[key].tenant)
  }

  /** Some outcome of the dial puts the tenant in the cache. */
  predicate CanBeCached(cfg: Config, t: Tenant) {
    match ChooseDb(cfg, t)
    case Broken => false
    case NoDb => !DbConfigured(t)
    case UseDb(_) => true
  }

  /**
   IDs that no slug hides, no earlier tenant shares and no hidden directory owns.  A caller can check it
   on the directory alone.
   */
  ghost predicate IdsResolve(cfg: Config) {
    forall t | t in cfg.dir && CanBeCached(cfg, t) :: Resolve(cfg.dir, t.id) == Some(t)
  }

  lemma AccessCanBeCached(cfg: Config, s: State, key: string, dialed: bool)
    ensures var a := Fetching(cfg, s, key, dialed).1;
            a.Some? && Cacheable(a.value) ==> CanBeCached(cfg, a.value.tenant) && a.value.tenant in cfg.dir
  {}

  ghost predicate Admissible(cfg: Config, s: State) {
    && (forall i | 0 <= i < |s.calls| ::
          s.calls[i].access.tenant in cfg.dir && CanBeCached(cfg, s.calls[i].access.tenant))
    && Agrees(cfg, s)
  }

  lemma {:induction false} RunAgrees(cfg: Config, start: State, labels: seq<Label>)
    requires DistinctSlugs(cfg.dir) && IdsResolve(cfg)
    requires Admissible(cfg, start) && RunFrom(cfg, start, labels).Some?
    ensures Admissible(cfg, RunFrom(cfg, start, labels).value)
  {
    if labels != [] {
      RunAgrees(cfg, start, labels[..|labels| - 1]);
      var s, l := RunFrom(cfg, start, labels[..|labels| - 1]).value, labels[|labels| - 1];
      StepAgrees(cfg, s, l);
    }
  }

  lemma StepAgrees(cfg: Config, s: State, l: Label)
    requires DistinctSlugs(cfg.dir) && IdsResolve(cfg) && Admissible(cfg, s) && Enabled(s, l)
    ensures Admissible(cfg, Step(cfg, s, l))
  {
    match l
    case Fetch(key, dialed) => FetchAgrees(cfg, s, key, dialed);
    case StoreSlug(i) =>
      SlugResolves(cfg.dir, s.calls[i].access.tenant);
      StoreAgrees(cfg, s, l, s.calls[i].access.tenant.slug, i);
    case StoreId(i) => StoreAgrees(cfg, s, l, s.calls[i].access.tenant.id, i);
    case Forget(key) =>
    case ForgetAll =>
    case ClosePooled(slug) =>
  }

  lemma FetchAgrees(cfg: Config, s: State, key: string, dialed: bool)
    requires Admissible(cfg, s)
    ensures Admissible(cfg, Step(cfg, s, Fetch(key, dialed)))
  {
    AccessCanBeCached(cfg, s, key, dialed);
    var n := Step(cfg, s, Fetch(key, dialed));
    assert n.cache == s.cache;
    assert forall k | 0 <= k < |s.calls| :: n.calls[k] == s.calls[k];
  }

  lemma StoreAgrees(cfg: Config, s: State, l: Label, key: string, i: nat)
    requires Admissible(cfg, s) && Enabled(s, l) && i < |s.calls|
    requires || (l == StoreSlug(i) && key == s.calls[i].access.tenant.slug)
             || (l == StoreId(i) && key == s.calls[i].access.tenant.id)
    requires Resolve(cfg.dir, key) == Some(s.calls[i].access.tenant)
    ensures Admissible(cfg, Step(cfg, s, l))
  {}

  lemma Extend(cfg: Config, s: State, labels: seq<Label>, l: Label) returns (next: State, longer: seq<Label>)
    requires RunFrom(cfg, START, labels) == Some(s) && Enabled(s, l)
    ensures longer == labels + [l] && next == Step(cfg, s, l) && RunFrom(cfg, START, longer) == Some(next)
  {
    longer := labels + [l];
    next := Step(cfg, s, l);
    assert longer[..|longer| - 1] == labels;
  }

  /** One ForTenant(t.slug) whose database answers. */
  lemma CachedUnderId(cfg: Config, t: Tenant) returns (s: State, labels: seq<Label>)
    requires DistinctSlugs(cfg.dir) && t in cfg.dir && CanBeCached(cfg, t) && t.id != t.slug
    ensures labels == [Fetch(t.slug, true), StoreSlug(0), StoreId(0)]
    ensures RunFrom(cfg, START, labels) == Some(s)
    ensures t.id in s.cache && s.cache[t.id].tenant == t
    ensures ChooseDb(cfg, t).UseDb? ==> s.cache[t.id].conn == Some(0) && s.pooled == map[t.slug := 0] && s.closed == {}
  {
    SlugResolves(cfg.dir, t);
    s, labels := Extend(cfg, START, [], Fetch(t.slug, true));
    var a := s.calls[0].access;
    assert s.calls == [Call(a, Fetched)] && a.tenant == t;
    s, labels := Extend(cfg, s, labels, StoreSlug(0));
    assert s.calls == [Call(a, UnderSlug)];
    s, labels := Extend(cfg, s, labels, StoreId(0));
    assert s.cache[t.id] == a;
  }

  /**
   With tenants fixed, the cache gives the tenant the uncached path would pick, under every
   interleaving, if and only if every tenant that can be cached is what its own ID resolves to.
   */
  lemma CacheAgreesIff(cfg: Config)
    requires DistinctSlugs(cfg.dir)
    ensures (forall labels: seq<Label> | RunFrom(cfg, START, labels).Some? ::
               Agrees(cfg, RunFrom(cfg, START, labels).value))
       <==> IdsResolve(cfg)
  {
    if IdsResolve(cfg) {
      forall labels: seq<Label> | RunFrom(cfg, START, labels).Some?
        ensures Agrees(cfg, RunFrom(cfg, START, labels).value)
      {
        RunAgrees(cfg, START, labels);
      }
    } else {
      var t :| t in cfg.dir && CanBeCached(cfg, t) && Resolve(cfg.dir, t.id) != Some(t);
      SlugResolves(cfg.dir, t);
      var s, labels := CachedUnderId(cfg, t);
      assert !Agrees(cfg, s);
    }
  }

  // ─── Closed connections ───

  predicate Usable(s: State, a: Access) {
    a.conn.Some? ==> a.conn.value !in s.closed
  }

  /** No lookup by this slug returns a closed connection, now or once calls under way have stored. */
  ghost predicate Clean(s: State, slug: string) {
    && (slug in s.cache ==> s.cache[slug].tenant.slug == slug && Usable(s, s.cache[slug]))
    && (forall i | 0 <= i < |s.calls| ::
          s.calls[i].stage == Fetched && s.calls[i].access.tenant.slug == slug ==> Usable(s, s.calls[i].access))
  }

  /** A call under way has fetched the connection for this slug and still has to store it. */
  ghost predicate InFlight(s: State, slug: string, c: Conn) {
    exists i :: 0 <= i < |s.calls|
      && s.calls[i].stage == Fetched && s.calls[i].access.tenant.slug == slug && s.calls[i].access.conn == Some(c)
  }

  /** Someone would still find the connection under this slug. */
  ghost predicate Held(s: State, slug: string, c: Conn) {
    || (slug in s.cache && s.cache[slug].conn == Some(c))
    || InFlight(s, slug, c)
  }

  /** IDs are nobody's slug, apart from a tenant's own. */
  predicate SlugsApartFromIds(dir: Directory) {
    forall i, j | 0 <= i < |dir| && 0 <= j < |dir| :: dir[i].id == dir[j].slug ==> i == j
  }

  /** Closing the pooled connection of a slug keeps its lookups clean if and only if nobody still holds it there. */
  lemma CloseIsCleanIff(cfg: Config, s: State, slug: string)
    requires Inv(cfg, s) && Clean(s, slug) && slug in s.pooled
    ensures Clean(Step(cfg, s, ClosePooled(slug)), slug) <==> !Held(s, slug, s.pooled[slug])
  {}

  lemma FetchClean(cfg: Config, s: State, key: string, dialed: bool, slug: string)
    requires Inv(cfg, s) && Clean(s, slug)
    ensures Clean(Step(cfg, s, Fetch(key, dialed)), slug)
  {}

  /** A connection belongs to one slug, so closing another slug's does not touch it. */
  lemma CloseOther(cfg: Config, s: State, other: string, slug: string)
    requires Inv(cfg, s) && Clean(s, slug) && other != slug
    ensures Clean(Step(cfg, s, ClosePooled(other)), slug)
  {}

  lemma StoreIdClean(cfg: Config, s: State, i: nat, t: Tenant)
    requires DistinctSlugs(cfg.dir) && SlugsApartFromIds(cfg.dir) && t in cfg.dir
    requires Inv(cfg, s) && Clean(s, t.slug) && Enabled(s, StoreId(i))
    ensures Clean(Step(cfg, s, StoreId(i)), t.slug)
  {}

  lemma StepClean(cfg: Config, s: State, l: Label, t: Tenant)
    requires DistinctSlugs(cfg.dir) && SlugsApartFromIds(cfg.dir) && t in cfg.dir
    requires Inv(cfg, s) && Clean(s, t.slug) && Enabled(s, l) && l != ClosePooled(t.slug)
    ensures Clean(Step(cfg, s, l), t.slug)
  {
    match l
    case Fetch(key, dialed) => FetchClean(cfg, s, key, dialed, t.slug);
    case StoreSlug(i) =>
    case StoreId(i) => StoreIdClean(cfg, s, i, t);
    case Forget(key) =>
    case ForgetAll =>
    case ClosePooled(slug) => CloseOther(cfg, s, slug, t.slug);
  }

  /** A clean slug stays clean over every run that does not close its connection again, IDs being nobody's slug. */
  lemma {:induction false} RunClean(cfg: Config, start: State, labels: seq<Label>, t: Tenant)
    requires DistinctSlugs(cfg.dir) && SlugsApartFromIds(cfg.dir) && t in cfg.dir
    requires Inv(cfg, start) && Clean(start, t.slug) && RunFrom(cfg, start, labels).Some?
    requires ClosePooled(t.slug) !in labels
    ensures Clean(RunFrom(cfg, start, labels).value, t.slug)
  {
    if labels != [] {
      var front := labels[..|labels| - 1];
      RunClean(cfg, start, front, t);
      RunInv(cfg, start, front);
      StepClean(cfg, RunFrom(cfg, start, front).value, labels[|labels| - 1], t);
    }
  }

  /** A lookup by this slug answers with a closed connection. */
  predicate AnswersClosed(s: State, slug: string) {
    slug in s.cache && !Usable(s, s.cache[slug])
  }

  /** RefreshTenant while other calls are under way: forget the entry, then close the connection. */
  function Refreshed(cfg: Config, s: State, slug: string): State {
    Step(cfg, Step(cfg, s, Forget(slug)), ClosePooled(slug))
  }

  lemma RefreshedIsClean(cfg: Config, s: State, t: Tenant)
    requires Inv(cfg, s) && Clean(s, t.slug) && t.slug in s.pooled
    requires !InFlight(s, t.slug, s.pooled[t.slug])
    ensures Inv(cfg, Refreshed(cfg, s, t.slug)) && Clean(Refreshed(cfg, s, t.slug), t.slug)
  {
    var m := Step(cfg, s, Forget(t.slug));
    StepInv(cfg, s, Forget(t.slug));
    StepInv(cfg, m, ClosePooled(t.slug));
    assert !Held(m, t.slug, m.pooled[t.slug]);
    CloseIsCleanIff(cfg, m, t.slug);
  }

  /** The call that is under way stores the closed connection. */
  lemma LateStore(cfg: Config, s: State, slug: string) returns (labels: seq<Label>)
    requires slug in s.pooled && InFlight(s, slug, s.pooled[slug])
    ensures ClosePooled(slug) !in labels && RunFrom(cfg, Refreshed(cfg, s, slug), labels).Some?
    ensures AnswersClosed(RunFrom(cfg, Refreshed(cfg, s, slug), labels).value, slug)
  {
    var i :| 0 <= i < |s.calls|
      && s.calls[i].stage == Fetched && s.calls[i].access.tenant.slug == slug && s.calls[i].access.conn == Some(s.pooled[slug]);
    labels := [StoreSlug(i)];
    assert labels[..0] == [];
    var n := Refreshed(cfg, s, slug);
    assert n.calls == s.calls && s.pooled[slug] in n.closed;
    assert RunFrom(cfg, n, labels) == Some(Step(cfg, n, StoreSlug(i)));
  }

  /**
   Exactly when a refresh beside other calls takes hold: some run after it, without another close, makes a lookup
   by the slug answer with a closed connection, if and only if a call under way had fetched the connection the
   refresh closed.
   */
  lemma RefreshTakesHoldIff(cfg: Config, s: State, t: Tenant)
    requires DistinctSlugs(cfg.dir) && SlugsApartFromIds(cfg.dir) && t in cfg.dir
    requires Inv(cfg, s) && Clean(s, t.slug) && t.slug in s.pooled
    ensures (exists labels: seq<Label> ::
               && ClosePooled(t.slug) !in labels && RunFrom(cfg, Refreshed(cfg, s, t.slug), labels).Some?
               && AnswersClosed(RunFrom(cfg, Refreshed(cfg, s, t.slug), labels).value, t.slug))
       <==> InFlight(s, t.slug, s.pooled[t.slug])
  {
    var n := Refreshed(cfg, s, t.slug);
    if InFlight(s, t.slug, s.pooled[t.slug]) {
      var labels := LateStore(cfg, s, t.slug);
    } else {
      RefreshedIsClean(cfg, s, t);
      forall labels: seq<Label> | ClosePooled(t.slug) !in labels && RunFrom(cfg, n, labels).Some?
        ensures !AnswersClosed(RunFrom(cfg, n, labels).value, t.slug)
      {
        RunClean(cfg, n, labels, t);
      }
    }
  }

  /** The ID's entry is not cleared: after a refresh it still answers with the closed connection. */
  lemma StaleUnderId(cfg: Config, t: Tenant)
    requires DistinctSlugs(cfg.dir) && t in cfg.dir && ChooseDb(cfg, t).UseDb? && t.id != t.slug
    ensures var labels := [Fetch(t.slug, true), StoreSlug(0), StoreId(0), Forget(t.slug), ClosePooled(t.slug)];
            var s := RunFrom(cfg, START, labels);
            && s.Some? && t.slug !in s.value.cache
            && t.id in s.value.cache && !Usable(s.value, s.value.cache[t.id])
  {
    var s, labels := CachedUnderId(cfg, t);
    s, labels := Extend(cfg, s, labels, Forget(t.slug));
    s, labels := Extend(cfg, s, labels, ClosePooled(t.slug));
    assert labels == [Fetch(t.slug, true), StoreSlug(0), StoreId(0), Forget(t.slug), ClosePooled(t.slug)];
  }

  /** A refresh between a call's connection and its store leaves the slug itself with the closed one. */
  lemma RefreshRaces(cfg: Config, t: Tenant)
    requires DistinctSlugs(cfg.dir) && t in cfg.dir && ChooseDb(cfg, t).UseDb?
    ensures var labels := [Fetch(t.slug, true), Forget(t.slug), ClosePooled(t.slug), StoreSlug(0)];
            var s := RunFrom(cfg, START, labels);
            s.Some? && t.slug in s.value.cache && !Usable(s.value, s.value.cache[t.slug])
  {
    SlugResolves(cfg.dir, t);
    var s, labels := Extend(cfg, START, [], Fetch(t.slug, true));
    s, labels := Extend(cfg, s, labels, Forget(t.slug));
    s, labels := Extend(cfg, s, labels, ClosePooled(t.slug));
    s, labels := Extend(cfg, s, labels, StoreSlug(0));
    assert labels == [Fetch(t.slug, true), Forget(t.slug), ClosePooled(t.slug), StoreSlug(0)];
  }

  /**
   The guard looks at the tenant's own driver only: with a default database, a tenant whose dial
   failed is cached without a connection.
   */
  lemma DefaultFailureIsCached(cfg: Config, t: Tenant)
    requires DistinctSlugs(cfg.dir) && t in cfg.dir && !DbConfigured(t) && ChooseDb(cfg, t).UseDb?
    ensures var s := RunFrom(cfg, START, [Fetch(t.slug, false), StoreSlug(0)]);
            s.Some? && t.slug in s.value.cache && s.value.cache[t.slug].conn == None
  {
    SlugResolves(cfg.dir, t);
    var s, labels := Extend(cfg, START, [], Fetch(t.slug, false));
    s, labels := Extend(cfg, s, labels, StoreSlug(0));
    assert labels == [Fetch(t.slug, false), StoreSlug(0)];
  }

  // ─── The manager, one call at a time ───

  method GetById(dir: Directory, id: string) returns (r: Option<Tenant>)
    ensures r == FindId(dir, id)
  {
    for i := 0 to |dir|
      invariant FindId(dir, id) == FindId(dir[i..], id)
    {
      if !Hidden(dir[i].slug) && dir[i].id == id {
        return Some(dir[i]);
      }
    }
    return None;
  }

  function PooledOf(entries: map<string, Pool.Entry>): (pooled: map<string, Conn>)
    ensures pooled.Keys == entries.Keys
    ensures forall slug | slug in entries :: pooled[slug] == entries[slug].conn
  {
    map slug | slug in entries :: entries[slug].conn
  }

  /** An answer that is not a closed connection, for a key that is a slug. */
  ghost predicate Answer(cfg: Config, s: State, key: string, access: Option<Access>) {
    AllCleanIn(cfg, s) && FindSlug(cfg.dir, key).Some? && access.Some? ==> Usable(s, access.value)
  }

  lemma HitAnswer(cfg: Config, s: State, key: string)
    requires key in s.cache
    ensures Answer(cfg, s, key, Some(s.cache[key]))
  {
    if FindSlug(cfg.dir, key).Some? {
      assert FindSlug(cfg.dir, key).value in cfg.dir;
    }
  }

  lemma MissAnswer(cfg: Config, s: State, key: string, dialed: bool)
    requires AllStored(s)
    ensures var n := Missed(cfg, s, key, dialed);
            var (s', a) := Fetching(cfg, s, key, dialed);
            && Answer(cfg, n, key, a)
            && AllStored(n) && n.pooled == s'.pooled && n.dials == s'.dials && n.closed == s.closed
            && n.cache == if a.None? || !Cacheable(a.value) then s.cache else Remembered(s.cache, a.value)
  {
    MissedState(cfg, s, key, dialed);
    var n := Missed(cfg, s, key, dialed);
    var a := Fetching(cfg, s, key, dialed).1;
    if a.Some? && Cacheable(a.value) && FindSlug(cfg.dir, key).Some? {
      assert n.cache[a.value.tenant.slug] == a.value;
      HitAnswer(cfg, n, a.value.tenant.slug);
    }
  }

  lemma PooledPut(entries: map<string, Pool.Entry>, slug: string, e: Pool.Entry)
    ensures PooledOf(entries[slug := e]) == PooledOf(entries)[slug := e.conn]
    ensures slug in entries && entries[slug].conn == e.conn ==> PooledOf(entries[slug := e]) == PooledOf(entries)
  {}

  /** Every call has stored what it had to. */
  ghost predicate AllStored(s: State) {
    forall i | 0 <= i < |s.calls| :: s.calls[i].stage == Stored
  }

  ghost predicate AllCleanIn(cfg: Config, s: State) {
    forall t | t in cfg.dir :: Clean(s, t.slug)
  }

  lemma KeepClean(cfg: Config, s: State, l: Label)
    requires DistinctSlugs(cfg.dir) && SlugsApartFromIds(cfg.dir) && AllCleanIn(cfg, s)
    requires Inv(cfg, s) && Enabled(s, l) && !l.ClosePooled?
    ensures AllCleanIn(cfg, Step(cfg, s, l))
  {
    forall t | t in cfg.dir ensures Clean(Step(cfg, s, l), t.slug) {
      StepClean(cfg, s, l, t);
    }
  }

  lemma RefreshClean(cfg: Config, s: State, slug: string)
    requires Inv(cfg, s) && AllCleanIn(cfg, s) && AllStored(s) && slug !in s.cache
    ensures AllCleanIn(cfg, Step(cfg, s, ClosePooled(slug)))
  {}

  lemma RefreshedInv(cfg: Config, s: State, slug: string)
    requires Inv(cfg, s) && DistinctSlugs(cfg.dir) && AllStored(s)
    ensures var n := Refreshed(cfg, s, slug);
            && Inv(cfg, n) && n.calls == s.calls && n.dials == s.dials && n.cache == s.cache - {slug}
            && n.pooled == s.pooled - {slug}
            && n.closed == s.closed + (if slug in s.pooled then {s.pooled[slug]} else {})
            && (SlugsApartFromIds(cfg.dir) && AllCleanIn(cfg, s) ==> AllCleanIn(cfg, n))
  {
    var m := Step(cfg, s, Forget(slug));
    StepInv(cfg, s, Forget(slug));
    CloseInv(cfg, m, slug);
    if SlugsApartFromIds(cfg.dir) && AllCleanIn(cfg, s) {
      KeepClean(cfg, s, Forget(slug));
      RefreshClean(cfg, m, slug);
    }
  }

  /** The end of a missed call: under its slug, then under its ID. */
  function BothStores(cfg: Config, s: State, i: nat): State
    requires Enabled(s, StoreSlug(i))
  {
    var m := Step(cfg, s, StoreSlug(i));
    if m.calls[i].stage == Stored then m else Step(cfg, m, StoreId(i))
  }

  function Remembered(cache: map<string, Access>, a: Access): map<string, Access> {
    cache[a.tenant.slug := a][a.tenant.id := a]
  }

  lemma BothStoresState(cfg: Config, s: State, i: nat)
    requires Enabled(s, StoreSlug(i))
    ensures var a := s.calls[i].access;
            BothStores(cfg, s, i) == s.(cache := Remembered(s.cache, a), calls := s.calls[i := Call(a, Stored)])
  {}

  lemma BothStoresInv(cfg: Config, s: State, i: nat)
    requires DistinctSlugs(cfg.dir) && Inv(cfg, s) && Enabled(s, StoreSlug(i))
    ensures Inv(cfg, BothStores(cfg, s, i))
    ensures SlugsApartFromIds(cfg.dir) && AllCleanIn(cfg, s) ==> AllCleanIn(cfg, BothStores(cfg, s, i))
  {
    var keep := SlugsApartFromIds(cfg.dir) && AllCleanIn(cfg, s);
    StoreInv(cfg, s, StoreSlug(i));
    if keep { KeepClean(cfg, s, StoreSlug(i)); }
    var m := Step(cfg, s, StoreSlug(i));
    if m.calls[i].stage != Stored {
      StoreInv(cfg, m, StoreId(i));
      if keep { KeepClean(cfg, m, StoreId(i)); }
    }
  }

  /** A missed call, run to its end. */
  function Missed(cfg: Config, s: State, key: string, dialed: bool): State {
    var n := Step(cfg, s, Fetch(key, dialed));
    if |n.calls| == |s.calls| then n else BothStores(cfg, n, |s.calls|)
  }

  lemma MissedInv(cfg: Config, s: State, key: string, dialed: bool)
    requires Inv(cfg, s) && DistinctSlugs(cfg.dir)
    ensures Inv(cfg, Missed(cfg, s, key, dialed))
    ensures SlugsApartFromIds(cfg.dir) && AllCleanIn(cfg, s) ==> AllCleanIn(cfg, Missed(cfg, s, key, dialed))
  {
    var n := Step(cfg, s, Fetch(key, dialed));
    FetchInv(cfg, s, key, dialed);
    if SlugsApartFromIds(cfg.dir) && AllCleanIn(cfg, s) {
      KeepClean(cfg, s, Fetch(key, dialed));
    }
    if |n.calls| > |s.calls| {
      BothStoresInv(cfg, n, |s.calls|);
    }
  }

  lemma MissedState(cfg: Config, s: State, key: string, dialed: bool)
    requires AllStored(s)
    ensures var n := Missed(cfg, s, key, dialed);
            var (s', a) := Fetching(cfg, s, key, dialed);
            && AllStored(n) && n.pooled == s'.pooled && n.dials == s'.dials && n.closed == s.closed
            && n.cache == if a.None? || !Cacheable(a.value) then s.cache else Remembered(s.cache, a.value)
  {
    var n := Step(cfg, s, Fetch(key, dialed));
    if |n.calls| > |s.calls| {
      BothStoresState(cfg, n, |s.calls|);
    }
  }

  class TenantManager {
    const cfg: Config
    const pool: Pool.ConnectionPool
    var tenants: map<string, Access>
    /** What each connection was dialed with. */
    var dials: seq<DbConfig>
    /** The step machine this manager is in. */
    ghost var st: State

    ghost predicate Valid()
      reads this, pool
    {
      && DistinctSlugs(cfg.dir)
      && pool.Valid() && Inv(cfg, st)
      && st.cache == tenants
      && st.pooled == PooledOf(pool.connections)
      && st.dials == dials && |dials| == |pool.st.owner|
      && (forall c :: c in st.closed <==> c in pool.st.closes)
      && AllStored(st)
    }

    /** No lookup by slug answers with a closed connection. */
    ghost predicate AllClean()
      reads this
    {
      AllCleanIn(cfg, st)
    }

    constructor (cfg: Config)
      requires DistinctSlugs(cfg.dir)
      ensures Valid() && AllClean() && this.cfg == cfg && tenants == map[] && fresh(pool)
    {
      this.cfg := cfg;
      pool := new Pool.ConnectionPool();
      tenants, dials, st := map[], [], START;
    }

    /** `next` is the number the connection would get, `dialed` whether the database answers. */
    method FactoryForTenant(key: string, now: int, next: Conn, dialed: bool) returns (access: Option<Access>)
      requires pool.Valid() && next == |pool.st.owner|
      requires st.pooled == PooledOf(pool.connections) && st.dials == dials && |dials| == next
      modifies this`dials, pool
      ensures pool.Valid() && pool.st.closes == old(pool.st.closes)
      ensures Fetching(cfg, st, key, dialed) ==
              (st.(pooled := PooledOf(pool.connections), dials := dials), access)
      ensures |dials| == |pool.st.owner|
    {
      var tenant := FindSlug(cfg.dir, key);
      if tenant.None? {
        tenant := GetById(cfg.dir, key);
        if tenant.None? {
          return None;
        }
      }
      var choice := ChooseDb(cfg, tenant.value);
      if choice.Broken? {
        return None;
      }
      var conn: Option<Conn> := None;
      if choice.UseDb? {
        conn := GetConnection(tenant.value.slug, choice.db, now, next, dialed);
      }
      access := Some(Access(tenant.value, conn));
    }

    method GetConnection(slug: string, db: DbConfig, now: int, next: Conn, dialed: bool) returns (conn: Option<Conn>)
      requires pool.Valid() && next == |pool.st.owner|
      modifies this`dials, pool
      ensures pool.Valid() && pool.st.closes == old(pool.st.closes)
      ensures var was := PooledOf(old(pool.connections));
              && conn == (if slug in was then Some(was[slug]) else if dialed then Some(next) else None)
              && PooledOf(pool.connections) == (if slug !in was && dialed then was[slug := next] else was)
              && |pool.st.owner| == (if slug !in was && dialed then next + 1 else next)
              && dials == if slug !in was && dialed then old(dials) + [db] else old(dials)
    {
      ghost var was := pool.connections;
      var pooled := slug in pool.connections;
      conn := pool.Get(slug, now, next, dialed);
      if !pooled && dialed {
        dials := dials + [db];
      }
      if conn.Some? {
        PooledPut(was, slug, Pool.Entry(conn.value, now));
      }
    }

    method CloseConnection(slug: string)
      requires pool.Valid()
      modifies pool
      ensures pool.Valid() && |pool.st.owner| == |old(pool.st.owner)|
      ensures pool.connections == old(pool.connections) - {slug}
      ensures PooledOf(pool.connections) == PooledOf(old(pool.connections)) - {slug}
      ensures forall c :: c in pool.st.closes <==>
                c in old(pool.st.closes) || (slug in old(pool.connections) && c == old(pool.connections)[slug].conn)
    {
      pool.Close(slug);
    }

    /** None where the source returns an error. */
    method ForTenant(key: string, now: int, next: Conn, dialed: bool) returns (access: Option<Access>)
      requires Valid() && next == |pool.st.owner|
      modifies this`tenants, this`dials, this`st, pool
      ensures Valid()
      ensures key in old(tenants) ==> access == Some(old(tenants)[key]) && tenants == old(tenants)
      ensures key !in old(tenants) ==>
                && access == Fetching(cfg, old(st), key, dialed).1
                && tenants == if access.None? || !Cacheable(access.value) then old(tenants)
                              else Remembered(old(tenants), access.value)
      ensures SlugsApartFromIds(cfg.dir) && old(AllClean()) ==> AllClean()
      ensures Answer(cfg, st, key, access)
      // A connection that is handed out was dialed with the database that suits the tenant.
      ensures Connected(cfg, dials, access)
    {
      if key in tenants {
        HitAnswer(cfg, st, key);
        HonestSuits(cfg, st, tenants[key]);
        return Some(tenants[key]);
      }
      FetchedSuits(cfg, st, key, dialed);
      access := FactoryForTenant(key, now, next, dialed);
      MissedInv(cfg, st, key, dialed);
      MissAnswer(cfg, st, key, dialed);
      st := Missed(cfg, st, key, dialed);
      if access.Some? && Cacheable(access.value) {
        Remember(access.value);
      }
    }

    method Remember(access: Access)
      modifies this`tenants
      ensures tenants == Remembered(old(tenants), access)
    {
      tenants := tenants[access.tenant.slug := access];
      if access.tenant.id != access.tenant.slug {
        tenants := tenants[access.tenant.id := access];
      }
    }

    method ClearTenant(slug: string)
      requires Valid()
      modifies this`tenants, this`st
      ensures Valid() && tenants == old(tenants) - {slug}
      ensures SlugsApartFromIds(cfg.dir) && old(AllClean()) ==> AllClean()
    {
      StepInv(cfg, st, Forget(slug));
      if SlugsApartFromIds(cfg.dir) && AllClean() {
        KeepClean(cfg, st, Forget(slug));
      }
      tenants := tenants - {slug};
      st := Step(cfg, st, Forget(slug));
    }

    method ClearCache()
      requires Valid()
      modifies this`tenants, this`st
      ensures Valid() && tenants == map[]
      ensures SlugsApartFromIds(cfg.dir) && old(AllClean()) ==> AllClean()
    {
      StepInv(cfg, st, ForgetAll);
      if SlugsApartFromIds(cfg.dir) && AllClean() {
        KeepClean(cfg, st, ForgetAll);
      }
      tenants := map[];
      st := Step(cfg, st, ForgetAll);
    }

    /** Afterwards no lookup by any slug answers with a connection that has been closed. */
    method RefreshTenant(slug: string)
      requires Valid()
      modifies this`tenants, this`st, pool
      ensures Valid() && tenants == old(tenants) - {slug} && slug !in pool.connections
      ensures pool.connections == old(pool.connections) - {slug}
      ensures SlugsApartFromIds(cfg.dir) && old(AllClean()) ==> AllClean()
    {
      RefreshedInv(cfg, st, slug);
      tenants := tenants - {slug};
      CloseConnection(slug);
      st := Refreshed(cfg, st, slug);
    }
  }
}
