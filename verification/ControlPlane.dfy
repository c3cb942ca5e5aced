/**
 The replicated control plane as a value: what is on disk under tenants/ and
 keys/, the mutations the Raft log carries, and what applying one of them does.

 A tenant is a directory.  Its tenant.yaml, clients.yaml and scopes.yaml are
 written with os.WriteFile, which does not create the directory, so a client or
 scope written to a tenant that does not exist is an error without effect.
 */
module ControlPlane {
  import opened Wrappers
  import opened Strings

  // ─── What is on disk ───

  datatype TenantInfo = TenantInfo(id: string, name: string, settings: string)

  /** What clients.yaml keeps of a client; the secret and the two e-mail URLs are not written. */
  datatype ClientRec = ClientRec(clientId: string, name: string, kind: string,
                                 redirectUris: seq<string>, allowedOrigins: seq<string>,
                                 providers: seq<string>, scopes: seq<string>, requireVerification: bool)

  datatype ScopeRec = ScopeRec(name: string, description: string, displayName: string,
                               claims: seq<string>, dependsOn: string, system: bool)

  /** Clients and scopes of a tenant live in two files but obey the same rules. */
  datatype ItemKey = ClientKey(id: string) | ScopeKey(name: string)
  datatype Item = ClientItem(client: ClientRec) | ScopeItem(scope: ScopeRec)

  function KeyOf(item: Item): ItemKey {
    match item
    case ClientItem(c) => ClientKey(c.clientId)
    case ScopeItem(s) => ScopeKey(s.name)
  }

  /** A directory tenants/{slug}; `info` is None when it has no tenant.yaml. */
  datatype TenantDir = TenantDir(info: Option<TenantInfo>, items: map<ItemKey, Item>)

  /** A directory keys/ or keys/{slug}. */
  datatype KeyDir = KeyDir(active: Option<string>, retiring: Option<string>)

  datatype Control = Control(tenants: map<string, TenantDir>, rings: map<string, KeyDir>)

  const EMPTY: Control := Control(map[], map[])

  // ─── Mutations ───

  datatype ClientPayload = ClientPayload(rec: ClientRec, secret: string, resetUrl: string, verifyUrl: string)

  /** The raw settings document inside a payload: missing, readable, or not JSON. */
  datatype RawSettings = NoSettings | Doc(doc: string) | BadDoc

  datatype TenantPayload = TenantPayload(id: string, name: string, slug: string, settings: RawSettings)

  datatype KeyPayload = KeyPayload(activeJson: string, retiringJson: string)

  /** A mutation with its payload already decoded; None stands for a payload that is not valid JSON. */
  datatype Mutation =
    | ClientUpsert(slug: string, client: Option<ClientPayload>)
    | ClientDelete(slug: string, id: Option<string>)
    | TenantUpsert(slug: string, tenant: Option<TenantPayload>)
    | TenantDelete(slug: string)
    | SettingsUpdate(slug: string, settings: Option<RawSettings>)
    | ScopeUpsert(slug: string, scope: Option<ScopeRec>)
    | ScopeDelete(slug: string, id: Option<string>)
    | KeyRotate(slug: string, keys: Option<KeyPayload>)
    | Unknown(slug: string)

  datatype Error = BadPayload | NotFound | Conflict | NoDirectory

  /** Blocked: the effect is on disk, but the call never comes back. */
  datatype Outcome = Done | Failed(error: Error) | Blocked

  // ─── Handlers ───

  /** "" and "global" both name the keyring at keys/. */
  function RingOf(slug: string): string {
    if slug == "" then "global" else slug
  }

  function WithTenant(s: Control, slug: string, dir: TenantDir): Control {
    s.(tenants := s.tenants[slug := dir])
  }

  function PutItem(s: Control, slug: string, item: Item): (Control, Outcome) {
    if slug in s.tenants then
      var dir := s.tenants[slug];
      (WithTenant(s, slug, dir.(items := dir.items[KeyOf(item) := item])), Done)
    else
      (s, Failed(NoDirectory))
  }

  /**
   Get decides between Create and Update.  Update writes the file and then calls Get
   for its result while it still holds the lock Get asks for, so it never returns.
   */
  function PutClient(s: Control, slug: string, rec: ClientRec): (Control, Outcome) {
    var (n, out) := PutItem(s, slug, ClientItem(rec));
    (n, if ItemAt(s, slug, ClientKey(rec.clientId)).Some? then Blocked else out)
  }

  /** Deleting what is not there is not an error. */
  function DropItem(s: Control, slug: string, key: ItemKey): (Control, Outcome) {
    if slug in s.tenants then
      var dir := s.tenants[slug];
      (WithTenant(s, slug, dir.(items := dir.items - {key})), Done)
    else
      (s, Done)
  }

  /** Get decides between Create and Update; Create refuses a directory that is already there. */
  function PutTenant(s: Control, slug: string, info: TenantInfo): (Control, Outcome) {
    if slug !in s.tenants then
      (WithTenant(s, slug, TenantDir(Some(info), map[])), Done)
    else if s.tenants[slug].info.None? then
      (s, Failed(Conflict))
    else
      (WithTenant(s, slug, s.tenants[slug].(info := Some(info))), Done)
  }

  function PutSettings(s: Control, slug: string, doc: string): (Control, Outcome) {
    if slug !in s.tenants || s.tenants[slug].info.None? then
      (s, Failed(NotFound))
    else
      var dir := s.tenants[slug];
      (WithTenant(s, slug, dir.(info := Some(dir.info.value.(settings := doc)))), Done)
  }

  function RotatedDir(dir: KeyDir, p: KeyPayload): KeyDir {
    KeyDir(if Blank(p.activeJson) then dir.active else Some(p.activeJson),
           if Blank(p.retiringJson) then None else Some(p.retiringJson))
  }

  function RotateKeys(s: Control, ring: string, p: KeyPayload): (Control, Outcome) {
    var dir := if ring in s.rings then s.rings[ring] else KeyDir(None, None);
    (s.(rings := s.rings[ring := RotatedDir(dir, p)]), Done)
  }

  /** One log entry: the state after it and the answer the applier gives. */
  function Step(s: Control, m: Mutation): (Control, Outcome) {
    match m
    case ClientUpsert(slug, Some(p)) => PutClient(s, slug, p.rec)
    case ClientDelete(slug, Some(id)) => DropItem(s, slug, ClientKey(id))
    case TenantUpsert(_, Some(p)) =>
      if p.settings.BadDoc? then (s, Failed(BadPayload))
      else PutTenant(s, p.slug, TenantInfo(p.id, p.name, if p.settings.Doc? then p.settings.doc else ""))
    case TenantDelete(slug) => (s.(tenants := s.tenants - {slug}), Done)
    case SettingsUpdate(slug, Some(raw)) =>
      if raw.Doc? then PutSettings(s, slug, raw.doc) else (s, Failed(BadPayload))
    case ScopeUpsert(slug, Some(rec)) => PutItem(s, slug, ScopeItem(rec))
    case ScopeDelete(slug, Some(id)) => DropItem(s, slug, ScopeKey(id))
    case KeyRotate(slug, Some(p)) => RotateKeys(s, RingOf(slug), p)
    case Unknown(_) => (s, Done)
    case _ => (s, Failed(BadPayload))
  }

  function Next(s: Control, m: Mutation): Control {
    Step(s, m).0
  }

  /** What a whole log leaves if every entry is carried out. */
  function Run(s: Control, log: seq<Mutation>): Control {
    if log == [] then s else Next(Run(s, log[..|log| - 1]), log[|log| - 1])
  }

  lemma RunPrefix(s: Control, log: seq<Mutation>, k: nat)
    requires k < |log|
    ensures Run(s, log[..k + 1]) == Next(Run(s, log[..k]), log[k])
  {
    assert log[..k + 1][..k] == log[..k];
  }

  lemma {:induction false} RunConcat(s: Control, a: seq<Mutation>, b: seq<Mutation>)
    ensures Run(s, a + b) == Run(Run(s, a), b)
    decreases |b|
  {
    if b == [] {
      assert a + b == a;
    } else {
      var c := b[..|b| - 1];
      assert (a + b)[..|a + b| - 1] == a + c;
      RunConcat(s, a, c);
    }
  }

  // ─── Answering ───

  /** The goroutine that applies entries: once a call does not come back, no later entry is applied. */
  datatype Fsm = Fsm(control: Control, stuck: bool)

  function Apply(f: Fsm, m: Mutation): Fsm {
    if f.stuck then f else Fsm(Next(f.control, m), Step(f.control, m).1 == Blocked)
  }

  function Exec(s: Control, log: seq<Mutation>): Fsm {
    if log == [] then Fsm(s, false) else Apply(Exec(s, log[..|log| - 1]), log[|log| - 1])
  }

  /** A client upsert that finds its client present. */
  predicate MeetsClient(s: Control, m: Mutation) {
    m.ClientUpsert? && m.client.Some? && ItemAt(s, m.slug, ClientKey(m.client.value.rec.clientId)).Some?
  }

  /** The k-th entry is the first client upsert of the log that finds its client present. */
  predicate FirstMeeting(s: Control, log: seq<Mutation>, k: nat) {
    && k < |log| && MeetsClient(Run(s, log[..k]), log[k])
    && forall i | 0 <= i < k :: !MeetsClient(Run(s, log[..i]), log[i])
  }

  predicate AnswersAll(s: Control, log: seq<Mutation>) {
    forall k | 0 <= k < |log| :: !MeetsClient(Run(s, log[..k]), log[k])
  }

  lemma FirstMeetingFront(s: Control, log: seq<Mutation>, n: nat, k: nat)
    requires n <= |log| && FirstMeeting(s, log[..n], k)
    ensures FirstMeeting(s, log, k) && log[..n][..k + 1] == log[..k + 1]
  {
    assert log[..n][..k] == log[..k];
    forall i | 0 <= i < k
      ensures !MeetsClient(Run(s, log[..i]), log[i])
    {
      assert log[..n][..i] == log[..i] && log[..n][i] == log[i];
    }
  }

  lemma AnswersFront(s: Control, log: seq<Mutation>)
    requires log != []
    ensures var n := |log| - 1;
            AnswersAll(s, log) <==> AnswersAll(s, log[..n]) && !MeetsClient(Run(s, log[..n]), log[n])
  {
    var front := log[..|log| - 1];
    forall i | 0 <= i < |front|
      ensures MeetsClient(Run(s, front[..i]), front[i]) == MeetsClient(Run(s, log[..i]), log[i])
    {
      assert front[..i] == log[..i];
    }
    if AnswersAll(s, log) {
      forall i | 0 <= i < |front| ensures !MeetsClient(Run(s, front[..i]), front[i]) {
        assert !MeetsClient(Run(s, log[..i]), log[i]);
      }
    }
  }

  lemma LastMeets(s: Control, log: seq<Mutation>)
    requires log != [] && AnswersAll(s, log[..|log| - 1]) && MeetsClient(Run(s, log[..|log| - 1]), log[|log| - 1])
    ensures FirstMeeting(s, log, |log| - 1) && log[..|log|] == log
  {
    var front := log[..|log| - 1];
    forall i | 0 <= i < |front|
      ensures !MeetsClient(Run(s, log[..i]), log[i])
    {
      assert front[..i] == log[..i] && front[i] == log[i];
    }
  }

  /** How far a log is carried out: to its end, or to its first meeting. */
  ghost predicate CarriedOut(s: Control, log: seq<Mutation>, f: Fsm) {
    && (f.stuck <==> !AnswersAll(s, log))
    && (!f.stuck ==> f.control == Run(s, log))
    && (f.stuck ==> exists k :: FirstMeeting(s, log, k) && f.control == Run(s, log[..k + 1]))
  }

  /**
   A log is applied to its end, with every entry answered, if and only if no client upsert
   finds its client present; otherwise the first that does is the last entry carried out.
   */
  lemma {:induction false} ExecAnswersIff(s: Control, log: seq<Mutation>)
    ensures CarriedOut(s, log, Exec(s, log))
  {
    if log != [] {
      var n := |log| - 1;
      var front := log[..n];
      ExecAnswersIff(s, front);
      AnswersFront(s, log);
      if Exec(s, front).stuck {
        var k :| FirstMeeting(s, front, k) && Exec(s, front).control == Run(s, front[..k + 1]);
        FirstMeetingFront(s, log, n, k);
      } else if MeetsClient(Run(s, front), log[n]) {
        LastMeets(s, log);
      }
    }
  }

  lemma OneEntry(s: Control, m: Mutation)
    ensures Run(s, [m]) == Next(s, m) && Exec(s, [m]) == Apply(Fsm(s, false), m)
  {
    assert [m][..0] == [];
  }

  lemma {:induction false} ExecConcat(s: Control, a: seq<Mutation>, b: seq<Mutation>)
    requires !Exec(s, a).stuck
    ensures Exec(s, a + b) == Exec(Exec(s, a).control, b)
  {
    if b == [] {
      assert a + b == a;
    } else {
      assert (a + b)[..|a + b| - 1] == a + b[..|b| - 1];
      ExecConcat(s, a, b[..|b| - 1]);
    }
  }

  /** Two upserts of a client in a row are enough. */
  lemma SecondUpsertBlocks(s: Control, slug: string, p: ClientPayload, q: ClientPayload)
    requires slug in s.tenants && p.rec.clientId == q.rec.clientId
    ensures Exec(s, [ClientUpsert(slug, Some(p)), ClientUpsert(slug, Some(q))]).stuck
  {
    var first, second := ClientUpsert(slug, Some(p)), ClientUpsert(slug, Some(q));
    var log := [first, second];
    assert log[..1] == [first] && [first][..0] == [];
    assert Run(s, log[..1]) == Next(s, first);
    assert MeetsClient(Run(s, log[..1]), log[1]);
    ExecAnswersIff(s, log);
  }

  // ─── Views ───

  function InfoAt(s: Control, slug: string): Option<TenantInfo> {
    if slug in s.tenants then s.tenants[slug].info else None
  }

  function ItemAt(s: Control, slug: string, key: ItemKey): Option<Item> {
    if slug in s.tenants && key in s.tenants[slug].items then Some(s.tenants[slug].items[key]) else None
  }

  function ActiveAt(s: Control, ring: string): Option<string> {
    if ring in s.rings then s.rings[ring].active else None
  }

  function RetiringAt(s: Control, ring: string): Option<string> {
    if ring in s.rings then s.rings[ring].retiring else None
  }

  /** Where the directory is, its tenant.yaml is too. */
  predicate SoundAt(s: Control, slug: string) {
    slug in s.tenants ==> s.tenants[slug].info.Some?
  }

  ghost predicate Sound(s: Control) {
    forall slug :: SoundAt(s, slug)
  }

  lemma SoundAtStep(s: Control, m: Mutation, slug: string)
    requires SoundAt(s, slug)
    ensures SoundAt(Next(s, m), slug)
  {}

  lemma {:induction false} SoundAtRun(s: Control, log: seq<Mutation>, slug: string)
    requires SoundAt(s, slug)
    ensures SoundAt(Run(s, log), slug)
  {
    if log != [] {
      SoundAtRun(s, log[..|log| - 1], slug);
      SoundAtStep(Run(s, log[..|log| - 1]), log[|log| - 1], slug);
    }
  }

  /** Logs alone never leave a directory without its tenant.yaml. */
  lemma SoundRun(s: Control, log: seq<Mutation>)
    requires Sound(s)
    ensures Sound(Run(s, log))
  {
    forall slug ensures SoundAt(Run(s, log), slug) {
      SoundAtRun(s, log, slug);
    }
  }

  /** So no tenant upsert of a log ever meets a conflict. */
  lemma NoConflicts(s: Control, log: seq<Mutation>, k: nat)
    requires Sound(s) && k < |log|
    ensures Step(Run(s, log[..k]), log[k]).1 != Failed(Conflict)
  {
    SoundRun(s, log[..k]);
    if log[k].TenantUpsert? && log[k].tenant.Some? {
      assert SoundAt(Run(s, log[..k]), log[k].tenant.value.slug);
    }
  }

  /** Two states are the same when every location answers the same. */
  lemma SameViews(a: Control, b: Control)
    requires forall slug :: slug in a.tenants <==> slug in b.tenants
    requires forall slug :: InfoAt(a, slug) == InfoAt(b, slug)
    requires forall slug, key :: ItemAt(a, slug, key) == ItemAt(b, slug, key)
    requires forall ring :: ring in a.rings <==> ring in b.rings
    requires forall ring :: ActiveAt(a, ring) == ActiveAt(b, ring)
    requires forall ring :: RetiringAt(a, ring) == RetiringAt(b, ring)
    ensures a == b
  {
    assert a.tenants.Keys == b.tenants.Keys;
    forall slug | slug in a.tenants
      ensures a.tenants[slug] == b.tenants[slug]
    {
      var x, y := a.tenants[slug], b.tenants[slug];
      assert InfoAt(a, slug) == InfoAt(b, slug);
      forall key
        ensures key in x.items <==> key in y.items
        ensures key in x.items ==> x.items[key] == y.items[key]
      {
        assert ItemAt(a, slug, key) == ItemAt(b, slug, key);
      }
      assert x.items == y.items;
    }
    assert a.tenants == b.tenants;
    assert a.rings.Keys == b.rings.Keys;
    forall ring | ring in a.rings
      ensures a.rings[ring] == b.rings[ring]
    {
      assert ActiveAt(a, ring) == ActiveAt(b, ring) && RetiringAt(a, ring) == RetiringAt(b, ring);
    }
    assert a.rings == b.rings;
  }
}
