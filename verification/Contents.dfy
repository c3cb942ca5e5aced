/**
 What a log leaves behind, read off its entries: for every file, which entries decide
 what is in it and which of their fields end up where.
 */
module Contents {
  import opened Wrappers
  import opened Strings
  import opened ControlPlane
  import opened Replay

  // ─── One entry ───

  /** The settings an upsert brings; a payload without settings clears them. */
  function DocIn(raw: RawSettings): string {
    match raw
    case Doc(doc) => doc
    case _ => ""
  }

  /** A readable upsert writes id, name and settings to tenant.yaml, at the payload's slug, and keeps the lists. */
  lemma TenantWritten(s: Control, slug: string, p: TenantPayload)
    requires SoundAt(s, p.slug) && !p.settings.BadDoc?
    ensures var items := if p.slug in s.tenants then s.tenants[p.slug].items else map[];
            var dir := TenantDir(Some(TenantInfo(p.id, p.name, DocIn(p.settings))), items);
            Step(s, TenantUpsert(slug, Some(p))) == (s.(tenants := s.tenants[p.slug := dir]), Done)
  {}

  /** A settings update replaces the settings and nothing else; without the tenant it is an error without effect. */
  lemma SettingsWritten(s: Control, slug: string, doc: string)
    ensures Step(s, SettingsUpdate(slug, Some(Doc(doc)))) ==
            if slug in s.tenants && s.tenants[slug].info.Some? then
              var dir := s.tenants[slug];
              var info := TenantInfo(dir.info.value.id, dir.info.value.name, doc);
              (s.(tenants := s.tenants[slug := TenantDir(Some(info), dir.items)]), Done)
            else (s, Failed(NotFound))
  {}

  /** Clients and scopes are written whole, under their own name, and only where the tenant is. */
  lemma ItemWritten(s: Control, slug: string, p: ClientPayload, rec: ScopeRec)
    ensures var client, scope := ClientUpsert(slug, Some(p)), ScopeUpsert(slug, Some(rec));
            if slug in s.tenants then
              var dir := s.tenants[slug];
              && Next(s, client) ==
                 s.(tenants := s.tenants[slug := TenantDir(dir.info, dir.items[ClientKey(p.rec.clientId) := ClientItem(p.rec)])])
              && Step(s, client).1 == (if ClientKey(p.rec.clientId) in dir.items then Blocked else Done)
              && Step(s, scope) ==
                 (s.(tenants := s.tenants[slug := TenantDir(dir.info, dir.items[ScopeKey(rec.name) := ScopeItem(rec)])]), Done)
            else Step(s, client) == (s, Failed(NoDirectory)) == Step(s, scope)
  {}

  /** Deletions take away exactly what they name and succeed whether it was there or not. */
  lemma ItemDeleted(s: Control, slug: string, id: string)
    ensures var client, scope := ClientDelete(slug, Some(id)), ScopeDelete(slug, Some(id));
            && Step(s, client).1 == Done == Step(s, scope).1
            && if slug in s.tenants then
                 var dir := s.tenants[slug];
                 && Next(s, client) == s.(tenants := s.tenants[slug := TenantDir(dir.info, dir.items - {ClientKey(id)})])
                 && Next(s, scope) == s.(tenants := s.tenants[slug := TenantDir(dir.info, dir.items - {ScopeKey(id)})])
               else Next(s, client) == s == Next(s, scope)
    ensures Step(s, TenantDelete(slug)) == (Control(s.tenants - {slug}, s.rings), Done)
  {}

  /** An unreadable payload is an error without effect; a mutation of unknown type is none. */
  lemma Unreadable(s: Control, slug: string, p: TenantPayload, raw: Option<RawSettings>)
    ensures forall m | m in {ClientUpsert(slug, None), ClientDelete(slug, None), TenantUpsert(slug, None),
                             SettingsUpdate(slug, None), ScopeUpsert(slug, None), ScopeDelete(slug, None),
                             KeyRotate(slug, None)} :: Step(s, m) == (s, Failed(BadPayload))
    ensures p.settings.BadDoc? ==> Step(s, TenantUpsert(slug, Some(p))) == (s, Failed(BadPayload))
    ensures raw.Some? && !raw.value.Doc? ==> Step(s, SettingsUpdate(slug, raw)) == (s, Failed(BadPayload))
    ensures Step(s, Unknown(slug)) == (s, Done)
  {}

  /** A rotation writes the keyring of its slug, "" and "global" naming the same one; it never fails. */
  lemma KeysWritten(s: Control, slug: string, p: KeyPayload)
    ensures var (n, out) := Step(s, KeyRotate(slug, Some(p)));
            var ring := if slug == "" then "global" else slug;
            && out == Done && n.tenants == s.tenants && n.rings - {ring} == s.rings - {ring} && ring in n.rings
            && n.rings[ring].active == (if Blank(p.activeJson) then ActiveAt(s, ring) else Some(p.activeJson))
            && n.rings[ring].retiring == (if Blank(p.retiringJson) then None else Some(p.retiringJson))
  {}

  // ─── A whole log ───

  /** An entry that, where the tenant is, writes its settings. */
  predicate Configures(m: Mutation, slug: string) {
    UpsertsTenant(m, slug) || SetsSettings(m, slug)
  }

  function DocOf(m: Mutation): string {
    match m
    case TenantUpsert(_, Some(p)) => DocIn(p.settings)
    case SettingsUpdate(_, Some(raw)) => DocIn(raw)
    case _ => ""
  }

  lemma LastOfEnd(log: seq<Mutation>, p: Mutation -> bool)
    requires log != []
    ensures LastOf(log, p) == if p(log[|log| - 1]) then |log| else LastOf(log[..|log| - 1], p)
  {}

  /** Positions after the last entry that deletes the tenant, upserts it, or writes its settings. */
  function Gone(log: seq<Mutation>, slug: string): (n: nat)
    ensures n <= |log|
  {
    LastOf(log, m => DeletesTenant(m, slug))
  }

  function Put(log: seq<Mutation>, slug: string): (n: nat)
    ensures n <= |log| && (n > 0 ==> UpsertsTenant(log[n - 1], slug))
  {
    LastOf(log, m => UpsertsTenant(m, slug))
  }

  function Configured(log: seq<Mutation>, slug: string): (n: nat)
    ensures n <= |log| && n >= Put(log, slug)
  {
    LastOf(log, m => Configures(m, slug))
  }

  lemma TenantEnd(log: seq<Mutation>, slug: string)
    requires log != []
    ensures var front, m := log[..|log| - 1], log[|log| - 1];
            && Gone(log, slug) == (if DeletesTenant(m, slug) then |log| else Gone(front, slug))
            && Put(log, slug) == (if UpsertsTenant(m, slug) then |log| else Put(front, slug))
            && Configured(log, slug) == (if Configures(m, slug) then |log| else Configured(front, slug))
  {
    LastOfEnd(log, m => DeletesTenant(m, slug));
    LastOfEnd(log, m => UpsertsTenant(m, slug));
    LastOfEnd(log, m => Configures(m, slug));
  }

  /** tenant.yaml after the log: id and name of the last upsert since the last delete, settings of the last entry that wrote them. */
  function InfoOf(s: Control, log: seq<Mutation>, slug: string): Option<TenantInfo> {
    var put, wrote := Put(log, slug), Configured(log, slug);
    if put > Gone(log, slug) then
      Some(TenantInfo(log[put - 1].tenant.value.id, log[put - 1].tenant.value.name, DocOf(log[wrote - 1])))
    else if Gone(log, slug) > 0 || InfoAt(s, slug).None? then None
    else if wrote > 0 then Some(InfoAt(s, slug).value.(settings := DocOf(log[wrote - 1])))
    else InfoAt(s, slug)
  }

  /** What an entry makes of tenant.yaml. */
  function InfoBy(m: Mutation, was: Option<TenantInfo>, slug: string): Option<TenantInfo> {
    if DeletesTenant(m, slug) then None
    else if UpsertsTenant(m, slug) then Some(TenantInfo(m.tenant.value.id, m.tenant.value.name, DocOf(m)))
    else if Configures(m, slug) && was.Some? then Some(was.value.(settings := DocOf(m)))
    else was
  }

  lemma InfoOfEntry(s: Control, m: Mutation, slug: string)
    requires SoundAt(s, slug)
    ensures InfoAt(Next(s, m), slug) == InfoBy(m, InfoAt(s, slug), slug)
  {}

  lemma InfoEnd(s: Control, log: seq<Mutation>, slug: string)
    requires log != []
    ensures InfoOf(s, log, slug) == InfoBy(log[|log| - 1], InfoOf(s, log[..|log| - 1], slug), slug)
  {
    TenantEnd(log, slug);
  }

  lemma {:induction false} InfoOfLog(s: Control, log: seq<Mutation>, slug: string)
    requires SoundAt(s, slug)
    ensures InfoAt(Run(s, log), slug) == InfoOf(s, log, slug)
  {
    if log != [] {
      var front := log[..|log| - 1];
      InfoOfLog(s, front, slug);
      InfoEnd(s, log, slug);
      SoundAtRun(s, front, slug);
      InfoOfEntry(Run(s, front), log[|log| - 1], slug);
    }
  }

  /** The tenant has a directory after the log: its last upsert or delete was an upsert, or it had one all along. */
  predicate PresentAfter(s: Control, log: seq<Mutation>, slug: string) {
    Put(log, slug) > Gone(log, slug) || (Gone(log, slug) == 0 && slug in s.tenants)
  }

  lemma PresenceEnd(s: Control, log: seq<Mutation>, slug: string)
    requires log != []
    ensures var front, m := log[..|log| - 1], log[|log| - 1];
            PresentAfter(s, log, slug) <==> UpsertsTenant(m, slug) || (PresentAfter(s, front, slug) && !DeletesTenant(m, slug))
  {
    TenantEnd(log, slug);
  }

  lemma {:induction false} PresenceOfLog(s: Control, log: seq<Mutation>, slug: string)
    ensures slug in Run(s, log).tenants <==> PresentAfter(s, log, slug)
  {
    if log != [] {
      PresenceOfLog(s, log[..|log| - 1], slug);
      PresenceEnd(s, log, slug);
      PresenceStep(Run(s, log[..|log| - 1]), log[|log| - 1], slug);
    }
  }

  function Erased(log: seq<Mutation>, slug: string, key: ItemKey): (n: nat)
    ensures n <= |log|
  {
    LastOf(log, m => DropsItem(m, slug, key))
  }

  function WrittenBy(log: seq<Mutation>, slug: string, key: ItemKey): (n: nat)
    ensures n <= |log| && (n > 0 ==> PutsItem(log[n - 1], slug, key))
  {
    LastOf(log, m => PutsItem(m, slug, key))
  }

  lemma ItemEnd(log: seq<Mutation>, slug: string, key: ItemKey)
    requires log != []
    ensures var front, m := log[..|log| - 1], log[|log| - 1];
            && Erased(log, slug, key) == (if DropsItem(m, slug, key) then |log| else Erased(front, slug, key))
            && WrittenBy(log, slug, key) == (if PutsItem(m, slug, key) then |log| else WrittenBy(front, slug, key))
  {
    LastOfEnd(log, m => DropsItem(m, slug, key));
    LastOfEnd(log, m => PutsItem(m, slug, key));
  }

  /** A client or scope after the log: what the last entry to write it wrote, if that found the tenant and none erased it since. */
  function ItemOf(s: Control, log: seq<Mutation>, slug: string, key: ItemKey): Option<Item> {
    var put := WrittenBy(log, slug, key);
    if put == 0 && Erased(log, slug, key) == 0 then ItemAt(s, slug, key)
    else if put <= Erased(log, slug, key) || !PresentAfter(s, log[..put - 1], slug) then None
    else if key.ClientKey? then Some(ClientItem(log[put - 1].client.value.rec))
    else Some(ScopeItem(log[put - 1].scope.value))
  }

  /** What an entry makes of the item. */
  function ItemBy(m: Mutation, was: Option<Item>, present: bool, slug: string, key: ItemKey): Option<Item> {
    if DropsItem(m, slug, key) then None
    else if !PutsItem(m, slug, key) then was
    else if !present then None
    else if key.ClientKey? then Some(ClientItem(m.client.value.rec))
    else Some(ScopeItem(m.scope.value))
  }

  lemma ItemOfEntry(s: Control, m: Mutation, slug: string, key: ItemKey)
    ensures ItemAt(Next(s, m), slug, key) == ItemBy(m, ItemAt(s, slug, key), slug in s.tenants, slug, key)
  {}

  lemma ItemKept(s: Control, log: seq<Mutation>, longer: seq<Mutation>, slug: string, key: ItemKey)
    requires log <= longer && WrittenBy(longer, slug, key) == WrittenBy(log, slug, key)
    requires Erased(longer, slug, key) == Erased(log, slug, key)
    ensures ItemOf(s, longer, slug, key) == ItemOf(s, log, slug, key)
  {
    var put := WrittenBy(log, slug, key);
    if put > 0 {
      assert log[..put - 1] == longer[..put - 1] && log[put - 1] == longer[put - 1];
    }
  }

  lemma ItemSpecEnd(s: Control, log: seq<Mutation>, slug: string, key: ItemKey)
    requires log != []
    ensures var front, m := log[..|log| - 1], log[|log| - 1];
            ItemOf(s, log, slug, key) == ItemBy(m, ItemOf(s, front, slug, key), PresentAfter(s, front, slug), slug, key)
  {
    var front, m := log[..|log| - 1], log[|log| - 1];
    ItemEnd(log, slug, key);
    if !DropsItem(m, slug, key) && !PutsItem(m, slug, key) {
      ItemKept(s, front, log, slug, key);
    }
  }

  lemma {:induction false} ItemOfLog(s: Control, log: seq<Mutation>, slug: string, key: ItemKey)
    ensures ItemAt(Run(s, log), slug, key) == ItemOf(s, log, slug, key)
  {
    if log != [] {
      var front := log[..|log| - 1];
      ItemOfLog(s, front, slug, key);
      PresenceOfLog(s, front, slug);
      ItemSpecEnd(s, log, slug, key);
      ItemOfEntry(Run(s, front), log[|log| - 1], slug, key);
    }
  }

  function Rotated(log: seq<Mutation>, ring: string): (n: nat)
    ensures n <= |log| && (n > 0 ==> RotatesRing(log[n - 1], ring))
  {
    LastOf(log, m => RotatesRing(m, ring))
  }

  function Activated(log: seq<Mutation>, ring: string): (n: nat)
    ensures n <= |log| && (n > 0 ==> RotatesRing(log[n - 1], ring))
  {
    LastOf(log, m => WritesActive(m, ring))
  }

  lemma KeysEnd(log: seq<Mutation>, ring: string)
    requires log != []
    ensures var front, m := log[..|log| - 1], log[|log| - 1];
            && Rotated(log, ring) == (if RotatesRing(m, ring) then |log| else Rotated(front, ring))
            && Activated(log, ring) == if WritesActive(m, ring) then |log| else Activated(front, ring)
  {
    LastOfEnd(log, m => RotatesRing(m, ring));
    LastOfEnd(log, m => WritesActive(m, ring));
  }

  function ActiveBy(m: Mutation, was: Option<string>, ring: string): Option<string> {
    if WritesActive(m, ring) then Some(m.keys.value.activeJson) else was
  }

  function RetiringBy(m: Mutation, was: Option<string>, ring: string): Option<string> {
    if !RotatesRing(m, ring) then was
    else if Blank(m.keys.value.retiringJson) then None
    else Some(m.keys.value.retiringJson)
  }

  /** active.json after the log is what the last rotation that was not blank wrote. */
  function ActiveOf(s: Control, log: seq<Mutation>, ring: string): Option<string> {
    if Activated(log, ring) > 0 then Some(log[Activated(log, ring) - 1].keys.value.activeJson) else ActiveAt(s, ring)
  }

  /** retiring.json is what the last rotation said. */
  function RetiringOf(s: Control, log: seq<Mutation>, ring: string): Option<string> {
    if Rotated(log, ring) == 0 then RetiringAt(s, ring)
    else if Blank(log[Rotated(log, ring) - 1].keys.value.retiringJson) then None
    else Some(log[Rotated(log, ring) - 1].keys.value.retiringJson)
  }

  lemma KeysOfEntry(s: Control, m: Mutation, ring: string)
    ensures ActiveAt(Next(s, m), ring) == ActiveBy(m, ActiveAt(s, ring), ring)
    ensures RetiringAt(Next(s, m), ring) == RetiringBy(m, RetiringAt(s, ring), ring)
  {}

  lemma KeysSpecEnd(s: Control, log: seq<Mutation>, ring: string)
    requires log != []
    ensures var front, m := log[..|log| - 1], log[|log| - 1];
            && ActiveOf(s, log, ring) == ActiveBy(m, ActiveOf(s, front, ring), ring)
            && RetiringOf(s, log, ring) == RetiringBy(m, RetiringOf(s, front, ring), ring)
  {
    KeysEnd(log, ring);
  }

  lemma {:induction false} KeysOfLog(s: Control, log: seq<Mutation>, ring: string)
    ensures ActiveAt(Run(s, log), ring) == ActiveOf(s, log, ring)
    ensures RetiringAt(Run(s, log), ring) == RetiringOf(s, log, ring)
  {
    if log != [] {
      var front := log[..|log| - 1];
      KeysOfLog(s, front, ring);
      KeysSpecEnd(s, log, ring);
      KeysOfEntry(Run(s, front), log[|log| - 1], ring);
    }
  }
}
