/**
 Snapshot-then-replay.

 FSM.Snapshot copies nothing: Persist walks the live directories later, while
 Raft goes on applying entries.  So a snapshot taken at log index i holds, for
 each location, the value of some moment between i and the end of the log, and
 after Restore the entries from i on are applied a second time to values that
 may already contain their effect.

 Here `s` is the state at index i and `seg` the entries applied after it.
 */
module Replay {
  import opened Wrappers
  import opened Strings
  import opened ControlPlane

  // ─── What a lazily read snapshot may contain ───

  function Moment(s: Control, seg: seq<Mutation>, j: nat): Control
    requires j <= |seg|
  {
    Run(s, seg[..j])
  }

  ghost predicate PresentFrom(s: Control, seg: seq<Mutation>, y: Control, slug: string, j: nat) {
    j <= |seg| && (slug in y.tenants <==> slug in Moment(s, seg, j).tenants)
  }

  ghost predicate InfoFrom(s: Control, seg: seq<Mutation>, y: Control, slug: string, j: nat) {
    j <= |seg| && slug in Moment(s, seg, j).tenants && InfoAt(y, slug) == InfoAt(Moment(s, seg, j), slug)
  }

  ghost predicate ItemFrom(s: Control, seg: seq<Mutation>, y: Control, slug: string, key: ItemKey, j: nat) {
    j <= |seg| && ItemAt(y, slug, key) == ItemAt(Moment(s, seg, j), slug, key)
  }

  ghost predicate ItemSnap(s: Control, seg: seq<Mutation>, y: Control, slug: string, key: ItemKey) {
    exists j: nat :: ItemFrom(s, seg, y, slug, key, j)
  }

  /**
   No tenant.yaml in a directory that is there: Create makes the directory before it
   writes the file, and Delete may remove the file before the directory.
   */
  ghost predicate BareFrom(s: Control, seg: seq<Mutation>, y: Control, slug: string, j: nat) {
    && j < |seg| && InfoAt(y, slug) == None
    && (slug in Moment(s, seg, j).tenants ==> DeletesTenant(seg[j], slug))
    && (slug !in Moment(s, seg, j).tenants ==> UpsertsTenant(seg[j], slug))
  }

  /** What an empty tenant.yaml reads as. */
  const BLANK := TenantInfo("", "", "")

  /** An entry that writes tenant.yaml: os.WriteFile truncates the file and then writes it. */
  predicate RewritesInfo(x: Control, m: Mutation, slug: string) {
    || (UpsertsTenant(m, slug) && SoundAt(x, slug))
    || (SetsSettings(m, slug) && InfoAt(x, slug).Some?)
  }

  /** An entry that writes clients.yaml or scopes.yaml; a deletion only does when it finds its entry. */
  predicate RewritesList(x: Control, m: Mutation, slug: string, clients: bool) {
    && m.slug == slug && slug in x.tenants
    && (|| (Written(m).Some? && KeyOf(Written(m).value).ClientKey? == clients)
        || (clients && m.ClientDelete? && m.id.Some? && ItemAt(x, slug, ClientKey(m.id.value)).Some?)
        || (!clients && m.ScopeDelete? && m.id.Some? && ItemAt(x, slug, ScopeKey(m.id.value)).Some?))
  }

  /** tenant.yaml caught empty. */
  ghost predicate BlankFrom(s: Control, seg: seq<Mutation>, y: Control, slug: string, j: nat) {
    j < |seg| && InfoAt(y, slug) == Some(BLANK) && RewritesInfo(Moment(s, seg, j), seg[j], slug)
  }

  /** The item's file caught empty. */
  ghost predicate EmptiedFrom(s: Control, seg: seq<Mutation>, y: Control, slug: string, key: ItemKey, j: nat) {
    j < |seg| && ItemAt(y, slug, key) == None && RewritesList(Moment(s, seg, j), seg[j], slug, key.ClientKey?)
  }

  ghost predicate InfoRead(s: Control, seg: seq<Mutation>, y: Control, slug: string, j: nat) {
    InfoFrom(s, seg, y, slug, j) || BareFrom(s, seg, y, slug, j) || BlankFrom(s, seg, y, slug, j)
  }

  ghost predicate ItemRead(s: Control, seg: seq<Mutation>, y: Control, slug: string, key: ItemKey) {
    ItemSnap(s, seg, y, slug, key) || exists j: nat :: EmptiedFrom(s, seg, y, slug, key, j)
  }

  /** A tenant directory is listed at one moment and each file in it is read at a moment of its own. */
  ghost predicate TenantSnap(s: Control, seg: seq<Mutation>, y: Control, slug: string) {
    && (exists j: nat :: PresentFrom(s, seg, y, slug, j))
    && (slug in y.tenants ==> exists j: nat :: InfoRead(s, seg, y, slug, j))
    && (slug in y.tenants ==> forall key :: ItemRead(s, seg, y, slug, key))
  }

  ghost predicate RingFrom(s: Control, seg: seq<Mutation>, y: Control, ring: string, j: nat) {
    j <= |seg| && (ring in y.rings <==> ring in Moment(s, seg, j).rings)
  }

  predicate RotatesRing(m: Mutation, ring: string) {
    m.KeyRotate? && m.keys.Some? && RingOf(m.slug) == ring
  }

  predicate WritesActive(m: Mutation, ring: string) {
    RotatesRing(m, ring) && !Blank(m.keys.value.activeJson)
  }

  /**
   A value of some moment, or nothing: atomicWrite removes the old file before it
   renames the new one into place, and the walk may list the directory in between.
   */
  ghost predicate ActiveFrom(s: Control, seg: seq<Mutation>, y: Control, ring: string, j: nat) {
    || (j <= |seg| && ActiveAt(y, ring) == ActiveAt(Moment(s, seg, j), ring))
    || (j < |seg| && WritesActive(seg[j], ring) && ActiveAt(y, ring) == None)
  }

  ghost predicate RetiringFrom(s: Control, seg: seq<Mutation>, y: Control, ring: string, j: nat) {
    || (j <= |seg| && RetiringAt(y, ring) == RetiringAt(Moment(s, seg, j), ring))
    || (j < |seg| && RotatesRing(seg[j], ring) && RetiringAt(y, ring) == None)
  }

  ghost predicate RingSnap(s: Control, seg: seq<Mutation>, y: Control, ring: string) {
    && (exists j: nat :: RingFrom(s, seg, y, ring, j))
    && (ring in y.rings ==> exists j: nat :: ActiveFrom(s, seg, y, ring, j))
    && (ring in y.rings ==> exists j: nat :: RetiringFrom(s, seg, y, ring, j))
  }

  /** `y` may be what Restore rebuilds from a snapshot whose index precedes `seg`. */
  ghost predicate LiveSnapshot(s: Control, seg: seq<Mutation>, y: Control) {
    && (forall slug :: TenantSnap(s, seg, y, slug))
    && (forall ring :: RingSnap(s, seg, y, ring))
  }

  // ─── Which entries bear on which location ───

  predicate UpsertsTenant(m: Mutation, slug: string) {
    m.TenantUpsert? && m.tenant.Some? && !m.tenant.value.settings.BadDoc? && m.tenant.value.slug == slug
  }

  predicate DeletesTenant(m: Mutation, slug: string) {
    m.TenantDelete? && m.slug == slug
  }

  predicate TenantOp(m: Mutation, slug: string) {
    UpsertsTenant(m, slug) || DeletesTenant(m, slug)
  }

  predicate SetsSettings(m: Mutation, slug: string) {
    m.SettingsUpdate? && m.slug == slug && m.settings.Some? && m.settings.value.Doc?
  }

  /** The item a client or scope upsert writes, if that is what `m` is. */
  function Written(m: Mutation): Option<Item> {
    match m
    case ClientUpsert(_, Some(p)) => Some(ClientItem(p.rec))
    case ScopeUpsert(_, Some(rec)) => Some(ScopeItem(rec))
    case _ => None
  }

  predicate PutsItem(m: Mutation, slug: string, key: ItemKey) {
    Written(m).Some? && m.slug == slug && KeyOf(Written(m).value) == key
  }

  predicate DropsItem(m: Mutation, slug: string, key: ItemKey) {
    || DeletesTenant(m, slug)
    || (m.ClientDelete? && m.slug == slug && m.id.Some? && ClientKey(m.id.value) == key)
    || (m.ScopeDelete? && m.slug == slug && m.id.Some? && ScopeKey(m.id.value) == key)
  }

  predicate TouchesItem(m: Mutation, slug: string, key: ItemKey) {
    PutsItem(m, slug, key) || DropsItem(m, slug, key)
  }

  /** Position after the last entry of `seg` that satisfies `p`; 0 when there is none. */
  function LastOf(seg: seq<Mutation>, p: Mutation -> bool): (n: nat)
    ensures n <= |seg|
    ensures n > 0 ==> p(seg[n - 1])
    ensures forall k | n <= k < |seg| :: !p(seg[k])
  {
    if seg == [] then 0
    else if p(seg[|seg| - 1]) then |seg|
    else LastOf(seg[..|seg| - 1], p)
  }

  ghost predicate Untouched(seg: seq<Mutation>, p: Mutation -> bool) {
    forall k | 0 <= k < |seg| :: !p(seg[k])
  }

  // ─── What one entry does to one location ───

  lemma PresenceStep(s: Control, m: Mutation, slug: string)
    ensures slug in Next(s, m).tenants <==> UpsertsTenant(m, slug) || (slug in s.tenants && !DeletesTenant(m, slug))
  {}

  lemma ItemStep(s: Control, m: Mutation, slug: string, key: ItemKey)
    ensures ItemAt(Next(s, m), slug, key) ==
            if PutsItem(m, slug, key) then (if slug in s.tenants then Some(Written(m).value) else None)
            else if DropsItem(m, slug, key) then None
            else ItemAt(s, slug, key)
  {}

  lemma InfoStep(s: Control, m: Mutation, slug: string)
    requires !TenantOp(m, slug)
    ensures InfoAt(Next(s, m), slug) ==
            if SetsSettings(m, slug) && InfoAt(s, slug).Some?
            then Some(InfoAt(s, slug).value.(settings := m.settings.value.doc))
            else InfoAt(s, slug)
  {}

  // ─── Frames: entries that do not bear on a location leave it alone ───

  lemma {:induction false} ItemFrame(s: Control, seg: seq<Mutation>, slug: string, key: ItemKey)
    requires Untouched(seg, m => TouchesItem(m, slug, key))
    ensures ItemAt(Run(s, seg), slug, key) == ItemAt(s, slug, key)
  {
    if seg != [] {
      ItemFrame(s, seg[..|seg| - 1], slug, key);
      assert !TouchesItem(seg[|seg| - 1], slug, key);
      ItemStep(Run(s, seg[..|seg| - 1]), seg[|seg| - 1], slug, key);
    }
  }

  lemma {:induction false} PresenceFrame(s: Control, seg: seq<Mutation>, slug: string)
    requires Untouched(seg, m => TenantOp(m, slug))
    ensures slug in Run(s, seg).tenants <==> slug in s.tenants
  {
    if seg != [] {
      PresenceFrame(s, seg[..|seg| - 1], slug);
      assert !TenantOp(seg[|seg| - 1], slug);
      PresenceStep(Run(s, seg[..|seg| - 1]), seg[|seg| - 1], slug);
    }
  }

  lemma {:induction false} PresenceGrows(s: Control, seg: seq<Mutation>, slug: string)
    requires Untouched(seg, m => DeletesTenant(m, slug))
    requires slug in s.tenants
    ensures slug in Run(s, seg).tenants
  {
    if seg != [] {
      PresenceGrows(s, seg[..|seg| - 1], slug);
      assert !DeletesTenant(seg[|seg| - 1], slug);
      PresenceStep(Run(s, seg[..|seg| - 1]), seg[|seg| - 1], slug);
    }
  }

  lemma {:induction false} InfoFrame(s: Control, seg: seq<Mutation>, slug: string)
    requires Untouched(seg, m => TenantOp(m, slug) || SetsSettings(m, slug))
    ensures InfoAt(Run(s, seg), slug) == InfoAt(s, slug)
  {
    if seg != [] {
      InfoFrame(s, seg[..|seg| - 1], slug);
      assert !(TenantOp(seg[|seg| - 1], slug) || SetsSettings(seg[|seg| - 1], slug));
      InfoStep(Run(s, seg[..|seg| - 1]), seg[|seg| - 1], slug);
    }
  }

  /** Settings updates keep the tenant's id and name. */
  lemma {:induction false} IdentityFrame(s: Control, seg: seq<Mutation>, slug: string)
    requires Untouched(seg, m => TenantOp(m, slug))
    ensures InfoAt(Run(s, seg), slug).Some? <==> InfoAt(s, slug).Some?
    ensures InfoAt(s, slug).Some? ==>
              InfoAt(Run(s, seg), slug) == Some(InfoAt(s, slug).value.(settings := InfoAt(Run(s, seg), slug).value.settings))
  {
    if seg != [] {
      IdentityFrame(s, seg[..|seg| - 1], slug);
      assert !TenantOp(seg[|seg| - 1], slug);
      InfoStep(Run(s, seg[..|seg| - 1]), seg[|seg| - 1], slug);
    }
  }

  lemma {:induction false} RingFrame(s: Control, seg: seq<Mutation>, ring: string)
    requires Untouched(seg, m => RotatesRing(m, ring))
    ensures ring in Run(s, seg).rings <==> ring in s.rings
    ensures RetiringAt(Run(s, seg), ring) == RetiringAt(s, ring)
  {
    if seg != [] {
      RingFrame(s, seg[..|seg| - 1], ring);
      assert !RotatesRing(seg[|seg| - 1], ring);
    }
  }

  lemma {:induction false} ActiveFrame(s: Control, seg: seq<Mutation>, ring: string)
    requires Untouched(seg, m => WritesActive(m, ring))
    ensures ActiveAt(Run(s, seg), ring) == ActiveAt(s, ring)
  {
    if seg != [] {
      ActiveFrame(s, seg[..|seg| - 1], ring);
      assert !WritesActive(seg[|seg| - 1], ring);
    }
  }

  lemma {:induction false} RingGrows(s: Control, seg: seq<Mutation>, ring: string)
    ensures ring in s.rings ==> ring in Run(s, seg).rings
  {
    if seg != [] {
      RingGrows(s, seg[..|seg| - 1], ring);
    }
  }

  /** A run is its part up to n followed by the rest. */
  lemma SplitRun(s: Control, seg: seq<Mutation>, n: nat)
    requires n <= |seg|
    ensures Run(s, seg) == Run(Run(s, seg[..n]), seg[n..])
  {
    assert seg == seg[..n] + seg[n..];
    RunConcat(s, seg[..n], seg[n..]);
  }

  // ─── One location at a time ───

  lemma PresenceByLast(s: Control, seg: seq<Mutation>, slug: string)
    ensures var n := LastOf(seg, m => TenantOp(m, slug));
            slug in Run(s, seg).tenants <==> if n > 0 then UpsertsTenant(seg[n - 1], slug) else slug in s.tenants
  {
    var n := LastOf(seg, m => TenantOp(m, slug));
    if n == 0 {
      PresenceFrame(s, seg, slug);
    } else {
      SplitRun(s, seg, n);
      PresenceFrame(Run(s, seg[..n]), seg[n..], slug);
      RunPrefix(s, seg, n - 1);
      PresenceStep(Run(s, seg[..n - 1]), seg[n - 1], slug);
    }
  }

  /** Whatever the start, the last tenant upsert or delete decides whether the directory is there. */
  lemma PresenceDecided(a: Control, b: Control, seg: seq<Mutation>, slug: string)
    requires LastOf(seg, m => TenantOp(m, slug)) > 0 || (slug in a.tenants <==> slug in b.tenants)
    ensures slug in Run(a, seg).tenants <==> slug in Run(b, seg).tenants
  {
    PresenceByLast(a, seg, slug);
    PresenceByLast(b, seg, slug);
  }

  lemma UntouchedFront(seg: seq<Mutation>, p: nat, slug: string)
    requires 0 < p <= |seg| && LastOf(seg[..p], m => TenantOp(m, slug)) == 0
    ensures Untouched(seg[..p - 1], m => TenantOp(m, slug))
  {}

  /**
   A write that failed because the tenant was missing, that a replay over a later
   state would carry out, and that nothing afterwards undoes: the tenant is missing
   at the snapshot index and still when the item is last written, yet exists at the end.
   */
  predicate OrphanWrite(s: Control, seg: seq<Mutation>, slug: string, key: ItemKey) {
    var p := LastOf(seg, m => TouchesItem(m, slug, key));
    && p > 0
    && PutsItem(seg[p - 1], slug, key)
    && slug !in s.tenants
    && LastOf(seg[..p], m => TenantOp(m, slug)) == 0
    && slug in Run(s, seg).tenants
  }

  /**
   A tenant that the log creates and never deletes: a snapshot may have caught its directory
   without tenant.yaml, and nothing repairs that.
   */
  ghost predicate BareCreate(s: Control, seg: seq<Mutation>, slug: string) {
    && slug !in s.tenants
    && (exists d :: 0 <= d < |seg| && UpsertsTenant(seg[d], slug))
    && Untouched(seg, m => DeletesTenant(m, slug))
  }

  ghost predicate NoBareCreate(s: Control, seg: seq<Mutation>) {
    forall slug :: !BareCreate(s, seg, slug)
  }

  /**
   An item the log does not touch, in a file the log rewrites: a snapshot that caught the file empty
   loses the item for good.
   */
  ghost predicate TornItem(s: Control, seg: seq<Mutation>, slug: string, key: ItemKey) {
    && ItemAt(s, slug, key).Some?
    && LastOf(seg, m => TouchesItem(m, slug, key)) == 0
    && exists j :: 0 <= j < |seg| && RewritesList(Moment(s, seg, j), seg[j], slug, key.ClientKey?)
  }

  /**
   A tenant whose settings the log updates while it neither upserts nor deletes it: a snapshot that caught
   tenant.yaml empty loses its id and name.
   */
  ghost predicate TornInfo(s: Control, seg: seq<Mutation>, slug: string) {
    && slug in s.tenants && s.tenants[slug].info.Some?
    && (s.tenants[slug].info.value.id != "" || s.tenants[slug].info.value.name != "")
    && Untouched(seg, m => TenantOp(m, slug))
    && exists j :: 0 <= j < |seg| && SetsSettings(seg[j], slug)
  }

  ghost predicate NoTornFile(s: Control, seg: seq<Mutation>) {
    && (forall slug :: !TornInfo(s, seg, slug))
    && (forall slug, key :: !TornItem(s, seg, slug, key))
  }

  ghost predicate NoOrphanWrite(s: Control, seg: seq<Mutation>) {
    forall slug, key :: !OrphanWrite(s, seg, slug, key)
  }

  lemma ItemNeverTouched(s: Control, seg: seq<Mutation>, slug: string, key: ItemKey)
    requires LastOf(seg, m => TouchesItem(m, slug, key)) == 0
    ensures ItemAt(Run(s, seg), slug, key) == ItemAt(s, slug, key)
  {
    SplitRun(s, seg, 0);
    assert seg[..0] == [];
    ItemFrame(s, seg[0..], slug, key);
  }

  lemma ItemLastTouched(s: Control, seg: seq<Mutation>, slug: string, key: ItemKey, p: nat)
    requires 0 < p <= |seg| && Untouched(seg[p..], m => TouchesItem(m, slug, key))
    ensures ItemAt(Run(s, seg), slug, key) == ItemAt(Next(Run(s, seg[..p - 1]), seg[p - 1]), slug, key)
  {
    SplitRun(s, seg, p);
    ItemFrame(Run(s, seg[..p]), seg[p..], slug, key);
    RunPrefix(s, seg, p - 1);
  }

  /** The value of an item after its last write. */
  lemma ItemDecided(s: Control, seg: seq<Mutation>, slug: string, key: ItemKey)
    ensures var p := LastOf(seg, m => TouchesItem(m, slug, key));
            && (p == 0 ==> ItemAt(Run(s, seg), slug, key) == ItemAt(s, slug, key))
            && (p > 0 && DropsItem(seg[p - 1], slug, key) ==> ItemAt(Run(s, seg), slug, key) == None)
            && (p > 0 && PutsItem(seg[p - 1], slug, key) ==>
                  ItemAt(Run(s, seg), slug, key) ==
                  if slug in Run(s, seg[..p - 1]).tenants then Written(seg[p - 1]) else None)
  {
    var p := LastOf(seg, m => TouchesItem(m, slug, key));
    if p == 0 {
      ItemNeverTouched(s, seg, slug, key);
    } else {
      ItemLastTouched(s, seg, slug, key, p);
      ItemStep(Run(s, seg[..p - 1]), seg[p - 1], slug, key);
    }
  }

  /** Moments differ from the end only by entries inside `seg`. */
  lemma MomentTenantGone(s: Control, seg: seq<Mutation>, slug: string, j: nat)
    requires j <= |seg|
    requires slug in s.tenants && slug !in Moment(s, seg, j).tenants
    ensures exists d :: 0 <= d < j && DeletesTenant(seg[d], slug)
  {
    if Untouched(seg[..j], m => DeletesTenant(m, slug)) {
      PresenceGrows(s, seg[..j], slug);
    } else {
      var d :| 0 <= d < j && DeletesTenant(seg[..j][d], slug);
      assert DeletesTenant(seg[d], slug);
    }
  }

  lemma {:induction false} MomentTenantCame(s: Control, seg: seq<Mutation>, slug: string, j: nat)
    requires j <= |seg|
    requires slug !in s.tenants && slug in Moment(s, seg, j).tenants
    ensures exists d :: 0 <= d < j && UpsertsTenant(seg[d], slug)
  {
    if slug in s.tenants || j == 0 {
    } else {
      RunPrefix(s, seg, j - 1);
      PresenceStep(Run(s, seg[..j - 1]), seg[j - 1], slug);
      if !UpsertsTenant(seg[j - 1], slug) {
        MomentTenantCame(s, seg, slug, j - 1);
      }
    }
  }

  /** At the last write of an item the tenant is there in the replay iff it was there in the run. */
  lemma PresenceAtLastPut(s: Control, seg: seq<Mutation>, y: Control, slug: string, key: ItemKey)
    requires TenantSnap(s, seg, y, slug)
    requires !OrphanWrite(s, seg, slug, key)
    requires var p := LastOf(seg, m => TouchesItem(m, slug, key)); p > 0 && PutsItem(seg[p - 1], slug, key)
    ensures var p := LastOf(seg, m => TouchesItem(m, slug, key));
            slug in Run(y, seg[..p - 1]).tenants <==> slug in Run(s, seg[..p - 1]).tenants
  {
    var p := LastOf(seg, m => TouchesItem(m, slug, key));
    var front := seg[..p - 1];
    if LastOf(front, m => TenantOp(m, slug)) == 0 && slug in s.tenants && slug !in y.tenants {
      DeletedMeansTouched(s, seg, y, slug, key);
    }
    if LastOf(front, m => TenantOp(m, slug)) == 0 && slug !in s.tenants && slug in y.tenants {
      var e: nat :| PresentFrom(s, seg, y, slug, e);
      MomentTenantCame(s, seg, slug, e);
      var d :| 0 <= d < e && UpsertsTenant(seg[d], slug);
      LateUpsert(seg, p, d, slug);
      LastOfFront(seg, p, slug);
      OrphanEnds(s, seg, slug, key, p, d);
    }
    PresenceDecided(s, y, front, slug);
  }

  lemma DeletedMeansTouched(s: Control, seg: seq<Mutation>, y: Control, slug: string, key: ItemKey)
    requires TenantSnap(s, seg, y, slug)
    requires slug in s.tenants && slug !in y.tenants
    requires var p := LastOf(seg, m => TouchesItem(m, slug, key)); p > 0 && PutsItem(seg[p - 1], slug, key)
    ensures LastOf(seg[..LastOf(seg, m => TouchesItem(m, slug, key)) - 1], m => TenantOp(m, slug)) > 0
  {
    var p := LastOf(seg, m => TouchesItem(m, slug, key));
    var e: nat :| PresentFrom(s, seg, y, slug, e);
    MomentTenantGone(s, seg, slug, e);
    var d :| 0 <= d < e && DeletesTenant(seg[d], slug);
    assert TouchesItem(seg[d], slug, key);
    assert seg[..p - 1][d] == seg[d];
  }

  /** The part of a snapshot that a torn file would harm was read whole. */
  ghost predicate ItemWhole(s: Control, seg: seq<Mutation>, y: Control, slug: string, key: ItemKey) {
    slug !in y.tenants || !TornItem(s, seg, slug, key) || ItemSnap(s, seg, y, slug, key)
  }

  lemma ItemUntouchedReplay(s: Control, seg: seq<Mutation>, y: Control, slug: string, key: ItemKey)
    requires TenantSnap(s, seg, y, slug) && ItemWhole(s, seg, y, slug, key)
    requires LastOf(seg, m => TouchesItem(m, slug, key)) == 0
    ensures ItemAt(y, slug, key) == ItemAt(s, slug, key)
  {
    var e: nat :| PresentFrom(s, seg, y, slug, e);
    if slug !in y.tenants {
      assert ItemFrom(s, seg, y, slug, key, e);
    }
    if ItemSnap(s, seg, y, slug, key) {
      var j: nat :| ItemFrom(s, seg, y, slug, key, j);
      ItemFrame(s, seg[..j], slug, key);
    } else {
      assert ItemRead(s, seg, y, slug, key);
      var j: nat :| EmptiedFrom(s, seg, y, slug, key, j);
    }
  }

  lemma ItemReplay(s: Control, seg: seq<Mutation>, y: Control, slug: string, key: ItemKey)
    requires TenantSnap(s, seg, y, slug)
    requires !OrphanWrite(s, seg, slug, key) && ItemWhole(s, seg, y, slug, key)
    ensures ItemAt(Run(y, seg), slug, key) == ItemAt(Run(s, seg), slug, key)
  {
    var p := LastOf(seg, m => TouchesItem(m, slug, key));
    ItemDecided(s, seg, slug, key);
    ItemDecided(y, seg, slug, key);
    if p == 0 {
      ItemUntouchedReplay(s, seg, y, slug, key);
    } else if PutsItem(seg[p - 1], slug, key) {
      PresenceAtLastPut(s, seg, y, slug, key);
    }
  }

  lemma LateUpsert(seg: seq<Mutation>, p: nat, d: nat, slug: string)
    requires 0 < p <= |seg| && d < |seg|
    requires LastOf(seg[..p - 1], m => TenantOp(m, slug)) == 0
    requires UpsertsTenant(seg[d], slug) && Written(seg[p - 1]).Some?
    ensures p <= d
  {}

  lemma LastOfFront(seg: seq<Mutation>, p: nat, slug: string)
    requires 0 < p <= |seg| && !TenantOp(seg[p - 1], slug)
    requires LastOf(seg[..p - 1], m => TenantOp(m, slug)) == 0
    ensures LastOf(seg[..p], m => TenantOp(m, slug)) == 0
  {}

  lemma OrphanEnds(s: Control, seg: seq<Mutation>, slug: string, key: ItemKey, p: nat, d: nat)
    requires p == LastOf(seg, m => TouchesItem(m, slug, key)) && 0 < p <= d < |seg|
    requires UpsertsTenant(seg[d], slug)
    ensures slug in Run(s, seg).tenants
  {}

  lemma PresenceReplay(s: Control, seg: seq<Mutation>, y: Control, slug: string)
    requires TenantSnap(s, seg, y, slug)
    ensures slug in Run(y, seg).tenants <==> slug in Run(s, seg).tenants
  {
    var e: nat :| PresentFrom(s, seg, y, slug, e);
    if LastOf(seg, m => TenantOp(m, slug)) == 0 {
      PresenceFrame(s, seg[..e], slug);
    }
    PresenceDecided(s, y, seg, slug);
  }

  /** A full write of tenant.yaml does not depend on what was there. */
  lemma FullWrite(a: Control, b: Control, m: Mutation, slug: string)
    requires TenantOp(m, slug)
    requires UpsertsTenant(m, slug) ==> SoundAt(a, slug) && SoundAt(b, slug)
    ensures InfoAt(Next(a, m), slug) == InfoAt(Next(b, m), slug)
  {}

  /** After a deletion nothing is left of a bare directory. */
  lemma SoundAfterDelete(y: Control, seg: seq<Mutation>, slug: string, d: nat)
    requires d < |seg| && DeletesTenant(seg[d], slug)
    ensures SoundAt(Run(y, seg), slug)
  {
    RunPrefix(y, seg, d);
    SplitRun(y, seg, d + 1);
    SoundAtRun(Run(y, seg[..d + 1]), seg[d + 1..], slug);
  }

  /** A bare directory the log does not delete is one it creates. */
  lemma BareIsDeletedOrCreated(s: Control, seg: seq<Mutation>, y: Control, slug: string)
    requires Sound(s) && TenantSnap(s, seg, y, slug) && !SoundAt(y, slug)
    ensures BareCreate(s, seg, slug) || exists d :: 0 <= d < |seg| && DeletesTenant(seg[d], slug)
    ensures exists d :: 0 <= d < |seg| && TenantOp(seg[d], slug)
  {
    var j: nat :| InfoRead(s, seg, y, slug, j);
    if InfoFrom(s, seg, y, slug, j) {
      SoundAtRun(s, seg[..j], slug);
    } else if slug !in Moment(s, seg, j).tenants && slug in s.tenants {
      MomentTenantGone(s, seg, slug, j);
    }
  }

  /** The last full write of tenant.yaml meets no bare directory in the replay. */
  lemma SoundAtLastWrite(s: Control, seg: seq<Mutation>, y: Control, slug: string, n: nat)
    requires Sound(s) && TenantSnap(s, seg, y, slug) && (SoundAt(y, slug) || !BareCreate(s, seg, slug))
    requires n == LastOf(seg, m => TenantOp(m, slug)) && n > 0 && UpsertsTenant(seg[n - 1], slug)
    ensures SoundAt(Run(y, seg[..n - 1]), slug)
  {
    if SoundAt(y, slug) {
      SoundAtRun(y, seg[..n - 1], slug);
    } else {
      BareIsDeletedOrCreated(s, seg, y, slug);
      var d :| 0 <= d < |seg| && DeletesTenant(seg[d], slug);
      assert TenantOp(seg[d], slug) && d < n - 1;
      SoundAfterDelete(y, seg[..n - 1], slug, d);
    }
  }

  ghost predicate InfoWhole(s: Control, seg: seq<Mutation>, y: Control, slug: string) {
    slug !in y.tenants || !TornInfo(s, seg, slug) || exists j: nat :: InfoFrom(s, seg, y, slug, j)
  }

  /** tenant.yaml after its last full write or, failing one, its last settings write. */
  lemma InfoReplay(s: Control, seg: seq<Mutation>, y: Control, slug: string)
    requires Sound(s) && TenantSnap(s, seg, y, slug)
    requires (SoundAt(y, slug) || !BareCreate(s, seg, slug)) && InfoWhole(s, seg, y, slug)
    ensures InfoAt(Run(y, seg), slug) == InfoAt(Run(s, seg), slug)
  {
    var n := LastOf(seg, m => TenantOp(m, slug));
    if n > 0 {
      if UpsertsTenant(seg[n - 1], slug) {
        SoundAtRun(s, seg[..n - 1], slug);
        SoundAtLastWrite(s, seg, y, slug, n);
      }
      FullWrite(Run(s, seg[..n - 1]), Run(y, seg[..n - 1]), seg[n - 1], slug);
      RunPrefix(s, seg, n - 1);
      RunPrefix(y, seg, n - 1);
      SplitRun(s, seg, n);
      SplitRun(y, seg, n);
      assert Untouched(seg[n..], m => TenantOp(m, slug));
      InfoAlike(Run(s, seg[..n]), Run(y, seg[..n]), seg[n..], slug);
    } else {
      assert Untouched(seg, m => TenantOp(m, slug));
      InfoReplayFramed(s, seg, y, slug);
    }
  }

  lemma {:induction false} InfoAlike(a: Control, b: Control, seg: seq<Mutation>, slug: string)
    requires Untouched(seg, m => TenantOp(m, slug))
    requires InfoAt(a, slug) == InfoAt(b, slug)
    ensures InfoAt(Run(a, seg), slug) == InfoAt(Run(b, seg), slug)
  {
    if seg != [] {
      InfoAlike(a, b, seg[..|seg| - 1], slug);
      assert !TenantOp(seg[|seg| - 1], slug);
      InfoStep(Run(a, seg[..|seg| - 1]), seg[|seg| - 1], slug);
      InfoStep(Run(b, seg[..|seg| - 1]), seg[|seg| - 1], slug);
    }
  }

  /** With no tenant upsert or delete, tenant.yaml keeps its id and name and has the last settings written. */
  lemma InfoDecided(s: Control, seg: seq<Mutation>, slug: string)
    requires Untouched(seg, m => TenantOp(m, slug))
    ensures var q := LastOf(seg, m => SetsSettings(m, slug));
            InfoAt(Run(s, seg), slug) ==
            if q > 0 && InfoAt(s, slug).Some?
            then Some(InfoAt(s, slug).value.(settings := seg[q - 1].settings.value.doc))
            else InfoAt(s, slug)
  {
    var q := LastOf(seg, m => SetsSettings(m, slug));
    SplitRun(s, seg, q);
    assert Untouched(seg[q..], m => TenantOp(m, slug) || SetsSettings(m, slug));
    InfoFrame(Run(s, seg[..q]), seg[q..], slug);
    if q > 0 {
      RunPrefix(s, seg, q - 1);
      IdentityFrame(s, seg[..q - 1], slug);
      assert !TenantOp(seg[q - 1], slug);
      InfoStep(Run(s, seg[..q - 1]), seg[q - 1], slug);
    } else {
      assert seg[..q] == [];
    }
  }

  /** Without tenant upsert or delete, a directory that was read has the id and name it had, whatever its settings. */
  lemma IdentityRead(s: Control, seg: seq<Mutation>, y: Control, slug: string, j: nat)
    requires Untouched(seg, m => TenantOp(m, slug))
    requires InfoFrom(s, seg, y, slug, j)
    ensures InfoAt(y, slug).Some? <==> InfoAt(s, slug).Some?
    ensures InfoAt(s, slug).Some? ==> InfoAt(y, slug) == Some(InfoAt(s, slug).value.(settings := InfoAt(y, slug).value.settings))
    ensures LastOf(seg, m => SetsSettings(m, slug)) == 0 ==> InfoAt(y, slug) == InfoAt(s, slug)
  {
    IdentityFrame(s, seg[..j], slug);
    if LastOf(seg, m => SetsSettings(m, slug)) == 0 {
      InfoFrame(s, seg[..j], slug);
    }
  }

  /** A blank tenant.yaml comes from a settings update, and is harmless where id and name were blank. */
  lemma BlankRead(s: Control, seg: seq<Mutation>, y: Control, slug: string, j: nat)
    requires Untouched(seg, m => TenantOp(m, slug)) && !TornInfo(s, seg, slug)
    requires BlankFrom(s, seg, y, slug, j)
    ensures LastOf(seg, m => SetsSettings(m, slug)) > 0
    ensures InfoAt(s, slug).Some? && InfoAt(s, slug).value == BLANK.(settings := InfoAt(s, slug).value.settings)
  {
    IdentityFrame(s, seg[..j], slug);
    assert !TenantOp(seg[j], slug) && SetsSettings(seg[j], slug);
  }

  lemma InfoReplayFramed(s: Control, seg: seq<Mutation>, y: Control, slug: string)
    requires Sound(s) && TenantSnap(s, seg, y, slug) && InfoWhole(s, seg, y, slug)
    requires Untouched(seg, m => TenantOp(m, slug))
    ensures InfoAt(Run(y, seg), slug) == InfoAt(Run(s, seg), slug)
  {
    var e: nat :| PresentFrom(s, seg, y, slug, e);
    PresenceFrame(s, seg[..e], slug);
    InfoDecided(s, seg, slug);
    InfoDecided(y, seg, slug);
    if slug in y.tenants {
      if i: nat :| InfoFrom(s, seg, y, slug, i) {
        IdentityRead(s, seg, y, slug, i);
      } else {
        var j: nat :| InfoRead(s, seg, y, slug, j);
        if !BareFrom(s, seg, y, slug, j) {
          BlankRead(s, seg, y, slug, j);
        }
      }
    }
  }

  lemma RingReplayRotated(s: Control, seg: seq<Mutation>, y: Control, ring: string, n: nat)
    requires n == LastOf(seg, m => RotatesRing(m, ring)) && n > 0
    ensures ring in Run(y, seg).rings && ring in Run(s, seg).rings
    ensures RetiringAt(Run(y, seg), ring) == RetiringAt(Run(s, seg), ring)
  {
    SplitRun(s, seg, n);
    SplitRun(y, seg, n);
    RingFrame(Run(s, seg[..n]), seg[n..], ring);
    RingFrame(Run(y, seg[..n]), seg[n..], ring);
    RunPrefix(s, seg, n - 1);
    RunPrefix(y, seg, n - 1);
    assert RotatesRing(seg[n - 1], ring);
  }

  lemma RingReplay(s: Control, seg: seq<Mutation>, y: Control, ring: string)
    requires RingSnap(s, seg, y, ring)
    ensures ring in Run(y, seg).rings <==> ring in Run(s, seg).rings
    ensures RetiringAt(Run(y, seg), ring) == RetiringAt(Run(s, seg), ring)
  {
    var n := LastOf(seg, m => RotatesRing(m, ring));
    if n > 0 {
      RingReplayRotated(s, seg, y, ring, n);
    } else {
      RingFrame(s, seg, ring);
      RingFrame(y, seg, ring);
      var e: nat :| RingFrom(s, seg, y, ring, e);
      RingFrame(s, seg[..e], ring);
      if ring in y.rings {
        var j: nat :| RetiringFrom(s, seg, y, ring, j);
        if j <= |seg| {
          RingFrame(s, seg[..j], ring);
        }
      }
    }
  }

  lemma ActiveReplay(s: Control, seg: seq<Mutation>, y: Control, ring: string)
    requires RingSnap(s, seg, y, ring)
    ensures ActiveAt(Run(y, seg), ring) == ActiveAt(Run(s, seg), ring)
  {
    var n := LastOf(seg, m => WritesActive(m, ring));
    SplitRun(s, seg, n);
    SplitRun(y, seg, n);
    ActiveFrame(Run(s, seg[..n]), seg[n..], ring);
    ActiveFrame(Run(y, seg[..n]), seg[n..], ring);
    if n > 0 {
      RunPrefix(s, seg, n - 1);
      RunPrefix(y, seg, n - 1);
      assert WritesActive(seg[n - 1], ring);
    } else {
      assert seg[..n] == [];
      var e: nat :| RingFrom(s, seg, y, ring, e);
      ActiveFrame(s, seg[..e], ring);
      if ring in y.rings {
        var j: nat :| ActiveFrom(s, seg, y, ring, j);
        if j <= |seg| {
          ActiveFrame(s, seg[..j], ring);
        }
      } else {
        assert ring !in Moment(s, seg, e).rings;
      }
    }
  }

  // ─── Effects ───

  /** No file of the snapshot was caught empty where that matters. */
  ghost predicate Whole(s: Control, seg: seq<Mutation>, y: Control) {
    && (forall slug :: InfoWhole(s, seg, y, slug))
    && (forall slug, key :: ItemWhole(s, seg, y, slug, key))
  }

  /**
   Restoring any lazily read snapshot and carrying out the rest of the log gives the state of the
   whole log, unless a write was orphaned, a bare directory stays bare or a file was caught empty.
   */
  lemma ReplayExact(s: Control, seg: seq<Mutation>, y: Control)
    requires Sound(s) && LiveSnapshot(s, seg, y)
    requires NoOrphanWrite(s, seg) && (NoBareCreate(s, seg) || Sound(y)) && (NoTornFile(s, seg) || Whole(s, seg, y))
    ensures Run(y, seg) == Run(s, seg)
  {
    var a, b := Run(y, seg), Run(s, seg);
    forall slug
      ensures slug in a.tenants <==> slug in b.tenants
      ensures InfoAt(a, slug) == InfoAt(b, slug)
    {
      assert TenantSnap(s, seg, y, slug);
      assert SoundAt(y, slug) || !BareCreate(s, seg, slug);
      assert InfoWhole(s, seg, y, slug);
      PresenceReplay(s, seg, y, slug);
      InfoReplay(s, seg, y, slug);
    }
    forall slug, key
      ensures ItemAt(a, slug, key) == ItemAt(b, slug, key)
    {
      assert TenantSnap(s, seg, y, slug);
      assert !OrphanWrite(s, seg, slug, key) && ItemWhole(s, seg, y, slug, key);
      ItemReplay(s, seg, y, slug, key);
    }
    forall ring
      ensures ring in a.rings <==> ring in b.rings
      ensures ActiveAt(a, ring) == ActiveAt(b, ring) && RetiringAt(a, ring) == RetiringAt(b, ring)
    {
      assert RingSnap(s, seg, y, ring);
      RingReplay(s, seg, y, ring);
      ActiveReplay(s, seg, y, ring);
    }
    SameViews(a, b);
  }
}
