/**
 Persist against a live disk.  While an entry is applied the disk passes through
 states of its own: Create makes a directory before its file, a write truncates its
 file first, Delete takes files away before their directory, a rotation rewrites two
 files.  Persist reads every location at some instant of this kind.  What it can
 capture this way are live snapshots, so the conditions for recovery are exact for
 walks over such instants.
 */
module LiveRead {
  import opened Wrappers
  import opened ControlPlane
  import opened Replay
  import opened Effects
  import opened Recovery
  import KeyRotation

  // ─── The disk while an entry is applied ───

  /** MkdirAll done, WriteFile not yet. */
  ghost predicate InsideCreate(x: Control, m: Mutation, d: Control) {
    exists slug :: UpsertsTenant(m, slug) && slug !in x.tenants && d == Bare(x, slug)
  }

  /** RemoveAll has taken some of the files of the directory. */
  ghost predicate InsideDelete(x: Control, m: Mutation, d: Control) {
    && m.TenantDelete? && m.slug in x.tenants
    && m.slug in d.tenants && d == WithTenant(x, m.slug, d.tenants[m.slug])
    && d.tenants[m.slug].info in {x.tenants[m.slug].info, None}
    && forall key | key in d.tenants[m.slug].items ::
         key in x.tenants[m.slug].items && d.tenants[m.slug].items[key] == x.tenants[m.slug].items[key]
  }

  /** The key directory exists and its files are in the middle of the rotation. */
  ghost predicate InsideRotation(x: Control, m: Mutation, d: Control) {
    && m.KeyRotate? && m.keys.Some?
    && var ring := RingOf(m.slug);
       && ring in d.rings && d == x.(rings := x.rings[ring := d.rings[ring]])
       && exists was, files ::
            && KeyRotation.KeyDirOf(was) == (if ring in x.rings then x.rings[ring] else KeyDir(None, None))
            && KeyRotation.MidRotation(was, m.keys.value, files)
            && KeyRotation.KeyDirOf(files) == d.rings[ring]
  }

  ghost predicate Inside(x: Control, m: Mutation, d: Control) {
    InsideCreate(x, m, d) || Truncated(x, m, d) || InsideDelete(x, m, d) || InsideRotation(x, m, d)
  }

  /** A state the disk is in between the snapshot index and the end of `seg`. */
  ghost predicate OnDisk(s: Control, seg: seq<Mutation>, d: Control, j: nat) {
    && j <= |seg|
    && (d == Moment(s, seg, j) || (j < |seg| && Inside(Moment(s, seg, j), seg[j], d)))
  }

  // ─── What Persist captures ───

  /** Two disks agree on one kind of item of a tenant: one YAML file. */
  ghost predicate SameList(y: Control, d: Control, slug: string, clients: bool) {
    forall key: ItemKey | key.ClientKey? == clients :: ItemAt(y, slug, key) == ItemAt(d, slug, key)
  }

  ghost predicate ListedAt(s: Control, seg: seq<Mutation>, y: Control, slug: string, d: Control, j: nat) {
    OnDisk(s, seg, d, j) && (slug in y.tenants <==> slug in d.tenants)
  }

  ghost predicate InfoReadAt(s: Control, seg: seq<Mutation>, y: Control, slug: string, d: Control, j: nat) {
    OnDisk(s, seg, d, j) && slug in d.tenants && InfoAt(y, slug) == InfoAt(d, slug)
  }

  ghost predicate ListReadAt(s: Control, seg: seq<Mutation>, y: Control, slug: string, clients: bool, d: Control, j: nat) {
    OnDisk(s, seg, d, j) && SameList(y, d, slug, clients)
  }

  ghost predicate TenantRead(s: Control, seg: seq<Mutation>, y: Control, slug: string) {
    && (exists d, j :: ListedAt(s, seg, y, slug, d, j))
    && (slug in y.tenants ==> exists d, j :: InfoReadAt(s, seg, y, slug, d, j))
    && (slug in y.tenants ==> exists d, j :: ListReadAt(s, seg, y, slug, true, d, j))
    && (slug in y.tenants ==> exists d, j :: ListReadAt(s, seg, y, slug, false, d, j))
  }

  ghost predicate RingListedAt(s: Control, seg: seq<Mutation>, y: Control, ring: string, d: Control, j: nat) {
    OnDisk(s, seg, d, j) && (ring in y.rings <==> ring in d.rings)
  }

  ghost predicate ActiveReadAt(s: Control, seg: seq<Mutation>, y: Control, ring: string, d: Control, j: nat) {
    OnDisk(s, seg, d, j) && ActiveAt(y, ring) == ActiveAt(d, ring)
  }

  ghost predicate RetiringReadAt(s: Control, seg: seq<Mutation>, y: Control, ring: string, d: Control, j: nat) {
    OnDisk(s, seg, d, j) && RetiringAt(y, ring) == RetiringAt(d, ring)
  }

  ghost predicate RingRead(s: Control, seg: seq<Mutation>, y: Control, ring: string) {
    && (exists d, j :: RingListedAt(s, seg, y, ring, d, j))
    && (ring in y.rings ==> exists d, j :: ActiveReadAt(s, seg, y, ring, d, j))
    && (ring in y.rings ==> exists d, j :: RetiringReadAt(s, seg, y, ring, d, j))
  }

  /**
   Every directory is listed and every file is read at an instant of its own, in any order.  A file that
   vanishes between the two makes Persist fail, so it captures nothing then.
   */
  ghost predicate Captured(s: Control, seg: seq<Mutation>, y: Control) {
    && (forall slug :: TenantRead(s, seg, y, slug))
    && (forall ring :: RingRead(s, seg, y, ring))
  }

  // ─── One location of one instant ───

  lemma PresenceOnDisk(s: Control, seg: seq<Mutation>, y: Control, slug: string, d: Control, j: nat)
    requires ListedAt(s, seg, y, slug, d, j)
    ensures exists i: nat :: PresentFrom(s, seg, y, slug, i)
  {
    if j < |seg| {
      RunPrefix(s, seg, j);
      PresenceStep(Moment(s, seg, j), seg[j], slug);
    }
    assert PresentFrom(s, seg, y, slug, j) || PresentFrom(s, seg, y, slug, j + 1);
  }

  lemma InfoOnDisk(s: Control, seg: seq<Mutation>, y: Control, slug: string, d: Control, j: nat)
    requires InfoReadAt(s, seg, y, slug, d, j)
    ensures InfoRead(s, seg, y, slug, j)
  {}

  /** A truncated list holds no item of its kind, and what it does not hold is as it was. */
  lemma ItemTruncated(x: Control, m: Mutation, d: Control, slug: string, key: ItemKey)
    requires Truncated(x, m, d)
    ensures || ItemAt(d, slug, key) == ItemAt(x, slug, key)
            || (ItemAt(d, slug, key) == None && RewritesList(x, m, slug, key.ClientKey?))
  {
    if other, clients :| RewritesList(x, m, other, clients) && d == WithoutList(x, other, clients) {
    } else {
      var other :| RewritesInfo(x, m, other) && d == WithBlank(x, other);
    }
  }

  /** Inside the other entries an item is as before the entry or as after it. */
  lemma ItemInside(x: Control, m: Mutation, d: Control, slug: string, key: ItemKey)
    requires InsideCreate(x, m, d) || InsideDelete(x, m, d) || InsideRotation(x, m, d)
    ensures ItemAt(d, slug, key) in {ItemAt(x, slug, key), ItemAt(Next(x, m), slug, key)}
  {
    ItemStep(x, m, slug, key);
  }

  lemma ItemOnDisk(s: Control, seg: seq<Mutation>, y: Control, slug: string, key: ItemKey, d: Control, j: nat)
    requires ListReadAt(s, seg, y, slug, key.ClientKey?, d, j)
    ensures ItemRead(s, seg, y, slug, key)
  {
    var x := Moment(s, seg, j);
    assert ItemAt(y, slug, key) == ItemAt(d, slug, key);
    if j < |seg| && d != x {
      RunPrefix(s, seg, j);
      if Truncated(x, seg[j], d) {
        ItemTruncated(x, seg[j], d, slug, key);
      } else {
        ItemInside(x, seg[j], d, slug, key);
      }
    }
    assert ItemFrom(s, seg, y, slug, key, j) || ItemFrom(s, seg, y, slug, key, j + 1) || EmptiedFrom(s, seg, y, slug, key, j);
  }

  lemma RingOnDisk(s: Control, seg: seq<Mutation>, y: Control, ring: string, d: Control, j: nat)
    requires RingListedAt(s, seg, y, ring, d, j)
    ensures exists i: nat :: RingFrom(s, seg, y, ring, i)
  {
    if j < |seg| {
      RunPrefix(s, seg, j);
    }
    assert RingFrom(s, seg, y, ring, j) || RingFrom(s, seg, y, ring, j + 1);
  }

  lemma ActiveOnDisk(s: Control, seg: seq<Mutation>, y: Control, ring: string, d: Control, j: nat)
    requires ActiveReadAt(s, seg, y, ring, d, j)
    ensures exists i: nat :: ActiveFrom(s, seg, y, ring, i)
  {
    if j < |seg| {
      RunPrefix(s, seg, j);
    }
    assert ActiveFrom(s, seg, y, ring, j) || ActiveFrom(s, seg, y, ring, j + 1);
  }

  lemma RetiringOnDisk(s: Control, seg: seq<Mutation>, y: Control, ring: string, d: Control, j: nat)
    requires RetiringReadAt(s, seg, y, ring, d, j)
    ensures exists i: nat :: RetiringFrom(s, seg, y, ring, i)
  {
    if j < |seg| {
      RunPrefix(s, seg, j);
    }
    assert RetiringFrom(s, seg, y, ring, j) || RetiringFrom(s, seg, y, ring, j + 1);
  }

  // ─── The walk takes live snapshots ───

  lemma CapturedIsLive(s: Control, seg: seq<Mutation>, y: Control)
    requires Captured(s, seg, y)
    ensures LiveSnapshot(s, seg, y)
  {
    forall slug
      ensures TenantSnap(s, seg, y, slug)
    {
      assert TenantRead(s, seg, y, slug);
      var d, j :| ListedAt(s, seg, y, slug, d, j);
      PresenceOnDisk(s, seg, y, slug, d, j);
      if slug in y.tenants {
        var e, i :| InfoReadAt(s, seg, y, slug, e, i);
        InfoOnDisk(s, seg, y, slug, e, i);
        forall key: ItemKey
          ensures ItemRead(s, seg, y, slug, key)
        {
          if key.ClientKey? {
            var f, k :| ListReadAt(s, seg, y, slug, true, f, k);
            ItemOnDisk(s, seg, y, slug, key, f, k);
          } else {
            var f, k :| ListReadAt(s, seg, y, slug, false, f, k);
            ItemOnDisk(s, seg, y, slug, key, f, k);
          }
        }
      }
    }
    forall ring
      ensures RingSnap(s, seg, y, ring)
    {
      assert RingRead(s, seg, y, ring);
      var d, j :| RingListedAt(s, seg, y, ring, d, j);
      RingOnDisk(s, seg, y, ring, d, j);
      if ring in y.rings {
        var e, i :| ActiveReadAt(s, seg, y, ring, e, i);
        ActiveOnDisk(s, seg, y, ring, e, i);
        var f, k :| RetiringReadAt(s, seg, y, ring, f, k);
        RetiringOnDisk(s, seg, y, ring, f, k);
      }
    }
  }

  /** A walk that finds the disk standing still captures it. */
  lemma OnDiskIsCaptured(s: Control, seg: seq<Mutation>, d: Control, j: nat)
    requires OnDisk(s, seg, d, j)
    ensures Captured(s, seg, d)
  {
    forall slug
      ensures TenantRead(s, seg, d, slug)
    {
      assert ListedAt(s, seg, d, slug, d, j);
      assert slug in d.tenants ==> InfoReadAt(s, seg, d, slug, d, j);
      assert ListReadAt(s, seg, d, slug, true, d, j) && ListReadAt(s, seg, d, slug, false, d, j);
    }
    forall ring
      ensures RingRead(s, seg, d, ring)
    {
      assert RingListedAt(s, seg, d, ring, d, j);
      assert ActiveReadAt(s, seg, d, ring, d, j) && RetiringReadAt(s, seg, d, ring, d, j);
    }
  }

  lemma InstantIsCaptured(s: Control, seg: seq<Mutation>, y: Control)
    requires Instant(s, seg, y)
    ensures Captured(s, seg, y)
  {
    if j: nat :| j <= |seg| && y == Moment(s, seg, j) {
      OnDiskIsCaptured(s, seg, y, j);
    } else if j: nat, slug :| Creating(s, seg, slug, j) && y == Bare(Moment(s, seg, j), slug) {
      assert InsideCreate(Moment(s, seg, j), seg[j], y);
      OnDiskIsCaptured(s, seg, y, j);
    } else {
      var j: nat :| j < |seg| && Truncated(Moment(s, seg, j), seg[j], y);
      OnDiskIsCaptured(s, seg, y, j);
    }
  }

  /** The condition for recovery is exact for what Persist can read while entries are being applied. */
  lemma WalkRecoversIff(s: Control, seg: seq<Mutation>)
    requires Sound(s)
    ensures (forall y | Captured(s, seg, y) :: Recovers(s, seg, y))
       <==> Replayable(s, seg) && NoMeeting(s, seg)
  {
    ReplayExactIff(s, seg);
    forall y
      ensures Captured(s, seg, y) ==> LiveSnapshot(s, seg, y)
      ensures Instant(s, seg, y) ==> Captured(s, seg, y)
    {
      if Captured(s, seg, y) {
        CapturedIsLive(s, seg, y);
      }
      if Instant(s, seg, y) {
        InstantIsCaptured(s, seg, y);
      }
    }
  }
}
