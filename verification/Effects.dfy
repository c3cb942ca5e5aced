/**
 When carrying out the log again is exact.  Snapshots of one instant are live
 snapshots, and each of the conditions, where it fails, has one of them that
 comes out wrong.
 */
module Effects {
  import opened Wrappers
  import opened Strings
  import opened ControlPlane
  import opened Replay

  // ─── Snapshots of one instant ───

  /** The disk inside Create, between MkdirAll and WriteFile. */
  predicate Creating(s: Control, seg: seq<Mutation>, slug: string, j: nat) {
    j < |seg| && UpsertsTenant(seg[j], slug) && slug !in Moment(s, seg, j).tenants
  }

  function Bare(s: Control, slug: string): Control {
    WithTenant(s, slug, TenantDir(None, map[]))
  }

  /** The disk with one list file truncated and not yet written. */
  function WithoutList(x: Control, slug: string, clients: bool): Control
    requires slug in x.tenants
  {
    var dir := x.tenants[slug];
    WithTenant(x, slug, dir.(items := map key | key in dir.items && key.ClientKey? != clients :: dir.items[key]))
  }

  /** The disk with tenant.yaml truncated, or just created, and not yet written. */
  function WithBlank(x: Control, slug: string): Control {
    WithTenant(x, slug, (if slug in x.tenants then x.tenants[slug] else TenantDir(None, map[])).(info := Some(BLANK)))
  }

  /** The disk inside the writing of a file, between the truncation and the write. */
  ghost predicate Truncated(x: Control, m: Mutation, d: Control) {
    || (exists slug, clients :: RewritesList(x, m, slug, clients) && d == WithoutList(x, slug, clients))
    || (exists slug :: RewritesInfo(x, m, slug) && d == WithBlank(x, slug))
  }

  /** A snapshot for which Persist found the disk standing still, between two entries or inside one. */
  ghost predicate Instant(s: Control, seg: seq<Mutation>, y: Control) {
    || (exists j: nat :: j <= |seg| && y == Moment(s, seg, j))
    || (exists j: nat, slug :: Creating(s, seg, slug, j) && y == Bare(Moment(s, seg, j), slug))
    || (exists j: nat :: j < |seg| && Truncated(Moment(s, seg, j), seg[j], y))
  }

  lemma MomentIsSnapshot(s: Control, seg: seq<Mutation>, j: nat)
    requires j <= |seg|
    ensures LiveSnapshot(s, seg, Moment(s, seg, j)) && Instant(s, seg, Moment(s, seg, j))
    ensures Whole(s, seg, Moment(s, seg, j))
  {
    var y := Moment(s, seg, j);
    forall slug
      ensures TenantSnap(s, seg, y, slug) && InfoWhole(s, seg, y, slug)
    {
      assert PresentFrom(s, seg, y, slug, j);
      if slug in y.tenants {
        assert InfoFrom(s, seg, y, slug, j);
        assert InfoRead(s, seg, y, slug, j);
        forall key
          ensures ItemRead(s, seg, y, slug, key)
        {
          assert ItemFrom(s, seg, y, slug, key, j);
        }
      }
    }
    forall slug, key
      ensures ItemWhole(s, seg, y, slug, key)
    {
      assert ItemFrom(s, seg, y, slug, key, j);
    }
    forall ring
      ensures RingSnap(s, seg, y, ring)
    {
      assert RingFrom(s, seg, y, ring, j);
      assert ActiveFrom(s, seg, y, ring, j);
      assert RetiringFrom(s, seg, y, ring, j);
    }
  }

  /** A snapshot that is a moment but for one tenant's directory. */
  lemma OneTenantOff(s: Control, seg: seq<Mutation>, slug: string, dir: TenantDir, j: nat)
    requires j <= |seg|
    requires TenantSnap(s, seg, WithTenant(Moment(s, seg, j), slug, dir), slug)
    ensures LiveSnapshot(s, seg, WithTenant(Moment(s, seg, j), slug, dir))
  {
    var x := Moment(s, seg, j);
    var y := WithTenant(x, slug, dir);
    MomentIsSnapshot(s, seg, j);
    forall other
      ensures TenantSnap(s, seg, y, other)
    {
      if other != slug {
        assert TenantSnap(s, seg, x, other);
        OtherSnap(s, seg, x, y, other);
      }
    }
    forall ring
      ensures RingSnap(s, seg, y, ring)
    {
      assert RingFrom(s, seg, y, ring, j);
      assert ActiveFrom(s, seg, y, ring, j);
      assert RetiringFrom(s, seg, y, ring, j);
    }
  }

  lemma OtherSnap(s: Control, seg: seq<Mutation>, x: Control, y: Control, slug: string)
    requires TenantSnap(s, seg, x, slug)
    requires (slug in x.tenants <==> slug in y.tenants) && (slug in x.tenants ==> x.tenants[slug] == y.tenants[slug])
    ensures TenantSnap(s, seg, y, slug)
  {
    var e: nat :| PresentFrom(s, seg, x, slug, e);
    assert PresentFrom(s, seg, y, slug, e);
    if slug in y.tenants {
      var j: nat :| InfoRead(s, seg, x, slug, j);
      assert InfoRead(s, seg, y, slug, j);
      forall key
        ensures ItemRead(s, seg, y, slug, key)
      {
        OtherItem(s, seg, x, y, slug, key);
      }
    }
  }

  lemma OtherItem(s: Control, seg: seq<Mutation>, x: Control, y: Control, slug: string, key: ItemKey)
    requires ItemRead(s, seg, x, slug, key) && ItemAt(y, slug, key) == ItemAt(x, slug, key)
    ensures ItemRead(s, seg, y, slug, key)
  {
    if ItemSnap(s, seg, x, slug, key) {
      var i: nat :| ItemFrom(s, seg, x, slug, key, i);
      assert ItemFrom(s, seg, y, slug, key, i);
    } else {
      var i: nat :| EmptiedFrom(s, seg, x, slug, key, i);
      assert EmptiedFrom(s, seg, y, slug, key, i);
    }
  }

  lemma BareIsSnapshot(s: Control, seg: seq<Mutation>, slug: string, j: nat)
    requires Creating(s, seg, slug, j)
    ensures LiveSnapshot(s, seg, Bare(Moment(s, seg, j), slug))
  {
    var y := Bare(Moment(s, seg, j), slug);
    RunPrefix(s, seg, j);
    assert PresentFrom(s, seg, y, slug, j + 1);
    assert BareFrom(s, seg, y, slug, j);
    assert InfoRead(s, seg, y, slug, j);
    forall key
      ensures ItemRead(s, seg, y, slug, key)
    {
      assert ItemFrom(s, seg, y, slug, key, j);
    }
    OneTenantOff(s, seg, slug, TenantDir(None, map[]), j);
  }

  lemma EmptyListIsSnapshot(s: Control, seg: seq<Mutation>, slug: string, clients: bool, j: nat)
    requires j < |seg| && RewritesList(Moment(s, seg, j), seg[j], slug, clients)
    ensures LiveSnapshot(s, seg, WithoutList(Moment(s, seg, j), slug, clients))
  {
    var x := Moment(s, seg, j);
    var y := WithoutList(x, slug, clients);
    assert PresentFrom(s, seg, y, slug, j);
    assert InfoFrom(s, seg, y, slug, j);
    assert InfoRead(s, seg, y, slug, j);
    forall key: ItemKey
      ensures ItemRead(s, seg, y, slug, key)
    {
      if key.ClientKey? == clients {
        assert EmptiedFrom(s, seg, y, slug, key, j);
      } else {
        assert ItemFrom(s, seg, y, slug, key, j);
      }
    }
    OneTenantOff(s, seg, slug, y.tenants[slug], j);
  }

  lemma BlankIsSnapshot(s: Control, seg: seq<Mutation>, slug: string, j: nat)
    requires j < |seg| && RewritesInfo(Moment(s, seg, j), seg[j], slug)
    ensures LiveSnapshot(s, seg, WithBlank(Moment(s, seg, j), slug))
  {
    var x := Moment(s, seg, j);
    var y := WithBlank(x, slug);
    RunPrefix(s, seg, j);
    PresenceStep(x, seg[j], slug);
    assert PresentFrom(s, seg, y, slug, j) || PresentFrom(s, seg, y, slug, j + 1);
    assert BlankFrom(s, seg, y, slug, j);
    assert InfoRead(s, seg, y, slug, j);
    forall key
      ensures ItemRead(s, seg, y, slug, key)
    {
      assert ItemFrom(s, seg, y, slug, key, j);
    }
    OneTenantOff(s, seg, slug, y.tenants[slug], j);
  }

  lemma InstantIsLive(s: Control, seg: seq<Mutation>, y: Control)
    requires Instant(s, seg, y)
    ensures LiveSnapshot(s, seg, y)
  {
    if j: nat :| j <= |seg| && y == Moment(s, seg, j) {
      MomentIsSnapshot(s, seg, j);
    } else if j: nat, slug :| Creating(s, seg, slug, j) && y == Bare(Moment(s, seg, j), slug) {
      BareIsSnapshot(s, seg, slug, j);
    } else {
      var j: nat :| j < |seg| && Truncated(Moment(s, seg, j), seg[j], y);
      var x, m := Moment(s, seg, j), seg[j];
      if slug, clients :| RewritesList(x, m, slug, clients) && y == WithoutList(x, slug, clients) {
        EmptyListIsSnapshot(s, seg, slug, clients, j);
      } else {
        var slug :| RewritesInfo(x, m, slug) && y == WithBlank(x, slug);
        BlankIsSnapshot(s, seg, slug, j);
      }
    }
  }

  // ─── Where the effects differ ───

  /** An orphan write shows up when the log is replayed over its own final state. */
  lemma OrphanDiffers(s: Control, seg: seq<Mutation>, slug: string, key: ItemKey)
    requires OrphanWrite(s, seg, slug, key)
    ensures ItemAt(Run(s, seg), slug, key) == None
    ensures ItemAt(Run(Run(s, seg), seg), slug, key).Some?
  {
    var p := LastOf(seg, m => TouchesItem(m, slug, key));
    var y := Run(s, seg);
    ItemDecided(s, seg, slug, key);
    ItemDecided(y, seg, slug, key);
    var front := seg[..p - 1];
    UntouchedFront(seg, p, slug);
    PresenceFrame(s, front, slug);
    PresenceFrame(y, front, slug);
  }

  /**
   A directory restored without its tenant.yaml stays so: GetBySlug says "not found" and
   Create says "conflict", until the tenant is deleted.
   */
  lemma {:induction false} BareDirectoryIsStuck(y: Control, slug: string, seg: seq<Mutation>)
    requires slug in y.tenants && y.tenants[slug].info.None?
    requires Untouched(seg, m => DeletesTenant(m, slug))
    ensures slug in Run(y, seg).tenants && InfoAt(Run(y, seg), slug) == None
    ensures forall k | 0 <= k < |seg| && UpsertsTenant(seg[k], slug) ::
              Step(Run(y, seg[..k]), seg[k]).1 == Failed(Conflict)
  {
    if seg != [] {
      var front := seg[..|seg| - 1];
      BareDirectoryIsStuck(y, slug, front);
      assert !DeletesTenant(seg[|seg| - 1], slug);
      forall k | 0 <= k < |seg| && UpsertsTenant(seg[k], slug)
        ensures Step(Run(y, seg[..k]), seg[k]).1 == Failed(Conflict)
      {
        if k < |front| {
          assert front[..k] == seg[..k] && UpsertsTenant(front[k], slug);
        } else {
          assert seg[..k] == front;
        }
      }
    }
  }

  lemma FirstCreation(s: Control, seg: seq<Mutation>, slug: string, d: nat) returns (j: nat)
    requires slug !in s.tenants && d < |seg| && UpsertsTenant(seg[d], slug)
    ensures j <= d && Creating(s, seg, slug, j)
  {
    if slug !in Moment(s, seg, d).tenants {
      j := d;
    } else {
      MomentTenantCame(s, seg, slug, d);
      var e :| 0 <= e < d && UpsertsTenant(seg[e], slug);
      j := FirstCreation(s, seg, slug, e);
    }
  }

  /** A tenant the log creates and keeps is lost by the snapshot that catches its Create halfway. */
  lemma BareDiffers(s: Control, seg: seq<Mutation>, slug: string) returns (y: Control)
    requires Sound(s) && BareCreate(s, seg, slug)
    ensures Instant(s, seg, y)
    ensures InfoAt(Run(y, seg), slug) == None && InfoAt(Run(s, seg), slug).Some?
  {
    var d :| 0 <= d < |seg| && UpsertsTenant(seg[d], slug);
    var j := FirstCreation(s, seg, slug, d);
    y := Bare(Moment(s, seg, j), slug);
    BareDirectoryIsStuck(y, slug, seg);
    RunPrefix(s, seg, j);
    SplitRun(s, seg, j + 1);
    PresenceGrows(Run(s, seg[..j + 1]), seg[j + 1..], slug);
    SoundAtRun(s, seg, slug);
  }

  /** An untouched item is lost by the snapshot that catches its file empty. */
  lemma TornItemDiffers(s: Control, seg: seq<Mutation>, slug: string, key: ItemKey) returns (y: Control)
    requires TornItem(s, seg, slug, key)
    ensures Instant(s, seg, y)
    ensures ItemAt(Run(y, seg), slug, key) == None && ItemAt(Run(s, seg), slug, key).Some?
  {
    var j :| 0 <= j < |seg| && RewritesList(Moment(s, seg, j), seg[j], slug, key.ClientKey?);
    y := WithoutList(Moment(s, seg, j), slug, key.ClientKey?);
    assert Truncated(Moment(s, seg, j), seg[j], y);
    ItemNeverTouched(s, seg, slug, key);
    ItemNeverTouched(y, seg, slug, key);
  }

  /** Id and name are lost by the snapshot that catches tenant.yaml empty under a settings update. */
  lemma TornInfoDiffers(s: Control, seg: seq<Mutation>, slug: string) returns (y: Control)
    requires TornInfo(s, seg, slug)
    ensures Instant(s, seg, y)
    ensures InfoAt(Run(y, seg), slug) != InfoAt(Run(s, seg), slug)
  {
    var j :| 0 <= j < |seg| && SetsSettings(seg[j], slug);
    IdentityFrame(s, seg[..j], slug);
    y := WithBlank(Moment(s, seg, j), slug);
    assert RewritesInfo(Moment(s, seg, j), seg[j], slug);
    assert Truncated(Moment(s, seg, j), seg[j], y);
    InfoDecided(s, seg, slug);
    InfoDecided(y, seg, slug);
  }

  lemma TornDiffers(s: Control, seg: seq<Mutation>) returns (y: Control)
    requires !NoTornFile(s, seg)
    ensures Instant(s, seg, y) && Run(y, seg) != Run(s, seg)
  {
    if slug :| TornInfo(s, seg, slug) {
      y := TornInfoDiffers(s, seg, slug);
    } else {
      var slug, key :| TornItem(s, seg, slug, key);
      y := TornItemDiffers(s, seg, slug, key);
    }
  }

  /** No write is orphaned, no creation left bare and no file torn. */
  ghost predicate Replayable(s: Control, seg: seq<Mutation>) {
    NoOrphanWrite(s, seg) && NoBareCreate(s, seg) && NoTornFile(s, seg)
  }

  lemma SomethingDiffers(s: Control, seg: seq<Mutation>) returns (y: Control)
    requires Sound(s) && !Replayable(s, seg)
    ensures Instant(s, seg, y) && Run(y, seg) != Run(s, seg)
  {
    if slug, key :| OrphanWrite(s, seg, slug, key) {
      OrphanDiffers(s, seg, slug, key);
      MomentIsSnapshot(s, seg, |seg|);
      assert seg[..|seg|] == seg;
      y := Run(s, seg);
    } else if slug :| BareCreate(s, seg, slug) {
      y := BareDiffers(s, seg, slug);
    } else {
      y := TornDiffers(s, seg);
    }
  }

  /**
   Exactly when snapshots are exact in what the log carries out: for every lazily read snapshot, or only
   for those of one instant, it takes that no write is orphaned, no creation is left bare and no file torn.
   */
  lemma EffectsExactIff(s: Control, seg: seq<Mutation>)
    requires Sound(s)
    ensures (forall y | LiveSnapshot(s, seg, y) :: Run(y, seg) == Run(s, seg)) <==> Replayable(s, seg)
    ensures (forall y | Instant(s, seg, y) :: Run(y, seg) == Run(s, seg)) <==> Replayable(s, seg)
  {
    if Replayable(s, seg) {
      forall y | LiveSnapshot(s, seg, y) || Instant(s, seg, y)
        ensures Run(y, seg) == Run(s, seg)
      {
        if Instant(s, seg, y) {
          InstantIsLive(s, seg, y);
        }
        ReplayExact(s, seg, y);
      }
    } else {
      var y := SomethingDiffers(s, seg);
      InstantIsLive(s, seg, y);
    }
  }

  /** Carrying out the same entries twice changes nothing if and only if no write is orphaned. */
  lemma TwiceIff(s: Control, seg: seq<Mutation>)
    requires Sound(s)
    ensures Run(Run(s, seg), seg) == Run(s, seg) <==> NoOrphanWrite(s, seg)
  {
    MomentIsSnapshot(s, seg, |seg|);
    assert seg[..|seg|] == seg;
    SoundRun(s, seg);
    if NoOrphanWrite(s, seg) {
      ReplayExact(s, seg, Run(s, seg));
    } else {
      var slug, key :| OrphanWrite(s, seg, slug, key);
      OrphanDiffers(s, seg, slug, key);
    }
  }
}
