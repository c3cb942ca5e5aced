/**
 Recovery: a node restores a snapshot and applies the rest of the log to it.  That
 comes to the end of the log only if every entry is answered again, and ends in the
 state of the uninterrupted run only if carrying the entries out again does no harm.
 */
module Recovery {
  import opened Wrappers
  import opened Strings
  import opened ControlPlane
  import opened Replay
  import opened Effects

  // ─── Where a replay does not come back ───

  /** Some snapshot's replay finds the tenant when it comes to entry i. */
  predicate MayBePresent(s: Control, seg: seq<Mutation>, slug: string, i: nat)
    requires i <= |seg|
  {
    var n := LastOf(seg[..i], m => TenantOp(m, slug));
    if n > 0 then UpsertsTenant(seg[n - 1], slug)
    else slug in s.tenants || exists d :: 0 <= d < |seg| && UpsertsTenant(seg[d], slug)
  }

  /** The run has the item at the snapshot index or writes it later. */
  predicate EverThere(s: Control, seg: seq<Mutation>, slug: string, key: ItemKey) {
    || ItemAt(s, slug, key).Some?
    || exists i :: 0 <= i < |seg| && PutsItem(seg[i], slug, key) && slug in Moment(s, seg, i).tenants
  }

  /**
   Entry k is a client upsert that some replay finds answered already: nothing before it in `seg` removes
   the client, and either an upsert of it before k is accepted by some replay or, if nothing
   before k bears on the client, a snapshot may hold it.
   */
  predicate MayMeet(s: Control, seg: seq<Mutation>, k: nat)
    requires k < |seg|
  {
    && seg[k].ClientUpsert? && seg[k].client.Some?
    && var slug, key := seg[k].slug, ClientKey(seg[k].client.value.rec.clientId);
       var p := LastOf(seg[..k], m => TouchesItem(m, slug, key));
       if p > 0 then PutsItem(seg[p - 1], slug, key) && MayBePresent(s, seg, slug, p - 1)
       else EverThere(s, seg, slug, key)
  }

  ghost predicate NoMeeting(s: Control, seg: seq<Mutation>) {
    forall k | 0 <= k < |seg| :: !MayMeet(s, seg, k)
  }

  lemma {:induction false} MomentItemCame(s: Control, seg: seq<Mutation>, slug: string, key: ItemKey, j: nat)
    requires j <= |seg| && ItemAt(Moment(s, seg, j), slug, key).Some?
    ensures EverThere(s, seg, slug, key)
  {
    if j == 0 {
      assert seg[..0] == [];
    } else {
      RunPrefix(s, seg, j - 1);
      ItemStep(Run(s, seg[..j - 1]), seg[j - 1], slug, key);
      if !PutsItem(seg[j - 1], slug, key) {
        MomentItemCame(s, seg, slug, key, j - 1);
      }
    }
  }

  lemma SnapshotPresence(s: Control, seg: seq<Mutation>, y: Control, slug: string)
    requires TenantSnap(s, seg, y, slug) && slug in y.tenants && slug !in s.tenants
    ensures exists d :: 0 <= d < |seg| && UpsertsTenant(seg[d], slug)
  {
    var e: nat :| PresentFrom(s, seg, y, slug, e);
    MomentTenantCame(s, seg, slug, e);
  }

  /** A replay that meets a client does so at an entry the condition names. */
  lemma MeetingIsForeseen(s: Control, seg: seq<Mutation>, y: Control, k: nat)
    requires LiveSnapshot(s, seg, y) && k < |seg| && MeetsClient(Run(y, seg[..k]), seg[k])
    ensures MayMeet(s, seg, k)
  {
    var slug, key := seg[k].slug, ClientKey(seg[k].client.value.rec.clientId);
    var p := LastOf(seg[..k], m => TouchesItem(m, slug, key));
    assert TenantSnap(s, seg, y, slug);
    ItemDecided(y, seg[..k], slug, key);
    if p == 0 {
      SnapshotItem(s, seg, y, slug, key);
    } else {
      assert seg[..k][..p - 1] == seg[..p - 1];
      ReplayPresence(s, seg, y, slug, p - 1);
    }
  }

  lemma SnapshotItem(s: Control, seg: seq<Mutation>, y: Control, slug: string, key: ItemKey)
    requires TenantSnap(s, seg, y, slug) && ItemAt(y, slug, key).Some?
    ensures EverThere(s, seg, slug, key)
  {
    assert ItemRead(s, seg, y, slug, key);
    var j: nat :| ItemFrom(s, seg, y, slug, key, j);
    MomentItemCame(s, seg, slug, key, j);
  }

  lemma ReplayPresence(s: Control, seg: seq<Mutation>, y: Control, slug: string, i: nat)
    requires TenantSnap(s, seg, y, slug) && i <= |seg| && slug in Run(y, seg[..i]).tenants
    ensures MayBePresent(s, seg, slug, i)
  {
    PresenceByLast(y, seg[..i], slug);
    if slug in y.tenants && slug !in s.tenants {
      SnapshotPresence(s, seg, y, slug);
    }
  }

  lemma PresentMoment(s: Control, seg: seq<Mutation>, slug: string, i: nat) returns (j: nat)
    requires i <= |seg| && MayBePresent(s, seg, slug, i)
    ensures j <= |seg| && slug in Run(Moment(s, seg, j), seg[..i]).tenants
  {
    j := 0;
    assert seg[..0] == [];
    if LastOf(seg[..i], m => TenantOp(m, slug)) == 0 && slug !in s.tenants {
      var d :| 0 <= d < |seg| && UpsertsTenant(seg[d], slug);
      RunPrefix(s, seg, d);
      PresenceStep(Moment(s, seg, d), seg[d], slug);
      j := d + 1;
    }
    PresenceByLast(Moment(s, seg, j), seg[..i], slug);
  }

  lemma ThereMoment(s: Control, seg: seq<Mutation>, slug: string, key: ItemKey) returns (j: nat)
    requires EverThere(s, seg, slug, key)
    ensures j <= |seg| && ItemAt(Moment(s, seg, j), slug, key).Some?
  {
    j := 0;
    assert seg[..0] == [];
    if ItemAt(s, slug, key).None? {
      var i :| 0 <= i < |seg| && PutsItem(seg[i], slug, key) && slug in Moment(s, seg, i).tenants;
      RunPrefix(s, seg, i);
      ItemStep(Moment(s, seg, i), seg[i], slug, key);
      j := i + 1;
    }
  }

  /** From a state with the client, through entries that do not bear on it. */
  lemma MeetsUntouched(x: Control, seg: seq<Mutation>, k: nat, slug: string, key: ItemKey)
    requires k < |seg| && LastOf(seg[..k], m => TouchesItem(m, slug, key)) == 0
    requires ItemAt(x, slug, key).Some?
    ensures ItemAt(Run(x, seg[..k]), slug, key).Some?
  {
    ItemNeverTouched(x, seg[..k], slug, key);
  }

  /** Or after an upsert of it that found the tenant. */
  lemma MeetsPut(x: Control, seg: seq<Mutation>, k: nat, slug: string, key: ItemKey, p: nat)
    requires k < |seg| && p == LastOf(seg[..k], m => TouchesItem(m, slug, key)) && p > 0
    requires PutsItem(seg[p - 1], slug, key) && slug in Run(x, seg[..p - 1]).tenants
    ensures ItemAt(Run(x, seg[..k]), slug, key).Some?
  {
    assert seg[..k][..p - 1] == seg[..p - 1];
    ItemDecided(x, seg[..k], slug, key);
  }

  /** The snapshot of some one instant makes the replay meet the client. */
  lemma ForeseenIsMet(s: Control, seg: seq<Mutation>, k: nat) returns (j: nat)
    requires k < |seg| && MayMeet(s, seg, k)
    ensures j <= |seg| && MeetsClient(Run(Moment(s, seg, j), seg[..k]), seg[k])
  {
    var slug, key := seg[k].slug, ClientKey(seg[k].client.value.rec.clientId);
    var p := LastOf(seg[..k], m => TouchesItem(m, slug, key));
    if p == 0 {
      j := ThereMoment(s, seg, slug, key);
      MeetsUntouched(Moment(s, seg, j), seg, k, slug, key);
    } else {
      j := PresentMoment(s, seg, slug, p - 1);
      MeetsPut(Moment(s, seg, j), seg, k, slug, key, p);
    }
  }

  /** For which logs the replay of every snapshot comes back from every entry. */
  lemma ReplaysAnswerIff(s: Control, seg: seq<Mutation>)
    ensures (forall y | LiveSnapshot(s, seg, y) :: AnswersAll(y, seg)) <==> NoMeeting(s, seg)
    ensures (forall y | Instant(s, seg, y) :: AnswersAll(y, seg)) <==> NoMeeting(s, seg)
  {
    if NoMeeting(s, seg) {
      forall y | LiveSnapshot(s, seg, y) || Instant(s, seg, y)
        ensures AnswersAll(y, seg)
      {
        if Instant(s, seg, y) {
          InstantIsLive(s, seg, y);
        }
        forall k | 0 <= k < |seg| ensures !MeetsClient(Run(y, seg[..k]), seg[k]) {
          if MeetsClient(Run(y, seg[..k]), seg[k]) {
            MeetingIsForeseen(s, seg, y, k);
          }
        }
      }
    } else {
      var k :| 0 <= k < |seg| && MayMeet(s, seg, k);
      var j := ForeseenIsMet(s, seg, k);
      MomentIsSnapshot(s, seg, j);
      assert !AnswersAll(Moment(s, seg, j), seg);
    }
  }

  /** In particular every client first created after the snapshot index can stop a replay. */
  lemma FreshClientBlocks(s: Control, seg: seq<Mutation>, k: nat)
    requires k < |seg| && seg[k].ClientUpsert? && seg[k].client.Some? && seg[k].slug in Moment(s, seg, k).tenants
    requires LastOf(seg[..k], m => TouchesItem(m, seg[k].slug, ClientKey(seg[k].client.value.rec.clientId))) == 0
    ensures !NoMeeting(s, seg)
  {
    assert PutsItem(seg[k], seg[k].slug, ClientKey(seg[k].client.value.rec.clientId));
    assert MayMeet(s, seg, k);
  }

  // ─── The theorem ───

  /** The replay comes to its end, in the state of the uninterrupted log. */
  ghost predicate Recovers(s: Control, seg: seq<Mutation>, y: Control) {
    Exec(y, seg) == Fsm(Run(s, seg), false)
  }

  lemma RecoversIff(s: Control, seg: seq<Mutation>, y: Control)
    ensures Recovers(s, seg, y) <==> AnswersAll(y, seg) && Run(y, seg) == Run(s, seg)
  {
    ExecAnswersIff(y, seg);
  }

  /**
   Exactly when a log can be recovered from its snapshots.  Every lazily read snapshot, restored and
   replayed, comes to the end of the log in the state of the uninterrupted run, if and only if no write
   is orphaned, no creation left bare, no file torn and no client upsert may meet its client.  Looking at
   snapshots of one instant only does not change the condition.
   */
  lemma ReplayExactIff(s: Control, seg: seq<Mutation>)
    requires Sound(s)
    ensures (forall y | LiveSnapshot(s, seg, y) :: Recovers(s, seg, y))
       <==> Replayable(s, seg) && NoMeeting(s, seg)
    ensures (forall y | Instant(s, seg, y) :: Recovers(s, seg, y))
       <==> Replayable(s, seg) && NoMeeting(s, seg)
  {
    EffectsExactIff(s, seg);
    ReplaysAnswerIff(s, seg);
    forall y
      ensures Recovers(s, seg, y) <==> AnswersAll(y, seg) && Run(y, seg) == Run(s, seg)
    {
      RecoversIff(s, seg, y);
    }
  }

  /** Among logs whose replays come back, the first three conditions are exact. */
  lemma ReturningReplaysExactIff(s: Control, seg: seq<Mutation>)
    requires Sound(s) && NoMeeting(s, seg)
    ensures (forall y | LiveSnapshot(s, seg, y) :: Recovers(s, seg, y))
       <==> Replayable(s, seg)
  {
    ReplayExactIff(s, seg);
  }

  /** For a whole log: a snapshot at index i, restored and replayed from i, against the uninterrupted run. */
  lemma SnapshotThenReplay(log: seq<Mutation>, i: nat, y: Control)
    requires i <= |log| && !Exec(EMPTY, log[..i]).stuck
    requires LiveSnapshot(Run(EMPTY, log[..i]), log[i..], y)
    requires var s := Run(EMPTY, log[..i]);
             Replayable(s, log[i..]) && NoMeeting(s, log[i..])
    ensures Exec(y, log[i..]) == Exec(EMPTY, log) == Fsm(Run(EMPTY, log), false)
  {
    var s, seg := Run(EMPTY, log[..i]), log[i..];
    SoundRun(EMPTY, log[..i]);
    ReplayExactIff(s, seg);
    assert Recovers(s, seg, y);
    MomentIsSnapshot(s, seg, 0);
    assert seg[..0] == [];
    assert Recovers(s, seg, s);
    ExecAnswersIff(EMPTY, log[..i]);
    ExecConcat(EMPTY, log[..i], seg);
    SplitRun(EMPTY, log, i);
    assert log == log[..i] + seg;
  }

  /** A log in which no client or scope write was refused for want of its tenant has no orphan write. */
  lemma AcceptedWritesAreEnough(s: Control, seg: seq<Mutation>)
    requires forall k | 0 <= k < |seg| :: Step(Run(s, seg[..k]), seg[k]).1 != Failed(NoDirectory)
    ensures NoOrphanWrite(s, seg)
  {
    forall slug, key
      ensures !OrphanWrite(s, seg, slug, key)
    {
      var p := LastOf(seg, m => TouchesItem(m, slug, key));
      if p > 0 && PutsItem(seg[p - 1], slug, key) && LastOf(seg[..p], m => TenantOp(m, slug)) == 0 {
        assert Step(Run(s, seg[..p - 1]), seg[p - 1]).1 != Failed(NoDirectory);
        UntouchedFront(seg, p, slug);
        PresenceFrame(s, seg[..p - 1], slug);
      }
    }
  }

  // ─── Snapshots that do go wrong ───

  const SOME_CLIENT := ClientRec("web", "Web", "public", [], [], [], [], false)

  /** A client written before its tenant is refused by the run and accepted by the replay. */
  lemma OrphanExample()
    ensures var log := [ClientUpsert("acme", Some(ClientPayload(SOME_CLIENT, "", "", ""))),
                        TenantUpsert("acme", Some(TenantPayload("1", "Acme", "acme", NoSettings)))];
            && !NoOrphanWrite(EMPTY, log)
            && LiveSnapshot(EMPTY, log, Run(EMPTY, log))
            && Run(Run(EMPTY, log), log) != Run(EMPTY, log)
  {
    var put := ClientUpsert("acme", Some(ClientPayload(SOME_CLIENT, "", "", "")));
    var make := TenantUpsert("acme", Some(TenantPayload("1", "Acme", "acme", NoSettings)));
    var log := [put, make];
    assert log[..1] == [put] && log[..2] == log;
    assert [put][..0] == [];
    MomentIsSnapshot(EMPTY, log, 2);
    var key := ClientKey("web");
    var end := Run(EMPTY, log);
    assert Run(EMPTY, [put]) == EMPTY;
    assert end == Next(EMPTY, make);
    assert TouchesItem(put, "acme", key) && !TouchesItem(make, "acme", key);
    assert LastOf(log, m => TouchesItem(m, "acme", key)) == 1;
    assert LastOf([put], m => TenantOp(m, "acme")) == 0;
    assert OrphanWrite(EMPTY, log, "acme", key);
    OrphanDiffers(EMPTY, log, "acme", key);
  }

  /** A tenant and its first client: no write is orphaned, yet the replay over the final state stops at the client. */
  lemma BlockedExample()
    ensures var log := [TenantUpsert("acme", Some(TenantPayload("1", "Acme", "acme", NoSettings))),
                        ClientUpsert("acme", Some(ClientPayload(SOME_CLIENT, "", "", "")))];
            && !Exec(EMPTY, log).stuck
            && LiveSnapshot(EMPTY, log, Run(EMPTY, log))
            && Exec(Run(EMPTY, log), log).stuck
  {
    var make := TenantUpsert("acme", Some(TenantPayload("1", "Acme", "acme", NoSettings)));
    var put := ClientUpsert("acme", Some(ClientPayload(SOME_CLIENT, "", "", "")));
    var log := [make, put];
    MomentIsSnapshot(EMPTY, log, 2);
    assert log[..1] == [make] && log[..2] == log;
    OneEntry(EMPTY, make);
    assert Exec(EMPTY, log) == Apply(Exec(EMPTY, [make]), put);
    var end := Run(EMPTY, log);
    assert end == Next(Next(EMPTY, make), put);
    OneEntry(end, make);
    assert Exec(end, log) == Apply(Exec(end, [make]), put);
  }

  /** One tenant upsert, and a snapshot taken inside it. */
  lemma BareExample()
    ensures var log := [TenantUpsert("acme", Some(TenantPayload("1", "Acme", "acme", NoSettings)))];
            var y := Bare(EMPTY, "acme");
            NoOrphanWrite(EMPTY, log) && LiveSnapshot(EMPTY, log, y) && Run(y, log) == y != Run(EMPTY, log)
  {
    var make := TenantUpsert("acme", Some(TenantPayload("1", "Acme", "acme", NoSettings)));
    var log := [make];
    assert log[..0] == [];
    BareIsSnapshot(EMPTY, log, "acme", 0);
    var y := Bare(EMPTY, "acme");
    OneEntry(y, make);
    OneEntry(EMPTY, make);
    assert !y.tenants["acme"].info.Some?;
  }

  /** A tenant with one scope, another scope written, and the snapshot that reads scopes.yaml empty. */
  lemma TornListExample(a: ScopeRec, b: ScopeRec)
    requires a.name != b.name
    ensures var s := Control(map["acme" := TenantDir(Some(TenantInfo("1", "Acme", "")), map[ScopeKey(a.name) := ScopeItem(a)])], map[]);
            var log := [ScopeUpsert("acme", Some(b))];
            var y := WithoutList(s, "acme", false);
            && Sound(s) && NoOrphanWrite(s, log) && NoBareCreate(s, log) && NoMeeting(s, log)
            && LiveSnapshot(s, log, y)
            && ItemAt(Run(s, log), "acme", ScopeKey(a.name)) == Some(ScopeItem(a))
            && ItemAt(Run(y, log), "acme", ScopeKey(a.name)) == None
  {
    var s := Control(map["acme" := TenantDir(Some(TenantInfo("1", "Acme", "")), map[ScopeKey(a.name) := ScopeItem(a)])], map[]);
    var put := ScopeUpsert("acme", Some(b));
    assert [put][..0] == [];
    assert RewritesList(Moment(s, [put], 0), put, "acme", false);
    EmptyListIsSnapshot(s, [put], "acme", false, 0);
    OneEntry(s, put);
    OneEntry(WithoutList(s, "acme", false), put);
  }

  /** A tenant whose settings are updated, and the snapshot that reads tenant.yaml empty. */
  lemma TornInfoExample(doc: string)
    ensures var s := Control(map["acme" := TenantDir(Some(TenantInfo("1", "Acme", "")), map[])], map[]);
            var log := [SettingsUpdate("acme", Some(Doc(doc)))];
            var y := WithBlank(s, "acme");
            && Sound(s) && NoOrphanWrite(s, log) && NoBareCreate(s, log) && NoMeeting(s, log)
            && LiveSnapshot(s, log, y)
            && InfoAt(Run(s, log), "acme") == Some(TenantInfo("1", "Acme", doc))
            && InfoAt(Run(y, log), "acme") == Some(TenantInfo("", "", doc))
  {
    var s := Control(map["acme" := TenantDir(Some(TenantInfo("1", "Acme", "")), map[])], map[]);
    var update := SettingsUpdate("acme", Some(Doc(doc)));
    assert [update][..0] == [];
    assert RewritesInfo(Moment(s, [update], 0), update, "acme");
    BlankIsSnapshot(s, [update], "acme", 0);
    OneEntry(s, update);
    OneEntry(WithBlank(s, "acme"), update);
  }
}
