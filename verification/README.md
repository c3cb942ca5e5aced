# Verified model of the HelloJohn control plane and its caches

HelloJohn is a multi-tenant identity service written in Go. Its configuration lives in
files under `tenants/` and `keys/`, replicated by Raft: a log of mutations is applied by
an FSM whose snapshots are read lazily from the live files. Around that core sit caches,
pools and small protocols that must agree with what they stand in front of. This project
models those parts and proves what they promise.

| file | what it models |
|---|---|
| `ControlPlane.dfy` | the replicated state as a value: mutations, one step, runs of a log |
| `Contents.dfy` | what a log leaves in every file, read off its entries |
| `Applier.dfy` | the applier and the file-system repositories, imperative, refining that step |
| `Replay.dfy` | snapshots read while the log runs on, and what carrying out the log again makes of them |
| `Effects.dfy` | snapshots of one instant, and exactly when carrying out the log again is right |
| `Recovery.dfy` | restoring a snapshot and applying the rest of the log to it: when that recovers the state |
| `LiveRead.dfy` | what Persist can capture between the file steps of the entries being applied |
| `Projection.dfy` | independence of tenants in the log |
| `KeyRotation.dfy` | key rotation as file steps, with crashes and failing calls |
| `Snapshot.dfy`, `Restore.dfy` | archive writing and reading, staged directory swap with rollback |
| `Membership.dfy` | adding and removing Raft voters |
| `Pool.dfy` | the connection pool as interleaved atomic steps, and its methods |
| `Manager.dfy` | the tenant cache over the factory and the pool, as interleaved steps and as methods |
| `Keystore.dfy`, `Jwks.dfy` | signing keys with a retiring slot; the JWKS caches, one entry per tenant |
| `KeyLookup.dfy` | lookups by KID while the applier rotates the key files |
| `RateLimit.dfy` | fixed-window limits over Redis counters |
| `Migrate.dfy` | the SQL migration runner under failing statements |
| `Totp.dfy`, `Phc.dfy`, `Issuer.dfy` | one-time passwords, password hash strings, issuer URLs |
| `MemoryCache.dfy` | the in-memory TTL cache |
| `Strings.dfy`, `Wrappers.dfy` | the string operations and `Option` used above |

Concurrent code is a step machine: a state, labels, `Enabled` and `Step`; a run is any
sequence of enabled steps, so a theorem about runs covers every interleaving. Code that
updates objects is a class whose methods are proved against those machines or against a
specification function.

## What holds only under a condition

Some properties the design aims at are not true of the code as it is. For each, the
model follows the code, a failing input is given, and the exact condition is proved:

- **Answering.** `clientRepo.Update` calls `Get` for its result while it holds the lock
  `Get` asks for (internal/store/adapters/fs/adapter.go:332-368), so a client upsert that
  finds its client present never returns and no later entry is applied. A log is applied
  to its end if and only if no client upsert finds its client
  (`ControlPlane.ExecAnswersIff`); one tenant's entry stops all of them
  (`Projection.AnsweredTogether`).
- **Replay of lazy snapshots.** Every lazily read snapshot, restored and replayed, reaches
  the end of the log in the state of the uninterrupted run, if and only if four things do
  not happen (`Recovery.ReplayExactIff`), and the condition is the same for what Persist can
  capture when it reads every directory and file between any two file steps of the entries
  (`LiveRead.WalkRecoversIff`):
  - an orphan write: a client or scope written to a tenant that does not exist fails,
    because `os.WriteFile` does not create the directory
    (internal/store/adapters/fs/adapter.go:440-447, 713-720), yet succeeds when replayed
    over a snapshot that already has the tenant;
  - a bare creation: a snapshot that catches a tenant's directory before its tenant.yaml
    keeps it bare, unless the log deletes the tenant;
  - a torn file: `os.WriteFile` truncates a file before it writes it
    (internal/store/adapters/fs/adapter.go:204, 222, 446, 719), and a snapshot can catch it
    empty, which is read without an error. An item that the log does not touch is lost when
    its list is rewritten (`Effects.TornItemDiffers`), and a tenant's id and name when its
    settings are updated and the tenant itself is neither upserted nor deleted
    (`Effects.TornInfoDiffers`);
  - a meeting: a client upsert that may find its client in a snapshot. Every client first
    created after the snapshot index is one (`Recovery.FreshClientBlocks`).
- **Key rotation.** At some moment the key that was active is in neither file, unless the
  rotation leaves active.json alone or writes the same key while retiring.json holds it
  too (`KeyRotation.ActiveKeyKeptIff`). A lookup of that key that reads the files then
  misses it whatever the grace, unless it is cached (`KeyLookup.FoundDuringRotationIff`).
- **Live tokens.** Which grace and which spacing of rotations keep every live token's key,
  to the nanosecond (`Keystore.TokensKeepKeysIff`).
- **JWKS.** How old a served document can be, to the nanosecond
  (`Jwks.StalenessExactIff`). A load in flight may bring an older one back after an
  Invalidate (`Jwks.InvalidateHoldsIff`); without one the keystore's own cache still bounds
  what can be served (`Jwks.FreshAfterInvalidate`).
- **CloseAll** conserves connections if and only if nobody takes an entry between its
  reading it and its deleting the key (`Pool.CloseAllConservesIff`).
- **Health checks** close what they listed if and only if nobody stored a connection for
  the slug in between (`Pool.ListedCloseIff`).
- **RetryAfter** is Redis's TTL, rounded to the second, and can be short of the window's
  end by less than half a second, unless the first request's EXPIRE failed
  (`RateLimit.RetryAfterIff`).
- **Address change of a voter.** The removal and the addition are two Raft changes; if the
  new address is taken the server is removed and not added back
  (`Membership.AddressChangeIff`).
- **Issuer round trip.** A base with a query or a fragment, or an opaque one, hides the
  slug (`Issuer.EverySlugRoundTripsIff`).
- **Manager cache.** Entries stored under an ID agree with the resolver only if the ID
  resolves to that tenant (`Manager.CacheAgreesIff`). A refresh leaves the ID's entry in
  place (`Manager.StaleUnderId`), and one that runs between another call's connection and
  its store leaves the slug's (`Manager.RefreshRaces`, `Manager.RefreshTakesHoldIff`). With a
  default database, a tenant whose connection failed is cached without one
  (`Manager.DefaultFailureIsCached`).
- **Migrations.** A gap below the highest recorded version is never filled
  (`Migrate.GapsAreSkipped`); a version 0 is tried again on every run
  (`Migrate.ZeroNeverSettles`).

## Model

| member | source | states |
|---|---|---|
| ControlPlane.SoundRun | internal/store/cluster/applier.go:119-153 | no log ever leaves a tenant directory without its tenant.yaml |
| ControlPlane.NoConflicts | internal/store/cluster/applier.go:119-153 | no entry of any log is answered with a conflict: a tenant upsert always ends as an update or a creation |
| ControlPlane.RunConcat | internal/store/cluster/fsm.go:30-46 | carrying out a log in two parts is carrying it out whole |
| ControlPlane.ExecAnswersIff | internal/store/adapters/fs/adapter.go:332-368 | every entry of a log is answered if and only if no client upsert finds its client present; otherwise the first that does is the last one carried out |
| ControlPlane.SecondUpsertBlocks | internal/store/cluster/applier.go:91-98 | two upserts of one client in a row are enough |
| ControlPlane.ExecConcat | internal/store/cluster/fsm.go:30-46 | applying a log in two parts is applying it whole, as long as the first part comes back |
| Contents.TenantWritten | internal/store/cluster/applier.go:119-153 | a readable upsert writes id, name and settings of the payload to tenant.yaml at the payload's slug and keeps clients and scopes; it always succeeds where no directory is bare |
| Contents.SettingsWritten | internal/store/cluster/applier.go:168-185 | a settings update replaces the settings and keeps id and name; without the tenant it is an error without effect |
| Contents.ItemWritten | internal/store/cluster/applier.go:66-99 | clients and scopes are written whole under their own id or name, only where the tenant is; a client that was there leaves the call unanswered |
| Contents.ItemDeleted | internal/store/cluster/applier.go:101-117 | deletions take exactly what they name and succeed whether it was there or not |
| Contents.KeysWritten | internal/store/cluster/applier.go:229-268 | a rotation writes the keyring of its slug, "" and "global" naming the same one, and no other |
| Contents.Unreadable | internal/store/cluster/applier.go:40-64 | an unreadable payload is an error without effect, an unknown type is nothing |
| Contents.InfoOfLog | internal/store/cluster/applier.go:119-185 | after a log, id and name of a tenant are those of its last upsert since its last delete, the settings those of the last entry that wrote them |
| Contents.PresenceOfLog | internal/store/cluster/applier.go:119-166 | a tenant is there if and only if its last upsert or delete was an upsert, or it was never deleted and was there before |
| Contents.ItemOfLog | internal/store/cluster/applier.go:66-117 | a client or scope is what the last entry to write it wrote, if that found the tenant and no later entry erased it or the tenant |
| Contents.KeysOfLog | internal/store/cluster/applier.go:229-268 | active.json is what the last rotation with an active key wrote, retiring.json what the last rotation said |
| Applier.ContentsExact | internal/store/adapters/fs/adapter.go:425-447 | a YAML list without repeated keys holds exactly the entries of its map view |
| Applier.Find | internal/store/adapters/fs/adapter.go:304-309 | the scan returns the first entry with the key, or the length when there is none |
| Applier.Without | internal/store/adapters/fs/adapter.go:379-387 | the filter loop removes every entry of the key, keeps the rest in order and tells whether one was found |
| Applier.FilteredContents | internal/store/adapters/fs/adapter.go:379-393 | filtering a list removes exactly that key from its map view |
| Applier.FilteredConcat | internal/store/adapters/fs/adapter.go:379-387 | the entries that stay keep their order |
| Applier.ConfigStore.GetClient | internal/store/adapters/fs/adapter.go:250-261 | a client is found if and only if the map view has it |
| Applier.ConfigStore.CreateClient | internal/store/adapters/fs/adapter.go:294-330 | conflict on an existing client, error without a tenant directory, else the map gains exactly that client |
| Applier.ConfigStore.UpdateClient | internal/store/adapters/fs/adapter.go:332-368 | not found when absent; else exactly that client is replaced on disk and the call blocks with the lock held |
| Applier.ConfigStore.DeleteItem | internal/store/adapters/fs/adapter.go:370-394 | not found when absent, else exactly that item is gone |
| Applier.ConfigStore.UpsertScopeItem | internal/store/adapters/fs/adapter.go:638-711 | the scope is replaced or appended; without a tenant directory an error and no effect |
| Applier.ConfigStore.CreateTenant | internal/store/adapters/fs/adapter.go:182-205 | conflict when the directory exists, else a directory with only tenant.yaml |
| Applier.ConfigStore.UpdateTenant | internal/store/adapters/fs/adapter.go:207-223 | not found without tenant.yaml, else tenant.yaml is replaced and the lists stay |
| Applier.ConfigStore.DeleteTenantDir | internal/store/adapters/fs/adapter.go:225-235 | the whole directory goes, clients and scopes with it; not found when there is none |
| Applier.ConfigStore.UpdateTenantSettings | internal/store/adapters/fs/adapter.go:237-244 | settings of a missing tenant are an error without effect; otherwise only the settings change |
| Applier.ConfigStore.UpsertClient | internal/store/cluster/applier.go:66-99 | get, then update or create, is one put of the client in the specification, never answered where the client was there |
| Applier.ConfigStore.DropById | internal/store/cluster/applier.go:101-117 | deleting what is not there is not an error |
| Applier.ConfigStore.UpsertTenant | internal/store/cluster/applier.go:119-153 | the tenant of the payload is created or overwritten by one step of the specification, which Contents.TenantWritten spells out field by field |
| Applier.ConfigStore.DeleteTenant | internal/store/cluster/applier.go:155-166 | idempotent removal of the tenant and all it holds |
| Applier.ConfigStore.UpdateSettings | internal/store/cluster/applier.go:168-185 | as the specification's settings step, errors included |
| Applier.ConfigStore.RotateKey | internal/store/cluster/applier.go:229-268 | a blank active leaves the old one, a blank retiring removes it; "" and "global" name one keyring |
| Applier.ConfigStore.Apply | internal/store/cluster/applier.go:40-64 | the repositories after a mutation, and the answer or its absence, are exactly one step of the specification; what that leaves in each file is stated in module Contents |
| Applier.ConfigStore.ApplyEntry | internal/store/cluster/fsm.go:30-46 | empty and undecodable entries change nothing, the rest is one step |
| Applier.ConfigStore.ApplyLog | internal/store/cluster/fsm.go:30-46 | applying a log in place goes as far, and leaves the same state, as the specification says |
| Recovery.ReplayExactIff | internal/store/cluster/fsm.go:48-51 | every lazily read snapshot, restored and replayed, comes to the end of the log in the state of the uninterrupted run, if and only if no write is orphaned, no creation left bare, no file torn and no client upsert may meet its client; looking only at snapshots of one instant gives the same condition |
| Recovery.ReturningReplaysExactIff | internal/store/cluster/fsm.go:48-51 | where all replays come back, the first three conditions are exact |
| Effects.EffectsExactIff | internal/store/cluster/fsm.go:182-206 | what a replay carries out is right for every snapshot if and only if no write is orphaned, no creation left bare and no file torn |
| Effects.TwiceIff | internal/store/cluster/applier.go:40-64 | carrying out the same entries twice changes nothing if and only if no write is orphaned |
| Recovery.ReplaysAnswerIff | internal/store/adapters/fs/adapter.go:332-368 | the replay of every snapshot comes back from every entry if and only if no client upsert may meet its client |
| Recovery.FreshClientBlocks | internal/store/cluster/applier.go:91-98 | every client first created after the snapshot index can stop a replay |
| Replay.ReplayExact | internal/store/cluster/fsm.go:182-206 | the sufficient half, for any live snapshot; one without bare directories needs no condition on creations, and one that caught no file empty none on rewritten files |
| Recovery.SnapshotThenReplay | internal/store/cluster/fsm.go:48-51 | a snapshot at index i of a log from the empty state, restored and replayed from i, ends where the log ends, not stuck |
| Recovery.AcceptedWritesAreEnough | internal/store/adapters/fs/adapter.go:440-447 | if no client or scope write was refused for want of its tenant, there is no orphan write |
| Effects.OrphanDiffers | internal/store/adapters/fs/adapter.go:440-447 | every orphan write makes a replay over the final state differ at that item |
| Recovery.OrphanExample | internal/store/adapters/fs/adapter.go:440-447 | a log of two entries whose second carrying out differs from the first |
| Recovery.BlockedExample | internal/store/adapters/fs/adapter.go:332-368 | a tenant and its first client, applied to the end, whose replay over the final state stops at the client |
| Recovery.BareExample | internal/store/adapters/fs/adapter.go:191-204 | one tenant upsert, and the snapshot taken inside it |
| Effects.BareDirectoryIsStuck | internal/store/adapters/fs/adapter.go:182-188 | a bare directory makes every later upsert of that tenant a conflict until it is deleted |
| Effects.BareDiffers | internal/store/adapters/fs/adapter.go:182-205 | every tenant the log creates and keeps is lost by the snapshot that catches its Create halfway |
| Effects.TornItemDiffers | internal/store/adapters/fs/adapter.go:440-447 | every item the log leaves alone, in a list it rewrites, is lost by the snapshot that catches that file empty |
| Effects.TornInfoDiffers | internal/store/adapters/fs/adapter.go:207-244 | every tenant whose settings the log updates, and which it neither upserts nor deletes, loses id and name by the snapshot that catches tenant.yaml empty |
| Recovery.TornListExample | internal/store/cluster/fsm.go:160-178 | one scope upsert and the snapshot that reads scopes.yaml empty: the other scope does not come back |
| Recovery.TornInfoExample | internal/store/cluster/fsm.go:160-178 | one settings update and the snapshot that reads tenant.yaml empty: id and name do not come back |
| Replay.SoundAfterDelete | internal/store/adapters/fs/adapter.go:225-235 | a deletion leaves nothing of a bare directory |
| Effects.InstantIsLive | internal/store/cluster/fsm.go:182-206 | the disk between two entries, inside a Create, or between the truncation and the write of a file, is a live snapshot |
| Effects.MomentIsSnapshot | internal/store/cluster/fsm.go:182-206 | the state at any one moment is a special case of a live snapshot, with every file whole |
| Replay.ItemReplay | internal/store/cluster/applier.go:66-117 | one client or scope comes out right unless it is an orphan write, or it is left alone and its file was caught empty |
| Replay.InfoReplay | internal/store/cluster/applier.go:119-185 | identity and settings of a tenant come out right although settings updates read before they write, unless its creation is left bare, or tenant.yaml was caught empty and no upsert or deletion follows |
| Replay.RingReplay | internal/store/cluster/applier.go:229-268 | a keyring comes out right, retiring.json included |
| Replay.ActiveReplay | internal/store/cluster/applier.go:250-255 | active.json comes out right although blank rotations keep it and a snapshot may miss it while it is rewritten |
| Replay.ItemDecided | internal/store/cluster/applier.go:66-117 | the last write of an item decides it, by whether the tenant was there |
| LiveRead.CapturedIsLive | internal/store/cluster/fsm.go:151-206 | reading every directory and file at any instants while entries create, truncate, write, delete and rotate step by step yields only live snapshots |
| LiveRead.InstantIsCaptured | internal/store/cluster/fsm.go:151-206 | a walk that finds the disk standing still captures it |
| LiveRead.WalkRecoversIff | internal/store/cluster/fsm.go:151-206 | the four conditions are exact for what Persist can capture this way |
| Projection.TenantProjection | internal/store/cluster/applier.go:40-64 | a tenant's part of the state, once a log is carried out, is the result of only the mutations addressed to it |
| Projection.PartIs | internal/store/cluster/applier.go:239-245 | a tenant's part is its directory and its keyring, both whole |
| Projection.StepElsewhere | internal/store/cluster/applier.go:239-245 | a mutation leaves every part it is not addressed to as it was |
| Projection.StepLocal | internal/store/cluster/applier.go:40-64 | what a mutation does to a part depends on that part alone |
| Projection.AnswersAreLocal | internal/store/cluster/applier.go:40-64 | so does the answer, as long as entries are carried out |
| Projection.AnsweredTogether | internal/store/adapters/fs/adapter.go:332-368 | a log is applied to its end if and only if each tenant's own entries would be |
| Projection.DifferentTenantsCommute | internal/store/cluster/applier.go:40-64 | mutations of different tenants commute |
| KeyRotation.KeyFiles.AtomicWrite | internal/store/cluster/applier.go:272-295 | at every step, stopped or failing at any call, the file is whole-old, absent or whole-new, never torn |
| KeyRotation.KeyFiles.RotateKey | internal/store/cluster/applier.go:229-268 | every moment of a rotation, with any call failing, is one of the listed intermediate states; a failing Remove of retiring.json goes unnoticed and leaves it; without fault the directory passes through exactly the listed states, those of active.json before those of retiring.json |
| KeyRotation.RotationAsSpecified | internal/store/cluster/applier.go:250-265 | the files after a rotation are the control plane's rotation |
| KeyRotation.Reapply | internal/store/cluster/applier.go:229-268 | re-applying the same entry to what an interrupted rotation left gives the uninterrupted result |
| KeyRotation.InterruptedAgain | internal/store/cluster/applier.go:229-268 | interrupting the second attempt leaves again only intermediate states of the first |
| KeyRotation.RepeatedCrashes | internal/store/cluster/applier.go:229-268 | after any number of crashed attempts one completed attempt repairs everything |
| KeyRotation.ActiveKeyKeptIff | internal/store/cluster/applier.go:250-294 | the key that was active is in active.json or retiring.json at every moment if and only if active.json is left alone, or the same key is written while retiring.json holds it too |
| KeyLookup.FoundDuringRotationIff | internal/store/adapters/fs/key.go:118-157 | beside a rotation every lookup of the active key finds it, whatever the moments of its reads and the grace, if and only if it is cached, or active.json is left alone, or the same key is written and the tenant's fallback keyring lists it |
| Snapshot.TargetConfined | internal/store/cluster/fsm.go:90-99 | whatever an archive entry is called, it is skipped or lands under tenants or keys |
| Snapshot.CleanDrops | internal/store/cluster/fsm.go:90-92 | empty elements and "." do not count in a name, and ".." takes back the name before it |
| Snapshot.AbsoluteSkipped | internal/store/cluster/fsm.go:90-97 | absolute names are skipped and a backslash counts as a slash |
| Snapshot.ExtractConfined | internal/store/cluster/fsm.go:80-119 | an unpacked archive holds only paths under tenants and keys |
| Snapshot.ExtractOneEntry | internal/store/cluster/fsm.go:94-118 | over any tree, a foreign name or another kind of entry is skipped, a file gets the entry's data, everything else stays, and only a file on the way or a directory in place of a file fails |
| Snapshot.NameRoundTrip | internal/store/cluster/fsm.go:90-99 | a written path, with or without its final slash, is read back as itself |
| Snapshot.Walk | internal/store/cluster/fsm.go:188-201 | the archive of a subtree lists every directory and file in it, once each |
| Snapshot.Persist | internal/store/cluster/fsm.go:188-201 | any walk order of a tree archives exactly that tree |
| Snapshot.MkdirAllIff | internal/store/cluster/fsm.go:101-108 | MkdirAll succeeds if and only if no file stands on the way |
| Snapshot.ExtractWithin | internal/store/cluster/fsm.go:80-119 | unpacking entries of a tree, in any order, stays inside that tree and never fails |
| Snapshot.ArchiveRoundTrip | internal/store/cluster/fsm.go:80-119 | unpacking any archive of a tree gives the tree, empty directories included |
| Restore.Root.SwapOne | internal/store/cluster/fsm.go:122-140 | with any Rename failing, at every step the subtree has a complete tree at its place, its .bak or in staging; it is installed if and only if that rename works and the live directory, if there is one, could be moved away |
| Restore.Root.RollBack | internal/store/cluster/fsm.go:132-137 | after the rollback the old subtree is back, or still whole in .bak |
| Restore.Root.Swap | internal/store/cluster/fsm.go:121-140 | nil means both subtrees are new; an error means a prefix of them is new, the failing one is not lost and the rest untouched |
| Restore.Root.Restore | internal/store/cluster/fsm.go:54-144 | the same from the archive on; nil if and only if the archive unpacks and no rename stands in the way, and staging is gone then; an archive that cannot be unpacked touches nothing live; after a crash that left only .bak, a retry keeps it until the new tree is whole in staging |
| Restore.SnapshotRoundTrip | internal/store/cluster/fsm.go:151-218 | a quiescent root, persisted and restored, comes back exactly; a missing subtree comes back empty |
| Membership.AppliedOneApart | internal/cluster/node.go:374-429 | a change touches at most the server it names and keeps IDs unique |
| Membership.AppliedServers | internal/cluster/node.go:414-479 | which servers a change leaves |
| Membership.MajoritiesIntersect | internal/cluster/node.go:374-485 | majorities of two sets that differ in at most one element intersect |
| Membership.ConsecutiveMajorities | internal/cluster/node.go:374-485 | majorities of consecutive configurations intersect (section 4.1 of Ongaro's dissertation) |
| Membership.Node.LandLate | internal/cluster/node.go:418-428 | changes whose caller was cancelled may still commit; history stays one server apart at every step |
| Membership.Node.Submit | internal/cluster/node.go:414-428 | success means the change has just been committed; cancellation leaves it pending |
| Membership.Node.RemoveLocked | internal/cluster/node.go:448-485 | idempotent; success means the server is not in the configuration |
| Membership.Node.RemoveServer | internal/cluster/node.go:433-445 | an empty id is refused; success means absent; absent means nothing is sent |
| Membership.Node.AddVoter | internal/cluster/node.go:374-429 | success means present with that address; a present server sends nothing; every committed step is a one-server step, cancellations included |
| Membership.AddressChangeIff | internal/cluster/node.go:404-414 | an address change commits if and only if there is another voter and the address is free; with the address taken the server is removed and not added |
| Membership.AddressTaken | internal/cluster/node.go:404-414 | every configuration in which a taken address loses the server |
| Pool.RunInv | internal/store/pool.go:76-255 | the invariants of every interleaving of Get, Close, Refresh, health checks and one CloseAll |
| Pool.StoreNeverOverwrites | internal/store/pool.go:86-106 | a flight about to store finds no entry for its slug, in any run |
| Pool.OnePerSlug | internal/store/pool.go:76-118 | two connections of a slug are never both pooled or about to be |
| Pool.JoinersAgree | internal/store/pool.go:85-118 | all callers of one flight get the same answer |
| Pool.EveryConnectionAccounted | internal/store/pool.go:76-139 | every opened connection is pending, pooled, taken out, or closed exactly once, in every run without CloseAll and in every run that does not disturb it |
| Pool.CloseAllConservesIff | internal/store/pool.go:142-159 | once CloseAll is at no entry, every connection is accounted for if and only if nobody took an entry between its reading it and its deleting the key |
| Pool.CloseAllRaces | internal/store/pool.go:142-159 | a run in which a refresh inside CloseAll has one connection closed twice and another lost |
| Pool.ListedCloseIff | internal/store/pool.go:219-245 | if a health check's Close finds an entry, that is the connection it listed if and only if no Store for the slug came in between |
| Pool.ListedTwiceClosesSuccessor | internal/store/pool.go:221-245 | a run in which an entry listed twice costs its successor the connection, conservation notwithstanding |
| Pool.GetEnds | internal/store/pool.go:76-118 | the steps of one undisturbed Get: one new connection pooled, or none |
| Pool.ConnectionPool.Get | internal/store/pool.go:76-118 | the pooled connection if there is one, else the new one, which is pooled; nothing is closed |
| Pool.ConnectionPool.Close | internal/store/pool.go:127-139 | the entry goes and its connection is closed once |
| Pool.ConnectionPool.Refresh | internal/store/pool.go:249-255 | the old connection is closed exactly once and never returned; other slugs are untouched |
| Pool.ConnectionPool.RunHealthCheck | internal/store/pool.go:215-246 | exactly the dead and the idle entries go, each closed once although it may be listed twice |
| Pool.ConnectionPool.ListStale | internal/store/pool.go:219-240 | the list names exactly the dead and idle entries |
| Pool.ConnectionPool.CloseAll | internal/store/pool.go:142-165 | with nothing under way the pool ends empty and every connection opened has been closed exactly once |
| Manager.NeverCachesBrokenDb | internal/store/manager.go:149-160 | in every interleaving a cached access of a tenant with a database driver has a connection |
| Manager.CacheAgreesIff | internal/store/manager.go:137-163 | in every interleaving a cached answer is for the tenant resolveTenant picks, if and only if every tenant that can be cached is what its ID resolves to |
| Manager.SlugResolves | internal/store/factory.go:240-259 | a slug always resolves to its own tenant |
| Manager.FirstWithId | internal/store/adapters/fs/adapter.go:168-180 | an ID finds the first directory with it whose name does not start with a dot |
| Manager.CloseIsCleanIff | internal/store/manager.go:202-215 | closing a slug's connection keeps its lookups free of closed connections if and only if nobody still holds it under that slug |
| Manager.RunClean | internal/store/manager.go:196-215 | once clean, a slug stays clean over every run that does not close its connection again |
| Manager.RefreshTakesHoldIff | internal/store/manager.go:202-215 | some run after a refresh, without another close, answers a lookup by slug with a closed connection, if and only if a call under way had fetched the connection the refresh closed |
| Manager.StaleUnderId | internal/store/manager.go:157-159 | after a refresh a lookup by ID still answers with the closed connection |
| Manager.RefreshRaces | internal/store/manager.go:137-215 | a refresh inside another call leaves the closed connection under the slug |
| Manager.DefaultFailureIsCached | internal/store/manager.go:152-160 | with a default database a failed connection is cached |
| Manager.FetchingInv | internal/store/factory.go:261-318 | what the factory hands out belongs to the tenant: its pooled connection, one closed since, or none; the pool stays one connection per slug |
| Manager.ChoiceSuits | internal/store/factory.go:261-295 | the database chosen is the tenant's own if it has a driver, with the plain or else the decrypted DSN, and the default otherwise; failed decryption is the one fatal error |
| Manager.FactoryDials | internal/store/factory.go:261-318 | with no connection pooled the factory dials exactly the database that suits the tenant, and none where there is none |
| Manager.CachedSuits | internal/store/manager.go:137-163 | in every interleaving a cached access is connected to the database that suits its tenant |
| Manager.GetById | internal/store/adapters/fs/adapter.go:168-180 | the loop finds the first listed tenant with that ID, hidden directories left out |
| Manager.TenantManager.FactoryForTenant | internal/store/factory.go:136-159 | slug before ID; a decryption error is fatal, a failed connection is not; a new connection is dialed with the chosen database |
| Manager.TenantManager.ForTenant | internal/store/manager.go:137-163 | the cached access, or the factory's answer stored under slug and ID when it may be cached; a connection it hands out was dialed with the database that suits the tenant; while all slugs are clean, a lookup by slug does not answer with a closed connection |
| Manager.TenantManager.ClearTenant | internal/store/manager.go:196-198 | that key only is forgotten |
| Manager.TenantManager.ClearCache | internal/store/manager.go:191-193 | everything is forgotten and nothing closed |
| Manager.TenantManager.RefreshTenant | internal/store/manager.go:202-215 | key forgotten and connection closed; where no ID is another tenant's slug, slugs that were clean stay clean |
| Keystore.TokensKeepKeysIff | internal/jwt/keystore.go:67-146 | over all runs of issuing, cache refreshes and rotations every unexpired token finds its key, in the JWKS and for a lookup by KID, if and only if grace and spacing are at least cache TTL plus store delay plus token TTL less a nanosecond; without a cache, at least the token TTL |
| Keystore.NoTokenLosesItsKey | internal/jwt/keystore.go:67-146 | the sufficient half, in every run |
| Keystore.RetiredUntil | internal/store/adapters/fs/key.go:585-601 | the replaced key stays listed for exactly the grace in whole seconds, for good without one |
| Keystore.KeyLost | internal/jwt/keystore.go:188-192 | any smaller grace or spacing has a run in which a live token's key is in no JWKS and in no cache |
| Keystore.PersistentKeystore.ActiveForTenant | internal/jwt/keystore.go:67-104 | the cached key while its TTL lasts, else the repository's; only the global key is cached |
| Keystore.PersistentKeystore.PublicKeyByKid | internal/jwt/keystore.go:112-146 | found if and only if it is the cached key or in the JWKS |
| Keystore.PersistentKeystore.JwksForTenant | internal/jwt/keystore.go:154-185 | the cached JWKS while its TTL lasts, else the repository's |
| Jwks.StalenessBound | internal/jwt/jwks_cache.go:31-54 | whatever loads overlap, for whichever tenants, a Get begun at t is served what the repository held for the tenant's own keyring: the global one later than t minus both TTLs and the store delay, any other later than t minus the TTL, a nanosecond less when there is a TTL |
| Jwks.StalenessExactIff | internal/jwt/jwks_cache.go:31-54 | for every tenant the loader finds, a bound on the age of served documents holds in every run if and only if it is at least that one |
| Jwks.AskedSpelled | internal/http/server/wiring.go:98-121 | blank names and "global" in any case load the global JWKS, every other name that of the tenant it resolves to |
| Jwks.KeyAsks | internal/jwt/jwks_cache.go:32-35 | two names kept under one key load the same JWKS |
| Jwks.LateLoadServesNobody | internal/jwt/jwks_cache.go:36-53 | a load that took longer than the TTL stores an entry that answers no later Get |
| Jwks.InvalidateHoldsIff | internal/jwt/jwks_cache.go:45-65 | in a run after an Invalidate of a tenant no Get of that tenant begun then or later can be served from an earlier load, if and only if no load of the same key in flight stores later with its TTL reaching past the Invalidate |
| Jwks.FreshAfterInvalidate | internal/jwt/jwks_cache.go:57-65 | without such a load, a Get begun after an Invalidate at T is served what the repository held for the tenant's keyring later than T minus the keystore's own bound |
| Jwks.InvalidateThenLateStore | internal/jwt/jwks_cache.go:57-65 | a run in which the older document is served again |
| Jwks.JwksCache.Get | internal/jwt/jwks_cache.go:31-54 | what is live for the tenant, else the loaded document, live from then until the TTL counted from before the load, for this tenant and, between "" and "global", for both; a failed load stores nothing; what other tenants would be answered stays |
| Jwks.JwksCache.Invalidate | internal/jwt/jwks_cache.go:57-65 | the tenant has nothing live any more, "" meaning global; what other tenants would be answered stays |
| RateLimit.RedisLimiter.Allow | internal/rate/limiter.go:45-85 | the counter and the answer are those of the specification, TTLs in whole seconds as Redis rounds them |
| RateLimit.MultiRedisLimiter.AllowWithLimits | internal/rate/multi_limiter.go:34-56 | the cache of limiters is invisible: every call answers as a limiter built for it |
| RateLimit.SharedIff | internal/rate/limiter.go:45-48 | under one prefix two keys share their counters if and only if they are equal but for spaces and underscores; no prefix means "rl:" |
| RateLimit.OtherKeyUntouched | internal/rate/limiter.go:45-85 | a request for one key changes neither the counters of another nor its next answer |
| RateLimit.KeyUnix | internal/rate/limiter.go:46-48 | the key of a window carries the Unix second of its start |
| RateLimit.Counting | internal/rate/limiter.go:50-63 | a counter counts up while it lives and starts at one again from the instant of its expiry |
| RateLimit.CountersOk | internal/rate/limiter.go:46-59 | a window's counter is the number of its requests and lives one window length from the first of them, or for ever if that one's EXPIRE failed |
| RateLimit.HitsAreArrivals | internal/rate/limiter.go:61-63 | CurrentHits is the request's place in its window, whatever limits share the key |
| RateLimit.KeyHits | internal/rate/limiter.go:45-85 | over all interleaved calls, the answer counts the calls for its own key in its window and nobody else's; Remaining is what is left of Max |
| RateLimit.FirstMaxPass | internal/rate/limiter.go:62 | a request passes if and only if fewer than its Max came before it in its window |
| RateLimit.PerWindow | internal/rate/multi_limiter.go:34-56 | at most Max requests pass per aligned window, each limit sharing the counter keeping its own bound |
| RateLimit.PerKeyAndWindow | internal/rate/multi_limiter.go:34-56 | at most Max calls for a key pass per aligned window, however many calls other keys make |
| RateLimit.AnyInterval | internal/rate/limiter.go:45-85 | at most (k+1) times Max requests pass in any interval of k window lengths |
| RateLimit.RetryAfterIff | internal/rate/limiter.go:74-80 | a refused caller that waits RetryAfter comes back in a later window if and only if the first request's EXPIRE failed, or the rest of the window is whole seconds, or its fraction and the first request's offset make half a second; never half a second early |
| RateLimit.WindowTtl | internal/rate/limiter.go:50-73 | WindowTTL is the rest of the counter's life to the nearest second, counted from the first request, or -1 if its EXPIRE failed |
| RateLimit.RetryTooEarly | internal/rate/limiter.go:74-80 | a minute's window in which the caller comes back 0.4 s too early |
| Migrate.ParseMigrations | internal/store/migrate.go:56-100 | the matching files, each once, in ascending order of version |
| Migrate.TakenName | internal/store/migrate.go:51-75 | digits, "_", a name and "_up.sql" are taken, with the digits as version and the name as name |
| Migrate.OnlyTaken | internal/store/migrate.go:51-75 | no other file name is |
| Migrate.PrintedName | internal/store/migrate.go:51-75 | a printed version and a name come back; a "_down.sql" file is never taken |
| Migrate.OneOrder | internal/store/migrate.go:94-97 | with distinct versions there is only one such order, whatever the sort |
| Migrate.Database.GetAppliedVersions | internal/store/migrate.go:219-241 | every number up to the maximum is marked, none when there is no row |
| Migrate.Database.ApplyMigration | internal/store/migrate.go:244-257 | the SQL, then its record; a version already recorded is refused |
| Migrate.Database.Run | internal/store/migrate.go:109-155 | skipped, applied and failed versions, and the database, are those of the specification |
| Migrate.Database.RunWithPgxPool | internal/store/migrate.go:287-355 | the pgx form does the same as Run |
| Migrate.Database.HasPending | internal/store/migrate.go:158-185 | pending without a table, else if some version is not marked |
| Migrate.RunsKeepAPrefix | internal/store/migrate.go:109-155 | over every sequence of runs failing at any statement, rows are a prefix of the sorted list, each was executed with its own SQL, the trace never goes back and only a failed version is tried again |
| Migrate.RunsSettle | internal/store/migrate.go:109-155 | over such runs rows are never lost, and a last run without error has recorded its whole list |
| Migrate.RowsStayAPrefix | internal/store/migrate.go:226-232 | rows stay a prefix even if the maximum is read as "no rows" |
| Migrate.UpToMaxIsExact | internal/store/migrate.go:234-238 | on such a database "all up to the maximum" is exactly the recorded set |
| Migrate.NilRunSettles | internal/store/migrate.go:109-185 | after a run without error the whole list is recorded, the report says what was new and nothing is pending |
| Migrate.FailedRun | internal/store/migrate.go:109-155 | a run that fails at a migration names it, lists what it skipped and applied before, and has tried that one last |
| Migrate.EarlyFailure | internal/store/migrate.go:109-135 | a run that fails before the migrations executes and records nothing |
| Migrate.PendingAnswers | internal/store/migrate.go:158-185 | without the table everything is pending; a lookup, query or parse that fails is an error; no rows means all are pending |
| Migrate.PendingIsExact | internal/store/migrate.go:158-185 | something is pending if and only if it is not recorded |
| Migrate.GapsAreSkipped | internal/store/migrate.go:234-238 | from any table, a run without error records everything if and only if nothing was missing below the maximum |
| Migrate.ZeroNeverSettles | internal/store/migrate.go:236-238 | a recorded version 0 makes every later run fail |
| Totp.ValueOfMessage | internal/security/totp/totp.go:62-66 | the message is the eight-byte big-endian encoding, modulo 2^64 (section 5.1 of RFC 4226) |
| Totp.MessagesDiffer | internal/security/totp/totp.go:62-66 | different counters have different messages |
| Totp.Gen | internal/security/totp/totp.go:60-74 | the byte loop computes the code of the specification |
| Totp.CodeShape | internal/security/totp/totp.go:70-73 | six digits that read back as the truncated value modulo 10^6 (section 5.3 of RFC 4226) |
| Totp.Truncated | internal/security/totp/totp.go:70-71 | truncation reads inside the digest and gives 31 bits |
| Totp.TruncatedReads | internal/security/totp/totp.go:70-71 | the four bytes start where the low nibble of the last byte says, and their big-endian value without the sign bit is the result (section 5.3 of RFC 4226) |
| Totp.RfcExample | internal/security/totp/totp.go:60-74 | the digest of section 5.4 of RFC 4226 gives 872921 |
| Totp.PeriodTruncates | internal/security/totp/totp.go:44-46 | periods of 30 seconds, the one around zero twice as long |
| Totp.Scan | internal/security/totp/totp.go:49-56 | the loop finds the first matching counter of the window |
| Totp.Verify | internal/security/totp/totp.go:40-58 | the smallest counter of the window beyond the last used one whose code matches, or none |
| Totp.AcceptedClimb | internal/security/totp/totp.go:50-52 | fed back, accepted counters strictly increase: no code is accepted twice |
| Totp.AcceptedInWindow | internal/security/totp/totp.go:46-49 | each lies within the window of its attempt, counted in periods of 30 seconds |
| Totp.AcceptedBound | internal/security/totp/totp.go:40-58 | between two times at most one code per 30 seconds passes, plus the window on both sides (section 5.2 of RFC 6238) |
| Totp.FreshCodePasses | internal/security/totp/totp.go:49-56 | the code of an unused counter in the window is accepted |
| Phc.DecodeEncode | internal/security/password/argon2id.go:49-54 | unpadded base64 is read back exactly (section 4 of RFC 4648) |
| Phc.DecodeEncodeUrl | internal/security/password/argon2id.go:49-54 | so is the URL alphabet (section 5 of RFC 4648) |
| Phc.NotBase64 | internal/security/password/argon2id.go:49-54 | a character outside both alphabets, or one of each, is refused |
| Phc.StandardAlphabet | internal/security/password/argon2id.go:41-45 | A to Z, a to z, 0 to 9, plus and slash (section 4 of RFC 4648) |
| Phc.SameNumber | internal/security/password/argon2id.go:41-45 | four characters carry the bits of three bytes in order |
| Phc.PrintedIs | internal/security/password/argon2id.go:41-45 | the stored string, field by field |
| Phc.EncodeHasNoSeparator | internal/security/password/argon2id.go:41-45 | base64 never introduces a separator |
| Phc.SettingsRead | internal/security/password/argon2id.go:76-91 | m, t and p are read back from the printed list |
| Phc.ParsePrinted | internal/security/password/argon2id.go:63-102 | the printed string parses to every field it was made of; a zero parameter is refused |
| Phc.OtherAlgorithm | internal/security/password/argon2id.go:62-66 | another algorithm is refused |
| Phc.OtherVersion | internal/security/password/argon2id.go:67-74 | another version, or one that is not a number, is refused |
| Phc.UnknownSetting | internal/security/password/argon2id.go:76-91 | settings with another key or without "=" change nothing |
| Phc.TrailingParts | internal/security/password/argon2id.go:62-66 | what follows the key is ignored |
| Phc.Verify | internal/security/password/argon2id.go:57-105 | the loops and early returns give the verdict of the specification |
| Phc.HashThenVerify | internal/security/password/argon2id.go:32-105 | a string made by Hash accepts exactly the passwords that derive the same key, if and only if the memory is not zero |
| Phc.EmptyRefused | internal/security/password/argon2id.go:32-35 | an empty password is neither hashed nor accepted |
| Phc.RoundsWrap | internal/security/password/argon2id.go:103 | a t that is a multiple of 2^32 becomes zero rounds in the conversion |
| Issuer.ExtractSlug | internal/jwt/issuer.go:328-339 | the loop keeps the segment after the last "t" |
| Issuer.LastAfterT | internal/jwt/issuer.go:332-337 | of the segments that follow a "t" the last is the slug; without one there is none |
| Issuer.KeyFromTokenClaims | internal/jwt/issuer.go:320-373 | iss, then tid as slug or through the resolver; the tenant's key first, then the global one |
| Issuer.SlugOfPath | internal/jwt/issuer.go:332-337 | whatever comes before, the slug after the last "t" is found |
| Issuer.UrlPathExtends | internal/jwt/issuer.go:331 | a base that parses with a path keeps it in front of what is appended |
| Issuer.UrlForms | internal/jwt/issuer.go:331 | scheme://authority/path has that path if and only if the authority is well formed; an opaque URL has none |
| Issuer.RelativeForm | internal/jwt/issuer.go:331 | without a scheme and a colon in its first segment a URL is its own path |
| Issuer.NotAScheme | internal/jwt/issuer.go:331 | a colon in the first segment without a scheme before it is an error |
| Issuer.BrokenFragment | internal/jwt/issuer.go:331 | so is a broken escape in the fragment |
| Issuer.UnescapeEscaped | internal/jwt/issuer.go:331 | every byte string is read back from its percent escapes, in digits of either case |
| Issuer.BadEscape | internal/jwt/issuer.go:331 | an escape cut off or with another digit is an error |
| Issuer.SlugRoundTrip | internal/jwt/issuer.go:302-339 | without query or fragment a slug comes back if and only if the base has a path |
| Issuer.EverySlugRoundTripsIff | internal/jwt/issuer.go:302-339 | every slug comes back if and only if the base has no query or fragment and is not opaque or malformed |
| Issuer.IssuerForms | internal/jwt/issuer.go:302-316 | an override wins without its final slashes; path and domain mode append /t/ and the slug to the base, other modes give the base |
| Issuer.UsualBase | internal/jwt/issuer.go:302-339 | for a base scheme://authority with a plain path every slug comes back if and only if the authority is well formed |
| Issuer.TidDecides | internal/jwt/issuer.go:340-356 | where iss gives no slug, tid does: as it is, or through the resolver if it is a UUID |
| Issuer.IssuerDecidesTenant | internal/jwt/issuer.go:328-358 | a resolved issuer decides the tenant whatever tid says |
| MemoryCache.Refines | internal/cache/memory.go:40-98 | after any Set, Delete and Cleanup under a nondecreasing clock, lookups answer as the reference map does; a negative ttl is expired at once |
| MemoryCache.CleanupsDoNotMatter | internal/cache/memory.go:133-143 | Cleanup changes no later answer |
| MemoryCache.FullKeyInjective | internal/cache/memory.go:33-38 | different keys stay different behind the prefix |
| MemoryCache.StatsAtTheInstant | internal/cache/memory.go:115-122 | Stats and Get disagree on exactly the entries expiring at that instant |
| MemoryCache.MemoryClient.Get | internal/cache/memory.go:40-58 | the reference answer, counted as a hit or a miss |
| MemoryCache.MemoryClient.Exists | internal/cache/memory.go:83-98 | true if and only if the reference has a value |
| MemoryCache.MemoryClient.Set | internal/cache/memory.go:60-74 | the history gains that Set |
| MemoryCache.MemoryClient.Delete | internal/cache/memory.go:76-81 | the history gains that Delete |
| MemoryCache.MemoryClient.Cleanup | internal/cache/memory.go:133-143 | exactly the expired entries go |
| MemoryCache.MemoryClient.GetStats | internal/cache/memory.go:111-130 | the number of entries with their expiry ahead; hits plus misses is the number of Gets |

## Left out

Control plane and files
- Raft consensus, its log storage and transport: the log is a sequence. The rules Raft checks on a configuration (unique non-empty IDs and addresses, a voter left) are assumptions of `Membership.dfy`.
- JSON, YAML, tar and gzip: payloads are datatypes that decoded or did not, an archive is a sequence of entries.
- Timestamps and secrets the repositories write, and the order of entries inside a YAML file (the map views do not see it; a replay may reorder it).
- Writes of a tenant file that reach the disk in several pieces: a file is truncated and then written in one step, so a snapshot holds it whole, empty or not at all. Failing writes of tenant files, and files in a tenant's directory that no mutation writes. Other callers of the repositories, who wait for the lock of a blocked update as well.
- Slugs that are not plain names (empty, with slashes); the empty file-system root and absent repositories, where the handlers do nothing.
- Failing RemoveAll and MkdirAll in Restore, file modes, symbolic links, leftover temporary files and backslashes in names.
- Bootstrapping a cluster, leader forwarding, mode detection and statistics.

Caches, pools and keys
- OnConnect and OnDisconnect callbacks, errors of closing a connection, pool statistics, and the periodic timer that starts a health check. At most one CloseAll runs at a time. The manager model has no health checks: the factory starts none.
- The rotation of `Keystore.dfy` is one step, as the repository's lock makes it; the applier's is the one of `KeyRotation.dfy`, without that lock, and `KeyLookup.dfy` has one rotation at a time and a global keyring nobody rotates meanwhile. A rotation without an active key (internal/store/adapters/fs/key.go:218-229) takes its own lock twice and does not return. The interleaving models take a keyring as it is, without the fallback of a tenant's keyring to the global one; `Jwks.dfy` has a tenant's name resolve to the same slug throughout.
- Connection limits of a database, creation of the per-tenant cache client, and tenants whose settings change while their access is cached.
- Lost updates of the memory cache's counters, which Get increments under a read lock; Close, after which Set writes to a nil map.

Arithmetic and formats
- Rate limits of different window lengths under one name and windows that are not whole seconds: they share keys, so `WholeSeconds` and one window per run are preconditions. Redis keeps milliseconds, the model nanoseconds. Keys formatted as text: a key is the pair it is formatted from.
- Verify: the window's ends are unbounded integers; int64 overflow needs a window of 2^62 periods. What the caller stores is taken to be the returned counter.
- HMAC-SHA1, Argon2, Ed25519 and AES-GCM are parameters; Lawful states the one law of Argon2 used.
- The grammar of a URL's authority is a parameter of `Issuer.dfy`; scheme, query, fragment and percent-decoding are modelled.
- Migrate: durations and error texts; name and time columns of the recorded rows; the side effects of a migration's SQL beyond the record of its attempts.
- HTTP, OAuth clients, e-mail, logging and the user interface.
