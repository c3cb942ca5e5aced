/**
 FSM.Restore on disk: unpack into restore.tmp, then for tenants and keys in turn
 move the live directory to .bak, move the staged one into its place, and move
 the old one back if that fails.  Every state the disk goes through is recorded,
 so that stopping anywhere is covered.
 */
module Restore {
  import opened Wrappers
  import opened Snapshot

  /** A directory that is whole, or in the middle of being written or removed. */
  datatype Slot = Whole(tree: Tree) | Partial

  /** The directories Restore touches: {sub}, {sub}.bak and restore.tmp/{sub}. */
  datatype Disk = Disk(place: map<string, Slot>, bak: map<string, Slot>, staged: map<string, Slot>)

  /** Which of the three renames of one subtree fails of its own accord. */
  datatype Faults = Faults(toBak: bool, intoPlace: bool, rollBack: bool)

  function At(m: map<string, Slot>, sub: string): Option<Slot> {
    if sub in m then Some(m[sub]) else None
  }

  /** The tree Restore installs for a subtree: the unpacked one, or an empty directory. */
  function NewTree(unpacked: Tree, sub: string): Tree {
    if [sub] in unpacked then Under(unpacked, sub) else map[[sub] := Dir]
  }

  // ─── What holds at every moment ───

  /** The live tree of `sub` from before is still there under one of its two names, or the new one is in place. */
  ghost predicate Kept(was: Disk, renewed: Tree, sub: string, d: Disk) {
    || At(d.place, sub) == Some(Whole(renewed))
    || At(d.place, sub) == At(was.place, sub)
    || (sub in was.place && At(d.bak, sub) == At(was.place, sub))
  }

  /** The new tree is in place or still whole in staging. */
  ghost predicate Arriving(renewed: Tree, sub: string, d: Disk) {
    At(d.place, sub) == Some(Whole(renewed)) || At(d.staged, sub) == Some(Whole(renewed))
  }

  /**
   What a retry keeps of a subtree whose live directory an earlier, interrupted Restore had moved away:
   .bak stays until the new tree is whole in staging.
   */
  ghost predicate Survives(was: Disk, renewed: Tree, sub: string, d: Disk) {
    sub !in was.place ==> At(d.bak, sub) == At(was.bak, sub) || Arriving(renewed, sub, d)
  }

  ghost predicate SameElsewhere(was: Disk, sub: string, d: Disk) {
    forall other | other != sub ::
      && At(d.place, other) == At(was.place, other)
      && At(d.bak, other) == At(was.bak, other)
      && At(d.staged, other) == At(was.staged, other)
  }

  ghost predicate MidSwap(was: Disk, renewed: Tree, sub: string, d: Disk) {
    Kept(was, renewed, sub, d) && Arriving(renewed, sub, d) && SameElsewhere(was, sub, d)
  }

  // ─── The states one swap goes through ───

  /** Only .bak differs: before anything is moved, or after everything is moved back. */
  lemma OnlyBak(was: Disk, renewed: Tree, sub: string, d: Disk)
    requires At(was.staged, sub) == Some(Whole(renewed))
    requires d.place == was.place && d.staged == was.staged && d.bak - {sub} == was.bak - {sub}
    ensures MidSwap(was, renewed, sub, d)
  {
    SameBut(d.bak, was.bak, sub);
  }

  /** The live directory sits in .bak. */
  lemma MovedOut(was: Disk, renewed: Tree, sub: string, bak: map<string, Slot>)
    requires At(was.staged, sub) == Some(Whole(renewed)) && sub in was.place && bak == was.bak - {sub}
    ensures MidSwap(was, renewed, sub, Disk(was.place - {sub}, bak[sub := was.place[sub]], was.staged))
  {}

  /** The staged directory is in place; .bak may still be there. */
  lemma Installed(was: Disk, renewed: Tree, sub: string, place: map<string, Slot>, bak: map<string, Slot>)
    requires place - {sub} == was.place - {sub} && bak - {sub} == was.bak - {sub}
    ensures MidSwap(was, renewed, sub, Disk(place[sub := Whole(renewed)], bak, was.staged - {sub}))
    ensures place[sub := Whole(renewed)] == was.place[sub := Whole(renewed)]
  {
    SameBut(place, was.place, sub);
    SameBut(bak, was.bak, sub);
    assert place[sub := Whole(renewed)] == (place - {sub})[sub := Whole(renewed)];
    assert was.place[sub := Whole(renewed)] == (was.place - {sub})[sub := Whole(renewed)];
  }

  lemma SameBut(a: map<string, Slot>, b: map<string, Slot>, sub: string)
    requires a - {sub} == b - {sub}
    ensures forall other | other != sub :: At(a, other) == At(b, other)
  {
    forall other | other != sub
      ensures At(a, other) == At(b, other)
    {
      assert At(a, other) == At(a - {sub}, other);
      assert At(b, other) == At(b - {sub}, other);
    }
  }

  /** Nothing stands in the way of subtree j: its live directory can be moved away, if there is one, and the new one into place. */
  predicate Goes(was: Disk, faults: seq<Faults>, j: int)
    requires 0 <= j < |SUBS| == |faults|
  {
    !faults[j].intoPlace && (SUBS[j] in was.place ==> !faults[j].toBak)
  }

  class Root {
    var disk: Disk
    ghost var trace: seq<Disk>

    method Set(d: Disk)
      modifies this
      ensures disk == d && trace == old(trace) + [d]
    {
      disk := d;
      trace := trace + [d];
    }

    method RemoveBak(sub: string)
      modifies this
      ensures disk == old(disk).(bak := old(disk).bak - {sub})
      ensures old(trace) <= trace
      ensures forall k | |old(trace)| <= k < |trace| ::
                && trace[k].place == disk.place && trace[k].staged == disk.staged
                && trace[k].bak - {sub} == disk.bak
      // A directory that is there is half removed for a moment.
      ensures trace == old(trace)
                       + (if sub in old(disk).bak then [old(disk).(bak := old(disk).bak[sub := Partial])] else []) + [disk]
    {
      if sub in disk.bak {
        Set(disk.(bak := disk.bak[sub := Partial]));
      }
      Set(disk.(bak := disk.bak - {sub}));
      assert old(disk).bak[sub := Partial] - {sub} == old(disk).bak - {sub};
      assert (old(disk).bak - {sub}) - {sub} == old(disk).bak - {sub};
    }

    /** The body of the swap loop for one subtree. */
    method SwapOne(sub: string, f: Faults, ghost renewed: Tree) returns (ok: bool)
      requires At(disk.staged, sub) == Some(Whole(renewed))
      requires sub in disk.place ==> disk.place[sub].Whole?
      modifies this
      ensures old(trace) <= trace
      ensures forall k | |old(trace)| <= k < |trace| :: MidSwap(old(disk), renewed, sub, trace[k])
      ensures MidSwap(old(disk), renewed, sub, disk)
      ensures ok ==> disk.place == old(disk).place[sub := Whole(renewed)]
      ensures ok ==> sub !in disk.bak && disk.staged == old(disk).staged - {sub}
      ensures !ok ==> disk.staged == old(disk).staged
      ensures !ok ==> disk.place == if sub in old(disk).place && !f.toBak && f.rollBack then old(disk).place - {sub} else old(disk).place
      // It goes into place if that rename works and the live directory is out of the way.
      ensures ok <==> !f.intoPlace && (sub in old(disk).place ==> !f.toBak)
    {
      ghost var was := disk;
      RemoveBak(sub);
      forall k | |old(trace)| <= k < |trace|
        ensures MidSwap(was, renewed, sub, trace[k])
      {
        OnlyBak(was, renewed, sub, trace[k]);
      }
      if sub in disk.place && !f.toBak {
        MovedOut(was, renewed, sub, disk.bak);
        Set(Disk(disk.place - {sub}, disk.bak[sub := disk.place[sub]], disk.staged));
      }
      // os.Rename refuses a directory as its target, empty or not
      ok := !f.intoPlace && sub !in disk.place;
      if ok {
        Install(was, sub, renewed);
      } else {
        RollBack(was, sub, f.rollBack, renewed);
      }
    }

    /** The staged directory goes into place and .bak goes away. */
    method Install(ghost was: Disk, sub: string, ghost renewed: Tree)
      requires At(disk.staged, sub) == Some(Whole(renewed)) && disk.staged == was.staged
      requires disk.place - {sub} == was.place - {sub} && disk.bak - {sub} == was.bak - {sub}
      modifies this
      ensures old(trace) <= trace
      ensures forall k | |old(trace)| <= k < |trace| :: MidSwap(was, renewed, sub, trace[k])
      ensures MidSwap(was, renewed, sub, disk)
      ensures disk.place == was.place[sub := Whole(renewed)] && sub !in disk.bak && disk.staged == was.staged - {sub}
    {
      Installed(was, renewed, sub, disk.place, disk.bak);
      Set(Disk(disk.place[sub := disk.staged[sub]], disk.bak, disk.staged - {sub}));
      ghost var seen, placed := |trace|, disk.place;
      RemoveBak(sub);
      forall k | seen <= k < |trace|
        ensures MidSwap(was, renewed, sub, trace[k])
      {
        Installed(was, renewed, sub, old(disk).place, trace[k].bak);
        assert trace[k] == Disk(old(disk).place[sub := Whole(renewed)], trace[k].bak, was.staged - {sub});
      }
      Installed(was, renewed, sub, old(disk).place, disk.bak);
    }

    /** The staged directory could not go into place: what was moved to .bak goes back. */
    method RollBack(ghost was: Disk, sub: string, fails: bool, ghost renewed: Tree)
      requires At(was.staged, sub) == Some(Whole(renewed)) && disk.staged == was.staged
      requires MidSwap(was, renewed, sub, disk)
      requires || (disk.place == was.place && disk.bak == was.bak - {sub})
               || (sub in was.place && disk.place == was.place - {sub} && disk.bak == (was.bak - {sub})[sub := was.place[sub]])
      modifies this
      ensures old(trace) <= trace
      ensures forall k | |old(trace)| <= k < |trace| :: MidSwap(was, renewed, sub, trace[k])
      ensures MidSwap(was, renewed, sub, disk)
      ensures disk.staged == was.staged
      ensures !fails ==> disk.place == was.place
      ensures fails ==> disk.place == old(disk).place
    {
      if sub in disk.bak && !fails {
        ghost var d := Disk(disk.place[sub := disk.bak[sub]], disk.bak - {sub}, disk.staged);
        assert d.place == was.place && d.bak - {sub} == was.bak - {sub};
        OnlyBak(was, renewed, sub, d);
        Set(Disk(disk.place[sub := disk.bak[sub]], disk.bak - {sub}, disk.staged));
      }
    }

    /** Some subtrees in order are new, the next one is not lost, the rest are as they were. */
    ghost predicate Stopped(was: Disk, unpacked: Tree, k: nat)
      reads this
    {
      && k <= |SUBS|
      && (forall j | 0 <= j < k :: At(disk.place, SUBS[j]) == Some(Whole(NewTree(unpacked, SUBS[j]))))
      && (k < |SUBS| ==> Kept(was, NewTree(unpacked, SUBS[k]), SUBS[k], disk))
      && (forall j | k < j < |SUBS| :: At(disk.place, SUBS[j]) == At(was.place, SUBS[j]))
    }

    method Swap(unpacked: Tree, faults: seq<Faults>) returns (ok: bool)
      requires |faults| == |SUBS|
      requires forall sub | sub in disk.place :: disk.place[sub].Whole?
      requires forall sub | sub in SUBS :: At(disk.staged, sub) == Some(Whole(NewTree(unpacked, sub)))
      modifies this
      ensures old(trace) <= trace
      ensures forall n, sub | |old(trace)| <= n < |trace| && sub in SUBS ::
                Kept(old(disk), NewTree(unpacked, sub), sub, trace[n]) && Arriving(NewTree(unpacked, sub), sub, trace[n])
      ensures ok ==> Stopped(old(disk), unpacked, |SUBS|)
      ensures !ok ==> exists k: nat | k < |SUBS| :: Stopped(old(disk), unpacked, k)
      ensures ok <==> forall j | 0 <= j < |SUBS| :: Goes(old(disk), faults, j)
    {
      Distinct();
      for k := 0 to |SUBS|
        invariant old(trace) <= trace
        invariant forall j | 0 <= j < k :: Goes(old(disk), faults, j)
        invariant forall j | 0 <= j < k :: At(disk.place, SUBS[j]) == Some(Whole(NewTree(unpacked, SUBS[j])))
        invariant forall j | k <= j < |SUBS| ::
                    && At(disk.place, SUBS[j]) == At(old(disk).place, SUBS[j])
                    && At(disk.staged, SUBS[j]) == Some(Whole(NewTree(unpacked, SUBS[j])))
        invariant forall n, sub | |old(trace)| <= n < |trace| && sub in SUBS ::
                    Kept(old(disk), NewTree(unpacked, sub), sub, trace[n]) && Arriving(NewTree(unpacked, sub), sub, trace[n])
      {
        ghost var before, seen := disk, |trace|;
        ghost var renewed := NewTree(unpacked, SUBS[k]);
        ok := SwapOne(SUBS[k], faults[k], renewed);
        assert ok <==> Goes(old(disk), faults, k);
        forall n, sub | seen <= n < |trace| && sub in SUBS
          ensures Kept(old(disk), NewTree(unpacked, sub), sub, trace[n]) && Arriving(NewTree(unpacked, sub), sub, trace[n])
        {
          assert MidSwap(before, renewed, SUBS[k], trace[n]);
        }
        if !ok {
          assert Stopped(old(disk), unpacked, k);
          return;
        }
      }
      ok := true;
    }

    /** FSM.Restore; `archive` is what the stream unpacks to. */
    method Restore(archive: seq<Entry>, faults: seq<Faults>) returns (ok: bool)
      requires |faults| == |SUBS|
      requires forall sub | sub in disk.place :: disk.place[sub].Whole?
      modifies this
      ensures old(trace) <= trace
      // At every moment each subtree's old tree is under its name or .bak, or its new one is in place.
      ensures Extract(archive).Some? ==>
                forall n, sub | |old(trace)| <= n < |trace| && sub in SUBS ::
                  && Kept(old(disk), NewTree(Extract(archive).value, sub), sub, trace[n])
                  && Survives(old(disk), NewTree(Extract(archive).value, sub), sub, trace[n])
      // Staging is emptied first: where a crash left the only whole tree there, it is gone until the archive is unpacked again.
      ensures exists n | |old(trace)| <= n < |trace| :: trace[n] == old(disk).(staged := map[])
      // An archive that cannot be unpacked changes nothing that is live.
      ensures Extract(archive).None? ==> !ok && disk.place == old(disk).place && disk.bak == old(disk).bak
      ensures ok ==> Extract(archive).Some? && Stopped(old(disk), Extract(archive).value, |SUBS|)
      ensures !ok && Extract(archive).Some? ==>
                exists k: nat | k < |SUBS| :: Stopped(old(disk), Extract(archive).value, k)
      ensures ok <==> Extract(archive).Some? && forall j | 0 <= j < |SUBS| :: Goes(old(disk), faults, j)
      ensures ok ==> disk.staged == map[]
    {
      ghost var was := disk;
      ghost var emptied := Prepare();
      assert trace[emptied] == was.(staged := map[]);
      var unpacked := Extract(archive);
      if unpacked.None? {
        return false;
      }
      ok := SwapStaged(unpacked.value, faults, was);
      assert trace[emptied] == was.(staged := map[]);
    }

    /** What an earlier Restore left in staging is removed, and unpacking begins. */
    method Prepare() returns (ghost emptied: nat)
      modifies this
      ensures old(trace) <= trace && |old(trace)| <= emptied < |trace|
      ensures trace[emptied] == old(disk).(staged := map[])
      ensures old(disk).staged != map[] ==>
                emptied > |old(trace)| && trace[|old(trace)|] == old(disk).(staged := map sub | sub in old(disk).staged :: Partial)
      ensures disk == old(disk).(staged := map sub | sub in SUBS :: Partial)
      ensures forall n | |old(trace)| <= n < |trace| :: trace[n].place == disk.place && trace[n].bak == disk.bak
    {
      if disk.staged != map[] {
        Set(disk.(staged := map sub | sub in disk.staged :: Partial));
      }
      Set(disk.(staged := map[]));
      emptied := |trace| - 1;
      Set(disk.(staged := map sub | sub in SUBS :: Partial));
    }

    /** From a complete staging directory to the end. */
    method SwapStaged(unpacked: Tree, faults: seq<Faults>, ghost was: Disk) returns (ok: bool)
      requires |faults| == |SUBS|
      requires disk.place == was.place && disk.bak == was.bak
      requires forall sub | sub in disk.place :: disk.place[sub].Whole?
      modifies this
      ensures old(trace) <= trace
      ensures forall n, sub | |old(trace)| <= n < |trace| && sub in SUBS ::
                Kept(was, NewTree(unpacked, sub), sub, trace[n]) && Arriving(NewTree(unpacked, sub), sub, trace[n])
      ensures ok ==> Stopped(was, unpacked, |SUBS|)
      ensures !ok ==> exists k: nat | k < |SUBS| :: Stopped(was, unpacked, k)
      ensures ok <==> forall j | 0 <= j < |SUBS| :: Goes(was, faults, j)
      ensures ok ==> disk.staged == map[]
    {
      Set(disk.(staged := map sub | sub in SUBS :: Whole(NewTree(unpacked, sub))));
      ghost var prepared, seen := disk, |trace|;
      ok := Swap(unpacked, faults);
      assert forall j | 0 <= j < |SUBS| :: Goes(prepared, faults, j) == Goes(was, faults, j);
      forall n, sub | |old(trace)| <= n < |trace| && sub in SUBS
        ensures Kept(was, NewTree(unpacked, sub), sub, trace[n]) && Arriving(NewTree(unpacked, sub), sub, trace[n])
      {
        if n >= seen {
          assert Kept(prepared, NewTree(unpacked, sub), sub, trace[n]);
        }
      }
      if ok {
        Set(disk.(staged := map[]));
        assert Stopped(was, unpacked, |SUBS|);
      } else {
        ghost var k: nat :| k < |SUBS| && Stopped(prepared, unpacked, k);
        assert Stopped(was, unpacked, k);
      }
    }
  }

  lemma Distinct()
    ensures SUBS[0] != SUBS[1] && |SUBS| == 2
  {}

  /** A quiescent root, persisted and restored, comes back exactly; a missing subtree comes back empty. */
  lemma SnapshotRoundTrip(archive: seq<Entry>, t: Tree)
    requires Portable(t) && Archives(archive, Walked(t))
    ensures Extract(archive).Some?
    ensures forall sub | sub in SUBS ::
              NewTree(Extract(archive).value, sub) ==
              if [sub] in t && t[[sub]] == Dir then Under(t, sub) else map[[sub] := Dir]
  {
    var w := Walked(t);
    WalkedPortable(t);
    ArchiveRoundTrip(archive, w);
    forall sub | sub in SUBS
      ensures NewTree(w, sub) == if [sub] in t && t[[sub]] == Dir then Under(t, sub) else map[[sub] := Dir]
    {
      assert [sub][0] == sub;
      if [sub] in t && t[[sub]] == Dir {
        assert Under(w, sub) == Under(t, sub);
      }
    }
  }

  lemma WalkedPortable(t: Tree)
    requires Portable(t)
    ensures Portable(Walked(t))
  {}
}
