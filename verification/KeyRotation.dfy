/**
 rotateKey on the file system, one file-system step at a time: what a crash or
 an I/O error in the middle of it leaves behind, and why applying the same log
 entry again repairs it.
 */
module KeyRotation {
  import opened Wrappers
  import opened Strings
  import opened ControlPlane

  /** File name to contents, within one key directory. */
  type Files = map<string, string>

  const ACTIVE := "active.json"
  const RETIRING := "retiring.json"

  function Tmp(path: string): string {
    path + ".tmp"
  }

  function ReadFile(d: Files, name: string): Option<string> {
    if name in d then Some(d[name]) else None
  }

  /** The key directory the rest of the model sees; temporary files are not part of it. */
  function KeyDirOf(d: Files): KeyDir {
    KeyDir(ReadFile(d, ACTIVE), ReadFile(d, RETIRING))
  }

  // ─── What the steps may leave behind ───

  /** `d` differs from `was` only in `path`, which is old, new or absent, and in its temporary file. */
  ghost predicate MidWrite(was: Files, path: string, data: string, d: Files) {
    && (ReadFile(d, path) == ReadFile(was, path) || ReadFile(d, path) == Some(data) || path !in d)
    && forall name | name != path && name != Tmp(path) :: ReadFile(d, name) == ReadFile(was, name)
  }

  /** A finished atomicWrite. */
  function AfterWrite(was: Files, path: string, data: string): Files {
    (was - {Tmp(path)})[path := data]
  }

  /** `d` is `was` with rotation `p` carried out in part: no file is torn, none but the two is touched. */
  ghost predicate MidRotation(was: Files, p: KeyPayload, d: Files) {
    && (forall name | name !in {ACTIVE, RETIRING, Tmp(ACTIVE), Tmp(RETIRING)} :: ReadFile(d, name) == ReadFile(was, name))
    && (if Blank(p.activeJson)
        then ReadFile(d, ACTIVE) == ReadFile(was, ACTIVE) && ReadFile(d, Tmp(ACTIVE)) == ReadFile(was, Tmp(ACTIVE))
        else ReadFile(d, ACTIVE) in {ReadFile(was, ACTIVE), Some(p.activeJson), None})
    && (if Blank(p.retiringJson)
        then ReadFile(d, RETIRING) in {ReadFile(was, RETIRING), None} && ReadFile(d, Tmp(RETIRING)) == ReadFile(was, Tmp(RETIRING))
        else ReadFile(d, RETIRING) in {ReadFile(was, RETIRING), Some(p.retiringJson), None})
  }

  /** A rotation that has dealt with active.json. */
  function HalfRotation(was: Files, p: KeyPayload): Files {
    if Blank(p.activeJson) then was else AfterWrite(was, ACTIVE, p.activeJson)
  }

  /** A finished rotation. */
  function AfterRotation(was: Files, p: KeyPayload): Files {
    var d := HalfRotation(was, p);
    if Blank(p.retiringJson) then d - {RETIRING} else AfterWrite(d, RETIRING, p.retiringJson)
  }

  lemma Names()
    ensures ACTIVE != RETIRING && Tmp(ACTIVE) != ACTIVE && Tmp(ACTIVE) != RETIRING
    ensures Tmp(RETIRING) != ACTIVE && Tmp(RETIRING) != RETIRING && Tmp(RETIRING) != Tmp(ACTIVE)
  {}

  /** The file-level rotation is the rotation of the control plane. */
  lemma RotationAsSpecified(was: Files, p: KeyPayload)
    ensures KeyDirOf(AfterRotation(was, p)) == RotatedDir(KeyDirOf(was), p)
  {}

  /** Applying the same entry to whatever an interrupted application left gives the uninterrupted result. */
  lemma Reapply(was: Files, p: KeyPayload, d: Files)
    requires MidRotation(was, p, d)
    ensures AfterRotation(d, p) == AfterRotation(was, p)
  {
    Names();
    var a, b := AfterRotation(d, p), AfterRotation(was, p);
    forall name
      ensures ReadFile(a, name) == ReadFile(b, name)
    {
      if name !in {ACTIVE, RETIRING, Tmp(ACTIVE), Tmp(RETIRING)} {
        assert ReadFile(d, name) == ReadFile(was, name);
      }
    }
    SameFiles(a, b);
  }

  lemma SameFiles(a: Files, b: Files)
    requires forall name :: ReadFile(a, name) == ReadFile(b, name)
    ensures a == b
  {
    forall name
      ensures name in a <==> name in b
      ensures name in a ==> a[name] == b[name]
    {
      assert ReadFile(a, name) == ReadFile(b, name);
    }
  }

  /** Interrupting the second application as well changes nothing: still nothing is torn. */
  lemma InterruptedAgain(was: Files, p: KeyPayload, d: Files, e: Files)
    requires MidRotation(was, p, d) && MidRotation(d, p, e)
    ensures MidRotation(was, p, e)
  {}

  /** Attempt number i started from what the one before it left. */
  ghost predicate Attempted(was: Files, p: KeyPayload, left: seq<Files>, i: nat)
    requires i < |left|
  {
    MidRotation(if i == 0 then was else left[i - 1], p, left[i])
  }

  /** After any number of crashes, each in the middle of a new attempt, one completed attempt repairs everything. */
  lemma {:induction false} RepeatedCrashes(was: Files, p: KeyPayload, left: seq<Files>)
    requires forall i | 0 <= i < |left| :: Attempted(was, p, left, i)
    ensures left != [] ==> MidRotation(was, p, left[|left| - 1])
    ensures left != [] ==> AfterRotation(left[|left| - 1], p) == AfterRotation(was, p)
  {
    if left != [] {
      var front := left[..|left| - 1];
      forall i | 0 <= i < |front|
        ensures Attempted(was, p, front, i)
      {
        assert Attempted(was, p, left, i);
      }
      RepeatedCrashes(was, p, front);
      var i := |left| - 1;
      assert Attempted(was, p, left, i);
      if front != [] {
        InterruptedAgain(was, p, front[|front| - 1], left[i]);
      }
      Reapply(was, p, left[i]);
    }
  }

  // ─── The code ───

  /**
   Which system call of an atomicWrite fails, if any.  A failed write may have written some bytes; a
   failed Remove goes unnoticed and the rename replaces the file.
   */
  datatype Fault = NoFault | OpenFails | WriteFails(written: nat) | SyncFails | RemoveFails | RenameFails

  predicate Harmless(f: Fault) {
    f.NoFault? || f.RemoveFails?
  }

  class KeyFiles {
    var files: Files
    /** Every state the directory has been in, one per file-system step. */
    ghost var trace: seq<Files>

    method SetFile(name: string, data: string)
      modifies this
      ensures files == old(files)[name := data]
      ensures trace == old(trace) + [files]
    {
      files := files[name := data];
      trace := trace + [files];
    }

    method Remove(name: string)
      modifies this
      ensures files == old(files) - {name}
      ensures trace == old(trace) + [files]
    {
      files := files - {name};
      trace := trace + [files];
    }

    /** Bytes reach the file one at a time, so a crash can leave any prefix. */
    method WriteBytes(name: string, data: string, n: nat)
      requires n <= |data|
      modifies this
      ensures files == old(files)[name := data[..n]]
      ensures old(trace) <= trace
      ensures forall k | |old(trace)| <= k < |trace| :: trace[k] - {name} == old(files) - {name}
    {
      SetFile(name, "");
      for i := 0 to n
        invariant files == old(files)[name := data[..i]]
        invariant old(trace) <= trace
        invariant forall k | |old(trace)| <= k < |trace| :: trace[k] - {name} == old(files) - {name}
      {
        SetFile(name, data[..i + 1]);
      }
    }

    method AtomicWrite(path: string, data: string, fault: Fault) returns (ok: bool)
      modifies this
      ensures old(trace) <= trace
      ensures forall k | |old(trace)| <= k < |trace| :: MidWrite(old(files), path, data, trace[k])
      ensures MidWrite(old(files), path, data, files)
      ensures ok <==> Harmless(fault)
      ensures ok ==> files == AfterWrite(old(files), path, data)
      ensures ok ==> old(trace) < trace && trace[|trace| - 1] == files
      ensures fault.NoFault? ==> |trace| >= |old(trace)| + 2 && path !in trace[|trace| - 2]
    {
      ghost var was := files;
      var tmp := Tmp(path);
      assert tmp != path;
      if fault.OpenFails? {
        return false;
      }
      var n := if fault.WriteFails? && fault.written < |data| then fault.written else |data|;
      WriteBytes(tmp, data, n);
      forall k | |old(trace)| <= k < |trace|
        ensures MidWrite(was, path, data, trace[k])
      {
        OnlyTmp(was, path, data, trace[k]);
      }
      if fault.WriteFails? || fault.SyncFails? {
        Remove(tmp);
        return false;
      }
      assert files[tmp] == data;
      if !fault.RemoveFails? {
        Remove(path);
      }
      if fault.RenameFails? {
        return false;
      }
      files := (files - {tmp})[path := files[tmp]];
      trace := trace + [files];
      assert files == AfterWrite(was, path, data);
      ok := true;
    }

    /**
     V2Applier.rotateKey once the directory exists.  The error of removing retiring.json is dropped, so
     with `keeps` the call succeeds and the file is still there.
     */
    method RotateKey(p: KeyPayload, first: Fault, second: Fault, keeps: bool) returns (ok: bool)
      modifies this
      ensures old(trace) <= trace
      ensures forall k | |old(trace)| <= k < |trace| :: MidRotation(old(files), p, trace[k])
      ensures MidRotation(old(files), p, files)
      ensures ok ==> files == if Blank(p.retiringJson) && keeps then HalfRotation(old(files), p) else AfterRotation(old(files), p)
      ensures Harmless(first) && Harmless(second) ==> ok
      // Without a fault the key directory has been in exactly the listed states.
      ensures first.NoFault? && second.NoFault? && !keeps ==>
                forall v :: v in Passed(KeyDirOf(old(files)), p) <==>
                  v == KeyDirOf(old(files)) || Seen(trace, |old(trace)|, v)
      ensures first.NoFault? && second.NoFault? && !keeps ==> InOrder(KeyDirOf(old(files)), p, old(trace), trace)
    {
      ghost var was := files;
      Names();
      if !Blank(p.activeJson) {
        ok := AtomicWrite(ACTIVE, p.activeJson, first);
        forall d: Files | MidWrite(was, ACTIVE, p.activeJson, d)
          ensures MidRotation(was, p, d)
        {
          FirstHalf(was, p, d);
        }
        if !ok {
          return;
        }
      }
      ghost var half, middle := files, trace;
      assert half == HalfRotation(was, p);
      if first.NoFault? {
        FirstPassed(was, p, old(trace), middle);
      }
      if Blank(p.retiringJson) {
        if !keeps {
          Remove(RETIRING);
        }
        Removed(was, p, half);
        ok := true;
      } else {
        ok := AtomicWrite(RETIRING, p.retiringJson, second);
        forall d: Files | MidWrite(half, RETIRING, p.retiringJson, d)
          ensures MidRotation(was, p, d)
        {
          SecondHalf(was, p, half, d);
        }
      }
      if first.NoFault? && second.NoFault? && !keeps {
        SecondPassed(half, p, middle, trace);
        AllPassed(was, p, old(trace), middle, trace);
        assert trace[..|middle|] == middle;
      }
    }
  }

  // ─── The states a rotation passes through ───

  function FirstStates(was: KeyDir, p: KeyPayload): set<KeyDir> {
    if Blank(p.activeJson) then {} else {was.(active := None), was.(active := Some(p.activeJson))}
  }

  function SecondStates(half: KeyDir, p: KeyPayload): set<KeyDir> {
    if Blank(p.retiringJson) then {half.(retiring := None)}
    else {half.(retiring := None), half.(retiring := Some(p.retiringJson))}
  }

  function HalfDir(was: KeyDir, p: KeyPayload): KeyDir {
    if Blank(p.activeJson) then was else was.(active := Some(p.activeJson))
  }

  /** Every state of the key directory from the start of a rotation to its end. */
  function Passed(was: KeyDir, p: KeyPayload): set<KeyDir> {
    {was} + FirstStates(was, p) + SecondStates(HalfDir(was, p), p)
  }

  ghost predicate Seen(trace: seq<Files>, from: nat, v: KeyDir) {
    exists k :: from <= k < |trace| && KeyDirOf(trace[k]) == v
  }

  /** What the steps from `from` on show, apart from the state they start in. */
  ghost predicate Shows(trace: seq<Files>, from: nat, start: KeyDir, states: set<KeyDir>) {
    forall v | v != start :: v in states <==> Seen(trace, from, v)
  }

  /** The steps show what happens to active.json first, and then what happens to retiring.json. */
  ghost predicate InOrder(was: KeyDir, p: KeyPayload, before: seq<Files>, after: seq<Files>) {
    exists m :: |before| <= m <= |after|
      && Shows(after[..m], |before|, was, FirstStates(was, p))
      && Shows(after, m, HalfDir(was, p), SecondStates(HalfDir(was, p), p))
  }

  lemma FirstPassed(was: Files, p: KeyPayload, before: seq<Files>, after: seq<Files>)
    requires before <= after
    requires Blank(p.activeJson) ==> after == before
    requires !Blank(p.activeJson) ==>
               && |after| >= |before| + 2 && ACTIVE !in after[|after| - 2]
               && after[|after| - 1] == AfterWrite(was, ACTIVE, p.activeJson)
               && forall k | |before| <= k < |after| :: MidWrite(was, ACTIVE, p.activeJson, after[k])
    ensures Shows(after, |before|, KeyDirOf(was), FirstStates(KeyDirOf(was), p))
  {
    Names();
    if !Blank(p.activeJson) {
      var n := |after|;
      assert KeyDirOf(after[n - 2]) == KeyDirOf(was).(active := None);
      assert KeyDirOf(after[n - 1]) == KeyDirOf(was).(active := Some(p.activeJson));
      forall k | |before| <= k < n
        ensures KeyDirOf(after[k]) in FirstStates(KeyDirOf(was), p) + {KeyDirOf(was)}
      {
        assert MidWrite(was, ACTIVE, p.activeJson, after[k]);
      }
    }
  }

  lemma SecondPassed(half: Files, p: KeyPayload, before: seq<Files>, after: seq<Files>)
    requires before <= after
    requires Blank(p.retiringJson) ==> after == before + [half - {RETIRING}]
    requires !Blank(p.retiringJson) ==>
               && |after| >= |before| + 2 && RETIRING !in after[|after| - 2]
               && after[|after| - 1] == AfterWrite(half, RETIRING, p.retiringJson)
               && forall k | |before| <= k < |after| :: MidWrite(half, RETIRING, p.retiringJson, after[k])
    ensures Shows(after, |before|, KeyDirOf(half), SecondStates(KeyDirOf(half), p))
  {
    Names();
    var n := |after|;
    if Blank(p.retiringJson) {
      assert KeyDirOf(after[n - 1]) == KeyDirOf(half).(retiring := None);
    } else {
      assert KeyDirOf(after[n - 2]) == KeyDirOf(half).(retiring := None);
      assert KeyDirOf(after[n - 1]) == KeyDirOf(half).(retiring := Some(p.retiringJson));
      forall k | |before| <= k < n
        ensures KeyDirOf(after[k]) in SecondStates(KeyDirOf(half), p) + {KeyDirOf(half)}
      {
        assert MidWrite(half, RETIRING, p.retiringJson, after[k]);
      }
    }
  }

  lemma AllPassed(was: Files, p: KeyPayload, before: seq<Files>, middle: seq<Files>, after: seq<Files>)
    requires before <= middle <= after
    requires Blank(p.activeJson) ==> middle == before
    requires Shows(middle, |before|, KeyDirOf(was), FirstStates(KeyDirOf(was), p))
    requires Shows(after, |middle|, HalfDir(KeyDirOf(was), p), SecondStates(HalfDir(KeyDirOf(was), p), p))
    ensures forall v :: v in Passed(KeyDirOf(was), p) <==> v == KeyDirOf(was) || Seen(after, |before|, v)
  {
    var start, half := KeyDirOf(was), HalfDir(KeyDirOf(was), p);
    forall v
      ensures v in Passed(start, p) <==> v == start || Seen(after, |before|, v)
    {
      if v in FirstStates(start, p) && v != start {
        var k :| |before| <= k < |middle| && KeyDirOf(middle[k]) == v;
        assert KeyDirOf(after[k]) == v;
      }
      if v in SecondStates(half, p) && v != half {
        var k :| |middle| <= k < |after| && KeyDirOf(after[k]) == v;
      }
      if Seen(after, |before|, v) {
        var k :| |before| <= k < |after| && KeyDirOf(after[k]) == v;
        if k < |middle| {
          assert KeyDirOf(middle[k]) == v;
        } else {
          assert Seen(after, |middle|, v);
        }
      }
    }
  }

  /** A key that one of the two files holds. */
  predicate Holds(v: KeyDir, key: string) {
    v.active == Some(key) || v.retiring == Some(key)
  }

  lemma OnlyTmp(was: Files, path: string, data: string, d: Files)
    requires d - {Tmp(path)} == was - {Tmp(path)}
    ensures MidWrite(was, path, data, d)
  {
    forall name | name != Tmp(path)
      ensures ReadFile(d, name) == ReadFile(was, name)
    {
      assert name in d <==> name in d - {Tmp(path)};
      assert name in was <==> name in was - {Tmp(path)};
      if name in d {
        assert (d - {Tmp(path)})[name] == d[name];
      }
    }
    assert path != Tmp(path);
  }

  lemma FirstHalf(was: Files, p: KeyPayload, d: Files)
    requires !Blank(p.activeJson) && MidWrite(was, ACTIVE, p.activeJson, d)
    ensures MidRotation(was, p, d)
  {}

  lemma Removed(was: Files, p: KeyPayload, half: Files)
    requires Blank(p.retiringJson)
    requires half == HalfRotation(was, p)
    ensures MidRotation(was, p, half - {RETIRING})
  {}

  lemma SecondHalf(was: Files, p: KeyPayload, half: Files, d: Files)
    requires !Blank(p.retiringJson)
    requires half == HalfRotation(was, p)
    requires MidWrite(half, RETIRING, p.retiringJson, d)
    ensures MidRotation(was, p, d)
  {}

  /**
   Exactly when a rotation never loses the key that was active: at every moment it is in active.json or
   retiring.json, if and only if the rotation leaves active.json alone, or writes the same key again
   while retiring.json holds it too.  Retiring a key is not among these cases.
   */
  lemma ActiveKeyKeptIff(was: KeyDir, p: KeyPayload, key: string)
    requires was.active == Some(key)
    ensures (forall v | v in Passed(was, p) :: Holds(v, key))
       <==> Blank(p.activeJson) || (was.retiring == Some(key) && p.activeJson == key)
  {
    if !Blank(p.activeJson) {
      assert was.(active := None) in Passed(was, p);
      assert HalfDir(was, p).(retiring := None) in Passed(was, p);
    }
  }
}
