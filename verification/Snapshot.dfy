/**
 FSM snapshots as archives: Persist walks tenants/ and keys/ into a list of
 entries, Restore unpacks one into a staging directory and swaps the two
 subtrees into place.

 A tree maps each path (a list of names, from the root down) to what is there.
 */
module Snapshot {
  import opened Wrappers
  import opened Strings

  type Path = seq<string>

  datatype Node = Dir | File(data: string)

  type Tree = map<Path, Node>

  const TENANTS := "tenants"
  const KEYS := "keys"
  const SUBS: seq<string> := [TENANTS, KEYS]

  datatype Kind = TypeDir | TypeReg | TypeOther

  datatype Entry = Entry(name: string, kind: Kind, data: string)

  // ─── Trees ───

  /** Everything but the root has a directory above it. */
  ghost predicate WellFormed(t: Tree) {
    forall p | p in t :: p != [] && forall n | 0 < n < |p| :: p[..n] in t && t[p[..n]] == Dir
  }

  /** A name that needs no cleaning. */
  predicate Plain(name: string) {
    name != "" && name != "." && name != ".." && '/' !in name && '\\' !in name
  }

  predicate PlainPath(p: Path) {
    p != [] && forall i | 0 <= i < |p| :: Plain(p[i])
  }

  /** The part of a tree under one top-level name, that name included. */
  function Under(t: Tree, sub: string): Tree {
    map p | p in t && p != [] && p[0] == sub :: t[p]
  }

  /** os.MkdirAll; None when a file is in the way. */
  function MkdirAll(t: Tree, p: Path): (r: Option<Tree>)
    ensures r.Some? ==> t.Keys <= r.value.Keys && forall q | q in t :: r.value[q] == t[q]
    ensures r.Some? ==> forall q | q in r.value && q !in t :: q != [] && q <= p && r.value[q] == Dir
    ensures r.Some? && p != [] ==> p in r.value && r.value[p] == Dir
    decreases |p|
  {
    if p == [] then Some(t)
    else
      var parent := MkdirAll(t, p[..|p| - 1]);
      if parent.None? then None
      else if p in parent.value then (if parent.value[p].Dir? then parent else None)
      else Some(parent.value[p := Dir])
  }

  /** No file stands on the way. */
  ghost predicate Clear(t: Tree, p: Path) {
    forall n | 0 < n <= |p| :: p[..n] in t ==> t[p[..n]] == Dir
  }

  lemma ClearFront(t: Tree, p: Path)
    requires p != []
    ensures Clear(t, p) <==> Clear(t, p[..|p| - 1]) && (p in t ==> t[p] == Dir)
  {
    var q := p[..|p| - 1];
    assert p[..|p|] == p;
    forall n | 0 < n <= |q|
      ensures q[..n] == p[..n]
    {}
    if Clear(t, p) {
      forall n | 0 < n <= |q| ensures q[..n] in t ==> t[q[..n]] == Dir {
        assert p[..n] in t ==> t[p[..n]] == Dir;
      }
    }
    if Clear(t, q) && (p in t ==> t[p] == Dir) {
      forall n | 0 < n <= |p| ensures p[..n] in t ==> t[p[..n]] == Dir {
        if n < |p| {
          assert q[..n] in t ==> t[q[..n]] == Dir;
        }
      }
    }
  }

  /** MkdirAll succeeds exactly when no file stands on the way. */
  lemma {:induction false} MkdirAllIff(t: Tree, p: Path)
    ensures MkdirAll(t, p).Some? <==> Clear(t, p)
    decreases |p|
  {
    if p != [] {
      MkdirAllIff(t, p[..|p| - 1]);
      ClearFront(t, p);
    }
  }

  // ─── Names in an archive ───

  function CleanStep(acc: seq<string>, c: string, rooted: bool): seq<string> {
    if c == "" || c == "." then acc
    else if c == ".." then
      if acc != [] && acc[|acc| - 1] != ".." then acc[..|acc| - 1]
      else if rooted then acc
      else acc + [".."]
    else acc + [c]
  }

  function CleanParts(parts: seq<string>, rooted: bool): seq<string> {
    if parts == [] then [] else CleanStep(CleanParts(parts[..|parts| - 1], rooted), parts[|parts| - 1], rooted)
  }

  predicate Rooted(n: string) {
    n != "" && n[0] == '/'
  }

  /** filepath.Clean */
  function Clean(n: string): string {
    var parts := CleanParts(Split(n, '/'), Rooted(n));
    if Rooted(n) then "/" + Join(parts, '/') else if parts == [] then "." else Join(parts, '/')
  }

  /** The test Restore makes on a cleaned name. */
  predicate Admitted(n: string) {
    n == TENANTS || n == KEYS || HasPrefix(n, TENANTS + "/") || HasPrefix(n, KEYS + "/")
  }

  /** Where Restore puts an entry below the staging directory, if anywhere. */
  function Target(name: string): Option<Path> {
    var n := Clean(ReplaceAll(name, '\\', '/'));
    if Admitted(n) then Some(Split(n, '/')) else None
  }

  /** In a cleaned list the ".." come first, and nothing is empty or ".". */
  ghost predicate Cleaned(parts: seq<string>) {
    && (forall i | 0 <= i < |parts| :: parts[i] != "" && parts[i] != "." && '/' !in parts[i])
    && (forall i | 0 < i < |parts| :: parts[i] == ".." ==> parts[i - 1] == "..")
  }

  lemma {:induction false} CleanPartsCleaned(parts: seq<string>, rooted: bool)
    requires forall i | 0 <= i < |parts| :: '/' !in parts[i]
    ensures Cleaned(CleanParts(parts, rooted))
  {
    if parts != [] {
      CleanPartsCleaned(parts[..|parts| - 1], rooted);
    }
  }

  lemma CleanedFurther(a: seq<string>, c: string, rooted: bool)
    ensures CleanParts(a + [c], rooted) == CleanStep(CleanParts(a, rooted), c, rooted)
  {
    assert (a + [c])[..|a|] == a;
  }

  lemma CleanedBehind(a: seq<string>, more: seq<string>, rooted: bool)
    requires more != []
    ensures var n := |more| - 1;
            CleanParts(a + more, rooted) == CleanStep(CleanParts(a + more[..n], rooted), more[n], rooted)
  {
    var n := |more| - 1;
    assert a + more == (a + more[..n]) + [more[n]];
    CleanedFurther(a + more[..n], more[n], rooted);
  }

  /** What cleans to the same cleans to the same with more behind it. */
  lemma {:induction false} CleanedAlike(a: seq<string>, b: seq<string>, more: seq<string>, rooted: bool)
    requires CleanParts(a, rooted) == CleanParts(b, rooted)
    ensures CleanParts(a + more, rooted) == CleanParts(b + more, rooted)
  {
    if more == [] {
      assert a + more == a && b + more == b;
    } else {
      CleanedAlike(a, b, more[..|more| - 1], rooted);
      CleanedBehind(a, more, rooted);
      CleanedBehind(b, more, rooted);
    }
  }

  /** Empty elements and single dots do not count, and ".." takes back the name before it. */
  lemma CleanDrops(a: seq<string>, c: string, more: seq<string>, rooted: bool)
    ensures c in {"", "."} ==> CleanParts(a + [c] + more, rooted) == CleanParts(a + more, rooted)
    ensures Plain(c) ==> CleanParts(a + [c] + [".."] + more, rooted) == CleanParts(a + more, rooted)
  {
    CleanedFurther(a, c, rooted);
    CleanedFurther(a + [c], "..", rooted);
    if c in {"", "."} {
      CleanedAlike(a + [c], a, more, rooted);
    }
    if Plain(c) {
      CleanedAlike(a + [c] + [".."], a, more, rooted);
    }
  }

  /** With nothing before it ".." stays in front, or is lost right below the root. */
  lemma LeadingDots(rooted: bool)
    ensures CleanParts([".."], rooted) == if rooted then [] else [".."]
  {
    assert [".."][..0] == [];
  }

  /** Absolute names are skipped, and a backslash counts as a slash. */
  lemma AbsoluteSkipped(name: string)
    ensures name != "" && name[0] in "/\\" ==> Target(name) == None
    ensures Target(ReplaceAll(name, '\\', '/')) == Target(name)
  {
    var n := ReplaceAll(name, '\\', '/');
    assert ReplaceAll(n, '\\', '/') == n;
    if name != "" && name[0] in "/\\" {
      assert n[0] == '/';
      assert Clean(n)[0] == '/';
    }
  }

  lemma {:induction false} NoDotsAfterName(parts: seq<string>, i: nat)
    requires Cleaned(parts) && parts != [] && parts[0] != ".." && i < |parts|
    ensures parts[i] != ".."
  {
    if i > 0 {
      NoDotsAfterName(parts, i - 1);
    }
  }

  lemma SplitOfPrefixed(s: string, first: string)
    requires '/' !in first && HasPrefix(s, first + "/")
    ensures Split(s, '/')[0] == first
  {
    var rest := s[|first| + 1..];
    assert s == first + ['/'] + rest;
    SplitAtSeparator(first, rest, '/');
    SplitWithout(first, '/');
  }

  /** No name in an archive, whatever it is, leads out of staging/tenants and staging/keys. */
  lemma TargetConfined(name: string)
    requires Target(name).Some?
    ensures var p := Target(name).value;
            && p != [] && (p[0] == TENANTS || p[0] == KEYS)
            && forall i | 0 <= i < |p| :: p[i] != "" && p[i] != "." && p[i] != ".." && '/' !in p[i]
  {
    var n := ReplaceAll(name, '\\', '/');
    var parts := CleanParts(Split(n, '/'), Rooted(n));
    SplitPieces(n, '/');
    CleanPartsCleaned(Split(n, '/'), Rooted(n));
    if !Rooted(n) && parts != [] {
      SplitJoin(parts, '/');
      if HasPrefix(Clean(n), TENANTS + "/") {
        SplitOfPrefixed(Clean(n), TENANTS);
      } else if HasPrefix(Clean(n), KEYS + "/") {
        SplitOfPrefixed(Clean(n), KEYS);
      }
      if Clean(n) == TENANTS {
        SplitWithout(TENANTS, '/');
      } else if Clean(n) == KEYS {
        SplitWithout(KEYS, '/');
      }
      forall i | 0 <= i < |parts|
        ensures parts[i] != ".."
      {
        NoDotsAfterName(parts, i);
      }
    }
  }

  lemma {:induction false} CleanPlain(p: seq<string>)
    requires forall i | 0 <= i < |p| :: Plain(p[i])
    ensures CleanParts(p, false) == p
  {
    if p != [] {
      CleanPlain(p[..|p| - 1]);
    }
  }

  lemma {:induction false} JoinChars(p: seq<string>, c: char)
    requires forall i | 0 <= i < |p| :: c !in p[i]
    requires c != '/'
    ensures c !in Join(p, '/')
  {
    if |p| > 1 {
      JoinChars(p[1..], c);
    }
  }

  /** The name Persist writes for a path is read back as that path, with or without the slash of a directory. */
  lemma NameRoundTrip(p: Path, slash: bool)
    requires PlainPath(p) && (p[0] == TENANTS || p[0] == KEYS)
    ensures Target(Join(p, '/') + if slash then "/" else "") == Some(p)
  {
    var s := Join(p, '/');
    var name := s + if slash then "/" else "";
    JoinChars(p, '\\');
    assert ReplaceAll(name, '\\', '/') == name;
    SplitJoin(p, '/');
    FirstChar(p);
    CleanPlain(p);
    if slash {
      assert name == s + ['/'] + "";
      SplitAtSeparator(s, "", '/');
      assert Split(name, '/') == p + [""];
      assert (p + [""])[..|p|] == p;
    } else {
      assert name == s;
    }
    assert CleanParts(Split(name, '/'), false) == p;
    assert Clean(name) == s;
    JoinPrefix(p);
  }

  lemma FirstChar(p: Path)
    requires PlainPath(p)
    ensures Join(p, '/') != "" && Join(p, '/')[0] != '/'
  {}

  lemma JoinPrefix(p: Path)
    requires PlainPath(p) && (p[0] == TENANTS || p[0] == KEYS)
    ensures Admitted(Join(p, '/'))
  {}

  // ─── Persist ───

  function NameOf(p: Path): string {
    Join(p, '/')
  }

  function EntryFor(p: Path, node: Node): Entry {
    match node
    case Dir => Entry(NameOf(p) + "/", TypeDir, "")
    case File(data) => Entry(NameOf(p), TypeReg, data)
  }

  /** What a walk puts in the archive: the subtrees whose top is a directory. */
  function Walked(t: Tree): Tree {
    map p | p in t && p != [] && p[0] in SUBS && [p[0]] in t && t[[p[0]]] == Dir :: t[p]
  }

  /** The archive lists every node of `t` and nothing else; order and repetition do not matter. */
  ghost predicate Archives(archive: seq<Entry>, t: Tree) {
    && (forall p | p in t :: EntryFor(p, t[p]) in archive)
    && (forall e | e in archive :: exists p :: p in t && e == EntryFor(p, t[p]))
  }

  /** fsSnapshot.Persist over a tree that does not change meanwhile. */
  method Persist(t: Tree) returns (archive: seq<Entry>)
    ensures Archives(archive, Walked(t))
  {
    archive := [];
    for k := 0 to |SUBS|
      invariant Archives(archive, WalkedUpTo(t, k))
    {
      var sub := SUBS[k];
      WalkedStep(t, k);
      if [sub] in t && t[[sub]] == Dir {
        var entries := Walk(Under(t, sub));
        ArchivesUnion(t, archive, WalkedUpTo(t, k), entries, Under(t, sub));
        archive := archive + entries;
      }
    }
    assert WalkedUpTo(t, |SUBS|) == Walked(t) by {
      assert SUBS[..|SUBS|] == SUBS;
    }
  }

  lemma WalkedStep(t: Tree, k: nat)
    requires k < |SUBS|
    ensures WalkedUpTo(t, k + 1) ==
            if [SUBS[k]] in t && t[[SUBS[k]]] == Dir then WalkedUpTo(t, k) + Under(t, SUBS[k]) else WalkedUpTo(t, k)
  {}

  ghost function WalkedUpTo(t: Tree, k: nat): Tree
    requires k <= |SUBS|
  {
    map p | p in t && p != [] && p[0] in SUBS[..k] && [p[0]] in t && t[[p[0]]] == Dir :: t[p]
  }

  lemma ArchivesUnion(t: Tree, a: seq<Entry>, x: Tree, b: seq<Entry>, y: Tree)
    requires Within(x, t) && Within(y, t)
    requires Archives(a, x) && Archives(b, y)
    ensures Archives(a + b, x + y)
  {
    var u := x + y;
    forall p | p in u
      ensures EntryFor(p, u[p]) in a + b
    {
      if p in y {
        assert EntryFor(p, y[p]) in b;
      } else {
        assert EntryFor(p, x[p]) in a;
      }
    }
    forall e | e in a + b
      ensures exists p :: p in u && e == EntryFor(p, u[p])
    {
      if e in a {
        var p :| p in x && e == EntryFor(p, x[p]);
        assert u[p] == t[p];
      } else {
        var p :| p in y && e == EntryFor(p, y[p]);
        assert u[p] == t[p];
      }
    }
  }

  /** filepath.Walk from one top directory; the order in which it lists names is left open. */
  method Walk(t: Tree) returns (archive: seq<Entry>)
    ensures Archives(archive, t) && |archive| == |t|
  {
    archive := [];
    var rest := t.Keys;
    while rest != {}
      invariant rest <= t.Keys && |archive| + |rest| == |t.Keys|
      invariant forall p | p in t && p !in rest :: EntryFor(p, t[p]) in archive
      invariant forall e | e in archive :: exists p :: p in t && e == EntryFor(p, t[p])
      decreases rest
    {
      var p :| p in rest;
      archive := archive + [EntryFor(p, t[p])];
      rest := rest - {p};
    }
  }

  // ─── Extraction ───

  /** One entry written under the staging directory; None when the operating system refuses. */
  function ExtractOne(t: Tree, e: Entry): Option<Tree> {
    var target := Target(e.name);
    if target.None? then Some(t)
    else
      var p := target.value;
      match e.kind
      case TypeDir => MkdirAll(t, p)
      case TypeReg =>
        if p == [] then None
        else
          var parent := MkdirAll(t, p[..|p| - 1]);
          if parent.None? || (p in parent.value && parent.value[p].Dir?) then None
          else Some(parent.value[p := File(e.data)])
      case TypeOther => Some(t)
  }

  function Extract(archive: seq<Entry>): Option<Tree> {
    if archive == [] then Some(map[])
    else
      var front := Extract(archive[..|archive| - 1]);
      if front.None? then None else ExtractOne(front.value, archive[|archive| - 1])
  }

  /**
   What an entry does, whatever is there already: a name outside the two subtrees, or an entry that is neither
   file nor directory, is skipped; a file takes the place of a file, with the data of the entry; only a file on
   the way, or a directory where a file should go, makes it fail.
   */
  lemma ExtractOneEntry(t: Tree, e: Entry)
    ensures Target(e.name).None? || e.kind.TypeOther? ==> ExtractOne(t, e) == Some(t)
    ensures Target(e.name).Some? && e.kind.TypeDir? ==> (ExtractOne(t, e).Some? <==> Clear(t, Target(e.name).value))
    ensures Target(e.name).Some? && e.kind.TypeReg? ==>
              var p := Target(e.name).value;
              && (ExtractOne(t, e).Some? <==> p != [] && Clear(t, p[..|p| - 1]) && !(p in t && t[p].Dir?))
              && (ExtractOne(t, e).Some? ==> p in ExtractOne(t, e).value && ExtractOne(t, e).value[p] == File(e.data))
    ensures ExtractOne(t, e).Some? ==>
              forall q | q in t && Some(q) != Target(e.name) :: q in ExtractOne(t, e).value && ExtractOne(t, e).value[q] == t[q]
  {
    if Target(e.name).Some? {
      var p := Target(e.name).value;
      MkdirAllIff(t, p);
      if p != [] {
        MkdirAllIff(t, p[..|p| - 1]);
      }
    }
  }

  lemma ExtractOneConfined(t: Tree, e: Entry)
    requires ExtractOne(t, e).Some?
    requires forall p | p in t :: p != [] && p[0] in SUBS
    ensures forall p | p in ExtractOne(t, e).value :: p != [] && p[0] in SUBS
  {
    if Target(e.name).Some? {
      TargetConfined(e.name);
      var p, r := Target(e.name).value, ExtractOne(t, e).value;
      assert p[0] in SUBS;
      if e.kind.TypeReg? {
        var parent := MkdirAll(t, p[..|p| - 1]).value;
        forall q | q in r && q !in t
          ensures q != [] && q[0] in SUBS
        {
          assert q == p || (q in parent && q <= p[..|p| - 1]);
        }
      }
    }
  }

  /** Whatever the archive, everything written in staging lies under tenants or keys. */
  lemma {:induction false} ExtractConfined(archive: seq<Entry>)
    requires Extract(archive).Some?
    ensures forall p | p in Extract(archive).value :: p != [] && p[0] in SUBS
  {
    if archive != [] {
      ExtractConfined(archive[..|archive| - 1]);
      ExtractOneConfined(Extract(archive[..|archive| - 1]).value, archive[|archive| - 1]);
    }
  }

  ghost predicate Within(a: Tree, t: Tree) {
    a.Keys <= t.Keys && forall p | p in a :: a[p] == t[p]
  }

  ghost predicate Portable(t: Tree) {
    WellFormed(t) && forall p | p in t :: PlainPath(p) && p[0] in SUBS
  }

  lemma MkdirAllWithin(a: Tree, t: Tree, p: Path)
    requires Within(a, t)
    requires forall n | 0 < n <= |p| :: p[..n] in t && t[p[..n]] == Dir
    ensures MkdirAll(a, p).Some? && Within(MkdirAll(a, p).value, t)
  {
    MkdirAllIff(a, p);
    var b := MkdirAll(a, p).value;
    forall q | q in b
      ensures q in t && b[q] == t[q]
    {
      if q !in a {
        assert q == p[..|q|];
      }
    }
  }

  lemma ReadBack(p: Path, node: Node)
    requires PlainPath(p) && p[0] in SUBS
    ensures Target(EntryFor(p, node).name) == Some(p)
  {
    NameRoundTrip(p, node.Dir?);
    assert NameOf(p) + "" == NameOf(p);
  }

  lemma ExtractFileWithin(a: Tree, t: Tree, p: Path)
    requires Portable(t) && Within(a, t) && p in t && t[p].File?
    ensures var r := MkdirAll(a, p[..|p| - 1]);
            r.Some? && !(p in r.value && r.value[p].Dir?) && Within(r.value, t)
  {
    var parent := p[..|p| - 1];
    forall n | 0 < n <= |parent|
      ensures parent[..n] in t && t[parent[..n]] == Dir
    {
      assert parent[..n] == p[..n];
    }
    MkdirAllWithin(a, t, parent);
  }

  lemma ExtractOneWithin(a: Tree, t: Tree, p: Path)
    requires Portable(t) && Within(a, t) && p in t
    ensures var r := ExtractOne(a, EntryFor(p, t[p]));
            r.Some? && Within(r.value, t) && a.Keys <= r.value.Keys && p in r.value
  {
    ReadBack(p, t[p]);
    var e := EntryFor(p, t[p]);
    assert Target(e.name) == Some(p);
    if t[p].Dir? {
      assert p[..|p|] == p;
      MkdirAllWithin(a, t, p);
      assert ExtractOne(a, e) == MkdirAll(a, p);
    } else {
      ExtractFileWithin(a, t, p);
      assert ExtractOne(a, e) == Some(MkdirAll(a, p[..|p| - 1]).value[p := t[p]]);
    }
  }

  lemma {:induction false} ExtractWithin(archive: seq<Entry>, t: Tree)
    requires Portable(t)
    requires forall e | e in archive :: exists p :: p in t && e == EntryFor(p, t[p])
    ensures Extract(archive).Some? && Within(Extract(archive).value, t)
    ensures forall p | p in t && EntryFor(p, t[p]) in archive :: p in Extract(archive).value
  {
    if archive != [] {
      var front, e := archive[..|archive| - 1], archive[|archive| - 1];
      assert forall x | x in front :: x in archive;
      ExtractWithin(front, t);
      assert e in archive;
      var p :| p in t && e == EntryFor(p, t[p]);
      var a := Extract(front).value;
      ExtractOneWithin(a, t, p);
      forall q | q in t && EntryFor(q, t[q]) in archive
        ensures q in Extract(archive).value
      {
        if EntryFor(q, t[q]) !in front {
          assert EntryFor(q, t[q]) == e;
          ReadBack(p, t[p]);
          ReadBack(q, t[q]);
        }
      }
    }
  }

  /** Unpacking what Persist wrote rebuilds the two subtrees, empty directories included. */
  lemma ArchiveRoundTrip(archive: seq<Entry>, t: Tree)
    requires Portable(t) && Archives(archive, t)
    ensures Extract(archive) == Some(t)
  {
    ExtractWithin(archive, t);
    assert Extract(archive).value == t;
  }
}
