/**
 The applier and the file-system repositories it drives: lists kept in
 clients.yaml and scopes.yaml, scanned and rewritten in place, refine the
 map-level control plane of module ControlPlane.
 */
module Applier {
  import opened Wrappers
  import opened Strings
  import opened ControlPlane

  // ─── A YAML list as a map ───

  /** No two entries of a file have the same key. */
  ghost predicate Distinct(xs: seq<Item>) {
    forall i, j | 0 <= i < j < |xs| :: KeyOf(xs[i]) != KeyOf(xs[j])
  }

  ghost predicate AllClients(xs: seq<Item>) {
    forall i | 0 <= i < |xs| :: xs[i].ClientItem?
  }

  ghost predicate AllScopes(xs: seq<Item>) {
    forall i | 0 <= i < |xs| :: xs[i].ScopeItem?
  }

  function Contents(xs: seq<Item>): map<ItemKey, Item> {
    if xs == [] then map[]
    else Contents(xs[..|xs| - 1])[KeyOf(xs[|xs| - 1]) := xs[|xs| - 1]]
  }

  /** In a list without duplicates the map holds exactly the entries. */
  lemma {:induction false} ContentsExact(xs: seq<Item>)
    requires Distinct(xs)
    ensures forall k :: k in Contents(xs) <==> exists i :: 0 <= i < |xs| && KeyOf(xs[i]) == k
    ensures forall i | 0 <= i < |xs| :: KeyOf(xs[i]) in Contents(xs) && Contents(xs)[KeyOf(xs[i])] == xs[i]
  {
    if xs != [] {
      var front := xs[..|xs| - 1];
      ContentsExact(front);
      assert forall i | 0 <= i < |xs| :: i < |front| ==> xs[i] == front[i];
    }
  }

  lemma ContentsAppend(xs: seq<Item>, x: Item)
    ensures Contents(xs + [x]) == Contents(xs)[KeyOf(x) := x]
  {}

  lemma {:induction false} ContentsReplace(xs: seq<Item>, i: nat, x: Item)
    requires i < |xs| && Distinct(xs) && KeyOf(xs[i]) == KeyOf(x)
    ensures Distinct(xs[i := x])
    ensures Contents(xs[i := x]) == Contents(xs)[KeyOf(x) := x]
  {
    var front, ys := xs[..|xs| - 1], xs[i := x];
    assert forall j | 0 <= j < |xs| :: KeyOf(ys[j]) == KeyOf(xs[j]);
    if i == |front| {
      assert ys[..|ys| - 1] == front;
    } else {
      ContentsReplace(front, i, x);
      assert ys[..|ys| - 1] == front[i := x];
      assert KeyOf(xs[|front|]) != KeyOf(x);
    }
  }

  /** Position of the entry with the given key, or the length of the list. */
  method Find(xs: seq<Item>, key: ItemKey) returns (i: nat)
    ensures i <= |xs|
    ensures i < |xs| ==> KeyOf(xs[i]) == key
    ensures i == |xs| ==> forall j | 0 <= j < |xs| :: KeyOf(xs[j]) != key
  {
    i := 0;
    while i < |xs|
      invariant i <= |xs|
      invariant forall j | 0 <= j < i :: KeyOf(xs[j]) != key
    {
      if KeyOf(xs[i]) == key {
        return;
      }
      i := i + 1;
    }
  }

  /** The entries whose key is another one, in order. */
  function Filtered(xs: seq<Item>, key: ItemKey): seq<Item> {
    if xs == [] then []
    else
      var front := Filtered(xs[..|xs| - 1], key);
      if KeyOf(xs[|xs| - 1]) == key then front else front + [xs[|xs| - 1]]
  }

  /** The entries that stay keep their order. */
  lemma {:induction false} FilteredConcat(xs: seq<Item>, ys: seq<Item>, key: ItemKey)
    ensures Filtered(xs + ys, key) == Filtered(xs, key) + Filtered(ys, key)
    ensures |xs| == 1 ==> Filtered(xs, key) == if KeyOf(xs[0]) == key then [] else xs
  {
    assert |xs| == 1 ==> xs == [xs[0]];
    if ys == [] {
      assert xs + ys == xs;
    } else {
      FilteredConcat(xs, ys[..|ys| - 1], key);
      assert (xs + ys)[..|xs + ys| - 1] == xs + ys[..|ys| - 1];
    }
  }

  lemma {:induction false} FilteredFrom(xs: seq<Item>, key: ItemKey)
    ensures forall k | 0 <= k < |Filtered(xs, key)| :: Filtered(xs, key)[k] in xs
  {
    if xs != [] {
      FilteredFrom(xs[..|xs| - 1], key);
    }
  }

  lemma PutThenDrop(m: map<ItemKey, Item>, k: ItemKey, x: Item, key: ItemKey)
    ensures m[k := x] - {key} == if k == key then m - {key} else (m - {key})[k := x]
  {}

  lemma {:induction false} FilteredContents(xs: seq<Item>, key: ItemKey)
    ensures Contents(Filtered(xs, key)) == Contents(xs) - {key}
  {
    if xs != [] {
      var front, x := xs[..|xs| - 1], xs[|xs| - 1];
      FilteredContents(front, key);
      PutThenDrop(Contents(front), KeyOf(x), x, key);
      if KeyOf(x) != key {
        ContentsAppend(Filtered(front, key), x);
      }
    }
  }

  lemma {:induction false} FilteredDistinct(xs: seq<Item>, key: ItemKey)
    requires Distinct(xs)
    ensures Distinct(Filtered(xs, key))
  {
    if xs != [] {
      var front, x := xs[..|xs| - 1], xs[|xs| - 1];
      FilteredDistinct(front, key);
      FilteredFrom(front, key);
      assert forall y | y in front :: KeyOf(y) != KeyOf(x);
    }
  }

  method Without(xs: seq<Item>, key: ItemKey) returns (filtered: seq<Item>, found: bool)
    ensures filtered == Filtered(xs, key)
    ensures found <==> exists i :: 0 <= i < |xs| && KeyOf(xs[i]) == key
  {
    filtered, found := [], false;
    for i := 0 to |xs|
      invariant filtered == Filtered(xs[..i], key)
      invariant found <==> exists j :: 0 <= j < i && KeyOf(xs[j]) == key
    {
      assert xs[..i + 1][..i] == xs[..i];
      if KeyOf(xs[i]) == key {
        found := true;
      } else {
        filtered := filtered + [xs[i]];
      }
    }
    assert xs[..|xs|] == xs;
  }

  // ─── The store ───

  /** The files of a tenant directory; a missing list file reads as an empty list. */
  datatype DirFiles = DirFiles(info: Option<TenantInfo>, clients: seq<Item>, scopes: seq<Item>)

  ghost predicate ValidDir(d: DirFiles) {
    && AllClients(d.clients) && Distinct(d.clients)
    && AllScopes(d.scopes) && Distinct(d.scopes)
  }

  ghost function DirView(d: DirFiles): TenantDir {
    TenantDir(d.info, Contents(d.clients) + Contents(d.scopes))
  }

  ghost function ViewOf(dirs: map<string, DirFiles>, rings: map<string, KeyDir>): Control {
    Control(map slug | slug in dirs :: DirView(dirs[slug]), rings)
  }

  lemma ViewUpdate(dirs: map<string, DirFiles>, rings: map<string, KeyDir>, slug: string, d: DirFiles)
    ensures ViewOf(dirs[slug := d], rings) == WithTenant(ViewOf(dirs, rings), slug, DirView(d))
  {}

  lemma Kinds(d: DirFiles)
    requires ValidDir(d)
    ensures forall k | k in Contents(d.clients) :: k.ClientKey?
    ensures forall k | k in Contents(d.scopes) :: k.ScopeKey?
  {
    ContentsExact(d.clients);
    ContentsExact(d.scopes);
  }

  /** Rewriting one of the two files with an entry put or dropped is that change on the tenant's items. */
  lemma PutInView(d: DirFiles, e: DirFiles, x: Item)
    requires ValidDir(d) && ValidDir(e) && e.info == d.info
    requires if x.ClientItem?
             then e.scopes == d.scopes && Contents(e.clients) == Contents(d.clients)[KeyOf(x) := x]
             else e.clients == d.clients && Contents(e.scopes) == Contents(d.scopes)[KeyOf(x) := x]
    ensures DirView(e) == DirView(d).(items := DirView(d).items[KeyOf(x) := x])
  {
    Kinds(d);
    assert DirView(e).items == DirView(d).items[KeyOf(x) := x];
  }

  lemma DropInView(d: DirFiles, e: DirFiles, key: ItemKey)
    requires ValidDir(d) && ValidDir(e) && e.info == d.info
    requires if key.ClientKey?
             then e.scopes == d.scopes && Contents(e.clients) == Contents(d.clients) - {key}
             else e.clients == d.clients && Contents(e.scopes) == Contents(d.scopes) - {key}
    ensures DirView(e) == DirView(d).(items := DirView(d).items - {key})
  {
    Kinds(d);
    assert DirView(e).items == DirView(d).items - {key};
  }

  /** The file that would hold an entry with this key. */
  function FileFor(d: DirFiles, key: ItemKey): seq<Item> {
    if key.ClientKey? then d.clients else d.scopes
  }

  lemma ItemInFile(d: DirFiles, key: ItemKey)
    requires ValidDir(d)
    ensures key in DirView(d).items <==> exists i :: 0 <= i < |FileFor(d, key)| && KeyOf(FileFor(d, key)[i]) == key
  {
    Kinds(d);
    ContentsExact(FileFor(d, key));
  }

  lemma DropFiltered(d: DirFiles, key: ItemKey)
    requires ValidDir(d)
    ensures var ys := Filtered(FileFor(d, key), key);
            var e := if key.ClientKey? then d.(clients := ys) else d.(scopes := ys);
            ValidDir(e) && DirView(e) == DirView(d).(items := DirView(d).items - {key})
  {
    var xs := FileFor(d, key);
    var ys := Filtered(xs, key);
    var e := if key.ClientKey? then d.(clients := ys) else d.(scopes := ys);
    FilteredDistinct(xs, key);
    FilteredFrom(xs, key);
    assert forall x | x in xs :: x.ClientItem? == key.ClientKey?;
    FilteredContents(xs, key);
    DropInView(d, e, key);
  }

  lemma DropAbsent(s: Control, slug: string, key: ItemKey)
    requires ItemAt(s, slug, key).None?
    ensures DropItem(s, slug, key).0 == s
  {
    if slug in s.tenants {
      assert s.tenants[slug].items - {key} == s.tenants[slug].items;
      assert s.tenants[slug := s.tenants[slug]] == s.tenants;
    }
  }

  /** A new client at the end of clients.yaml. */
  lemma AppendClient(dirs: map<string, DirFiles>, rings: map<string, KeyDir>, slug: string, rec: ClientRec)
    requires slug in dirs && ValidDir(dirs[slug])
    requires forall i | 0 <= i < |dirs[slug].clients| :: KeyOf(dirs[slug].clients[i]) != ClientKey(rec.clientId)
    ensures var e := dirs[slug].(clients := dirs[slug].clients + [ClientItem(rec)]);
            && ValidDir(e)
            && ViewOf(dirs[slug := e], rings) == PutItem(ViewOf(dirs, rings), slug, ClientItem(rec)).0
  {
    var d, x := dirs[slug], ClientItem(rec);
    var e := d.(clients := d.clients + [x]);
    ContentsAppend(d.clients, x);
    PutInView(d, e, x);
    ViewUpdate(dirs, rings, slug, e);
  }

  /** A client replaced where it stands in clients.yaml. */
  lemma ReplaceClient(dirs: map<string, DirFiles>, rings: map<string, KeyDir>, slug: string, rec: ClientRec, i: nat)
    requires slug in dirs && ValidDir(dirs[slug])
    requires i < |dirs[slug].clients| && KeyOf(dirs[slug].clients[i]) == ClientKey(rec.clientId)
    ensures var e := dirs[slug].(clients := dirs[slug].clients[i := ClientItem(rec)]);
            && ValidDir(e)
            && ViewOf(dirs[slug := e], rings) == PutItem(ViewOf(dirs, rings), slug, ClientItem(rec)).0
  {
    var d, x := dirs[slug], ClientItem(rec);
    var e := d.(clients := d.clients[i := x]);
    ContentsReplace(d.clients, i, x);
    PutInView(d, e, x);
    ViewUpdate(dirs, rings, slug, e);
  }

  /** What a Raft log entry can hold. */
  datatype LogEntry = NoData | NotJson | Entry(mutation: Mutation)

  class ConfigStore {
    var dirs: map<string, DirFiles>
    var rings: map<string, KeyDir>
    /** The connection's mutex is held by a call that waits for it. */
    var locked: bool

    ghost predicate Valid()
      reads this
    {
      forall slug | slug in dirs :: ValidDir(dirs[slug])
    }

    ghost function View(): Control
      reads this
    {
      ViewOf(dirs, rings)
    }

    constructor ()
      ensures Valid() && View() == EMPTY && !locked
    {
      dirs, rings, locked := map[], map[], false;
      new;
      assert View().tenants == map[];
    }

    // ─── Client and scope repositories ───

    function ListFile(slug: string, clients: bool): (xs: seq<Item>)
      reads this
    {
      if slug !in dirs then [] else if clients then dirs[slug].clients else dirs[slug].scopes
    }

    /** os.WriteFile on clients.yaml or scopes.yaml. */
    method WriteList(slug: string, clients: bool, xs: seq<Item>) returns (out: Outcome)
      modifies this`dirs
      ensures out == if slug in old(dirs) then Done else Failed(NoDirectory)
      ensures dirs == if slug !in old(dirs) then old(dirs)
                      else if clients then old(dirs)[slug := old(dirs)[slug].(clients := xs)]
                      else old(dirs)[slug := old(dirs)[slug].(scopes := xs)]
    {
      if slug !in dirs {
        return Failed(NoDirectory);
      }
      dirs := dirs[slug := if clients then dirs[slug].(clients := xs) else dirs[slug].(scopes := xs)];
      out := Done;
    }

    method GetClient(slug: string, id: string) returns (found: bool)
      requires Valid()
      ensures found <==> ItemAt(View(), slug, ClientKey(id)).Some?
    {
      var xs := ListFile(slug, true);
      var i := Find(xs, ClientKey(id));
      found := i < |xs|;
      if slug in dirs {
        Kinds(dirs[slug]);
        ContentsExact(xs);
      }
    }

    method CreateClient(slug: string, rec: ClientRec) returns (out: Outcome)
      requires Valid()
      modifies this`dirs
      ensures Valid()
      ensures ItemAt(old(View()), slug, ClientKey(rec.clientId)).Some? ==> out == Failed(Conflict) && View() == old(View())
      ensures ItemAt(old(View()), slug, ClientKey(rec.clientId)).None? ==>
                (View(), out) == PutItem(old(View()), slug, ClientItem(rec))
    {
      var xs := ListFile(slug, true);
      var i := Find(xs, ClientKey(rec.clientId));
      if slug in dirs {
        Kinds(dirs[slug]);
        ContentsExact(xs);
      }
      if i < |xs| {
        return Failed(Conflict);
      }
      if slug in dirs {
        AppendClient(dirs, rings, slug, rec);
      }
      out := WriteList(slug, true, xs + [ClientItem(rec)]);
    }

    /** The client that was there is replaced on disk; the Get behind the write waits for its own lock. */
    method UpdateClient(slug: string, rec: ClientRec) returns (out: Outcome)
      requires Valid() && !locked
      modifies this`dirs, this`locked
      ensures Valid()
      ensures locked <==> out == Blocked
      ensures ItemAt(old(View()), slug, ClientKey(rec.clientId)).None? ==> out == Failed(NotFound) && View() == old(View())
      ensures ItemAt(old(View()), slug, ClientKey(rec.clientId)).Some? ==>
                View() == PutItem(old(View()), slug, ClientItem(rec)).0 && out == Blocked
    {
      var xs := ListFile(slug, true);
      var i := Find(xs, ClientKey(rec.clientId));
      if slug in dirs {
        Kinds(dirs[slug]);
        ContentsExact(xs);
      }
      if i == |xs| {
        return Failed(NotFound);
      }
      ReplaceClient(dirs, rings, slug, rec, i);
      out := WriteList(slug, true, xs[i := ClientItem(rec)]);
      if out == Done {
        locked, out := true, Blocked;
      }
    }

    /** clientRepo.Delete and scopeRepo.Delete: the file is rewritten only when the entry was in it. */
    method DeleteItem(slug: string, key: ItemKey) returns (out: Outcome)
      requires Valid()
      modifies this`dirs
      ensures Valid()
      ensures View() == DropItem(old(View()), slug, key).0
      ensures out == if ItemAt(old(View()), slug, key).Some? then Done else Failed(NotFound)
    {
      var xs := ListFile(slug, key.ClientKey?);
      var ys, found := Without(xs, key);
      if slug in dirs {
        ItemInFile(dirs[slug], key);
        DropFiltered(dirs[slug], key);
      }
      if !found {
        DropAbsent(View(), slug, key);
        return Failed(NotFound);
      }
      out := WriteList(slug, key.ClientKey?, ys);
      ViewUpdate(old(dirs), rings, slug, dirs[slug]);
    }

    method UpsertScopeItem(slug: string, rec: ScopeRec) returns (out: Outcome)
      requires Valid()
      modifies this`dirs
      ensures Valid()
      ensures (View(), out) == PutItem(old(View()), slug, ScopeItem(rec))
    {
      var xs := ListFile(slug, false);
      var i := Find(xs, ScopeKey(rec.name));
      ghost var d := if slug in dirs then dirs[slug] else DirFiles(None, [], []);
      if i < |xs| {
        out := WriteList(slug, false, xs[i := ScopeItem(rec)]);
        ContentsReplace(xs, i, ScopeItem(rec));
      } else {
        out := WriteList(slug, false, xs + [ScopeItem(rec)]);
        ContentsAppend(xs, ScopeItem(rec));
      }
      if slug in dirs {
        PutInView(d, dirs[slug], ScopeItem(rec));
        ViewUpdate(old(dirs), rings, slug, dirs[slug]);
      }
    }

    // ─── Tenant repository ───

    method GetBySlug(slug: string) returns (info: Option<TenantInfo>)
      ensures info == InfoAt(View(), slug)
    {
      info := if slug in dirs then dirs[slug].info else None;
    }

    method CreateTenant(slug: string, info: TenantInfo) returns (out: Outcome)
      requires Valid()
      modifies this`dirs
      ensures Valid()
      ensures slug in old(View()).tenants ==> out == Failed(Conflict) && View() == old(View())
      ensures slug !in old(View()).tenants ==> (View(), out) == PutTenant(old(View()), slug, info)
    {
      if slug in dirs {
        return Failed(Conflict);
      }
      dirs := dirs[slug := DirFiles(Some(info), [], [])];
      out := Done;
      ViewUpdate(old(dirs), rings, slug, dirs[slug]);
    }

    method UpdateTenant(slug: string, info: TenantInfo) returns (out: Outcome)
      requires Valid()
      modifies this`dirs
      ensures Valid()
      ensures InfoAt(old(View()), slug).None? ==> out == Failed(NotFound) && View() == old(View())
      ensures InfoAt(old(View()), slug).Some? ==> (View(), out) == PutTenant(old(View()), slug, info)
    {
      if slug !in dirs || dirs[slug].info.None? {
        return Failed(NotFound);
      }
      dirs := dirs[slug := dirs[slug].(info := Some(info))];
      out := Done;
      ViewUpdate(old(dirs), rings, slug, dirs[slug]);
    }

    method DeleteTenantDir(slug: string) returns (out: Outcome)
      requires Valid()
      modifies this`dirs
      ensures Valid()
      ensures View() == Next(old(View()), TenantDelete(slug))
      ensures out == if slug in old(View()).tenants then Done else Failed(NotFound)
    {
      if slug !in dirs {
        out := Failed(NotFound);
      } else {
        out := Done;
      }
      dirs := dirs - {slug};
      assert View().tenants == old(View()).tenants - {slug};
    }

    method UpdateTenantSettings(slug: string, doc: string) returns (out: Outcome)
      requires Valid()
      modifies this`dirs
      ensures Valid()
      ensures (View(), out) == PutSettings(old(View()), slug, doc)
    {
      var info := GetBySlug(slug);
      if info.None? {
        return Failed(NotFound);
      }
      out := UpdateTenant(slug, info.value.(settings := doc));
    }

    // ─── Applier ───

    method UpsertClient(slug: string, payload: Option<ClientPayload>) returns (out: Outcome)
      requires Valid() && !locked
      modifies this`dirs, this`locked
      ensures Valid()
      ensures locked <==> out == Blocked
      ensures (View(), out) == Step(old(View()), ClientUpsert(slug, payload))
    {
      if payload.None? {
        return Failed(BadPayload);
      }
      var rec := payload.value.rec;
      var found := GetClient(slug, rec.clientId);
      if !found {
        out := CreateClient(slug, rec);
      } else {
        out := UpdateClient(slug, rec);
      }
    }

    method DropById(slug: string, key: ItemKey) returns (out: Outcome)
      requires Valid()
      modifies this`dirs
      ensures Valid()
      ensures (View(), out) == DropItem(old(View()), slug, key)
    {
      out := DeleteItem(slug, key);
      if out == Failed(NotFound) {
        out := Done;
      }
    }

    method UpsertTenant(payload: Option<TenantPayload>, slug: string) returns (out: Outcome)
      requires Valid()
      modifies this`dirs
      ensures Valid()
      ensures (View(), out) == Step(old(View()), TenantUpsert(slug, payload))
    {
      if payload.None? {
        return Failed(BadPayload);
      }
      var p := payload.value;
      var settings := "";
      if !p.settings.NoSettings? {
        if p.settings.BadDoc? {
          return Failed(BadPayload);
        }
        settings := p.settings.doc;
      }
      var info := TenantInfo(p.id, p.name, settings);
      var existing := GetBySlug(p.slug);
      if existing.None? {
        out := CreateTenant(p.slug, info);
      } else {
        out := UpdateTenant(p.slug, info);
      }
    }

    method DeleteTenant(slug: string) returns (out: Outcome)
      requires Valid()
      modifies this`dirs
      ensures Valid()
      ensures (View(), out) == Step(old(View()), TenantDelete(slug))
    {
      out := DeleteTenantDir(slug);
      if out == Failed(NotFound) {
        out := Done;
      }
    }

    method UpdateSettings(slug: string, payload: Option<RawSettings>) returns (out: Outcome)
      requires Valid()
      modifies this`dirs
      ensures Valid()
      ensures (View(), out) == Step(old(View()), SettingsUpdate(slug, payload))
    {
      if payload.None? || !payload.value.Doc? {
        return Failed(BadPayload);
      }
      out := UpdateTenantSettings(slug, payload.value.doc);
    }

    method RotateKey(slug: string, payload: Option<KeyPayload>) returns (out: Outcome)
      modifies this`rings
      ensures ViewOf(dirs, rings) == Step(old(View()), KeyRotate(slug, payload)).0
      ensures out == Step(old(View()), KeyRotate(slug, payload)).1
    {
      if payload.None? {
        return Failed(BadPayload);
      }
      var ring := if slug == "" || slug == "global" then "global" else slug;
      ghost var dir := if ring in rings then rings[ring] else KeyDir(None, None);
      if ring !in rings {
        rings := rings[ring := KeyDir(None, None)];
      }
      assert rings[ring] == dir;
      if !Blank(payload.value.activeJson) {
        rings := rings[ring := rings[ring].(active := Some(payload.value.activeJson))];
      }
      if Blank(payload.value.retiringJson) {
        rings := rings[ring := rings[ring].(retiring := None)];
      } else {
        rings := rings[ring := rings[ring].(retiring := Some(payload.value.retiringJson))];
      }
      out := Done;
      assert rings[ring] == RotatedDir(dir, payload.value);
      assert rings == old(rings)[ring := RotatedDir(dir, payload.value)];
    }

    /** V2Applier.Apply: the imperative store makes exactly the step of the specification. */
    method Apply(m: Mutation) returns (out: Outcome)
      requires Valid() && !locked
      modifies this
      ensures Valid()
      ensures locked <==> out == Blocked
      ensures (View(), out) == Step(old(View()), m)
    {
      match m
      case ClientUpsert(slug, payload) => out := UpsertClient(slug, payload);
      case ClientDelete(slug, id) =>
        if id.None? {
          return Failed(BadPayload);
        }
        out := DropById(slug, ClientKey(id.value));
      case TenantUpsert(slug, payload) => out := UpsertTenant(payload, slug);
      case TenantDelete(slug) => out := DeleteTenant(slug);
      case SettingsUpdate(slug, payload) => out := UpdateSettings(slug, payload);
      case ScopeUpsert(slug, payload) =>
        if payload.None? {
          return Failed(BadPayload);
        }
        out := UpsertScopeItem(slug, payload.value);
      case ScopeDelete(slug, id) =>
        if id.None? {
          return Failed(BadPayload);
        }
        out := DropById(slug, ScopeKey(id.value));
      case KeyRotate(slug, payload) => out := RotateKey(slug, payload);
      case Unknown(_) => out := Done;
    }

    /** FSM.Apply: an entry without data is skipped, one that is not JSON is an error; neither has an effect. */
    method ApplyEntry(entry: LogEntry) returns (out: Outcome)
      requires Valid() && !locked
      modifies this
      ensures Valid()
      ensures locked <==> out == Blocked
      ensures entry.Entry? ==> (View(), out) == Step(old(View()), entry.mutation)
      ensures !entry.Entry? ==> View() == old(View()) && out == if entry.NoData? then Done else Failed(BadPayload)
    {
      match entry
      case NoData => out := Done;
      case NotJson => out := Failed(BadPayload);
      case Entry(m) => out := Apply(m);
    }

    /** A node applies the log in order, up to an entry that is never answered. */
    method ApplyLog(log: seq<Mutation>)
      requires Valid() && !locked
      modifies this
      ensures Valid()
      ensures Fsm(View(), locked) == Exec(old(View()), log)
    {
      for i := 0 to |log|
        invariant Valid()
        invariant Fsm(View(), locked) == Exec(old(View()), log[..i])
      {
        assert log[..i + 1][..i] == log[..i];
        if !locked {
          var _ := Apply(log[i]);
        }
      }
      assert log[..|log|] == log;
    }
  }
}
