/**
 Cluster membership on top of Raft's configuration changes.  Raft itself is an
 environment that applies one change at a time to its latest configuration; a
 caller whose context is cancelled stops waiting, but its change may still land
 at any later moment, even between the steps of the next call.
 */
module Membership {
  import opened Wrappers

  datatype Server = Server(id: string, addr: string)

  type Config = seq<Server>

  datatype Change = AddChange(id: string, addr: string) | RemoveChange(id: string)

  // ─── Raft's rules for one change (hashicorp/raft) ───

  function Ids(c: Config): set<string> {
    set s | s in c :: s.id
  }

  ghost predicate UniqueIds(c: Config) {
    forall i, j | 0 <= i < j < |c| :: c[i].id != c[j].id
  }

  /** Position of a server, or the length of the list. */
  function IndexOf(c: Config, id: string): (i: nat)
    ensures i <= |c|
    ensures i < |c| ==> c[i].id == id
    ensures forall j | 0 <= j < i :: c[j].id != id
  {
    if c == [] then 0 else if c[0].id == id then 0 else 1 + IndexOf(c[1..], id)
  }

  function Applied(c: Config, ch: Change): Config {
    var i := IndexOf(c, ch.id);
    match ch
    case AddChange(id, addr) => if i < |c| then c[i := Server(id, addr)] else c + [Server(id, addr)]
    case RemoveChange(id) => if i < |c| then c[..i] + c[i + 1..] else c
  }

  /** checkConfiguration: no empty or repeated id or address, and at least one voter. */
  predicate Acceptable(c: Config) {
    && c != []
    && (forall i | 0 <= i < |c| :: c[i].id != "" && c[i].addr != "")
    && (forall i, j | 0 <= i < j < |c| :: c[i].id != c[j].id && c[i].addr != c[j].addr)
  }

  function Landed(c: Config, ch: Change): Config {
    if Acceptable(Applied(c, ch)) then Applied(c, ch) else c
  }

  // ─── One server at a time ───

  /** Apart from one id, the two configurations have the same servers. */
  ghost predicate OneApart(a: Config, b: Config) {
    exists id :: SameBut(a, b, id)
  }

  ghost predicate SameBut(a: Config, b: Config, id: string) {
    forall s: Server | s.id != id :: s in a <==> s in b
  }

  lemma AppliedOneApart(c: Config, ch: Change)
    requires UniqueIds(c)
    ensures SameBut(c, Applied(c, ch), ch.id) && UniqueIds(Applied(c, ch))
  {}

  /** What Applied does to the set of servers. */
  lemma AppliedServers(c: Config, ch: Change)
    requires UniqueIds(c)
    ensures forall s: Server :: s in Applied(c, ch) <==>
              (if s.id == ch.id then ch == AddChange(s.id, s.addr) else s in c)
  {
    AppliedOneApart(c, ch);
    var i := IndexOf(c, ch.id);
    var d := Applied(c, ch);
    if ch.AddChange? {
      assert d[i] == Server(ch.id, ch.addr);
    } else if i < |c| {
      forall k | 0 <= k < |d|
        ensures d[k].id != ch.id
      {
        assert d[k] == if k < i then c[k] else c[k + 1];
      }
    }
  }

  lemma SubsetSize<T>(a: set<T>, b: set<T>)
    requires a <= b
    ensures |a| <= |b|
  {
    assert b == a + (b - a);
  }

  lemma SumOfSizes<T>(q: set<T>, r: set<T>)
    ensures |q| + |r| == |q + r| + |q * r|
  {}

  lemma SizeWithout(a: set<string>, x: string)
    ensures |a| == |a - {x}| + if x in a then 1 else 0
  {
    if x in a {
      assert a == (a - {x}) + {x};
    } else {
      assert a == a - {x};
    }
  }

  lemma UnionSize(a: set<string>, b: set<string>, x: string)
    requires a - {x} == b - {x}
    ensures 2 * |a + b| <= |a| + |b| + 1
  {
    assert (a + b) - {x} == a - {x};
    SizeWithout(a, x);
    SizeWithout(b, x);
    SizeWithout(a + b, x);
  }

  /** Majorities of configurations one server apart share a member, so two leaders cannot both win. */
  lemma MajoritiesIntersect(a: set<string>, b: set<string>, x: string, q: set<string>, r: set<string>)
    requires a - {x} == b - {x}
    requires q <= a && 2 * |q| > |a|
    requires r <= b && 2 * |r| > |b|
    ensures q * r != {}
  {
    SumOfSizes(q, r);
    SubsetSize(q + r, a + b);
    UnionSize(a, b, x);
  }

  lemma ConsecutiveMajorities(a: Config, b: Config, q: set<string>, r: set<string>)
    requires OneApart(a, b)
    requires q <= Ids(a) && 2 * |q| > |Ids(a)|
    requires r <= Ids(b) && 2 * |r| > |Ids(b)|
    ensures q * r != {}
  {
    var x :| SameBut(a, b, x);
    forall id | id != x
      ensures id in Ids(a) <==> id in Ids(b)
    {
      if id in Ids(a) {
        var s :| s in a && s.id == id;
        assert s in b;
      }
      if id in Ids(b) {
        var s :| s in b && s.id == id;
        assert s in a;
      }
    }
    assert Ids(a) - {x} == Ids(b) - {x};
    MajoritiesIntersect(Ids(a), Ids(b), x, q, r);
  }

  // ─── Node ───

  /** How waiting for a change ends. */
  datatype Wait = Answered | CancelledPending | Failed

  /** What happens during one Raft call: changes of earlier, cancelled calls land first. */
  datatype Call = Call(late: seq<nat>, wait: Wait)

  datatype Result = Ok | InvalidArgument | RaftError

  class Node {
    var config: Config
    /** Changes whose callers have stopped waiting. */
    var pending: seq<Change>
    /** Every configuration committed so far. */
    ghost var history: seq<Config>

    ghost predicate Valid()
      reads this
    {
      && history != [] && history[|history| - 1] == config
      && (forall k | 0 <= k < |history| :: Acceptable(history[k]))
      && (forall k | 0 < k < |history| :: OneApart(history[k - 1], history[k]))
    }

    constructor (c: Config)
      requires Acceptable(c)
      ensures Valid() && config == c && pending == []
    {
      config, pending, history := c, [], [c];
    }

    method Land(ch: Change) returns (accepted: bool)
      requires Valid()
      modifies this`config, this`history
      ensures Valid() && old(history) <= history
      ensures config == Landed(old(config), ch)
      ensures accepted <==> Acceptable(Applied(old(config), ch))
      ensures !accepted ==> history == old(history)
      ensures accepted ==> history == old(history) + [config]
    {
      accepted := Acceptable(Applied(config, ch));
      if accepted {
        AppliedOneApart(config, ch);
        config := Applied(config, ch);
        history := history + [config];
      }
    }

    /** Some pending changes land, in any order and number. */
    method LandLate(late: seq<nat>)
      requires Valid()
      modifies this`config, this`history
      ensures Valid() && old(history) <= history
      ensures pending == [] ==> config == old(config) && history == old(history)
    {
      for i := 0 to |late|
        invariant Valid() && old(history) <= history
        invariant pending == [] ==> config == old(config) && history == old(history)
      {
        if late[i] < |pending| {
          var _ := Land(pending[late[i]]);
        }
      }
    }

    /** One asynchronous Raft call and the select on its future and the context. */
    method Submit(ch: Change, call: Call) returns (r: Result)
      requires Valid()
      modifies this
      ensures Valid() && old(history) <= history
      ensures r == Ok ==> exists c: Config :: UniqueIds(c) && Acceptable(Applied(c, ch)) && config == Applied(c, ch)
      ensures old(pending) == [] && call.wait.Answered? ==>
                && config == Landed(old(config), ch) && pending == []
                && r == if Acceptable(Applied(old(config), ch)) then Ok else RaftError
      ensures r == Ok || r == RaftError
      ensures pending == if call.wait.CancelledPending? then old(pending) + [ch] else old(pending)
      ensures !call.wait.Answered? ==> r == RaftError
    {
      LandLate(call.late);
      match call.wait
      case Answered =>
        ghost var c := config;
        var accepted := Land(ch);
        r := if accepted then Ok else RaftError;
        assert accepted ==> UniqueIds(c) && config == Applied(c, ch);
      case CancelledPending =>
        pending := pending + [ch];
        r := RaftError;
      case Failed =>
        r := RaftError;
    }

    /** The scan over config.Servers. */
    method Find(id: string) returns (addr: Option<string>)
      ensures addr == var i := IndexOf(config, id); if i < |config| then Some(config[i].addr) else None
    {
      for i := 0 to |config|
        invariant forall j | 0 <= j < i :: config[j].id != id
      {
        if config[i].id == id {
          return Some(config[i].addr);
        }
      }
      addr := None;
    }

    method RemoveLocked(id: string, call: Call) returns (r: Result)
      requires Valid()
      modifies this
      ensures Valid() && old(history) <= history
      ensures r == Ok || r == RaftError
      ensures r == Ok ==> id !in Ids(config)
      ensures id !in Ids(old(config)) ==> r == Ok && config == old(config) && history == old(history) && pending == old(pending)
      ensures id in Ids(old(config)) && old(pending) == [] && call.wait.Answered? ==>
                && config == Landed(old(config), RemoveChange(id)) && pending == []
                && r == if Acceptable(Applied(old(config), RemoveChange(id))) then Ok else RaftError
      ensures call.wait.Answered? ==> pending == old(pending)
    {
      var found := Find(id);
      if found.None? {
        return Ok;
      }
      assert config[IndexOf(config, id)] in config;
      r := Submit(RemoveChange(id), call);
      if r == Ok {
        ghost var c: Config :| UniqueIds(c) && Acceptable(Applied(c, RemoveChange(id))) && config == Applied(c, RemoveChange(id));
        AppliedServers(c, RemoveChange(id));
      }
    }

    method RemoveServer(id: string, call: Call) returns (r: Result)
      requires Valid()
      modifies this
      ensures Valid() && old(history) <= history
      ensures id == "" <==> r == InvalidArgument
      ensures id == "" ==> config == old(config)
      ensures r == Ok ==> id !in Ids(config)
      ensures id != "" && id !in Ids(old(config)) ==> r == Ok && config == old(config) && history == old(history)
    {
      if id == "" {
        return InvalidArgument;
      }
      r := RemoveLocked(id, call);
    }

    /**
     AddVoter.  The change of a known server's address is two Raft changes with a
     configuration without the server in between; Valid() makes every step a
     one-server step, whatever lands or is cancelled meanwhile.
     */
    method AddVoter(id: string, addr: string, remove: Call, add: Call) returns (r: Result)
      requires Valid()
      modifies this
      ensures Valid() && old(history) <= history
      ensures id == "" || addr == "" <==> r == InvalidArgument
      ensures r == InvalidArgument ==> config == old(config)
      // success means the server is there with that address
      ensures r == Ok ==> Server(id, addr) in config
      // idempotent: nothing is sent to Raft for a server already there
      ensures id != "" && addr != "" && Server(id, addr) in old(config) ==> r == Ok && config == old(config) && history == old(history)
      // undisturbed, the call replaces the server, or says why not
      ensures id != "" && addr != "" && Server(id, addr) !in old(config) && old(pending) == [] && remove.wait.Answered? && add.wait.Answered? ==>
                var first := if id in Ids(old(config)) then Applied(old(config), RemoveChange(id)) else old(config);
                if !Acceptable(first) then r == RaftError && config == old(config)
                else if !Acceptable(Applied(first, AddChange(id, addr))) then r == RaftError && config == first
                else r == Ok && config == Applied(first, AddChange(id, addr))
    {
      if id == "" || addr == "" {
        return InvalidArgument;
      }
      var found := Find(id);
      IndexFacts(config, id, addr);
      if found.Some? {
        if found.value == addr {
          return Ok;
        }
        r := RemoveLocked(id, remove);
        if r != Ok {
          return;
        }
      }
      r := Submit(AddChange(id, addr), add);
      if r == Ok {
        ghost var c: Config :| UniqueIds(c) && Acceptable(Applied(c, AddChange(id, addr))) && config == Applied(c, AddChange(id, addr));
        AppliedServers(c, AddChange(id, addr));
      }
    }
  }

  lemma IndexFacts(c: Config, id: string, addr: string)
    requires UniqueIds(c)
    ensures var i := IndexOf(c, id);
            && (i < |c| <==> id in Ids(c))
            && (Server(id, addr) in c <==> i < |c| && c[i].addr == addr)
  {
    var i := IndexOf(c, id);
    if i < |c| {
      assert c[i] in c;
    }
    if Server(id, addr) in c {
      var k :| 0 <= k < |c| && c[k] == Server(id, addr);
    }
  }

  /**
   An address change can lose the server: if the new address belongs to another server
   the removal commits, the addition is refused, and the server is gone.
   */
  lemma AddressTaken(c: Config, id: string, addr: string, other: string)
    requires Acceptable(c) && other != id
    requires id in Ids(c) && Server(other, addr) in c
    ensures var first := Applied(c, RemoveChange(id));
            && Acceptable(first) && id !in Ids(first)
            && !Acceptable(Applied(first, AddChange(id, addr)))
  {
    var first := Applied(c, RemoveChange(id));
    RemoveAcceptable(c, id, Server(other, addr));
    IndexFacts(first, id, addr);
    var second := Applied(first, AddChange(id, addr));
    var k :| 0 <= k < |first| && first[k] == Server(other, addr);
    assert second[k].addr == second[|first|].addr;
  }

  /** No server has that address. */
  predicate Free(c: Config, addr: string) {
    forall k | 0 <= k < |c| :: c[k].addr != addr
  }

  lemma FreeWithout(c: Config, i: nat, addr: string)
    requires i < |c| && c[i].addr != addr
    ensures Free(c[..i] + c[i + 1..], addr) <==> Free(c, addr)
  {
    var d := c[..i] + c[i + 1..];
    if Free(d, addr) {
      forall k | 0 <= k < |c| ensures c[k].addr != addr {
        if k != i {
          assert c[k] == d[if k < i then k else k - 1];
        }
      }
    } else {
      var k :| 0 <= k < |d| && d[k].addr == addr;
      assert c[if k < i then k else k + 1].addr == addr;
    }
  }

  /** Appending a server of a new id keeps the rules if and only if its address is new too. */
  lemma AppendAcceptable(c: Config, s: Server)
    requires Acceptable(c) && s.id !in Ids(c) && s.id != "" && s.addr != ""
    ensures Acceptable(c + [s]) <==> Free(c, s.addr)
  {
    var d := c + [s];
    forall k | 0 <= k < |c| ensures d[k] == c[k] && c[k].id != s.id {
      assert c[k] in c;
    }
    if Acceptable(d) {
      forall k | 0 <= k < |c| ensures c[k].addr != s.addr {
        assert d[k].addr != d[|c|].addr;
      }
    }
  }

  /**
   When an address change goes through: the configuration must have another voter, or the removal is
   refused and nothing changes; and the new address must be free, or the server is gone for good.
   */
  lemma AddressChangeIff(c: Config, id: string, addr: string)
    requires Acceptable(c) && id in Ids(c) && addr != "" && Server(id, addr) !in c
    ensures var first := Applied(c, RemoveChange(id));
            && (Acceptable(first) <==> |c| > 1)
            && (|c| > 1 ==>
                  (Acceptable(Applied(first, AddChange(id, addr))) <==> Free(c, addr)))
  {
    var i := IndexOf(c, id);
    IndexFacts(c, id, addr);
    assert Applied(c, RemoveChange(id)) == c[..i] + c[i + 1..];
    RemovedAt(c, i, id, addr);
  }

  lemma RemovedAt(c: Config, i: nat, id: string, addr: string)
    requires Acceptable(c) && i < |c| && c[i].id == id && c[i].addr != addr && addr != ""
    ensures var first := c[..i] + c[i + 1..];
            && (Acceptable(first) <==> |c| > 1)
            && (|c| > 1 ==> (Acceptable(Applied(first, AddChange(id, addr))) <==> Free(c, addr)))
  {
    if |c| > 1 {
      WithoutOne(c, i);
      FreeWithout(c, i, addr);
      AddNew(c[..i] + c[i + 1..], id, addr);
    }
  }

  lemma AddNew(c: Config, id: string, addr: string)
    requires Acceptable(c) && id !in Ids(c) && id != "" && addr != ""
    ensures Acceptable(Applied(c, AddChange(id, addr))) <==> Free(c, addr)
  {
    IndexFacts(c, id, addr);
    assert Applied(c, AddChange(id, addr)) == c + [Server(id, addr)];
    AppendAcceptable(c, Server(id, addr));
  }

  lemma RemoveAcceptable(c: Config, id: string, kept: Server)
    requires Acceptable(c) && id in Ids(c) && kept in c && kept.id != id
    ensures var first := Applied(c, RemoveChange(id)); Acceptable(first) && id !in Ids(first) && kept in first
  {
    var first := Applied(c, RemoveChange(id));
    var i := IndexOf(c, id);
    IndexFacts(c, id, "");
    assert first == c[..i] + c[i + 1..];
    WithoutOne(c, i);
    assert kept in first by {
      var k :| 0 <= k < |c| && c[k] == kept;
      assert first[if k < i then k else k - 1] == kept;
    }
  }

  lemma WithoutOne(c: Config, i: nat)
    requires Acceptable(c) && i < |c| && |c| > 1
    ensures var d := c[..i] + c[i + 1..]; Acceptable(d) && c[i].id !in Ids(d)
  {
    var d := c[..i] + c[i + 1..];
    assert forall k | 0 <= k < |d| :: d[k] == c[if k < i then k else k + 1];
  }
}
