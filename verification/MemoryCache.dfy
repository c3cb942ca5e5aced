/**
 The in-memory cache: entries with an optional expiry, checked when read and
 swept by Cleanup, against a reference that looks back over what was done.

 Times are nanoseconds since the zero time, so the clock is always positive.
 */
module MemoryCache {
  import opened Wrappers

  datatype Entry = Entry(value: string, expiresAt: int, noExpire: bool)

  type Data = map<string, Entry>

  datatype Op =
    | Set(key: string, value: string, ttl: int, at: int)
    | Delete(key: string, at: int)
    | Cleanup(at: int)

  function FullKey(prefix: string, key: string): string {
    if prefix == "" then key else prefix + ":" + key
  }

  lemma FullKeyInjective(prefix: string, a: string, b: string)
    requires FullKey(prefix, a) == FullKey(prefix, b)
    ensures a == b
  {
    if prefix != "" {
      assert FullKey(prefix, a)[|prefix| + 1..] == a;
      assert FullKey(prefix, b)[|prefix| + 1..] == b;
    }
  }

  /** time.Now().After(expiresAt) */
  predicate Expired(e: Entry, now: int) {
    !e.noExpire && now > e.expiresAt
  }

  /** A negative ttl leaves the zero time as expiry. */
  function NewEntry(value: string, ttl: int, at: int): Entry {
    Entry(value, if ttl > 0 then at + ttl else 0, ttl == 0)
  }

  function Step(prefix: string, data: Data, op: Op): Data {
    match op
    case Set(key, value, ttl, at) => data[FullKey(prefix, key) := NewEntry(value, ttl, at)]
    case Delete(key, _) => data - {FullKey(prefix, key)}
    case Cleanup(at) => map k | k in data && !Expired(data[k], at) :: data[k]
  }

  function Run(prefix: string, ops: seq<Op>): Data {
    if ops == [] then map[] else Step(prefix, Run(prefix, ops[..|ops| - 1]), ops[|ops| - 1])
  }

  function Lookup(prefix: string, data: Data, key: string, now: int): Option<string> {
    var k := FullKey(prefix, key);
    if k in data && !Expired(data[k], now) then Some(data[k].value) else None
  }

  // ─── The reference ───

  /** The value of the last Set of the key, while its ttl lasts and no Delete came after. */
  function Visible(ops: seq<Op>, key: string, now: int): Option<string> {
    if ops == [] then None
    else
      match ops[|ops| - 1]
      case Set(k, value, ttl, at) =>
        if k != key then Visible(ops[..|ops| - 1], key, now)
        else if ttl == 0 || (ttl > 0 && now <= at + ttl) then Some(value)
        else None
      case Delete(k, _) => if k == key then None else Visible(ops[..|ops| - 1], key, now)
      case Cleanup(_) => Visible(ops[..|ops| - 1], key, now)
  }

  predicate Clocked(ops: seq<Op>, now: int) {
    && now > 0
    && (forall i | 0 <= i < |ops| :: 0 < ops[i].at <= now)
    && (forall i, j | 0 <= i < j < |ops| :: ops[i].at <= ops[j].at)
  }

  /**
   Under a clock that does not go back, the cache answers as the reference does, whenever and however
   often Cleanup runs; in particular Cleanup changes no later answer.
   */
  lemma {:induction false} Refines(prefix: string, ops: seq<Op>, key: string, now: int)
    requires Clocked(ops, now)
    ensures Lookup(prefix, Run(prefix, ops), key, now) == Visible(ops, key, now)
  {
    if ops != [] {
      var front, op := ops[..|ops| - 1], ops[|ops| - 1];
      Refines(prefix, front, key, now);
      if !op.Cleanup? && op.key != key && FullKey(prefix, op.key) == FullKey(prefix, key) {
        FullKeyInjective(prefix, op.key, key);
      }
    }
  }

  /** The same statement without the sweeps: they can be dropped from any history. */
  function WithoutCleanups(ops: seq<Op>): seq<Op> {
    if ops == [] then []
    else
      WithoutCleanups(ops[..|ops| - 1]) + if ops[|ops| - 1].Cleanup? then [] else [ops[|ops| - 1]]
  }

  lemma {:induction false} CleanupsDoNotMatter(prefix: string, ops: seq<Op>, key: string, now: int)
    requires Clocked(ops, now)
    ensures Clocked(WithoutCleanups(ops), now)
    ensures Lookup(prefix, Run(prefix, ops), key, now) == Lookup(prefix, Run(prefix, WithoutCleanups(ops)), key, now)
  {
    SweptClock(ops, now);
    SweptAnswers(ops, key, now);
    Refines(prefix, ops, key, now);
    Refines(prefix, WithoutCleanups(ops), key, now);
  }

  lemma {:induction false} SweptClock(ops: seq<Op>, now: int)
    requires Clocked(ops, now)
    ensures Clocked(WithoutCleanups(ops), now)
    ensures ops != [] ==> Clocked(WithoutCleanups(ops), ops[|ops| - 1].at)
  {
    if ops != [] {
      var front, op := ops[..|ops| - 1], ops[|ops| - 1];
      SweptClock(front, op.at);
      var w := WithoutCleanups(front);
      assert forall i | 0 <= i < |w| :: 0 < w[i].at <= op.at;
    }
  }

  lemma {:induction false} SweptAnswers(ops: seq<Op>, key: string, now: int)
    ensures Visible(WithoutCleanups(ops), key, now) == Visible(ops, key, now)
  {
    if ops != [] {
      var front, op := ops[..|ops| - 1], ops[|ops| - 1];
      SweptAnswers(front, key, now);
      var w := WithoutCleanups(front);
      if op.Cleanup? {
        assert WithoutCleanups(ops) == w;
      } else {
        assert WithoutCleanups(ops) == w + [op];
        assert (w + [op])[..|w|] == w;
      }
    }
  }

  lemma OneMore(prefix: string, ops: seq<Op>, op: Op)
    requires Clocked(ops, op.at)
    ensures Run(prefix, ops + [op]) == Step(prefix, Run(prefix, ops), op)
    ensures Clocked(ops + [op], op.at)
  {
    assert (ops + [op])[..|ops|] == ops;
  }

  lemma OneDelete(prefix: string, ops: seq<Op>, key: string, now: int)
    requires Clocked(ops, now)
    ensures Run(prefix, ops + [Delete(key, now)]) == Run(prefix, ops) - {FullKey(prefix, key)}
    ensures Clocked(ops + [Delete(key, now)], now)
  {
    OneMore(prefix, ops, Delete(key, now));
  }

  lemma OneSet(prefix: string, ops: seq<Op>, key: string, value: string, ttl: int, now: int)
    requires Clocked(ops, now)
    ensures Run(prefix, ops + [Set(key, value, ttl, now)])
         == Run(prefix, ops)[FullKey(prefix, key) := NewEntry(value, ttl, now)]
    ensures Clocked(ops + [Set(key, value, ttl, now)], now)
  {
    OneMore(prefix, ops, Set(key, value, ttl, now));
  }

  // ─── The client ───

  /** Keys Stats counts: those whose expiry is still ahead. */
  function Counted(data: Data, now: int): set<string> {
    set k | k in data && (data[k].noExpire || now < data[k].expiresAt)
  }

  function Unexpired(data: Data, now: int): set<string> {
    set k | k in data && !Expired(data[k], now)
  }

  /** Stats and Get disagree on exactly the entries that expire at this instant. */
  lemma StatsAtTheInstant(data: Data, now: int)
    ensures Unexpired(data, now) == Counted(data, now) + set k | k in data && !data[k].noExpire && data[k].expiresAt == now
    ensures Counted(data, now) !! set k | k in data && !data[k].noExpire && data[k].expiresAt == now
  {}

  datatype Stats = Stats(keys: nat, hits: nat, misses: nat)

  class MemoryClient {
    const prefix: string
    var data: Data
    var hits: nat
    var misses: nat
    /** What has been done so far, and how often Get was called and answered. */
    ghost var ops: seq<Op>
    ghost var gets: nat
    ghost var answered: nat

    ghost predicate Valid(now: int)
      reads this
    {
      && Clocked(ops, now)
      && data == Run(prefix, ops)
      && hits == answered && hits + misses == gets
    }

    constructor (prefix: string, now: int)
      requires now > 0
      ensures Valid(now) && ops == [] && gets == 0 && this.prefix == prefix
    {
      this.prefix := prefix;
      data, hits, misses := map[], 0, 0;
      ops, gets, answered := [], 0, 0;
    }

    method Get(key: string, now: int) returns (r: Option<string>)
      requires Valid(now)
      modifies this
      ensures Valid(now) && ops == old(ops) && data == old(data)
      ensures r == Visible(ops, key, now)
      ensures gets == old(gets) + 1 && answered == old(answered) + if r.Some? then 1 else 0
    {
      Refines(prefix, ops, key, now);
      gets := gets + 1;
      var k := FullKey(prefix, key);
      if k !in data {
        misses := misses + 1;
        return None;
      }
      if !data[k].noExpire && now > data[k].expiresAt {
        misses := misses + 1;
        return None;
      }
      hits, answered := hits + 1, answered + 1;
      return Some(data[k].value);
    }

    method Exists(key: string, now: int) returns (found: bool)
      requires Valid(now)
      ensures found <==> Visible(ops, key, now).Some?
    {
      Refines(prefix, ops, key, now);
      var k := FullKey(prefix, key);
      if k !in data {
        return false;
      }
      return data[k].noExpire || now <= data[k].expiresAt;
    }

    method Set(key: string, value: string, ttl: int, now: int)
      requires Valid(now)
      modifies this`data, this`ops
      ensures Valid(now) && ops == old(ops) + [Op.Set(key, value, ttl, now)]
    {
      var entry := Entry(value, 0, ttl == 0);
      if ttl > 0 {
        entry := entry.(expiresAt := now + ttl);
      }
      var k := FullKey(prefix, key);
      OneSet(prefix, ops, key, value, ttl, now);
      data := data[k := entry];
      ops := ops + [Op.Set(key, value, ttl, now)];
    }

    method Delete(key: string, now: int)
      requires Valid(now)
      modifies this`data, this`ops
      ensures Valid(now) && ops == old(ops) + [Op.Delete(key, now)]
    {
      OneDelete(prefix, ops, key, now);
      ops := ops + [Op.Delete(key, now)];
      data := data - {FullKey(prefix, key)};
    }

    method Cleanup(now: int)
      requires Valid(now)
      modifies this`data, this`ops
      ensures Valid(now) && ops == old(ops) + [Op.Cleanup(now)]
      ensures data.Keys == Unexpired(old(data), now)
    {
      ghost var was := data;
      var left := data.Keys;
      while left != {}
        invariant left <= was.Keys
        invariant data == map k | k in was && (k in left || !Expired(was[k], now)) :: was[k]
        invariant ops == old(ops)
        decreases |left|
      {
        var k :| k in left;
        if !data[k].noExpire && now > data[k].expiresAt {
          data := data - {k};
        }
        left := left - {k};
      }
      OneMore(prefix, ops, Op.Cleanup(now));
      ops := ops + [Op.Cleanup(now)];
    }

    method GetStats(now: int) returns (stats: Stats)
      requires Valid(now)
      ensures stats == Stats(|Counted(data, now)|, hits, misses)
      ensures stats.hits == answered && stats.hits + stats.misses == gets
    {
      var left := data.Keys;
      var count := 0;
      ghost var done: set<string> := {};
      while left != {}
        invariant left <= data.Keys && done == (set k | k in Counted(data, now) && k !in left)
        invariant count == |done|
        decreases |left|
      {
        var k :| k in left;
        if data[k].noExpire || now < data[k].expiresAt {
          count := count + 1;
          done := done + {k};
        }
        left := left - {k};
      }
      assert done == Counted(data, now);
      stats := Stats(count, hits, misses);
    }
  }
}
