/**
 The migration runner: versions still to apply are those above the highest
 recorded one, and any statement of any run may fail, with or without its effect.
 */
module Migrate {
  import opened Wrappers
  import opened Strings

  datatype Migration = Migration(version: int, name: string, sql: string)

  /** How a statement ends: an error may come back although the statement took effect. */
  datatype Outcome = Done | FailedBefore | FailedAfter

  datatype Answer = Row | NoRows | QueryFailed

  // ─── Migration files ───

  /** What follows the leading digits. */
  function AfterDigits(s: string): (r: string)
    ensures |r| <= |s| && s[|s| - |r|..] == r && Digits(s[..|s| - |r|])
    ensures r == [] || !('0' <= r[0] <= '9')
  {
    if s == [] || !('0' <= s[0] <= '9') then s
    else
      var r := AfterDigits(s[1..]);
      assert s[..|s| - |r|] == [s[0]] + s[1..][..|s[1..]| - |r|];
      r
  }

  const SUFFIX := "_up.sql"

  /** _{name}_up.sql; the dot of the pattern stands for anything but a line end. */
  predicate NameAndSuffix(rest: string) {
    var end := |rest| - |SUFFIX|;
    end >= 2 && rest[0] == '_' && rest[end..] == SUFFIX && '\n' !in rest[1..end]
  }

  /** {digits}_{name}_up.sql; a version out of range is clamped and its error dropped. */
  function ParseName(file: string): Option<(int, string)> {
    var rest := AfterDigits(file);
    var digits := file[..|file| - |rest|];
    var end := |rest| - |SUFFIX|;
    if digits == [] || !NameAndSuffix(rest) then None
    else
      var v := Decimal(digits);
      Some((if v > MAXINT then MAXINT else v, rest[1..end]))
  }

  function Behind(name: string): string {
    "_" + name + SUFFIX
  }

  lemma BehindFits(name: string)
    requires name != "" && '\n' !in name
    ensures var rest := Behind(name); NameAndSuffix(rest) && rest[1..|rest| - |SUFFIX|] == name && rest[0] == '_'
  {}

  lemma {:induction false} DigitsFirst(digits: string, rest: string)
    requires Digits(digits) && rest != "" && !('0' <= rest[0] <= '9')
    ensures AfterDigits(digits + rest) == rest
  {
    if digits != "" {
      assert (digits + rest)[0] == digits[0] && (digits + rest)[1..] == digits[1..] + rest;
      DigitsFirst(digits[1..], rest);
    } else {
      assert digits + rest == rest;
    }
  }

  /** Digits, an underscore, a name and the suffix: the file is taken, with the digits as version. */
  lemma TakenName(digits: string, name: string)
    requires digits != "" && Digits(digits) && name != "" && '\n' !in name
    ensures ParseName(digits + Behind(name)) == Some((if Decimal(digits) > MAXINT then MAXINT else Decimal(digits), name))
  {
    var rest := Behind(name);
    BehindFits(name);
    DigitsFirst(digits, rest);
    assert (digits + rest)[..|digits|] == digits;
  }

  /** Nothing else is: every name that is taken has that form. */
  lemma OnlyTaken(file: string) returns (digits: string, name: string)
    requires ParseName(file).Some?
    ensures digits != "" && Digits(digits) && name != "" && '\n' !in name && file == digits + Behind(name)
  {
    var rest := AfterDigits(file);
    digits := file[..|file| - |rest|];
    assert file == digits + rest;
    name := CutName(rest);
  }

  lemma CutName(rest: string) returns (name: string)
    requires NameAndSuffix(rest)
    ensures rest == Behind(name) && name != "" && '\n' !in name
  {
    var end := |rest| - |SUFFIX|;
    name := rest[1..end];
    assert rest == [rest[0]] + rest[1..end] + rest[end..];
  }

  /** A printed version and a name come back; a down migration is never taken. */
  lemma PrintedName(version: nat, name: string, file: string)
    requires version <= MAXINT && name != "" && '\n' !in name
    ensures ParseName(Print(version) + ("_" + name + "_up.sql")) == Some((version, name))
    ensures ParseName(file + "_down.sql").None?
  {
    TakenName(Print(version), name);
    var down := file + "_down.sql";
    assert down[|down| - 5] == 'n';
    if ParseName(down).Some? {
      var digits, other := OnlyTaken(down);
      FifthFromEnd(digits, other);
      assert false;
    }
  }

  lemma FifthFromEnd(digits: string, name: string)
    ensures var file := digits + Behind(name); |file| >= 5 && file[|file| - 5] == 'p'
  {}

  datatype File = File(name: string, content: string)

  function Parsed(files: seq<File>): seq<Migration> {
    if files == [] then []
    else
      var f := files[|files| - 1];
      Parsed(files[..|files| - 1]) + match ParseName(f.name) {
        case None => []
        case Some(p) => [Migration(p.0, p.1, f.content)]
      }
  }

  predicate Ascending(migs: seq<Migration>) {
    forall i, j | 0 <= i < j < |migs| :: migs[i].version <= migs[j].version
  }

  predicate Distinct(migs: seq<Migration>) {
    forall i, j | 0 <= i < j < |migs| :: migs[i].version != migs[j].version
  }

  method InsertByVersion(r: seq<Migration>, mig: Migration) returns (r': seq<Migration>)
    requires Ascending(r)
    ensures Ascending(r') && multiset(r') == multiset(r) + multiset{mig}
  {
    var k := 0;
    while k < |r| && r[k].version <= mig.version
      invariant 0 <= k <= |r| && forall j | 0 <= j < k :: r[j].version <= mig.version
    {
      k := k + 1;
    }
    assert r == r[..k] + r[k..];
    r' := r[..k] + [mig] + r[k..];
  }

  /** Ascending and a permutation is all that sort.Slice promises. */
  method SortByVersion(migs: seq<Migration>) returns (r: seq<Migration>)
    ensures Ascending(r) && multiset(r) == multiset(migs)
  {
    r := [];
    for i := 0 to |migs|
      invariant Ascending(r) && multiset(r) == multiset(migs[..i])
    {
      assert migs[..i + 1] == migs[..i] + [migs[i]];
      r := InsertByVersion(r, migs[i]);
    }
    assert migs[..|migs|] == migs;
  }

  method ParseMigrations(files: seq<File>) returns (migs: seq<Migration>)
    ensures Ascending(migs) && multiset(migs) == multiset(Parsed(files))
  {
    migs := [];
    for i := 0 to |files|
      invariant migs == Parsed(files[..i])
    {
      assert files[..i + 1][..i] == files[..i];
      match ParseName(files[i].name) {
        case None =>
        case Some(p) => migs := migs + [Migration(p.0, p.1, files[i].content)];
      }
    }
    assert files[..|files|] == files;
    migs := SortByVersion(migs);
  }

  lemma SameHead(a: seq<Migration>, b: seq<Migration>)
    requires Ascending(a) && Ascending(b) && multiset(a) == multiset(b) && Distinct(a) && a != [] && b != []
    ensures a[0] == b[0]
  {
    assert b[0] in multiset(a) && a[0] in multiset(b);
    var i :| 0 <= i < |a| && a[i] == b[0];
    var j :| 0 <= j < |b| && b[j] == a[0];
    assert a[0].version <= a[i].version && b[0].version <= b[j].version;
    assert i == 0;
  }

  lemma WithoutHead(a: seq<Migration>)
    requires a != []
    ensures multiset(a[1..]) == multiset(a) - multiset{a[0]}
  {
    assert a == [a[0]] + a[1..];
  }

  /** With distinct versions there is only one order to run them in, whatever the sort. */
  lemma {:induction false} OneOrder(a: seq<Migration>, b: seq<Migration>)
    requires Ascending(a) && Ascending(b) && multiset(a) == multiset(b) && Distinct(a)
    ensures a == b
  {
    assert |multiset(a)| == |multiset(b)|;
    if a != [] {
      SameHead(a, b);
      WithoutHead(a);
      WithoutHead(b);
      OneOrder(a[1..], b[1..]);
      assert a == [a[0]] + a[1..] && b == [b[0]] + b[1..];
    }
  }

  // ─── The database ───

  /** One execution of a migration's SQL; it is ok when its record came back without error too. */
  datatype Attempt = Attempt(mig: Migration, ok: bool)

  datatype Db = Db(table: bool, recorded: seq<int>, trace: seq<Attempt>)

  datatype Report = Report(applied: seq<int>, skipped: seq<int>, failed: Option<int>, error: bool)

  /** The fate of every statement of one run. */
  datatype Env = Env(create: Outcome, max: Answer, parses: bool, sql: int -> Outcome, record: int -> Outcome)

  /** COALESCE(MAX(version), 0) */
  function MaxOf(s: seq<int>): int {
    if s == [] then 0
    else if |s| == 1 then s[0]
    else
      var m := MaxOf(s[..|s| - 1]);
      if s[|s| - 1] > m then s[|s| - 1] else m
  }

  /** The record's INSERT; version is the primary key. */
  function Insert(rows: seq<int>, v: int, o: Outcome): (seq<int>, bool) {
    if v in rows then (rows, false)
    else if o == FailedBefore then (rows, false)
    else (rows + [v], o == Done)
  }

  /** One migration: its SQL, then its record. */
  function ApplyOne(db: Db, mig: Migration, env: Env): (Db, bool) {
    if env.sql(mig.version) != Done then (db.(trace := db.trace + [Attempt(mig, false)]), false)
    else
      var (rows, ok) := Insert(db.recorded, mig.version, env.record(mig.version));
      (db.(recorded := rows, trace := db.trace + [Attempt(mig, ok)]), ok)
  }

  /** Marked as applied: every number up to the maximum, whether recorded or not. */
  predicate Marked(max: int, v: int) {
    1 <= v <= max
  }

  function Next(d: Db, rep: Report, max: int, mig: Migration, env: Env): (Db, Report) {
    var v := mig.version;
    if rep.error then (d, rep)
    else if Marked(max, v) then (d, rep.(skipped := rep.skipped + [v]))
    else
      var (d', ok) := ApplyOne(d, mig, env);
      (d', if ok then rep.(applied := rep.applied + [v]) else rep.(failed := Some(v), error := true))
  }

  /** The migrations in order, stopping at the first failure. */
  function ApplyAll(db: Db, max: int, migs: seq<Migration>, env: Env): (Db, Report) {
    if migs == [] then (db, Report([], [], None, false))
    else
      var (d, rep) := ApplyAll(db, max, migs[..|migs| - 1], env);
      Next(d, rep, max, migs[|migs| - 1], env)
  }

  const FAILED := Report([], [], None, true)

  function MaxSeen(rows: seq<int>, env: Env): int {
    if env.max == NoRows then 0 else MaxOf(rows)
  }

  function RunOn(db: Db, migs: seq<Migration>, env: Env): (Db, Report) {
    var d := if env.create == FailedBefore then db else db.(table := true);
    if env.create != Done || env.max == QueryFailed || !env.parses then (d, FAILED)
    else ApplyAll(d, MaxSeen(d.recorded, env), migs, env)
  }

  /** None is an error; without the table everything is pending. */
  function Pending(db: Db, migs: seq<Migration>, found: bool, max: Answer, parses: bool): Option<bool> {
    if !found then None
    else if !db.table then Some(true)
    else if max == QueryFailed || !parses then None
    else Some(exists i :: 0 <= i < |migs| && !Marked(if max == NoRows then 0 else MaxOf(db.recorded), migs[i].version))
  }

  class Database {
    var db: Db

    constructor ()
      ensures db == Db(false, [], [])
    {
      db := Db(false, [], []);
    }

    method EnsureMigrationsTable(o: Outcome) returns (ok: bool)
      modifies this
      ensures db == (if o == FailedBefore then old(db) else old(db).(table := true)) && ok == (o == Done)
    {
      if o != FailedBefore {
        db := db.(table := true);
      }
      ok := o == Done;
    }

    method GetAppliedVersions(answer: Answer) returns (applied: Option<set<int>>)
      ensures applied.None? <==> answer == QueryFailed
      ensures applied.Some? ==>
                forall v :: v in applied.value <==> Marked(if answer == NoRows then 0 else MaxOf(db.recorded), v)
    {
      if answer == QueryFailed {
        return None;
      }
      if answer == NoRows {
        return Some({});
      }
      var max := MaxOf(db.recorded);
      var marks: set<int> := {};
      var i := 1;
      while i <= max
        invariant i >= 1 && (i <= max + 1 || marks == {})
        invariant forall v :: v in marks <==> 1 <= v < i
        decreases max - i
      {
        marks := marks + {i};
        i := i + 1;
      }
      return Some(marks);
    }

    method ExecSql(mig: Migration, o: Outcome) returns (ok: bool)
      modifies this
      ensures db == old(db).(trace := old(db).trace + [Attempt(mig, false)]) && ok == (o == Done)
    {
      db := db.(trace := db.trace + [Attempt(mig, false)]);
      ok := o == Done;
    }

    /** Records the migration whose SQL ran last. */
    method ExecInsert(mig: Migration, o: Outcome) returns (ok: bool)
      requires |db.trace| > 0 && db.trace[|db.trace| - 1] == Attempt(mig, false)
      modifies this
      ensures var (rows, added) := Insert(old(db).recorded, mig.version, o);
              && db == Db(old(db).table, rows, old(db).trace[..|old(db).trace| - 1] + [Attempt(mig, added)])
              && ok == added
    {
      var v := mig.version;
      if v in db.recorded || o == FailedBefore {
        ok := false;
      } else {
        ok := o == Done;
        db := db.(recorded := db.recorded + [v]);
      }
      db := db.(trace := db.trace[..|db.trace| - 1] + [Attempt(mig, ok)]);
    }

    method ApplyMigration(mig: Migration, env: Env) returns (ok: bool)
      modifies this
      ensures (db, ok) == ApplyOne(old(db), mig, env)
    {
      var ran := ExecSql(mig, env.sql(mig.version));
      if !ran {
        return false;
      }
      ok := ExecInsert(mig, env.record(mig.version));
    }

    method Run(migrations: seq<Migration>, env: Env) returns (result: Report)
      modifies this
      ensures (db, result) == RunOn(old(db), migrations, env)
    {
      var created := EnsureMigrationsTable(env.create);
      if !created {
        return FAILED;
      }
      var applied := GetAppliedVersions(env.max);
      if applied.None? || !env.parses {
        return FAILED;
      }
      ghost var d, max := db, MaxSeen(db.recorded, env);
      result := Report([], [], None, false);
      for i := 0 to |migrations|
        invariant !result.error && (db, result) == ApplyAll(d, max, migrations[..i], env)
      {
        assert migrations[..i + 1][..i] == migrations[..i];
        var mig := migrations[i];
        if mig.version in applied.value {
          result := result.(skipped := result.skipped + [mig.version]);
        } else {
          var ok := ApplyMigration(mig, env);
          if !ok {
            Stopped(d, max, migrations, env, i + 1);
            return result.(failed := Some(mig.version), error := true);
          }
          result := result.(applied := result.applied + [mig.version]);
        }
      }
      assert migrations[..|migrations|] == migrations;
    }

    /** The pgx form does the same, statement for statement. */
    method RunWithPgxPool(migrations: seq<Migration>, env: Env) returns (result: Report)
      modifies this
      ensures (db, result) == RunOn(old(db), migrations, env)
    {
      if env.create != FailedBefore {
        db := db.(table := true);
      }
      if env.create != Done || env.max == QueryFailed {
        return FAILED;
      }
      var max := 0;
      if env.max == Row {
        max := MaxOf(db.recorded);
      }
      if !env.parses {
        return FAILED;
      }
      ghost var d := db;
      result := Report([], [], None, false);
      for i := 0 to |migrations|
        invariant !result.error && (db, result) == ApplyAll(d, max, migrations[..i], env)
      {
        assert migrations[..i + 1][..i] == migrations[..i];
        var mig := migrations[i];
        var v := mig.version;
        assert ApplyAll(d, max, migrations[..i + 1], env) == Next(db, result, max, mig, env);
        if 1 <= v <= max {
          result := result.(skipped := result.skipped + [v]);
          continue;
        }
        ghost var was := db;
        var ran := ExecSql(mig, env.sql(v));
        var recorded := false;
        if ran {
          recorded := ExecInsert(mig, env.record(v));
        }
        assert (db, recorded) == ApplyOne(was, mig, env);
        if !recorded {
          Stopped(d, max, migrations, env, i + 1);
          return result.(failed := Some(v), error := true);
        }
        result := result.(applied := result.applied + [v]);
      }
      assert migrations[..|migrations|] == migrations;
    }

    /** `found` tells whether the table lookup itself answered. */
    method HasPending(migrations: seq<Migration>, found: bool, answer: Answer, parses: bool)
      returns (pending: Option<bool>)
      ensures pending == Pending(db, migrations, found, answer, parses)
    {
      if !found {
        return None;
      }
      if !db.table {
        return Some(true);
      }
      var applied := GetAppliedVersions(answer);
      if applied.None? || !parses {
        return None;
      }
      for i := 0 to |migrations|
        invariant forall j | 0 <= j < i :: migrations[j].version in applied.value
      {
        if migrations[i].version !in applied.value {
          return Some(true);
        }
      }
      return Some(false);
    }
  }

  /** Nothing runs after a failure. */
  lemma {:induction false} Stopped(db: Db, max: int, migs: seq<Migration>, env: Env, n: nat)
    requires n <= |migs| && ApplyAll(db, max, migs[..n], env).1.error
    ensures ApplyAll(db, max, migs, env) == ApplyAll(db, max, migs[..n], env)
    decreases |migs|
  {
    if n < |migs| {
      assert migs[..|migs| - 1][..n] == migs[..n];
      Stopped(db, max, migs[..|migs| - 1], env, n);
    } else {
      assert migs[..n] == migs;
    }
  }

  // ─── Runs ───

  function Versions(migs: seq<Migration>): (vs: seq<int>)
    ensures |vs| == |migs|
    ensures forall i | 0 <= i < |migs| :: vs[i] == migs[i].version
  {
    seq(|migs|, i requires 0 <= i < |migs| => migs[i].version)
  }

  /** Distinct positive versions in ascending order. */
  predicate WellFormed(migs: seq<Migration>) {
    forall i | 0 <= i < |migs| :: migs[i].version >= 1 && (i > 0 ==> migs[i - 1].version < migs[i].version)
  }

  lemma {:induction false} Climbs(migs: seq<Migration>, i: nat, j: nat)
    requires WellFormed(migs) && i < j < |migs|
    ensures migs[i].version < migs[j].version
  {
    if i < j - 1 {
      Climbs(migs, i, j - 1);
    }
  }

  /** The rows are the first ones of the list, in its order. */
  predicate Recorded(db: Db, migs: seq<Migration>) {
    |db.recorded| <= |migs| && db.recorded == Versions(migs)[..|db.recorded|]
  }

  /** Nondecreasing, and a version is tried again only after an attempt at it failed. */
  predicate Orderly(trace: seq<Attempt>) {
    forall i, j | 0 <= i < j < |trace| ::
      trace[i].mig.version <= trace[j].mig.version && (trace[i].mig.version == trace[j].mig.version ==> !trace[i].ok)
  }

  /** Everything tried, with its own SQL, is recorded, or is the next migration and failed. */
  predicate Tried(db: Db, migs: seq<Migration>)
    requires Recorded(db, migs)
  {
    forall i | 0 <= i < |db.trace| ::
      || db.trace[i].mig in migs[..|db.recorded|]
      || (|db.recorded| < |migs| && db.trace[i] == Attempt(migs[|db.recorded|], false))
  }

  predicate Executed(trace: seq<Attempt>, mig: Migration) {
    exists k :: 0 <= k < |trace| && trace[k].mig == mig
  }

  /** Nothing is recorded that was not executed. */
  predicate AllExecuted(db: Db, migs: seq<Migration>)
    requires Recorded(db, migs)
  {
    forall i | 0 <= i < |db.recorded| :: Executed(db.trace, migs[i])
  }

  predicate Consistent(db: Db, migs: seq<Migration>) {
    WellFormed(migs) && Recorded(db, migs) && Tried(db, migs) && AllExecuted(db, migs) && Orderly(db.trace)
  }

  lemma {:induction false} MaxOfAscending(rows: seq<int>, migs: seq<Migration>)
    requires WellFormed(migs) && |rows| <= |migs| && rows == Versions(migs)[..|rows|]
    ensures MaxOf(rows) == if rows == [] then 0 else migs[|rows| - 1].version
  {
    if |rows| > 1 {
      MaxOfAscending(rows[..|rows| - 1], migs);
    }
  }

  /** Where rows are a prefix, "every number up to the maximum" names exactly the recorded migrations. */
  lemma UpToMaxIsExact(db: Db, migs: seq<Migration>, i: nat)
    requires WellFormed(migs) && Recorded(db, migs) && i < |migs|
    ensures Marked(MaxOf(db.recorded), migs[i].version) <==> i < |db.recorded|
    ensures migs[i].version in db.recorded <==> i < |db.recorded|
  {
    var n := |db.recorded|;
    MaxOfAscending(db.recorded, migs);
    if i < n {
      assert db.recorded[i] == migs[i].version;
      if i < n - 1 {
        Climbs(migs, i, n - 1);
      }
    } else {
      forall k | 0 <= k < n ensures db.recorded[k] < migs[i].version {
        Climbs(migs, k, i);
      }
    }
  }

  /** Everything tried so far comes before the next migration, or is a failed attempt at it. */
  lemma TriedBelow(db: Db, migs: seq<Migration>, i: nat)
    requires Consistent(db, migs) && |db.recorded| < |migs| && i < |db.trace|
    ensures var v := migs[|db.recorded|].version;
            db.trace[i].mig.version <= v && (db.trace[i].mig.version == v ==> !db.trace[i].ok)
  {
    if db.trace[i].mig in migs[..|db.recorded|] {
      var k :| 0 <= k < |db.recorded| && migs[k] == db.trace[i].mig;
      Climbs(migs, k, |db.recorded|);
    }
  }

  lemma OrderlyPush(trace: seq<Attempt>, a: Attempt)
    requires Orderly(trace)
    requires forall i | 0 <= i < |trace| ::
               trace[i].mig.version <= a.mig.version && (trace[i].mig.version == a.mig.version ==> !trace[i].ok)
    ensures Orderly(trace + [a])
  {}

  lemma TriedPush(db: Db, migs: seq<Migration>, d: Db, a: Attempt)
    requires WellFormed(migs) && Recorded(db, migs) && Tried(db, migs) && |db.recorded| < |migs|
    requires d.trace == db.trace + [a] && a.mig == migs[|db.recorded|]
    requires (d.recorded == db.recorded && !a.ok) || d.recorded == db.recorded + [a.mig.version]
    requires Recorded(d, migs)
    ensures Tried(d, migs)
  {
    var n := |db.recorded|;
    forall i | 0 <= i < |db.trace|
      ensures d.trace[i] == db.trace[i]
      ensures db.trace[i].mig in migs[..n] || db.trace[i] == Attempt(migs[n], false)
    {}
    if d.recorded != db.recorded {
      assert migs[..n + 1] == migs[..n] + [migs[n]];
    }
  }

  lemma ExecutedPush(db: Db, migs: seq<Migration>, d: Db, a: Attempt)
    requires Recorded(db, migs) && AllExecuted(db, migs) && |db.recorded| < |migs| && Recorded(d, migs)
    requires d.trace == db.trace + [a] && a.mig == migs[|db.recorded|]
    requires d.recorded == db.recorded || d.recorded == db.recorded + [a.mig.version]
    ensures AllExecuted(d, migs)
  {
    forall i | 0 <= i < |d.recorded| ensures Executed(d.trace, migs[i]) {
      if i < |db.recorded| {
        var k :| 0 <= k < |db.trace| && db.trace[k].mig == migs[i];
        assert d.trace[k].mig == migs[i];
      } else {
        assert d.trace[|db.trace|].mig == migs[i];
      }
    }
  }

  lemma NextRows(db: Db, migs: seq<Migration>, env: Env)
    requires WellFormed(migs) && Recorded(db, migs) && |db.recorded| < |migs|
    ensures var n := |db.recorded|;
            var (d, ok) := ApplyOne(db, migs[n], env);
            && Recorded(d, migs) && d.trace == db.trace + [Attempt(migs[n], ok)] && d.table == db.table
            && (d.recorded == db.recorded + [migs[n].version] || (d.recorded == db.recorded && !ok))
  {
    var n := |db.recorded|;
    UpToMaxIsExact(db, migs, n);
    assert Versions(migs)[..n + 1] == Versions(migs)[..n] + [migs[n].version];
  }

  lemma OrderlyNext(db: Db, migs: seq<Migration>, a: Attempt)
    requires Consistent(db, migs) && |db.recorded| < |migs| && a.mig == migs[|db.recorded|]
    ensures Orderly(db.trace + [a])
  {
    var v := a.mig.version;
    forall i | 0 <= i < |db.trace|
      ensures db.trace[i].mig.version <= v && (db.trace[i].mig.version == v ==> !db.trace[i].ok)
    {
      TriedBelow(db, migs, i);
    }
    OrderlyPush(db.trace, a);
  }

  /** Trying the next migration keeps everything consistent, whatever the outcome. */
  lemma TryNext(db: Db, migs: seq<Migration>, env: Env)
    requires Consistent(db, migs) && |db.recorded| < |migs|
    ensures var mig := migs[|db.recorded|];
            var (d, ok) := ApplyOne(db, mig, env);
            && Consistent(d, migs)
            && (ok ==> d.recorded == db.recorded + [mig.version])
            && d.recorded[..|db.recorded|] == db.recorded && |d.recorded| <= |db.recorded| + 1
            && d.table == db.table
  {
    var n := |db.recorded|;
    var (d, ok) := ApplyOne(db, migs[n], env);
    NextRows(db, migs, env);
    OrderlyNext(db, migs, Attempt(migs[n], ok));
    TriedPush(db, migs, d, Attempt(migs[n], ok));
    ExecutedPush(db, migs, d, Attempt(migs[n], ok));
  }

  /** The report of a run that stopped at migration k: what was there, what is new, and what failed. */
  predicate StoppedAt(db: Db, migs: seq<Migration>, k: nat, d: Db, rep: Report) {
    && |db.recorded| <= k < |migs|
    && |d.recorded| in {k, k + 1} && d.trace != [] && d.trace[|d.trace| - 1] == Attempt(migs[k], false)
    && rep == Report(Versions(migs)[|db.recorded|..k], db.recorded, Some(migs[k].version), true)
  }

  /** What the first n migrations leave behind, from a consistent database. */
  predicate AfterFirst(db: Db, migs: seq<Migration>, n: nat, d: Db, rep: Report)
    requires n <= |migs|
  {
    var m := |db.recorded|;
    && Consistent(d, migs) && d.table == db.table
    && m <= |d.recorded| && d.recorded[..m] == db.recorded
    && if rep.error then exists k :: 0 <= k < n && StoppedAt(db, migs, k, d, rep)
       else if n <= m then d == db && rep == Report([], db.recorded[..n], None, false)
       else d.recorded == Versions(migs)[..n] && rep == Report(d.recorded[m..], db.recorded, None, false)
  }

  lemma OneMore(db: Db, migs: seq<Migration>, env: Env, n: nat, d: Db, rep: Report)
    requires n < |migs| && |db.recorded| <= n
    requires AfterFirst(db, migs, n, d, rep) && !rep.error
    ensures var v := migs[n].version;
            var (d', ok) := ApplyOne(d, migs[n], env);
            AfterFirst(db, migs, n + 1, d',
                       if ok then rep.(applied := rep.applied + [v]) else rep.(failed := Some(v), error := true))
  {
    var m := |db.recorded|;
    if n == m {
      assert d.recorded[..m] == db.recorded && Versions(migs)[..n] == db.recorded;
      assert rep == Report(d.recorded[m..], db.recorded, None, false);
    }
    assert d.recorded == Versions(migs)[..n];
    TryNext(d, migs, env);
    var (d', ok) := ApplyOne(d, migs[n], env);
    assert d'.recorded[..m] == d'.recorded[..n][..m];
    if ok {
      assert d'.recorded[m..] == d.recorded[m..] + [migs[n].version];
      assert d'.recorded == Versions(migs)[..n + 1];
    } else {
      assert d.recorded[m..] == Versions(migs)[m..n];
      assert StoppedAt(db, migs, n, d', rep.(failed := Some(migs[n].version), error := true));
    }
  }

  lemma SkipOne(db: Db, migs: seq<Migration>, n: nat, d: Db, rep: Report)
    requires Consistent(db, migs) && n < |db.recorded|
    requires AfterFirst(db, migs, n, d, rep) && !rep.error
    ensures AfterFirst(db, migs, n + 1, d, rep.(skipped := rep.skipped + [migs[n].version]))
  {}

  lemma NextKeeps(db: Db, migs: seq<Migration>, env: Env, n: nat, d: Db, rep: Report)
    requires Consistent(db, migs) && n < |migs| && AfterFirst(db, migs, n, d, rep)
    ensures var (d', rep') := Next(d, rep, MaxOf(db.recorded), migs[n], env);
            AfterFirst(db, migs, n + 1, d', rep')
  {
    UpToMaxIsExact(db, migs, n);
    if rep.error {
    } else if n < |db.recorded| {
      SkipOne(db, migs, n, d, rep);
    } else {
      OneMore(db, migs, env, n, d, rep);
    }
  }

  predicate AppliedFirst(db: Db, migs: seq<Migration>, env: Env, n: nat)
    requires n <= |migs|
  {
    var (d, rep) := ApplyAll(db, MaxOf(db.recorded), migs[..n], env);
    AfterFirst(db, migs, n, d, rep)
  }

  lemma ApplyNone(db: Db, migs: seq<Migration>, env: Env)
    requires Consistent(db, migs)
    ensures AppliedFirst(db, migs, env, 0)
  {
    assert migs[..0] == [] && db.recorded[..0] == [];
  }

  lemma ApplyMore(db: Db, migs: seq<Migration>, env: Env, n: nat)
    requires Consistent(db, migs) && n < |migs| && AppliedFirst(db, migs, env, n)
    ensures AppliedFirst(db, migs, env, n + 1)
  {
    var (d, rep) := ApplyAll(db, MaxOf(db.recorded), migs[..n], env);
    assert migs[..n + 1][..n] == migs[..n];
    NextKeeps(db, migs, env, n, d, rep);
  }

  /**
   With the maximum read, a run over a consistent database skips what is recorded, then applies
   in order until something fails.
   */
  lemma {:induction false} ApplyKeeps(db: Db, migs: seq<Migration>, env: Env, n: nat)
    requires Consistent(db, migs) && n <= |migs|
    ensures AppliedFirst(db, migs, env, n)
  {
    if n == 0 {
      ApplyNone(db, migs, env);
    } else {
      ApplyKeeps(db, migs, env, n - 1);
      ApplyMore(db, migs, env, n - 1);
    }
  }

  /** Distinct positive versions; only higher ones are ever added. */
  datatype Deployment = Deployment(migs: seq<Migration>, env: Env)

  predicate Growing(runs: seq<Deployment>) {
    forall i | 0 <= i < |runs| ::
      && WellFormed(runs[i].migs)
      && (i > 0 ==> |runs[i - 1].migs| <= |runs[i].migs| && runs[i].migs[..|runs[i - 1].migs|] == runs[i - 1].migs)
  }

  function RunAll(runs: seq<Deployment>): Db {
    if runs == [] then Db(false, [], [])
    else
      var last := runs[|runs| - 1];
      RunOn(RunAll(runs[..|runs| - 1]), last.migs, last.env).0
  }

  lemma Extended(db: Db, migs: seq<Migration>, more: seq<Migration>)
    requires Consistent(db, migs) && WellFormed(more)
    requires |migs| <= |more| && more[..|migs|] == migs
    ensures Consistent(db, more)
  {}

  /**
   Over every sequence of runs, any statement of which may fail, the rows are a prefix of the sorted
   list, the trace never goes back, and only a failed version is tried twice.
   */
  lemma {:induction false} RunsKeepAPrefix(runs: seq<Deployment>)
    requires Growing(runs) && |runs| > 0
    requires forall i | 0 <= i < |runs| :: runs[i].env.max != NoRows
    ensures Consistent(RunAll(runs), runs[|runs| - 1].migs)
    decreases |runs|
  {
    var last := runs[|runs| - 1];
    var before := RunAll(runs[..|runs| - 1]);
    if |runs| > 1 {
      var prev := runs[..|runs| - 1];
      assert forall i | 0 <= i < |prev| :: prev[i] == runs[i];
      RunsKeepAPrefix(prev);
      Extended(before, prev[|prev| - 1].migs, last.migs);
    }
    RunKeeps(before, last.migs, last.env);
  }

  lemma RunKeeps(db: Db, migs: seq<Migration>, env: Env)
    requires Consistent(db, migs) && env.max != NoRows
    ensures Consistent(RunOn(db, migs, env).0, migs)
  {
    var d := if env.create == FailedBefore then db else db.(table := true);
    assert Consistent(d, migs);
    ApplyKeeps(d, migs, env, |migs|);
    assert migs[..|migs|] == migs;
  }

  /** Pending is exact on every consistent database: something is pending if and only if it is not recorded. */
  lemma PendingIsExact(db: Db, migs: seq<Migration>)
    requires Consistent(db, migs) && db.table
    ensures Pending(db, migs, true, Row, true) == Some(|db.recorded| < |migs|)
  {
    forall i | 0 <= i < |migs| ensures Marked(MaxOf(db.recorded), migs[i].version) <==> i < |db.recorded| {
      UpToMaxIsExact(db, migs, i);
    }
    if |db.recorded| < |migs| {
      assert !Marked(MaxOf(db.recorded), migs[|db.recorded|].version);
    }
  }

  lemma AllDone(db: Db, migs: seq<Migration>, d: Db, rep: Report)
    requires Recorded(db, migs) && AfterFirst(db, migs, |migs|, d, rep) && !rep.error
    ensures Consistent(d, migs) && d.table == db.table
    ensures d.recorded == Versions(migs) == rep.skipped + rep.applied && rep.skipped == db.recorded
  {
    assert Versions(migs)[..|migs|] == Versions(migs);
    if |migs| <= |db.recorded| {
      assert db.recorded[..|migs|] == db.recorded;
    }
  }

  /**
   A run without error leaves exactly the whole list recorded and nothing pending; its report says which
   were there before and which are new.
   */
  lemma NilRunSettles(db: Db, migs: seq<Migration>, env: Env)
    requires Consistent(db, migs) && env.max != NoRows && !RunOn(db, migs, env).1.error
    ensures var (d, rep) := RunOn(db, migs, env);
            && d.recorded == Versions(migs) == rep.skipped + rep.applied
            && rep.skipped == db.recorded
            && d.table
            && Pending(d, migs, true, Row, true) == Some(false)
  {
    var d0 := db.(table := true);
    assert Consistent(d0, migs);
    ApplyKeeps(d0, migs, env, |migs|);
    assert migs[..|migs|] == migs;
    var (d, rep) := RunOn(db, migs, env);
    AllDone(d0, migs, d, rep);
    PendingIsExact(d, migs);
  }

  /** A run that does not get as far as the migrations executes and records nothing. */
  lemma EarlyFailure(db: Db, migs: seq<Migration>, env: Env)
    requires env.create != Done || env.max == QueryFailed || !env.parses
    ensures var (d, rep) := RunOn(db, migs, env);
            && rep == Report([], [], None, true) && d.recorded == db.recorded && d.trace == db.trace
            && (d.table <==> db.table || env.create != FailedBefore)
  {}

  /**
   Without the table everything is pending; a lookup, query or parse that fails is an error; otherwise something
   is pending if some version is above the maximum.
   */
  lemma PendingAnswers(db: Db, migs: seq<Migration>, found: bool, max: Answer, parses: bool)
    ensures Pending(db, migs, found, max, parses) == None <==> !found || (db.table && (max == QueryFailed || !parses))
    ensures found && !db.table ==> Pending(db, migs, found, max, parses) == Some(true)
    ensures found && db.table && max == Row && parses ==>
              Pending(db, migs, found, max, parses) ==
              Some(exists i :: 0 <= i < |migs| && (migs[i].version < 1 || migs[i].version > MaxOf(db.recorded)))
    ensures found && db.table && max == NoRows && parses ==> Pending(db, migs, found, max, parses) == Some(migs != [])
  {
    if migs != [] {
      assert !Marked(0, migs[0].version);
    }
    assert forall v :: !Marked(MaxOf(db.recorded), v) <==> v < 1 || v > MaxOf(db.recorded);
  }

  /** A run that gets as far as the migrations and fails says at which one, and what it had done before. */
  lemma FailedRun(db: Db, migs: seq<Migration>, env: Env)
    requires Consistent(db, migs) && env.create == Done && env.max == Row && env.parses && RunOn(db, migs, env).1.error
    ensures var (d, rep) := RunOn(db, migs, env); exists k :: 0 <= k < |migs| && StoppedAt(db, migs, k, d, rep)
  {
    var d0 := db.(table := true);
    assert Consistent(d0, migs);
    ApplyKeeps(d0, migs, env, |migs|);
    assert migs[..|migs|] == migs;
    var (d, rep) := RunOn(db, migs, env);
    var k :| 0 <= k < |migs| && StoppedAt(d0, migs, k, d, rep);
    assert StoppedAt(db, migs, k, d, rep);
  }

  /** Runs build on each other: rows are never lost, and a last run without error has recorded its whole list. */
  lemma RunsSettle(runs: seq<Deployment>)
    requires Growing(runs) && |runs| > 0
    requires forall i | 0 <= i < |runs| :: runs[i].env.max != NoRows
    ensures var before, last := RunAll(runs[..|runs| - 1]), runs[|runs| - 1];
            && before.recorded <= RunAll(runs).recorded
            && (!RunOn(before, last.migs, last.env).1.error ==> RunAll(runs).recorded == Versions(last.migs))
  {
    var before, last := RunAll(runs[..|runs| - 1]), runs[|runs| - 1];
    if |runs| > 1 {
      var prev := runs[..|runs| - 1];
      assert forall i | 0 <= i < |prev| :: prev[i] == runs[i];
      RunsKeepAPrefix(prev);
      Extended(before, prev[|prev| - 1].migs, last.migs);
    }
    var d := if last.env.create == FailedBefore then before else before.(table := true);
    assert Consistent(d, last.migs);
    ApplyKeeps(d, last.migs, last.env, |last.migs|);
    assert last.migs[..|last.migs|] == last.migs;
    if !RunOn(before, last.migs, last.env).1.error {
      NilRunSettles(before, last.migs, last.env);
    }
  }

  lemma {:induction false} TraceDoesNotMatter(db: Db, max: int, migs: seq<Migration>, env: Env, trace: seq<Attempt>)
    ensures var (d, rep) := ApplyAll(db, max, migs, env);
            var (e, rep') := ApplyAll(db.(trace := trace), max, migs, env);
            d.recorded == e.recorded && rep == rep'
  {
    if migs != [] {
      TraceDoesNotMatter(db, max, migs[..|migs| - 1], env, trace);
    }
  }

  /** Without the maximum the first recorded migration is tried again and its record refused. */
  lemma {:induction false} NoRowsStops(db: Db, migs: seq<Migration>, env: Env)
    requires migs != [] && migs[0].version >= 1 && migs[0].version in db.recorded
    ensures ApplyAll(db, 0, migs, env).0.recorded == db.recorded && ApplyAll(db, 0, migs, env).1.error
  {
    if |migs| > 1 {
      NoRowsStops(db, migs[..|migs| - 1], env);
    }
  }

  lemma SomeTrace(db: Db, migs: seq<Migration>, trace: seq<Attempt>)
    requires WellFormed(migs) && Recorded(db, migs)
    requires |trace| == |db.recorded| && forall i | 0 <= i < |trace| :: trace[i] == Attempt(migs[i], true)
    ensures Consistent(db.(trace := trace), migs)
  {
    forall i, j | 0 <= i < j < |trace| ensures trace[i].mig.version < trace[j].mig.version {
      Climbs(migs, i, j);
    }
    forall i | 0 <= i < |trace| ensures trace[i].mig in migs[..|trace|] && Executed(trace, migs[i]) {
      assert migs[..|trace|][i] == migs[i];
    }
  }

  /** The rows stay a prefix even where the maximum is read as "no rows". */
  lemma RowsStayAPrefix(db: Db, migs: seq<Migration>, env: Env)
    requires WellFormed(migs) && Recorded(db, migs)
    ensures Recorded(RunOn(db, migs, env).0, migs)
  {
    var d := db.(table := true);
    assert migs[..|migs|] == migs;
    if env.max == NoRows && db.recorded != [] {
      assert db.recorded[0] == migs[0].version;
      NoRowsStops(d, migs, env);
    } else {
      var trace := seq(|d.recorded|, i requires 0 <= i < |d.recorded| => Attempt(migs[i], true));
      SomeTrace(d, migs, trace);
      ApplyKeeps(d.(trace := trace), migs, env, |migs|);
      TraceDoesNotMatter(d, MaxOf(d.recorded), migs, env, trace);
    }
  }

  // ─── Where the rows are no prefix ───

  lemma {:induction false} AppliedAll(db: Db, max: int, migs: seq<Migration>, env: Env, v: int)
    requires !ApplyAll(db, max, migs, env).1.error
    ensures var d := ApplyAll(db, max, migs, env).0;
            v in d.recorded <==> v in db.recorded || (v in Versions(migs) && !Marked(max, v))
  {
    if migs != [] {
      var front := migs[..|migs| - 1];
      AppliedAll(db, max, front, env, v);
      assert Versions(migs) == Versions(front) + [migs[|migs| - 1].version];
    }
  }

  /**
   From any table at all, a run without error records every migration if and only if none was missing
   below the highest recorded version: a gap is skipped for good.
   */
  lemma GapsAreSkipped(db: Db, migs: seq<Migration>, env: Env)
    requires env.max == Row && !RunOn(db, migs, env).1.error
    ensures (forall v | v in Versions(migs) :: v in RunOn(db, migs, env).0.recorded)
       <==> (forall v | v in Versions(migs) :: Marked(MaxOf(db.recorded), v) ==> v in db.recorded)
  {
    forall v ensures v in RunOn(db, migs, env).0.recorded
                     <==> v in db.recorded || (v in Versions(migs) && !Marked(MaxOf(db.recorded), v))
    {
      AppliedAll(db.(table := true), MaxOf(db.recorded), migs, env, v);
    }
  }

  /** A migration numbered 0 is tried again on every run and then can never be recorded a second time. */
  lemma {:induction false} ZeroNeverSettles(db: Db, max: int, migs: seq<Migration>, env: Env)
    requires 0 in Versions(migs) && 0 in db.recorded
    ensures ApplyAll(db, max, migs, env).1.error
  {
    var front := migs[..|migs| - 1];
    assert Versions(migs) == Versions(front) + [migs[|migs| - 1].version];
    if 0 in Versions(front) {
      ZeroNeverSettles(db, max, front, env);
    } else if !ApplyAll(db, max, front, env).1.error {
      AppliedAll(db, max, front, env, 0);
    }
  }
}
