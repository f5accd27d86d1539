/** zero/db/db_migration.cc: DbMigrationManager over a session whose statements can fail. */
module Migration {
  import opened MigrationSteps
  import Models

  datatype Result = Result(ok: bool, message: string, currentVersion: int, applied: seq<string>)

  /** `applied` are the names of the first versions of `list`, in order. */
  predicate Named(names: map<int, string>, list: seq<int>, applied: seq<string>) {
    |applied| <= |list| && forall i | 0 <= i < |applied| :: list[i] in names && applied[i] == names[list[i]]
  }

  lemma NamedMore(names: map<int, string>, list: seq<int>, applied: seq<string>)
    requires Named(names, list, applied) && |applied| < |list| && list[|applied|] in names
    ensures Named(names, list, applied + [names[list[|applied|]]])
  {
  }

  /** The newest `n`, newest first. */
  function Newest(s: seq<int>, n: nat): (r: seq<int>)
    requires n <= |s|
    ensures |r| == n && forall i | 0 <= i < n :: r[i] == s[|s| - 1 - i]
  {
    seq(n, i requires 0 <= i < n => s[|s| - 1 - i])
  }

  class DbMigrationManager<S> {
    const env: Env<S>
    /** m_migrations: the versions in map order, and the name of each. */
    var registry: Registry
    /** The session's database. */
    var db: Db<S>

    predicate Valid()
      reads this
    {
      IsRegistry(registry) && Sound(db)
    }

    constructor (env: Env<S>, db: Db<S>)
      requires Sound(db)
      ensures Valid() && this.env == env && this.db == db && registry == Registry([], map[])
    {
      this.env, this.db, registry := env, db, Registry([], map[]);
    }

    /** A version registered again is replaced. */
    method RegisterMigration(version: int, name: string)
      requires Valid()
      modifies this`registry
      ensures Valid()
      ensures forall v :: v in registry.versions <==> v in old(registry.versions) || v == version
      ensures registry.names == old(registry.names)[version := name]
    {
      registry := Registry(Add(registry.versions, version), registry.names[version := name]);
    }

    method EnsureHistoryTable() returns (ok: bool)
      modifies this`db
      ensures ok == Ready(env, old(db)) && db == Tick(old(db))
    {
      ok := !env.fails(db.clock);
      db := Tick(db);
    }

    method AppliedVersions() returns (versions: seq<int>)
      modifies this`db
      ensures versions == Read(env, old(db)) && db == Tick(old(db))
    {
      versions := if env.fails(db.clock) then [] else db.history;
      db := Tick(db);
    }

    method CurrentVersion() returns (version: int)
      modifies this`db
      ensures version == Current(Read(env, old(db))) && db == Tick(old(db))
    {
      var versions := AppliedVersions();
      version := if versions == [] then 0 else versions[|versions| - 1];
    }

    method RunUp(v: int) returns (ok: bool)
      modifies this`db
      ensures Step(db, ok) == Up(env, old(db), v)
    {
      ok := !env.fails(db.clock);
      db := Tick(db);
      if ok {
        db := db.(schema := env.up(v, db.schema), effects := db.effects + {v});
      }
    }

    method RunDown(v: int) returns (ok: bool)
      modifies this`db
      ensures Step(db, ok) == Down(env, old(db), v)
    {
      ok := !env.fails(db.clock);
      db := Tick(db);
      if ok {
        db := db.(schema := env.down(v, db.schema), effects := db.effects - {v});
      }
    }

    method RecordApplied(v: int) returns (ok: bool)
      requires Sound(db)
      modifies this`db
      ensures Step(db, ok) == Record(env, old(db), v)
    {
      ok := !env.fails(db.clock) && v !in db.history;
      db := Tick(db);
      if ok {
        db := db.(history := Add(db.history, v));
      } else {
        db := db.(failedWrites := db.failedWrites + 1);
      }
    }

    method RemoveRecord(v: int) returns (ok: bool)
      requires Sound(db)
      modifies this`db
      ensures Step(db, ok) == Unrecord(env, old(db), v)
    {
      ok := !env.fails(db.clock);
      db := Tick(db);
      if ok {
        db := db.(history := Without(db.history, v));
      } else {
        db := db.(failedWrites := db.failedWrites + 1);
      }
    }

    /** The list of versions migrate is going to run. */
    method Collect(applied: seq<int>, target: int) returns (pending: seq<int>)
      ensures pending == Pending(registry.versions, applied, target)
    {
      pending := [];
      var versions := registry.versions;
      for i := 0 to |versions|
        invariant pending == Pending(versions[..i], applied, target)
      {
        assert versions[..i + 1][..i] == versions[..i];
        if versions[i] !in applied {
          if target == 0 || versions[i] <= target {
            pending := pending + [versions[i]];
          }
        }
      }
      assert versions[..|versions|] == versions;
    }

    /** One turn of the migrate loop. */
    method ApplyVersion(v: int, ghost done: nat) returns (stop: Stop)
      requires Sound(db)
      modifies this`db
      ensures Progress(db, if stop.Going? then done + 1 else done, stop)
              == ApplyOne(env, Progress(old(db), done, Going), v)
    {
      var up := RunUp(v);
      if !up {
        return UpFailed;
      }
      var recorded := RecordApplied(v);
      stop := if recorded then Going else RecordFailed;
    }

    method ApplyAll(pending: seq<int>) returns (applied: seq<string>, stop: Stop)
      requires Sound(db) && forall v <- pending :: v in registry.names
      modifies this`db
      ensures Progress(db, |applied|, stop) == ApplyPending(env, old(db), pending, |pending|)
      ensures Named(registry.names, pending, applied)
    {
      applied, stop := [], Going;
      ghost var before := db;
      var names := registry.names;
      for n := 0 to |pending|
        invariant n == |applied| && stop.Going? && names == registry.names
        invariant Progress(db, n, stop) == ApplyPending(env, before, pending, n)
        invariant Named(names, pending, applied)
      {
        stop := ApplyVersion(pending[n], n);
        AppliedNext(env, before, pending, n);
        if !stop.Going? {
          return;
        }
        NamedMore(names, pending, applied);
        applied := applied + [names[pending[n]]];
      }
    }

    method Migrate(target: int) returns (result: Result)
      requires Valid()
      modifies this`db
      ensures db == After(env, registry, old(db), Command.Migrate(target))
      ensures result.ok == Succeeds(env, registry, old(db), Command.Migrate(target))
      ensures |result.applied| == Work(env, registry, old(db), Command.Migrate(target)).done
      ensures result.currentVersion == VersionAfter(env, registry, old(db), Command.Migrate(target))
      ensures Named(registry.names, WorkList(env, registry, old(db), Command.Migrate(target)), result.applied)
      ensures result.message == MessageAfter(env, registry, old(db), Command.Migrate(target))
    {
      var ready := EnsureHistoryTable();
      if !ready {
        return Result(false, "failed to create migration history table", 0, []);
      }
      var applied := AppliedVersions();
      var pending := Collect(applied, target);
      KnownPending(registry, applied, target);
      var names, stop := ApplyAll(pending);
      var version := CurrentVersion();
      result := Result(stop.Going?, MigrateMessage(stop, pending, |names|, registry.names), version, names);
    }

    /** One turn of the rollback loop. */
    method UndoVersion(v: int, ghost done: nat) returns (stop: Stop)
      requires Sound(db)
      modifies this`db
      ensures Progress(db, if stop.Going? then done + 1 else done, stop)
              == UndoOne(env, registry.names.Keys, Progress(old(db), done, Going), v)
      ensures stop.Going? ==> v in registry.names
    {
      if v !in registry.names {
        return Unknown;
      }
      var down := RunDown(v);
      if !down {
        return DownFailed;
      }
      var removed := RemoveRecord(v);
      stop := if removed then Going else UnrecordFailed;
    }

    /** `newest` is what was applied, from its end. */
    method UndoSome(newest: seq<int>, steps: nat, ghost applied: seq<int>, ghost all: nat)
      returns (undone: seq<string>, stop: Stop)
      requires Sound(db) && |newest| == |applied| && forall i | 0 <= i < |newest| :: newest[i] == applied[|applied| - 1 - i]
      requires all == if steps < |applied| then steps else |applied|
      modifies this`db
      ensures Progress(db, |undone|, stop)
              == UndoLast(env, registry.names.Keys, old(db), applied, all)
      ensures Named(registry.names, newest, undone)
    {
      undone, stop := [], Going;
      ghost var before := db;
      var names := registry.names;
      ghost var known := names.Keys;
      var count := 0;
      while count < |newest| && count < steps
        invariant count == |undone| <= all && stop.Going? && Sound(db) && names == registry.names
        invariant UndoLast(env, known, before, applied, count) == Progress(db, count, Going)
        invariant Named(names, newest, undone)
      {
        var v := newest[count];
        stop := UndoTurn(v, known, before, applied, all, count);
        if !stop.Going? {
          return;
        }
        undone := Append(names, newest, undone, v);
        count := count + 1;
      }
    }

    /** One name more. */
    method Append(names: map<int, string>, ghost list: seq<int>, done: seq<string>, v: int) returns (more: seq<string>)
      requires Named(names, list, done) && |done| < |list| && v == list[|done|] && v in names
      ensures Named(names, list, more) && |more| == |done| + 1
    {
      NamedMore(names, list, done);
      more := done + [names[v]];
    }

    /** A turn seen from the whole loop: a failing one decides how it ends. */
    method UndoTurn(v: int, ghost known: set<int>, ghost before: Db<S>, ghost applied: seq<int>, ghost all: nat,
                    ghost n: nat)
      returns (stop: Stop)
      requires Sound(db) && Sound(before) && n < all <= |applied| && v == applied[|applied| - 1 - n]
      requires known == registry.names.Keys
      requires UndoLast(env, known, before, applied, n) == Progress(db, n, Going)
      modifies this`db
      ensures stop.Going? ==> v in known && UndoLast(env, known, before, applied, n + 1) == Progress(db, n + 1, Going)
      ensures !stop.Going? ==> UndoLast(env, known, before, applied, all) == Progress(db, n, stop)
      ensures Sound(db)
    {
      stop := UndoVersion(v, n);
      UndoneNext(env, known, before, applied, n, all);
    }

    method Rollback(steps: nat) returns (result: Result)
      requires Valid()
      modifies this`db
      ensures db == After(env, registry, old(db), Command.Rollback(steps))
      ensures result.ok == Succeeds(env, registry, old(db), Command.Rollback(steps))
      ensures |result.applied| == Work(env, registry, old(db), Command.Rollback(steps)).done
      ensures result.currentVersion == VersionAfter(env, registry, old(db), Command.Rollback(steps))
      ensures var list := WorkList(env, registry, old(db), Command.Rollback(steps));
              Named(registry.names, Newest(list, |list|), result.applied)
      ensures result.message == MessageAfter(env, registry, old(db), Command.Rollback(steps))
    {
      ghost var start := db;
      var ready := EnsureHistoryTable();
      if !ready {
        return Result(false, "failed to create migration history table", 0, []);
      }
      var applied := AppliedVersions();
      if applied == [] {
        return Result(true, "no migrations to rollback", 0, []);
      }
      var names, stop := UndoSome(Newest(applied, |applied|), steps, applied,
                                  Steps(env, registry, start, Command.Rollback(steps)));
      var version := CurrentVersion();
      result := Result(stop.Going?, RollbackMessage(stop, applied, |names|, registry.names), version, names);
    }
  }

  /** The version a command reports. */
  function VersionAfter<S>(env: Env<S>, reg: Registry, db: Db<S>, c: Command): int
    requires Sound(db)
  {
    if ReadsAgain(env, reg, db, c) then Current(Read(env, Work(env, reg, db, c).db)) else 0
  }

  /** Why the loop went no further than version `v`. */
  function Message(stop: Stop, v: int, names: map<int, string>): string {
    var name := if v in names then names[v] else Models.PrintInt(v);
    match stop
    case Going => ""
    case UpFailed => "migration failed: " + name
    case RecordFailed => "failed to record migration: " + name
    case Unknown => "migration not found for version: " + name
    case DownFailed => "rollback failed: " + name
    case UnrecordFailed => "failed to remove migration record: " + name
  }

  function MigrateMessage(stop: Stop, pending: seq<int>, done: nat, names: map<int, string>): string
    requires !stop.Going? ==> done < |pending|
  {
    if stop.Going? then "migrate success" else Message(stop, pending[done], names)
  }

  function RollbackMessage(stop: Stop, applied: seq<int>, done: nat, names: map<int, string>): string
    requires !stop.Going? ==> done < |applied|
  {
    if stop.Going? then "rollback success" else Message(stop, applied[|applied| - 1 - done], names)
  }

  /** The message of a command. */
  function MessageAfter<S>(env: Env<S>, reg: Registry, db: Db<S>, c: Command): string
    requires Sound(db)
  {
    if !Ready(env, db) then "failed to create migration history table"
    else if c.Rollback? && WorkList(env, reg, db, c) == [] then "no migrations to rollback"
    else
      var p, list := Work(env, reg, db, c), WorkList(env, reg, db, c);
      if c.Migrate? then MigrateMessage(p.stop, list, p.done, reg.names)
      else RollbackMessage(p.stop, list, p.done, reg.names)
  }

  /** What a reported version is: the greatest one recorded, or 0 when none is or it could not be read. */
  lemma ReportedVersion<S>(env: Env<S>, reg: Registry, db: Db<S>, c: Command)
    requires Sound(db)
    ensures var version, history := VersionAfter(env, reg, db, c), After(env, reg, db, c).history;
            if ReadsAgain(env, reg, db, c) && !env.fails(Work(env, reg, db, c).db.clock) && history != []
            then version in history && forall v <- history :: v <= version
            else version == 0
  {
    var history := After(env, reg, db, c).history;
    if history != [] {
      var last := history[|history| - 1];
      forall v | v in history
        ensures v <= last
      {
        var i :| 0 <= i < |history| && history[i] == v;
      }
    }
  }

  lemma KnownPending(reg: Registry, applied: seq<int>, target: int)
    requires IsRegistry(reg)
    ensures forall v <- Pending(reg.versions, applied, target) :: v in reg.names
  {
    forall v | v in Pending(reg.versions, applied, target)
      ensures v in reg.names
    {
      PendingIsRegistered(reg.versions, applied, target, v);
    }
  }

  lemma {:induction false} PendingIsRegistered(versions: seq<int>, applied: seq<int>, target: int, v: int)
    requires v in Pending(versions, applied, target)
    ensures v in versions
  {
    var front := versions[..|versions| - 1];
    if v in Pending(front, applied, target) {
      PendingIsRegistered(front, applied, target, v);
    }
  }

  /** Once stopped, the loop changes nothing more. */
  lemma {:induction false} StaysFailed<S>(env: Env<S>, db: Db<S>, pending: seq<int>, n: nat, m: nat)
    requires Sound(db) && n <= m <= |pending| && !ApplyPending(env, db, pending, n).stop.Going?
    ensures ApplyPending(env, db, pending, m) == ApplyPending(env, db, pending, n)
  {
    if n < m {
      StaysFailed(env, db, pending, n, m - 1);
    }
  }

  lemma {:induction false} StaysStopped<S>(env: Env<S>, known: set<int>, db: Db<S>, applied: seq<int>, n: nat, m: nat)
    requires Sound(db) && n <= m <= |applied| && !UndoLast(env, known, db, applied, n).stop.Going?
    ensures UndoLast(env, known, db, applied, m) == UndoLast(env, known, db, applied, n)
  {
    if n < m {
      StaysStopped(env, known, db, applied, n, m - 1);
    }
  }

  lemma AppliedNext<S>(env: Env<S>, db: Db<S>, pending: seq<int>, n: nat)
    requires Sound(db) && n < |pending| && ApplyPending(env, db, pending, n).stop.Going?
    ensures var q := ApplyOne(env, ApplyPending(env, db, pending, n), pending[n]);
            q == ApplyPending(env, db, pending, if q.stop.Going? then n + 1 else |pending|)
  {
    var q := ApplyOne(env, ApplyPending(env, db, pending, n), pending[n]);
    assert q == ApplyPending(env, db, pending, n + 1);
    if !q.stop.Going? {
      StaysFailed(env, db, pending, n + 1, |pending|);
    }
  }

  lemma UndoneNext<S>(env: Env<S>, known: set<int>, db: Db<S>, applied: seq<int>, n: nat, all: nat)
    requires Sound(db) && n < all <= |applied| && UndoLast(env, known, db, applied, n).stop.Going?
    ensures var q := UndoOne(env, known, UndoLast(env, known, db, applied, n), applied[|applied| - 1 - n]);
            q == UndoLast(env, known, db, applied, if q.stop.Going? then n + 1 else all)
  {
    var q := UndoOne(env, known, UndoLast(env, known, db, applied, n), applied[|applied| - 1 - n]);
    assert q == UndoLast(env, known, db, applied, n + 1);
    if !q.stop.Going? {
      StaysStopped(env, known, db, applied, n + 1, all);
    }
  }
}
