/** What zero/db/db_migration.cc keeps over runs of migrate and rollback, whatever statements fail. */
module MigrationLaws {
  import opened MigrationSteps

  // ---------------------------------------------------------------- schema and history stay close

  /** Versions in effect but not recorded, or recorded but not in effect. */
  function Drift<S>(db: Db<S>): set<int> {
    Apart(db.effects, Elements(db.history))
  }

  function Apart(a: set<int>, b: set<int>): set<int> {
    (a - b) + (b - a)
  }

  lemma ApartMoves(a: set<int>, b: set<int>, v: int)
    ensures Apart(a + {v}, b) <= Apart(a, b) + {v} && Apart(a - {v}, b) <= Apart(a, b) + {v}
    ensures Apart(a + {v}, b + {v}) <= Apart(a, b) && Apart(a - {v}, b - {v}) <= Apart(a, b)
  {
  }

  /** No more versions drifted than writes failed. */
  predicate Close<S>(before: Db<S>, after: Db<S>) {
    |Drift(after)| - |Drift(before)| <= after.failedWrites - before.failedWrites
  }

  lemma Grows(a: set<int>, b: set<int>, v: int)
    requires b <= a + {v}
    ensures |b| <= |a| + 1
  {
    CardinalityMonotone(b, a + {v});
    if v !in a {
      assert |a + {v}| == |a| + 1;
    } else {
      assert a + {v} == a;
    }
  }

  lemma CardinalityMonotone(a: set<int>, b: set<int>)
    requires a <= b
    ensures |a| <= |b|
  {
    var more := b - a;
    assert b == a + more && |a + more| == |a| + |more|;
  }

  lemma ElementsAfter(s: seq<int>, v: int)
    requires Ascending(s)
    ensures Elements(Add(s, v)) == Elements(s) + {v} && Elements(Without(s, v)) == Elements(s) - {v}
  {
  }

  /** A step that moves one version, with or without a failed write. */
  lemma MovedOne<S>(before: Db<S>, after: Db<S>, v: int, failed: bool)
    requires after.failedWrites == before.failedWrites + (if failed then 1 else 0)
    requires if failed then Drift(after) <= Drift(before) + {v} else Drift(after) <= Drift(before)
    ensures Close(before, after)
  {
    if failed {
      Grows(Drift(before), Drift(after), v);
    } else {
      CardinalityMonotone(Drift(after), Drift(before));
    }
  }

  lemma ApplyOneClose<S>(env: Env<S>, p: Progress<S>, v: int)
    requires Sound(p.db) && p.stop.Going?
    ensures Close(p.db, ApplyOne(env, p, v).db)
  {
    var after := ApplyOne(env, p, v);
    ElementsAfter(p.db.history, v);
    ApartMoves(p.db.effects, Elements(p.db.history), v);
    if after.stop.UpFailed? {
      assert Drift(after.db) == Drift(p.db);
    }
    MovedOne(p.db, after.db, v, after.stop.RecordFailed?);
  }

  lemma UndoOneClose<S>(env: Env<S>, known: set<int>, p: Progress<S>, v: int)
    requires Sound(p.db) && p.stop.Going?
    ensures Close(p.db, UndoOne(env, known, p, v).db)
  {
    var after := UndoOne(env, known, p, v);
    ElementsAfter(p.db.history, v);
    ApartMoves(p.db.effects, Elements(p.db.history), v);
    if after.stop.Unknown? || after.stop.DownFailed? {
      assert Drift(after.db) == Drift(p.db);
    }
    MovedOne(p.db, after.db, v, after.stop.UnrecordFailed?);
  }

  lemma {:induction false} ApplyClose<S>(env: Env<S>, db: Db<S>, pending: seq<int>, n: nat)
    requires Sound(db) && n <= |pending|
    ensures Close(db, ApplyPending(env, db, pending, n).db)
  {
    if n > 0 {
      ApplyClose(env, db, pending, n - 1);
      var p := ApplyPending(env, db, pending, n - 1);
      if p.stop.Going? {
        ApplyOneClose(env, p, pending[n - 1]);
      }
    }
  }

  lemma {:induction false} UndoClose<S>(env: Env<S>, known: set<int>, db: Db<S>, applied: seq<int>, n: nat)
    requires Sound(db) && n <= |applied|
    ensures Close(db, UndoLast(env, known, db, applied, n).db)
  {
    if n > 0 {
      UndoClose(env, known, db, applied, n - 1);
      var p := UndoLast(env, known, db, applied, n - 1);
      if p.stop.Going? {
        UndoOneClose(env, known, p, applied[|applied| - n]);
      }
    }
  }

  lemma CommandClose<S>(env: Env<S>, reg: Registry, db: Db<S>, c: Command)
    requires Sound(db)
    ensures Close(db, After(env, reg, db, c))
  {
    var start := Tick(Tick(db));
    assert Drift(start) == Drift(db);
    if c.Migrate? {
      ApplyClose(env, start, WorkList(env, reg, db, c), Steps(env, reg, db, c));
    } else {
      UndoClose(env, reg.names.Keys, start, WorkList(env, reg, db, c), Steps(env, reg, db, c));
    }
    assert Drift(After(env, reg, db, c)) == Drift(Work(env, reg, db, c).db);
  }

  function Run<S>(env: Env<S>, reg: Registry, db: Db<S>, commands: seq<Command>): (after: Db<S>)
    requires Sound(db)
    ensures Sound(after)
    decreases |commands|
  {
    if commands == [] then db else Run(env, reg, After(env, reg, db, commands[0]), commands[1..])
  }

  lemma {:induction false} RunClose<S>(env: Env<S>, reg: Registry, db: Db<S>, commands: seq<Command>)
    requires Sound(db)
    ensures Close(db, Run(env, reg, db, commands))
    decreases |commands|
  {
    if commands != [] {
      CommandClose(env, reg, db, commands[0]);
      RunClose(env, reg, After(env, reg, db, commands[0]), commands[1..]);
    }
  }

  /** Over every run from an empty history with nothing in effect, whatever fails, the versions in effect and
      the versions recorded differ by at most the number of failed history writes. */
  lemma DriftBound<S>(env: Env<S>, reg: Registry, schema: S, commands: seq<Command>)
    ensures var after := Run(env, reg, Db(schema, {}, [], 0, 0), commands);
            |after.effects - Elements(after.history)| + |Elements(after.history) - after.effects| <= after.failedWrites
  {
    var start := Db(schema, {}, [], 0, 0);
    var after := Run(env, reg, start, commands);
    RunClose(env, reg, start, commands);
    assert Drift(start) == {};
    var a, b := after.effects - Elements(after.history), Elements(after.history) - after.effects;
    assert |a + b| == |a| + |b|;
  }

  // ---------------------------------------------------------------- what a migrate does

  /** The ups of `vs`, in that order. */
  function Ups<S>(env: Env<S>, schema: S, vs: seq<int>): S {
    if vs == [] then schema else env.up(vs[|vs| - 1], Ups(env, schema, vs[..|vs| - 1]))
  }

  /** How many ups have run: one more than recorded when the record failed. */
  function UpsRun<S>(p: Progress<S>): nat {
    p.done + (if p.stop.RecordFailed? then 1 else 0)
  }

  predicate Added(before: seq<int>, list: seq<int>, after: seq<int>) {
    && (forall v <- before :: v in after)
    && (forall v <- list :: v in after)
    && (forall v <- after :: v in before || v in list)
  }

  ghost predicate Meaning<S>(env: Env<S>, db: Db<S>, pending: seq<int>, n: nat, p: Progress<S>)
    requires n <= |pending|
  {
    && p.done <= UpsRun(p) <= n
    && p.db.schema == Ups(env, db.schema, pending[..UpsRun(p)])
    && Added(db.history, pending[..p.done], p.db.history)
    && (p.stop.Going? || p.stop.UpFailed? || p.stop.RecordFailed?)
  }

  lemma AddedOne(before: seq<int>, list: seq<int>, after: seq<int>, v: int)
    requires Ascending(after) && Added(before, list, after)
    ensures Added(before, list + [v], Add(after, v))
  {
  }

  lemma UpsOne<S>(env: Env<S>, schema: S, list: seq<int>, v: int)
    ensures Ups(env, schema, list + [v]) == env.up(v, Ups(env, schema, list))
  {
    assert (list + [v])[..|list|] == list;
  }

  lemma ApplyOneMeaning<S>(env: Env<S>, db: Db<S>, pending: seq<int>, n: nat, p: Progress<S>)
    requires 0 < n <= |pending| && Sound(p.db) && p.stop.Going? && p.done == n - 1
    requires Meaning(env, db, pending, n - 1, p)
    ensures Meaning(env, db, pending, n, ApplyOne(env, p, pending[n - 1]))
  {
    var v := pending[n - 1];
    assert pending[..n] == pending[..n - 1] + [v];
    UpsOne(env, db.schema, pending[..n - 1], v);
    AddedOne(db.history, pending[..n - 1], p.db.history, v);
  }

  lemma {:induction false} ApplyMeaning<S>(env: Env<S>, db: Db<S>, pending: seq<int>, n: nat)
    requires Sound(db) && n <= |pending|
    ensures Meaning(env, db, pending, n, ApplyPending(env, db, pending, n))
  {
    if n > 0 {
      ApplyMeaning(env, db, pending, n - 1);
      var p := ApplyPending(env, db, pending, n - 1);
      if p.stop.Going? {
        ApplyOneMeaning(env, db, pending, n, p);
      }
    }
  }

  predicate Due(versions: seq<int>, applied: seq<int>, target: int, v: int) {
    v in versions && v !in applied && (target == 0 || v <= target)
  }

  lemma {:induction false} PendingIsDue(versions: seq<int>, applied: seq<int>, target: int, v: int)
    ensures v in Pending(versions, applied, target) <==> Due(versions, applied, target, v)
  {
    if versions != [] {
      var front := versions[..|versions| - 1];
      assert versions == front + [versions[|versions| - 1]];
      PendingIsDue(front, applied, target, v);
    }
  }

  lemma {:induction false} PendingAscending(versions: seq<int>, applied: seq<int>, target: int)
    requires Ascending(versions)
    ensures Ascending(Pending(versions, applied, target))
  {
    if versions != [] {
      var front, last := versions[..|versions| - 1], versions[|versions| - 1];
      assert versions == front + [last];
      AscendingSnoc(front, last);
      PendingAscending(front, applied, target);
      forall v | v in Pending(front, applied, target)
        ensures v < last
      {
        PendingIsDue(front, applied, target, v);
      }
      AscendingSnoc(Pending(front, applied, target), last);
      assert Pending(front, applied, target) + [] == Pending(front, applied, target);
    }
  }

  /** migrate works through exactly the registered versions up to the target that it did not see applied, in
      ascending order; it stops at the first failure, with the versions before it recorded and nothing else. */
  lemma MigrateInOrder<S>(env: Env<S>, reg: Registry, db: Db<S>, target: int)
    requires Sound(db) && IsRegistry(reg) && Ready(env, db)
    ensures var pending := WorkList(env, reg, db, Migrate(target));
            var p := Work(env, reg, db, Migrate(target));
            && Ascending(pending)
            && (forall v :: v in pending <==> Due(reg.versions, Read(env, Tick(db)), target, v))
            && UpsRun(p) <= |pending| && p.db.schema == Ups(env, db.schema, pending[..UpsRun(p)])
            && Added(db.history, pending[..p.done], p.db.history)
            && (p.stop.Going? <==> p.done == |pending|)
  {
    var applied := Read(env, Tick(db));
    var pending := Pending(reg.versions, applied, target);
    PendingAscending(reg.versions, applied, target);
    ApplyMeaning(env, Tick(Tick(db)), pending, |pending|);
    forall v: int
      ensures v in pending <==> Due(reg.versions, applied, target, v)
    {
      PendingIsDue(reg.versions, applied, target, v);
    }
  }

  /** A second migrate to the same target finds nothing to do, once the first one succeeded. */
  lemma MigrateTwice<S>(env: Env<S>, reg: Registry, db: Db<S>, target: int)
    requires Sound(db) && IsRegistry(reg) && Succeeds(env, reg, db, Migrate(target))
    requires var mid := After(env, reg, db, Migrate(target)); !env.fails(mid.clock + 1)
    ensures var mid := After(env, reg, db, Migrate(target));
            WorkList(env, reg, mid, Migrate(target)) == []
            && (Ready(env, mid) ==> Succeeds(env, reg, mid, Migrate(target)))
  {
    var mid := After(env, reg, db, Migrate(target));
    MigrateInOrder(env, reg, db, target);
    var again := WorkList(env, reg, mid, Migrate(target));
    assert Read(env, Tick(mid)) == mid.history;
    if again != [] {
      var v := SomeElement(again);
      PendingIsDue(reg.versions, mid.history, target, v);
      PendingIsDue(reg.versions, Read(env, Tick(db)), target, v);
      Recorded(env, reg, db, target, v);
    }
  }

  lemma Recorded<S>(env: Env<S>, reg: Registry, db: Db<S>, target: int, v: int)
    requires Sound(db) && IsRegistry(reg) && Succeeds(env, reg, db, Migrate(target))
    requires v in reg.versions && (target == 0 || v <= target)
    ensures v in After(env, reg, db, Migrate(target)).history
  {
    MigrateInOrder(env, reg, db, target);
    var pending := WorkList(env, reg, db, Migrate(target));
    assert pending[..|pending|] == pending;
    if v in pending {
    } else {
      assert v in Read(env, Tick(db));
    }
  }

  // ---------------------------------------------------------------- migrate, then roll back

  ghost predicate UndoesUp<S(!new)>(env: Env<S>) {
    forall v: int, s: S :: env.down(v, env.up(v, s)) == s
  }

  lemma DropLast(front: seq<int>, last: int)
    requires Ascending(front + [last])
    ensures Without(front + [last], last) == front
  {
    AscendingSnoc(front, last);
    forall v: int
      ensures v in Without(front + [last], last) <==> v in front
    {
      FrontElements(front, last, v);
    }
    SameElements(Without(front + [last], last), front);
  }

  lemma UndoOneHistory<S>(env: Env<S>, known: set<int>, p: Progress<S>, front: seq<int>, last: int)
    requires Sound(p.db) && p.stop.Going? && p.db.history == front + [last]
    ensures var after := UndoOne(env, known, p, last);
            after.db.history == if after.stop.Going? then front else p.db.history
  {
    DropLast(front, last);
  }

  lemma OneShorter(s: seq<int>, k: nat)
    requires k < |s|
    ensures s[..k + 1] == s[..k] + [s[k]]
  {
  }

  /** A rollback takes the newest records off the history, one by one. */
  lemma {:induction false} UndoHistory<S>(env: Env<S>, known: set<int>, db: Db<S>, n: nat)
    requires Sound(db) && n <= |db.history|
    ensures var p := UndoLast(env, known, db, db.history, n);
            p.db.history == db.history[..|db.history| - p.done]
  {
    if n == 0 {
      assert db.history[..|db.history|] == db.history;
    } else {
      UndoHistory(env, known, db, n - 1);
      var p := UndoLast(env, known, db, db.history, n - 1);
      if p.stop.Going? {
        var k := |db.history| - n;
        OneShorter(db.history, k);
        UndoOneHistory(env, known, p, db.history[..k], db.history[k]);
      }
    }
  }

  lemma {:induction false} UndoSchema<S(!new)>(env: Env<S>, known: set<int>, db: Db<S>, schema: S, kept: seq<int>,
                                               added: seq<int>, n: nat)
    requires UndoesUp(env) && Sound(db) && db.history == kept + added && n <= |added|
    requires db.schema == Ups(env, schema, added)
    requires UndoLast(env, known, db, db.history, n).stop.Going?
    ensures UndoLast(env, known, db, db.history, n).db.schema == Ups(env, schema, added[..|added| - n])
  {
    if n == 0 {
      assert added[..|added|] == added;
    } else {
      UndoSchema(env, known, db, schema, kept, added, n - 1);
      var k := |added| - n;
      assert db.history[|db.history| - n] == added[k];
      LastUp(env, schema, added, k);
      UndoOneSchema(env, known, UndoLast(env, known, db, db.history, n - 1), added[k], Ups(env, schema, added[..k]));
    }
  }

  lemma LastUp<S>(env: Env<S>, schema: S, added: seq<int>, k: nat)
    requires k < |added|
    ensures Ups(env, schema, added[..k + 1]) == env.up(added[k], Ups(env, schema, added[..k]))
  {
    assert added[..k + 1][..k] == added[..k];
  }

  lemma UndoOneSchema<S(!new)>(env: Env<S>, known: set<int>, p: Progress<S>, v: int, below: S)
    requires UndoesUp(env) && Sound(p.db) && p.stop.Going? && p.db.schema == env.up(v, below)
    requires UndoOne(env, known, p, v).stop.Going?
    ensures UndoOne(env, known, p, v).db.schema == below
  {
  }

  // ---------------------------------------------------------------- what a rollback does

  /** The downs of the newest `k` of `applied`, newest first. */
  function Downs<S>(env: Env<S>, schema: S, applied: seq<int>, k: nat): S
    requires k <= |applied|
  {
    if k == 0 then schema else env.down(applied[|applied| - k], Downs(env, schema, applied, k - 1))
  }

  /** How many downs have run: one more than unrecorded when the record could not be removed. */
  function DownsRun<S>(p: Progress<S>): nat {
    p.done + (if p.stop.UnrecordFailed? then 1 else 0)
  }

  ghost predicate Undone<S>(env: Env<S>, known: set<int>, schema: S, applied: seq<int>, n: nat, p: Progress<S>)
    requires n <= |applied|
  {
    && p.done <= DownsRun(p) <= n
    && p.db.schema == Downs(env, schema, applied, DownsRun(p))
    && (p.stop.Unknown? ==> p.done < n && applied[|applied| - 1 - p.done] !in known)
    && (p.stop.Going? || p.stop.Unknown? || p.stop.DownFailed? || p.stop.UnrecordFailed?)
  }

  lemma UndoOneUndone<S>(env: Env<S>, known: set<int>, schema: S, applied: seq<int>, n: nat, p: Progress<S>, v: int)
    requires Sound(p.db) && 0 < n <= |applied| && v == applied[|applied| - n]
    requires p.stop.Going? && p.done == n - 1 && Undone(env, known, schema, applied, n - 1, p)
    ensures Undone(env, known, schema, applied, n, UndoOne(env, known, p, v))
  {
  }

  lemma {:induction false} UndoUndone<S>(env: Env<S>, known: set<int>, db: Db<S>, applied: seq<int>, n: nat)
    requires Sound(db) && n <= |applied|
    ensures Undone(env, known, db.schema, applied, n, UndoLast(env, known, db, applied, n))
  {
    if n > 0 {
      UndoUndone(env, known, db, applied, n - 1);
      var p := UndoLast(env, known, db, applied, n - 1);
      if p.stop.Going? {
        UndoOneUndone(env, known, db.schema, applied, n, p, applied[|applied| - n]);
      }
    }
  }

  /** rollback runs the downs of the newest versions, newest first, as many as asked for or recorded; it stops
      at the first that is not registered or fails, and takes off the history exactly those it finished. */
  lemma RollbackInOrder<S>(env: Env<S>, reg: Registry, db: Db<S>, steps: nat)
    requires Sound(db) && Ready(env, db) && !env.fails(db.clock + 1)
    ensures var p := Work(env, reg, db, Rollback(steps));
            var n := if steps < |db.history| then steps else |db.history|;
            && Undone(env, reg.names.Keys, db.schema, db.history, n, p) && (p.stop.Going? <==> p.done == n)
            && p.db.history == db.history[..|db.history| - p.done]
  {
    var n := Steps(env, reg, db, Rollback(steps));
    UndoUndone(env, reg.names.Keys, Tick(Tick(db)), db.history, n);
    UndoHistory(env, reg.names.Keys, Tick(Tick(db)), n);
  }

  /** Every pending version is newer than every applied one. */
  predicate AllNewer(pending: seq<int>, applied: seq<int>) {
    forall p <- pending, a <- applied :: a < p
  }

  lemma Joined(before: seq<int>, list: seq<int>, after: seq<int>)
    requires Ascending(before) && Ascending(list) && Ascending(after)
    requires AllNewer(list, before) && Added(before, list, after)
    ensures after == before + list
  {
    var both := before + list;
    forall i, j | 0 <= i < j < |both|
      ensures both[i] < both[j]
    {
      if i < |before| <= j {
        assert both[i] in before && both[j] in list;
      }
    }
    SameElements(after, both);
  }

  lemma Newer(before: seq<int>, list: seq<int>, after: seq<int>)
    requires Ascending(after) && |before| <= |after| && after[..|before|] == before
    requires (forall v <- list :: v in after && v !in before)
    ensures AllNewer(list, before)
  {
    assert forall k | 0 <= k < |before| :: after[k] == before[k];
    forall p, a | p in list && a in before
      ensures a < p
    {
      var i :| 0 <= i < |before| && before[i] == a;
      var j :| 0 <= j < |after| && after[j] == p;
      assert after[i] == a;
    }
  }

  lemma RollbackKeeps<S>(env: Env<S>, reg: Registry, mid: Db<S>, steps: nat)
    requires Sound(mid) && !env.fails(mid.clock + 1) && Succeeds(env, reg, mid, Rollback(steps))
    ensures var end := After(env, reg, mid, Rollback(steps));
            end.history == mid.history[..if steps < |mid.history| then |mid.history| - steps else 0]
  {
    UndoHistory(env, reg.names.Keys, Tick(Tick(mid)), Steps(env, reg, mid, Rollback(steps)));
  }

  lemma RollbackUndoes<S(!new)>(env: Env<S>, reg: Registry, mid: Db<S>, schema: S, kept: seq<int>, added: seq<int>)
    requires UndoesUp(env) && Sound(mid) && mid.history == kept + added && mid.schema == Ups(env, schema, added)
    requires !env.fails(mid.clock + 1) && Succeeds(env, reg, mid, Rollback(|added|))
    ensures var end := After(env, reg, mid, Rollback(|added|));
            end.history == kept && end.schema == schema
  {
    RollbackKeeps(env, reg, mid, |added|);
    assert (kept + added)[..|kept|] == kept;
    UndoSchema(env, reg.names.Keys, Tick(Tick(mid)), schema, kept, added, |added|);
    assert added[..0] == [];
  }

  lemma RestoresFrom<S(!new)>(env: Env<S>, reg: Registry, mid: Db<S>, schema: S, before: seq<int>, pending: seq<int>)
    requires UndoesUp(env) && Sound(mid) && mid.schema == Ups(env, schema, pending)
    requires Ascending(before) && Ascending(pending) && Added(before, pending, mid.history)
    requires forall v <- pending :: v !in before
    requires !env.fails(mid.clock + 1) && Succeeds(env, reg, mid, Rollback(|pending|))
    ensures var end := After(env, reg, mid, Rollback(|pending|));
            && (end.history == before <==> AllNewer(pending, before))
            && (AllNewer(pending, before) ==> end.schema == schema)
  {
    RollbackKeeps(env, reg, mid, |pending|);
    if AllNewer(pending, before) {
      Joined(before, pending, mid.history);
      RollbackUndoes(env, reg, mid, schema, before, pending);
    } else if After(env, reg, mid, Rollback(|pending|)).history == before {
      Newer(before, pending, mid.history);
    }
  }

  lemma CompleteMigrate<S>(env: Env<S>, reg: Registry, db: Db<S>, target: int)
    requires Sound(db) && IsRegistry(reg) && !env.fails(db.clock + 1) && Succeeds(env, reg, db, Migrate(target))
    ensures var pending := WorkList(env, reg, db, Migrate(target));
            var mid := After(env, reg, db, Migrate(target));
            && Ascending(pending) && (forall v <- pending :: v !in db.history)
            && mid.schema == Ups(env, db.schema, pending)
            && Added(db.history, pending, mid.history)
  {
    var pending := WorkList(env, reg, db, Migrate(target));
    CompleteWork(env, reg, db, target);
    PendingAscending(reg.versions, db.history, target);
    forall v | v in pending
      ensures v !in db.history
    {
      PendingIsDue(reg.versions, db.history, target, v);
    }
  }

  lemma CompleteWork<S>(env: Env<S>, reg: Registry, db: Db<S>, target: int)
    requires Sound(db) && Succeeds(env, reg, db, Migrate(target))
    ensures var pending := WorkList(env, reg, db, Migrate(target));
            var p := Work(env, reg, db, Migrate(target));
            p.db.schema == Ups(env, db.schema, pending) && Added(db.history, pending, p.db.history)
  {
    var pending := WorkList(env, reg, db, Migrate(target));
    ApplyMeaning(env, Tick(Tick(db)), pending, |pending|);
    assert pending[..|pending|] == pending;
  }

  /** A successful migrate followed by a successful rollback of as many versions gives back the history if
      and only if every pending version is newer than every applied one; and then, if each down undoes its
      up, the schema too. */
  lemma RollbackRestores<S(!new)>(env: Env<S>, reg: Registry, db: Db<S>, target: int)
    requires Sound(db) && IsRegistry(reg) && UndoesUp(env)
    requires !env.fails(db.clock + 1) && Succeeds(env, reg, db, Migrate(target))
    requires var mid := After(env, reg, db, Migrate(target));
             var back := Rollback(|WorkList(env, reg, db, Migrate(target))|);
             !env.fails(mid.clock + 1) && Succeeds(env, reg, mid, back)
    ensures var pending := WorkList(env, reg, db, Migrate(target));
            var mid := After(env, reg, db, Migrate(target));
            var end := After(env, reg, mid, Rollback(|pending|));
            && (end.history == db.history <==> AllNewer(pending, db.history))
            && (AllNewer(pending, db.history) ==> end.schema == db.schema)
  {
    RestoresAfter(env, reg, db, target, WorkList(env, reg, db, Migrate(target)), After(env, reg, db, Migrate(target)));
  }

  lemma RestoresAfter<S(!new)>(env: Env<S>, reg: Registry, db: Db<S>, target: int, pending: seq<int>, mid: Db<S>)
    requires Sound(db) && IsRegistry(reg) && UndoesUp(env)
    requires !env.fails(db.clock + 1) && Succeeds(env, reg, db, Migrate(target))
    requires pending == WorkList(env, reg, db, Migrate(target)) && mid == After(env, reg, db, Migrate(target))
    requires !env.fails(mid.clock + 1) && Succeeds(env, reg, mid, Rollback(|pending|))
    ensures var end := After(env, reg, mid, Rollback(|pending|));
            && (end.history == db.history <==> AllNewer(pending, db.history))
            && (AllNewer(pending, db.history) ==> end.schema == db.schema)
  {
    CompleteMigrate(env, reg, db, target);
    RestoresFrom(env, reg, mid, db.schema, db.history, pending);
  }
}
