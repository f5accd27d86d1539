/** zero/db/db_migration.cc on values: the schema, the history table, and what migrate and rollback do to
    both when any statement can fail. */
module MigrationSteps {

  // ---------------------------------------------------------------- ascending lists of versions

  predicate Ascending(s: seq<int>) {
    forall i, j | 0 <= i < j < |s| :: s[i] < s[j]
  }

  function Elements(s: seq<int>): set<int> {
    set v | v in s
  }

  lemma AscendingSnoc(front: seq<int>, last: int)
    ensures Ascending(front + [last]) <==> Ascending(front) && forall v <- front :: v < last
  {
    var s := front + [last];
    if Ascending(s) {
      forall i, j | 0 <= i < j < |front|
        ensures front[i] < front[j]
      {
        assert s[i] < s[j];
      }
      forall i | 0 <= i < |front|
        ensures front[i] < last
      {
        assert s[i] < s[|front|];
      }
    } else if Ascending(front) && forall v <- front :: v < last {
      assert forall i | 0 <= i < |front| :: s[i] == front[i] && front[i] in front;
    }
  }

  /** `v` put in its place, unless it is there. */
  function Add(s: seq<int>, v: int): (r: seq<int>)
    requires Ascending(s)
    ensures Ascending(r) && forall w :: w in r <==> w in s || w == v
  {
    if s == [] then [v]
    else
      var front, last := s[..|s| - 1], s[|s| - 1];
      assert s == front + [last];
      if v > last then s + [v]
      else if v == last then s
      else
        AscendingSnoc(front, last);
        AscendingSnoc(Add(front, v), last);
        Add(front, v) + [last]
  }

  function Without(s: seq<int>, v: int): (r: seq<int>)
    requires Ascending(s)
    ensures Ascending(r) && forall w :: w in r <==> w in s && w != v
  {
    if s == [] then []
    else
      var front, last := s[..|s| - 1], s[|s| - 1];
      assert s == front + [last];
      AscendingSnoc(front, last);
      AscendingSnoc(Without(front, v), last);
      if last == v then Without(front, v) else Without(front, v) + [last]
  }

  lemma FrontElements(front: seq<int>, last: int, v: int)
    requires Ascending(front + [last])
    ensures v in front <==> v in front + [last] && v != last
  {
    AscendingSnoc(front, last);
  }

  lemma SomeElement(s: seq<int>) returns (v: int)
    requires s != []
    ensures v in s
  {
    v := s[0];
  }

  lemma {:induction false} SameElements(a: seq<int>, b: seq<int>)
    requires Ascending(a) && Ascending(b) && forall v :: v in a <==> v in b
    ensures a == b
  {
    if a == [] {
      if b != [] {
        var v := SomeElement(b);
      }
    } else {
      var x := a[|a| - 1];
      assert x in b;
      var y := b[|b| - 1];
      assert y in a;
      var p, q := a[..|a| - 1], b[..|b| - 1];
      assert a == p + [x] && b == q + [y];
      AscendingSnoc(p, x);
      AscendingSnoc(q, y);
      assert x == y;
      forall v: int
        ensures v in p <==> v in q
      {
        FrontElements(p, x, v);
        FrontElements(q, y, v);
      }
      SameElements(p, q);
    }
  }

  // ---------------------------------------------------------------- the database

  /** The schema, the versions whose up is in effect, the history table in version order, how many
      statements were sent and how many writes to the history failed. */
  datatype Db<S> = Db(schema: S, effects: set<int>, history: seq<int>, clock: nat, failedWrites: nat)

  /** What each migration does to the schema, and which statement fails. */
  datatype Env<!S> = Env(up: (int, S) -> S, down: (int, S) -> S, fails: nat -> bool)

  predicate Sound<S>(db: Db<S>) {
    Ascending(db.history)
  }

  function Tick<S>(db: Db<S>): Db<S> {
    db.(clock := db.clock + 1)
  }

  /** SELECT version ... ORDER BY version: a failed query reads as an empty table. */
  function Read<S>(env: Env<S>, db: Db<S>): seq<int> {
    if env.fails(db.clock) then [] else db.history
  }

  function Current(applied: seq<int>): int {
    if applied == [] then 0 else applied[|applied| - 1]
  }

  datatype Step<S> = Step(db: Db<S>, ok: bool)

  function Up<S>(env: Env<S>, db: Db<S>, v: int): Step<S> {
    if env.fails(db.clock) then Step(Tick(db), false)
    else Step(Tick(db).(schema := env.up(v, db.schema), effects := db.effects + {v}), true)
  }

  function Down<S>(env: Env<S>, db: Db<S>, v: int): Step<S> {
    if env.fails(db.clock) then Step(Tick(db), false)
    else Step(Tick(db).(schema := env.down(v, db.schema), effects := db.effects - {v}), true)
  }

  /** INSERT: the version is unique in the table, so a second record of it fails too. */
  function Record<S>(env: Env<S>, db: Db<S>, v: int): Step<S>
    requires Sound(db)
  {
    if env.fails(db.clock) || v in db.history then
      Step(Tick(db).(failedWrites := db.failedWrites + 1), false)
    else Step(Tick(db).(history := Add(db.history, v)), true)
  }

  function Unrecord<S>(env: Env<S>, db: Db<S>, v: int): Step<S>
    requires Sound(db)
  {
    if env.fails(db.clock) then Step(Tick(db).(failedWrites := db.failedWrites + 1), false)
    else Step(Tick(db).(history := Without(db.history, v)), true)
  }

  // ---------------------------------------------------------------- migrate

  datatype Stop = Going | UpFailed | RecordFailed | Unknown | DownFailed | UnrecordFailed

  /** How far a command got: `done` versions are finished, and `stop` says why it went no further. */
  datatype Progress<S> = Progress(db: Db<S>, done: nat, stop: Stop)

  function Pending(versions: seq<int>, applied: seq<int>, target: int): seq<int> {
    if versions == [] then []
    else
      var front, v := versions[..|versions| - 1], versions[|versions| - 1];
      Pending(front, applied, target) + (if v !in applied && (target == 0 || v <= target) then [v] else [])
  }

  function ApplyOne<S>(env: Env<S>, p: Progress<S>, v: int): (r: Progress<S>)
    requires Sound(p.db) && p.stop.Going?
    ensures Sound(r.db)
  {
    var up := Up(env, p.db, v);
    if !up.ok then Progress(up.db, p.done, UpFailed)
    else
      var recorded := Record(env, up.db, v);
      if !recorded.ok then Progress(recorded.db, p.done, RecordFailed)
      else Progress(recorded.db, p.done + 1, Going)
  }

  /** The loop over the first `n` pending versions. */
  function ApplyPending<S>(env: Env<S>, db: Db<S>, pending: seq<int>, n: nat): (p: Progress<S>)
    requires Sound(db) && n <= |pending|
    ensures Sound(p.db) && p.done <= n && (p.stop.Going? <==> p.done == n)
  {
    if n == 0 then Progress(db, 0, Going)
    else
      var p := ApplyPending(env, db, pending, n - 1);
      if p.stop.Going? then ApplyOne(env, p, pending[n - 1]) else p
  }

  // ---------------------------------------------------------------- rollback

  function UndoOne<S>(env: Env<S>, known: set<int>, p: Progress<S>, v: int): (r: Progress<S>)
    requires Sound(p.db) && p.stop.Going?
    ensures Sound(r.db)
  {
    if v !in known then p.(stop := Unknown)
    else
      var down := Down(env, p.db, v);
      if !down.ok then Progress(down.db, p.done, DownFailed)
      else
        var removed := Unrecord(env, down.db, v);
        if !removed.ok then Progress(removed.db, p.done, UnrecordFailed)
        else Progress(removed.db, p.done + 1, Going)
  }

  /** The loop over the last `n` applied versions, newest first. */
  function UndoLast<S>(env: Env<S>, known: set<int>, db: Db<S>, applied: seq<int>, n: nat): (p: Progress<S>)
    requires Sound(db) && n <= |applied|
    ensures Sound(p.db) && p.done <= n && (p.stop.Going? <==> p.done == n)
  {
    if n == 0 then Progress(db, 0, Going)
    else
      var p := UndoLast(env, known, db, applied, n - 1);
      if p.stop.Going? then UndoOne(env, known, p, applied[|applied| - n]) else p
  }

  // ---------------------------------------------------------------- whole commands

  datatype Registry = Registry(versions: seq<int>, names: map<int, string>)

  predicate IsRegistry(r: Registry) {
    Ascending(r.versions) && r.names.Keys == Elements(r.versions)
  }

  datatype Command = Migrate(target: int) | Rollback(steps: nat)

  /** What a command works on: nothing when the history table cannot be made. */
  function WorkList<S>(env: Env<S>, reg: Registry, db: Db<S>, c: Command): seq<int> {
    var applied := Read(env, Tick(db));
    match c
    case Migrate(target) => Pending(reg.versions, applied, target)
    case Rollback(_) => applied
  }

  function Steps<S>(env: Env<S>, reg: Registry, db: Db<S>, c: Command): (n: nat)
    ensures n <= |WorkList(env, reg, db, c)|
  {
    var size := |WorkList(env, reg, db, c)|;
    if c.Migrate? || size < c.steps then size else c.steps
  }

  function Ready<S>(env: Env<S>, db: Db<S>): bool {
    !env.fails(db.clock)
  }

  /** CREATE TABLE IF NOT EXISTS, one read of the history, then the loop. */
  function Work<S>(env: Env<S>, reg: Registry, db: Db<S>, c: Command): (p: Progress<S>)
    requires Sound(db)
    ensures Sound(p.db)
  {
    if !Ready(env, db) then Progress(Tick(db), 0, Going)
    else if c.Migrate? then
      ApplyPending(env, Tick(Tick(db)), WorkList(env, reg, db, c), Steps(env, reg, db, c))
    else
      UndoLast(env, reg.names.Keys, Tick(Tick(db)), WorkList(env, reg, db, c), Steps(env, reg, db, c))
  }

  /** Every path but a missing table and an empty rollback then reads the current version. */
  predicate ReadsAgain<S>(env: Env<S>, reg: Registry, db: Db<S>, c: Command) {
    Ready(env, db) && (c.Rollback? ==> WorkList(env, reg, db, c) != [])
  }

  function After<S>(env: Env<S>, reg: Registry, db: Db<S>, c: Command): (after: Db<S>)
    requires Sound(db)
    ensures Sound(after)
  {
    var p := Work(env, reg, db, c);
    if ReadsAgain(env, reg, db, c) then Tick(p.db) else p.db
  }

  /** The command reports success. */
  predicate Succeeds<S>(env: Env<S>, reg: Registry, db: Db<S>, c: Command)
    requires Sound(db)
  {
    Ready(env, db) && Work(env, reg, db, c).stop.Going?
  }
}
