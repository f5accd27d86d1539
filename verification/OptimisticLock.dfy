/** updateWithVersion of zero/db/db_repository.h as a lock-free protocol: any number of clients load one row,
    edit their copies and write them back, in any order. A step is one statement on the database. */
module OptimisticLock {
  import opened Bytes
  import opened Models
  import opened Options
  import opened RepositoryMachine
  import opened RowCodec

  /** `base` is the row as the client last saw it in the database. */
  datatype Client = Idle | Holding(model: Model, base: Model)

  /** `wins` counts the calls that returned true. */
  datatype World = World(db: State, clients: seq<Client>, wins: nat)

  /** What the clients share: the schema, the row and its version column. */
  datatype Setting = Setting(schema: Schema, id: string, version: string)

  datatype Event =
    | Load(client: nat)
    | Edit(client: nat, model: Model)
    | Commit(client: nat, valid: bool, fails: bool)

  predicate IsSetting(x: Setting) {
    && IsSchema(x.schema)
    && x.version in x.schema.fields && x.schema.fields[x.version].kind.Integer? && x.version != x.schema.pk
    && Kept(x.schema.fields[x.schema.pk].kind, x.id) == x.id
  }

  function Version(x: Setting, row: Row): int
    requires x.version in row
  {
    ParseInt64(row[x.version])
  }

  /** The row in the database and its version. */
  function Stored(x: Setting, w: World): Row
    requires x.id in w.db.table
  {
    w.db.table[x.id].row
  }

  predicate RowThere(x: Setting, w: World) {
    && IsSetting(x) && TableOk(x.schema, w.db) && Visible(x.schema, w.db, x.id)
    && x.version in Stored(x, w)
  }

  function CommitOp(x: Setting, m: Model, e: Event): Op
    requires e.Commit?
  {
    UpdateWithVersion(m, e.valid, e.fails, x.version)
  }

  /** An edit changes neither the primary key nor the version. The version counter has not run out. */
  predicate Enabled(x: Setting, w: World, e: Event)
    requires RowThere(x, w)
  {
    && e.client < |w.clients|
    && match e
       case Load(_) => true
       case Edit(k, m) =>
         && w.clients[k].Holding? && IsModel(x.schema, m)
         && x.schema.pk in w.clients[k].model && x.version in w.clients[k].model
         && m[x.schema.pk] == w.clients[k].model[x.schema.pk] && m[x.version] == w.clients[k].model[x.version]
       case Commit(k, _, _) =>
         && w.clients[k].Holding? && IsModel(x.schema, w.clients[k].model)
         && Version(x, Stored(x, w)) + 1 < TWO_63
  }

  /** The call returns true. */
  predicate Wins(x: Setting, w: World, e: Event)
    requires RowThere(x, w) && Enabled(x, w, e) && e.Commit?
  {
    Matches(x.schema, w.db, CommitOp(x, w.clients[e.client].model, e))
  }

  function Apply(x: Setting, w: World, e: Event): World
    requires RowThere(x, w) && Enabled(x, w, e)
  {
    match e
    case Load(k) =>
      var m := FromRow(x.schema, Stored(x, w));
      w.(clients := w.clients[k := Holding(m, m)])
    case Edit(k, m) => w.(clients := w.clients[k := Holding(m, w.clients[k].base)])
    case Commit(k, _, _) =>
      var op := CommitOp(x, w.clients[k].model, e);
      if !Wins(x, w, e) then w
      else World(AfterVersioned(x.schema, w.db, op), w.clients[k := Holding(Bumped(op), Bumped(op))], w.wins + 1)
  }

  /** A copy is of this row, never newer than it, and one as new was made from the row as it stands. */
  predicate InStep(x: Setting, w: World, k: Client)
    requires RowThere(x, w)
  {
    k.Holding? ==>
      && IsModel(x.schema, k.model) && k.model[x.schema.pk] == x.id && IsModel(x.schema, k.base)
      && Version(x, k.base) == Version(x, k.model)
      && Version(x, k.model) <= Version(x, Stored(x, w))
      && (Version(x, k.model) == Version(x, Stored(x, w)) ==> k.base == FromRow(x.schema, Stored(x, w)))
  }

  predicate Inv(x: Setting, w: World, initial: int) {
    && RowThere(x, w)
    && Version(x, Stored(x, w)) == initial + w.wins
    && forall k | 0 <= k < |w.clients| :: InStep(x, w, w.clients[k])
  }

  lemma LoadedVersion(x: Setting, row: Row)
    requires IsSetting(x) && x.version in row
    ensures var m := FromRow(x.schema, row); IsModel(x.schema, m) && Version(x, m) == Version(x, row)
  {
    SaveLoad(x.schema, map column <- x.schema.fields :: x.schema.fields[column].initial, row);
    PrintParseInt(Version(x, row));
  }

  lemma LoadedIsInStep(x: Setting, w: World)
    requires RowThere(x, w)
    ensures var m := FromRow(x.schema, Stored(x, w)); InStep(x, w, Holding(m, m))
  {
    LoadedVersion(x, Stored(x, w));
  }

  lemma BumpedIsModel(x: Setting, m: Model, e: Event)
    requires IsSetting(x) && IsModel(x.schema, m) && e.Commit? && Version(x, m) + 1 < TWO_63
    ensures var next := Bumped(CommitOp(x, m, e));
            IsModel(x.schema, next) && Version(x, next) == Version(x, m) + 1 && next[x.schema.pk] == m[x.schema.pk]
  {
    PrintParseInt(Version(x, m) + 1);
  }

  /** What a winner leaves behind: the row loads as its new copy, one version on. */
  lemma WinnerWrites(x: Setting, w: World, e: Event)
    requires RowThere(x, w) && Enabled(x, w, e) && e.Commit? && InStep(x, w, w.clients[e.client]) && Wins(x, w, e)
    ensures var after := Apply(x, w, e);
            var m := after.clients[e.client].model;
            && RowThere(x, after) && IsModel(x.schema, m) && m[x.schema.pk] == x.id
            && FromRow(x.schema, Stored(x, after)) == m
            && Version(x, m) == Version(x, Stored(x, after)) == Version(x, Stored(x, w)) + 1
  {
    var m := w.clients[e.client].model;
    BumpedIsModel(x, m, e);
    TableKept(x.schema, w.db, CommitOp(x, m, e));
    ReloadsAs(x.schema, Stored(x, w), Bumped(CommitOp(x, m, e)));
  }

  lemma ReloadsAs(c: Schema, row: Row, m: Model)
    requires IsSchema(c) && IsModel(c, m) && c.pk in row && row[c.pk] == m[c.pk]
    ensures FromRow(c, Written(c, row, m)) == m
  {
  }

  lemma StepKept(x: Setting, w: World, e: Event, initial: int)
    requires Inv(x, w, initial) && Enabled(x, w, e)
    ensures Inv(x, Apply(x, w, e), initial)
  {
    match e
    case Load(_) => LoadedIsInStep(x, w);
    case Edit(k, m) => assert InStep(x, w, w.clients[k]);
    case Commit(k, _, _) =>
      if Wins(x, w, e) {
        CommitKept(x, w, e, initial);
      }
  }

  lemma CommitKept(x: Setting, w: World, e: Event, initial: int)
    requires Inv(x, w, initial) && Enabled(x, w, e) && e.Commit? && Wins(x, w, e)
    ensures Inv(x, Apply(x, w, e), initial)
  {
    var after := Apply(x, w, e);
    assert InStep(x, w, w.clients[e.client]);
    WinnerWrites(x, w, e);
    forall k | 0 <= k < |after.clients|
      ensures InStep(x, after, after.clients[k])
    {
      assert InStep(x, w, w.clients[k]);
    }
  }

  datatype Run = End | Then(event: Event, rest: Run)

  predicate Possible(x: Setting, w: World, r: Run)
    decreases r
  {
    r.Then? ==>
      RowThere(x, w) && Enabled(x, w, r.event) && Possible(x, Apply(x, w, r.event), r.rest)
  }

  function Final(x: Setting, w: World, r: Run): World
    requires Possible(x, w, r)
    decreases r
  {
    if r.End? then w else Final(x, Apply(x, w, r.event), r.rest)
  }

  lemma {:induction false} RunInv(x: Setting, w: World, r: Run, initial: int)
    requires Inv(x, w, initial) && Possible(x, w, r)
    ensures Inv(x, Final(x, w, r), initial)
    decreases r
  {
    if r.Then? {
      StepKept(x, w, r.event, initial);
      RunInv(x, Apply(x, w, r.event), r.rest, initial);
    }
  }

  predicate Fresh(w: World) {
    w.wins == 0 && forall k | 0 <= k < |w.clients| :: w.clients[k].Idle?
  }

  /** The version grows by exactly the number of calls that returned true, and a client whose copy is as new
      as the row has the row as it stands under its edits. */
  lemma VersionCountsWins(x: Setting, w: World, r: Run)
    requires RowThere(x, w) && Fresh(w) && Possible(x, w, r)
    ensures var after := Final(x, w, r);
            && RowThere(x, after)
            && Version(x, Stored(x, after)) == Version(x, Stored(x, w)) + after.wins
  {
    RunInv(x, w, r, Version(x, Stored(x, w)));
  }

  lemma WinsExactly(x: Setting, w: World, e: Event, initial: int)
    requires Inv(x, w, initial) && Enabled(x, w, e) && e.Commit?
    ensures Wins(x, w, e) <==>
            && e.valid && !e.fails && x.id != "" && x.id != "0"
            && w.clients[e.client].base == FromRow(x.schema, Stored(x, w))
  {
    assert InStep(x, w, w.clients[e.client]);
    LoadedVersion(x, Stored(x, w));
  }

  /** No lost update: after any run, a call returns true exactly when it is let through and the row is still
      as its client last saw it. */
  lemma NoLostUpdate(x: Setting, w: World, r: Run, e: Event)
    requires RowThere(x, w) && Fresh(w) && Possible(x, w, r)
    requires var before := Final(x, w, r); RowThere(x, before) && Enabled(x, before, e) && e.Commit?
    ensures var before := Final(x, w, r);
            Wins(x, before, e) <==>
            && e.valid && !e.fails && x.id != "" && x.id != "0"
            && before.clients[e.client].base == FromRow(x.schema, Stored(x, before))
  {
    RunInv(x, w, r, Version(x, Stored(x, w)));
    WinsExactly(x, Final(x, w, r), e, Version(x, Stored(x, w)));
  }

  lemma WinnerHolds(x: Setting, w: World, e: Event, initial: int)
    requires Inv(x, w, initial) && Enabled(x, w, e) && e.Commit? && Wins(x, w, e)
    ensures var after := Apply(x, w, e);
            var m := after.clients[e.client].model;
            && RowThere(x, after) && FromRow(x.schema, Stored(x, after)) == m
            && x.version in m && Version(x, m) == Version(x, Stored(x, after))
  {
    assert InStep(x, w, w.clients[e.client]);
    WinnerWrites(x, w, e);
  }

  /** And the winner then holds exactly what is stored, its version included. */
  lemma WinnerHoldsTheRow(x: Setting, w: World, r: Run, e: Event)
    requires RowThere(x, w) && Fresh(w) && Possible(x, w, r)
    requires var before := Final(x, w, r);
             RowThere(x, before) && Enabled(x, before, e) && e.Commit? && Wins(x, before, e)
    ensures var after := Apply(x, Final(x, w, r), e);
            var m := after.clients[e.client].model;
            && RowThere(x, after) && FromRow(x.schema, Stored(x, after)) == m
            && x.version in m && Version(x, m) == Version(x, Stored(x, after))
  {
    RunInv(x, w, r, Version(x, Stored(x, w)));
    WinnerHolds(x, Final(x, w, r), e, Version(x, Stored(x, w)));
  }
}
