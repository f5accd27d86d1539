/** zero/db/db_repository.h as its callers see it: a map from ids to models. What each operation writes,
    and what findById answers after any run of operations. */
module RepositoryView {
  import opened Bytes
  import opened DbCache
  import opened Models
  import opened Options
  import opened RepositoryMachine
  import opened RowCodec

  /** The models that can be found, and the ids that are taken; a soft-deleted row keeps its id. */
  datatype View = View(models: map<string, Model>, taken: set<string>)

  function ViewOf(c: Schema, s: State): (v: View)
    ensures FullModels(c, v)
  {
    View(map id <- s.table | Visible(c, s, id) :: FromRow(c, s.table[id].row), s.table.Keys)
  }

  predicate Usable(m: Model, pk: string, valid: bool, fails: bool)
    requires pk in m
  {
    valid && !fails && m[pk] != "" && m[pk] != "0"
  }

  /** One operation on that map. */
  function Next(c: Schema, v: View, op: Op): View
    requires (op.Insert? || op.Update? || op.UpdateWithVersion?) ==> c.pk in op.model
    requires op.UpdateWithVersion? ==> op.version in op.model && forall id <- v.models :: op.version in v.models[id]
  {
    match op
    case Insert(m, _, generated, fails, _, _, _) =>
      var id := if c.auto then Decimal(generated) else m[c.pk];
      if fails || id in v.taken || (c.auto && m.Keys == {c.pk}) then v
      else View(v.models[id := m[c.pk := id]], v.taken + {id})
    case Update(m, valid, fails) =>
      if Usable(m, c.pk, valid, fails) && m.Keys != {c.pk} && m[c.pk] in v.models
      then v.(models := v.models[m[c.pk] := m]) else v
    case RemoveById(id, fails) =>
      if fails then v else View(v.models - {id}, if c.soft then v.taken else v.taken - {id})
    case InvalidateCache(_) => v
    case FindById(_, _, _, _) => v
    case UpdateWithVersion(m, valid, fails, version) =>
      var id, was := m[c.pk], ParseInt64(m[version]);
      if Usable(m, c.pk, valid, fails) && id in v.models && ParseInt64(v.models[id][version]) == was
      then v.(models := v.models[id := m[version := PrintInt(was + 1)]]) else v
    case ForceRemoveById(id, fails) =>
      if fails then v else View(v.models - {id}, v.taken - {id})
  }

  /** The version is a 64-bit column that does not run over. */
  predicate Counting(c: Schema, op: Op) {
    op.UpdateWithVersion? ==>
      op.version in c.fields && c.fields[op.version].kind.Integer?
      && op.version in op.model && ParseInt64(op.model[op.version]) + 1 < TWO_63
  }

  // ---------------------------------------------------------------- what is written

  /** `after` is `before` with the record of `id` rewritten: the columns of `values` hold their texts, and
      every other column, the deletion mark and every other record are as they were. */
  ghost predicate Rewritten(before: map<string, Record>, after: map<string, Record>, id: string, values: Row) {
    && after.Keys == before.Keys && id in before
    && (forall other <- before :: other != id ==> after[other] == before[other])
    && after[id].deleted == before[id].deleted
    && after[id].row.Keys == before[id].row.Keys + values.Keys
    && (forall column <- values :: after[id].row[column] == values[column])
    && (forall column <- before[id].row :: column !in values ==> after[id].row[column] == before[id].row[column])
  }

  /** A successful update of a row that is there. */
  lemma UpdateWrites(c: Schema, s: State, op: Op)
    requires op.Update? && c.pk in op.model && op.model[c.pk] in s.table
    requires Usable(op.model, c.pk, op.valid, op.fails) && op.model.Keys != {c.pk}
    ensures Rewritten(s.table, AfterUpdate(c, s, op).table, op.model[c.pk], op.model - {c.pk})
  {
    OtherColumns(op.model, c.pk);
  }

  lemma OtherColumns(m: Model, pk: string)
    requires pk in m
    ensures m - {pk} != map[] <==> m.Keys != {pk}
  {
    if m.Keys != {pk} {
      var column :| column in m.Keys && column != pk;
      assert column in m - {pk};
    }
  }

  /** Any other update writes nothing. */
  lemma UpdateWritesNothing(c: Schema, s: State, op: Op)
    requires op.Update? && c.pk in op.model
    requires !Usable(op.model, c.pk, op.valid, op.fails) || op.model.Keys == {c.pk} || op.model[c.pk] !in s.table
    ensures AfterUpdate(c, s, op).table == s.table
    ensures Updates(c, op) <==> Usable(op.model, c.pk, op.valid, op.fails) && op.model.Keys != {c.pk}
  {
    OtherColumns(op.model, c.pk);
  }

  // ---------------------------------------------------------------- one step on the map

  /** One record more, that can be found. */
  lemma NewRecord(c: Schema, s: State, after: State, id: string, row: Row, m: Model)
    requires after.table == s.table[id := Record(row, false)] && FromRow(c, row) == m
    ensures ViewOf(c, after) == View(ViewOf(c, s).models[id := m], ViewOf(c, s).taken + {id})
  {
  }

  lemma InsertView(c: Schema, s: State, op: Op)
    requires IsSchema(c) && TableOk(c, s) && op.Insert? && Enabled(c, s, op)
    ensures ViewOf(c, AfterInsert(c, s, op)) == Next(c, ViewOf(c, s), op)
  {
    OtherColumns(op.model, c.pk);
    if Inserts(c, s, op) {
      var id := NewId(c, op);
      InsertedLoads(c, op, id);
      NewRecord(c, s, AfterInsert(c, s, op), id, op.extra + op.model[c.pk := id], op.model[c.pk := id]);
    }
  }

  /** The row that was inserted loads as the model with its id. */
  lemma InsertedLoads(c: Schema, op: Op, id: string)
    requires IsSchema(c) && op.Insert? && IsModel(c, op.model) && op.extra.Keys !! c.fields.Keys
    requires id == NewId(c, op) && (c.auto ==> op.generated < TWO_63)
    ensures FromRow(c, op.extra + op.model[c.pk := id]) == op.model[c.pk := id]
  {
    if c.auto {
      GeneratedId(c.fields[c.pk].kind, op.generated);
    }
    var m := op.model[c.pk := id];
    ExtraColumnsIgnored(c, op.extra, m);
    SaveLoad(c, m, m);
  }

  /** A row over which the columns of a model are written loads as the model. */
  lemma WrittenLoads(c: Schema, row: Row, m: Model)
    requires IsSchema(c) && IsModel(c, m) && c.fields.Keys <= row.Keys && row[c.pk] == m[c.pk]
    ensures FromRow(c, Written(c, row, m)) == m
  {
    forall column <- c.fields
      ensures FromRow(c, Written(c, row, m))[column] == m[column]
    {
      assert column in m && Kept(c.fields[column].kind, m[column]) == m[column];
    }
  }

  /** Rewriting one record that can be found. */
  lemma OneRecord(c: Schema, s: State, after: State, id: string, row: Row, m: Model)
    requires id in s.table && after.table == s.table[id := s.table[id].(row := row)] && FromRow(c, row) == m
    ensures ViewOf(c, after).taken == ViewOf(c, s).taken
    ensures ViewOf(c, after).models == if id in ViewOf(c, s).models then ViewOf(c, s).models[id := m] else ViewOf(c, s).models
  {
  }

  lemma UpdateView(c: Schema, s: State, op: Op)
    requires IsSchema(c) && TableOk(c, s) && op.Update? && Enabled(c, s, op)
    ensures ViewOf(c, AfterUpdate(c, s, op)) == Next(c, ViewOf(c, s), op)
  {
    var id := op.model[c.pk];
    OtherColumns(op.model, c.pk);
    if Updates(c, op) && id in s.table {
      WrittenLoads(c, s.table[id].row, op.model);
      OneRecord(c, s, AfterUpdate(c, s, op), id, Written(c, s.table[id].row, op.model), op.model);
    }
  }

  /** One record that can be found no more. */
  lemma HiddenRecord(c: Schema, s: State, after: State, id: string)
    requires !Visible(c, after, id)
    requires forall other <- s.table :: other != id ==> other in after.table && after.table[other] == s.table[other]
    requires forall other <- after.table :: other in s.table
    ensures ViewOf(c, after).models == ViewOf(c, s).models - {id}
  {
  }

  lemma RemoveView(c: Schema, s: State, op: Op)
    requires op.RemoveById?
    ensures ViewOf(c, AfterRemove(c, s, op)) == Next(c, ViewOf(c, s), op)
  {
    if !op.fails {
      HiddenRecord(c, s, AfterRemove(c, s, op), op.id);
    }
  }

  lemma ForceRemoveView(c: Schema, s: State, op: Op)
    requires op.ForceRemoveById?
    ensures ViewOf(c, AfterForceRemove(s, op)) == Next(c, ViewOf(c, s), op)
  {
  }

  lemma VersionLoads(c: Schema, row: Row, version: string)
    requires version in c.fields && c.fields[version].kind.Integer? && version in row
    ensures ParseInt64(FromRow(c, row)[version]) == ParseInt64(row[version])
  {
    PrintParseInt(ParseInt64(row[version]));
  }

  lemma BumpedModel(c: Schema, op: Op)
    requires IsSchema(c) && op.UpdateWithVersion? && IsModel(c, op.model) && Counting(c, op) && op.version != c.pk
    ensures IsModel(c, Bumped(op)) && Bumped(op)[c.pk] == op.model[c.pk]
  {
    PrintParseInt(ParseInt64(op.model[op.version]) + 1);
  }

  lemma VersionedView(c: Schema, s: State, op: Op)
    requires IsSchema(c) && TableOk(c, s) && op.UpdateWithVersion? && Enabled(c, s, op) && Counting(c, op)
    ensures ViewOf(c, AfterVersioned(c, s, op)) == Next(c, ViewOf(c, s), op)
  {
    var id := op.model[c.pk];
    if id in s.table {
      VersionLoads(c, s.table[id].row, op.version);
    }
    if Matches(c, s, op) {
      BumpedModel(c, op);
      WrittenLoads(c, s.table[id].row, Bumped(op));
      OneRecord(c, s, AfterVersioned(c, s, op), id, Written(c, s.table[id].row, Bumped(op)), Bumped(op));
    }
  }

  lemma QuietView(c: Schema, s: State, op: Op)
    requires (op.InvalidateCache? || op.FindById?) && Enabled(c, s, op)
    ensures ViewOf(c, Apply(c, s, op)) == Next(c, ViewOf(c, s), op)
  {
    assert Apply(c, s, op).table == s.table;
  }

  /** Every operation does to the models what it does to the map. */
  lemma ViewStep(c: Schema, s: State, op: Op)
    requires TableOk(c, s) && Enabled(c, s, op) && Counting(c, op)
    ensures ViewOf(c, Apply(c, s, op)) == Next(c, ViewOf(c, s), op)
  {
    match op
    case Insert(_, _, _, _, _, _, _) => InsertView(c, s, op);
    case Update(_, _, _) => UpdateView(c, s, op);
    case RemoveById(_, _) => RemoveView(c, s, op);
    case ForceRemoveById(_, _) => ForceRemoveView(c, s, op);
    case UpdateWithVersion(_, _, _, _) => VersionedView(c, s, op);
    case InvalidateCache(_) => QuietView(c, s, op);
    case FindById(_, _, _, _) => QuietView(c, s, op);
  }

  // ---------------------------------------------------------------- runs

  ghost predicate AllCounting(c: Schema, r: Run) {
    r.Then? ==> Counting(c, r.op) && AllCounting(c, r.rest)
  }

  predicate FullModels(c: Schema, v: View) {
    forall id <- v.models :: v.models[id].Keys == c.fields.Keys
  }

  lemma NextFull(c: Schema, s: State, v: View, op: Op)
    requires Enabled(c, s, op) && Counting(c, op) && FullModels(c, v)
    ensures FullModels(c, Next(c, v, op))
  {
  }

  /** The run on the map. */
  ghost function Played(c: Schema, s: State, v: View, r: Run): View
    requires Possible(c, s, r) && AllCounting(c, r) && FullModels(c, v)
    decreases r
  {
    if r.End? then v
    else
      NextFull(c, s, v, r.op);
      Played(c, Apply(c, s, r.op), Next(c, v, r.op), r.rest)
  }

  /** Over every run of all operations, whatever fails: the models that can be found are those of the map. */
  lemma {:induction false} ViewOfRun(c: Schema, s: State, r: Run)
    requires IsSchema(c) && TableOk(c, s) && Possible(c, s, r) && AllCounting(c, r)
    ensures TableOk(c, Final(c, s, r))
    ensures ViewOf(c, Final(c, s, r)) == Played(c, s, ViewOf(c, s), r)
    decreases r
  {
    if r.Then? {
      ViewStep(c, s, r.op);
      TableKept(c, s, r.op);
      ViewOfRun(c, Apply(c, s, r.op), r.rest);
    }
  }

  /** findById, after any run of the operations that keep the cache in step, answers the map's lookup: the
      model last inserted or updated under that id, unless it has been removed since. */
  lemma FindsLastWritten(c: Schema, table: map<string, Record>, r: Run, find: Op)
    requires IsSchema(c) && TableOk(c, State(table, map[]))
    requires Possible(c, State(table, map[]), r) && AllCovered(c, r) && AllCounting(c, r)
    requires find.FindById? && !find.fails
    ensures var s := State(table, map[]);
            var models := Played(c, s, ViewOf(c, s), r).models;
            Found(c, Final(c, s, r), find) == if find.id in models then Some(models[find.id]) else None
  {
    var s := State(table, map[]);
    ViewOfRun(c, s, r);
    CacheIsTransparent(c, table, r, find);
  }

  // ---------------------------------------------------------------- one operation and findById

  /** After a successful update findById answers exactly the model, in every state in step and out of it. */
  lemma UpdateThenFind(c: Schema, s: State, op: Op, find: Op)
    requires IsSchema(c) && TableOk(c, s) && op.Update? && Enabled(c, s, op)
    requires Updates(c, op) && Visible(c, s, op.model[c.pk])
    requires find.FindById? && find.id == op.model[c.pk] && !find.fails
    ensures Found(c, AfterUpdate(c, s, op), find) == Some(op.model)
  {
    WrittenLoads(c, s.table[find.id].row, op.model);
  }

  /** A removed id is found no more, whether or not the query fails, until it is inserted again. */
  lemma RemoveThenFind(c: Schema, s: State, op: Op, find: Op)
    requires op.RemoveById? && !op.fails && find.FindById? && find.id == op.id
    ensures Found(c, AfterRemove(c, s, op), find) == None
  {
  }

  /** `after` is `before` with the row of `id` marked as deleted, or without it. */
  ghost predicate Removed(soft: bool, before: map<string, Record>, after: map<string, Record>, id: string) {
    && (forall other <- before :: other != id ==> other in after && after[other] == before[other])
    && (forall other <- after :: other in before)
    && (if soft then id in before ==> id in after && after[id] == Record(before[id].row, true) else id !in after)
  }

  lemma RemoveWrites(c: Schema, s: State, op: Op)
    requires op.RemoveById? && !op.fails
    ensures Removed(c.soft, s.table, AfterRemove(c, s, op).table, op.id)
  {
  }

  /** After an insert that takes effect and whose id is read back, findById answers the model with its id. */
  lemma InsertThenFind(c: Schema, s: State, op: Op, find: Op)
    requires Inv(c, s) && op.Insert? && Enabled(c, s, op) && Covered(c, op) && Inserts(c, s, op)
    requires find.FindById? && find.id == NewId(c, op) && !find.fails
    ensures Found(c, AfterInsert(c, s, op), find) == Some(op.model[c.pk := find.id])
  {
    InsertedLoads(c, op, find.id);
    CoherenceKept(c, s, op);
    assert Agrees(c, AfterInsert(c, s, op), find.id);
  }

  /** A row that was found or inserted is cached for 300 seconds. */
  lemma CachedForFiveMinutes(c: Schema, s: State, find: Op, now: int)
    requires find.FindById? && Enabled(c, s, find) && Fills(c, s, find) && find.now >= 0
    ensures Lookup(AfterFind(c, s, find).cache, CacheKey(c.table, find.id), now).Some? <==> now <= find.now + 300_000_000_000
  {
  }

  lemma InsertedForFiveMinutes(c: Schema, s: State, op: Op, now: int)
    requires op.Insert? && Enabled(c, s, op) && Inserts(c, s, op) && op.now >= 0
    ensures Lookup(AfterInsert(c, s, op).cache, CacheKey(c.table, ModelAfter(c, op)[c.pk]), now).Some?
       <==> now <= op.now + 300_000_000_000
  {
  }
}
