/** zero/db/db_repository.h: the repository's methods over the database table and a MemoryDbCache, proved to
    be the steps of RepositoryMachine. */
module Repository {
  import opened Bytes
  import opened DbCache
  import opened Models
  import opened Options
  import opened RepositoryMachine
  import opened RepositoryView
  import opened RowCodec

  /** However a row is walked, its text fits a std::string. */
  ghost predicate Fits(row: Row) {
    forall order: seq<string> :: Enumerates(order, row) ==> |RowText(row, order, 0)| < TWO_64
  }

  lemma InsertEnabled(c: Schema, s: State, op: Op)
    requires IsSchema(c) && op.Insert? && IsModel(c, op.model) && PlainNames(op.extra)
    requires op.extra.Keys !! c.fields.Keys && (c.auto ==> op.generated < TWO_63 && Decimal(op.generated) !in s.table)
    requires Enumerates(op.order, ModelAfter(c, op)) && Fits(ModelAfter(c, op))
    ensures Enabled(c, s, op)
  {
  }

  /** Some walk over the columns of a row. */
  method Walk(row: Row) returns (order: seq<string>)
    ensures Enumerates(order, row)
  {
    order := [];
    var left := row.Keys;
    while left != {}
      invariant left <= row.Keys && AllIn(order, row)
      invariant forall i | 0 <= i < |order| :: order[i] !in left
      invariant forall i, j | 0 <= i < j < |order| :: order[i] != order[j]
      invariant forall column | column in row :: column in left || column in order
      decreases left
    {
      var column :| column in left;
      order := order + [column];
      left := left - {column};
    }
  }

  lemma {:induction false} OrderOf(row: Row, left: set<string>) returns (order: seq<string>)
    requires left <= row.Keys
    ensures AllIn(order, row) && (forall column <- left :: column in order)
    ensures forall i | 0 <= i < |order| :: order[i] in left
    ensures forall i, j | 0 <= i < j < |order| :: order[i] != order[j]
    decreases left
  {
    if left == {} {
      order := [];
    } else {
      var column :| column in left;
      var rest := OrderOf(row, left - {column});
      order := [column] + rest;
    }
  }

  ghost function SomeOrder(row: Row): (order: seq<string>)
    ensures Enumerates(order, row)
  {
    assert exists order :: Enumerates(order, row) by {
      var walk := OrderOf(row, row.Keys);
      assert Enumerates(walk, row);
    }
    var order :| Enumerates(order, row);
    order
  }

  class DbRepository {
    const schema: Schema
    const cache: MemoryDbCache?
    /** What the database holds. */
    var table: map<string, Record>

    ghost function Value(): State
      reads this, cache
    {
      State(table, if cache == null then map[] else cache.data)
    }

    /** The table is one of this schema. */
    ghost predicate Sound()
      reads this, cache
    {
      IsSchema(schema) && TableOk(schema, Value())
    }

    /** And the cache is in step with it. */
    ghost predicate Valid()
      reads this, cache
    {
      Inv(schema, Value())
    }

    constructor (schema: Schema, table: map<string, Record>, cache: MemoryDbCache?)
      requires IsSchema(schema) && TableOk(schema, State(table, map[]))
      ensures Sound() && this.schema == schema && this.table == table && this.cache == cache
      ensures cache == null || cache.data == map[] ==> Valid()
    {
      this.schema, this.table, this.cache := schema, table, cache;
    }

    /** The new state is `after`; without a cache only its table is kept. */
    ghost predicate Now(after: State)
      reads this, cache
    {
      table == after.table && (cache != null ==> cache.data == after.cache)
    }

    /** A step of the machine, seen in the object. */
    lemma Settled(before: State, op: Op)
      requires TableOk(schema, before) && Enabled(schema, before, op) && Now(Apply(schema, before, op))
      ensures Sound() && (Inv(schema, before) && Covered(schema, op) ==> Valid())
    {
      TableKept(schema, before, op);
      if Inv(schema, before) && Covered(schema, op) {
        CoherenceKept(schema, before, op);
        forall id: string
          ensures Agrees(schema, Value(), id)
        {
          assert Agrees(schema, Apply(schema, before, op), id);
        }
      }
    }

    method InvalidateCache(id: string)
      modifies cache
      ensures table == old(table) && (cache != null ==> cache.data == old(cache.data) - {CacheKey(schema.table, id)})
    {
      if cache != null {
        cache.Remove(CacheKey(schema.table, id));
      }
    }

    method CacheRow(id: string, row: Row, now: int) returns (order: seq<string>)
      modifies cache
      ensures Enumerates(order, row)
      ensures cache != null ==>
        cache.data == old(cache.data)[CacheKey(schema.table, id) := ItemFor(RowText(row, order, 0), 300, now)]
    {
      order := Walk(row);
      if cache != null {
        var text := RowToString(row, order);
        cache.Set(CacheKey(schema.table, id), text, 300, now);
      }
    }

    method StoreRow(id: string, row: Row, shown: Model, now: int) returns (order: seq<string>)
      requires schema.pk in shown
      modifies this, cache
      ensures Enumerates(order, shown) && table == old(table)[id := Record(row, false)]
      ensures cache != null ==>
        var key := CacheKey(schema.table, shown[schema.pk]);
        cache.data == old(cache.data)[key := ItemFor(RowText(shown, order, 0), 300, now)]
    {
      table := table[id := Record(row, false)];
      order := CacheRow(shown[schema.pk], shown, now);
    }

    /** `extra` are the columns the model does not bind, `generated` the id an auto-increment key would get;
        `idRead` tells whether it can be read back. */
    method Insert(model: Model, extra: Row, generated: nat, fails: bool, idRead: bool, now: int)
      returns (ok: bool, after: Model, ghost op: Op)
      requires Sound() && IsModel(schema, model) && PlainNames(extra) && extra.Keys !! schema.fields.Keys
      requires schema.auto ==> generated < TWO_63 && Decimal(generated) !in table
      requires Fits(ModelAfter(schema, Op.Insert(model, extra, generated, fails, idRead, [], now)))
      modifies this, cache
      ensures op.Insert? && op == Op.Insert(model, extra, generated, fails, idRead, op.order, now)
      ensures Enabled(schema, old(Value()), op)
      ensures ok <==> Inserts(schema, old(Value()), op)
      ensures after == if ok then ModelAfter(schema, op) else model
      ensures Now(AfterInsert(schema, old(Value()), op))
      ensures Sound() && (old(Valid()) && Covered(schema, op) ==> Valid())
    {
      ghost var before := Value();
      after := model;
      var values := if schema.auto then model - {schema.pk} else model;
      var id := if schema.auto then Decimal(generated) else model[schema.pk];
      var shown := if schema.auto && idRead then model[schema.pk := Kept(schema.fields[schema.pk].kind, id)] else model;
      ok := values != map[] && !fails && id !in table;
      var order;
      if ok {
        after := shown;
        order := StoreRow(id, extra + model[schema.pk := id], after, now);
      } else {
        order := Walk(shown);
      }
      op := Op.Insert(model, extra, generated, fails, idRead, order, now);
      InsertStored(before, op, ok);
      InsertSettled(before, op);
    }

    lemma InsertStored(before: State, op: Op, ok: bool)
      requires op.Insert? && schema.pk in op.model && schema.pk in schema.fields
      requires AllIn(op.order, ModelAfter(schema, op)) && ok == Inserts(schema, before, op)
      requires table == if ok then before.table[NewId(schema, op) :=
                 Record(op.extra + op.model[schema.pk := NewId(schema, op)], false)] else before.table
      requires cache != null ==> cache.data == if ok then before.cache[
                 CacheKey(schema.table, ModelAfter(schema, op)[schema.pk]) :=
                 ItemFor(RowText(ModelAfter(schema, op), op.order, 0), 300, op.now)] else before.cache
      ensures Now(AfterInsert(schema, before, op))
    {
    }

    lemma InsertSettled(before: State, op: Op)
      requires IsSchema(schema) && TableOk(schema, before) && op.Insert? && IsModel(schema, op.model)
      requires PlainNames(op.extra) && op.extra.Keys !! schema.fields.Keys
      requires schema.auto ==> op.generated < TWO_63 && Decimal(op.generated) !in before.table
      requires Enumerates(op.order, ModelAfter(schema, op)) && Fits(ModelAfter(schema, op))
      requires Now(AfterInsert(schema, before, op))
      ensures Enabled(schema, before, op)
      ensures Sound() && (Inv(schema, before) && Covered(schema, op) ==> Valid())
    {
      InsertEnabled(schema, before, op);
      Settled(before, op);
    }

    method Update(model: Model, valid: bool, fails: bool) returns (ok: bool)
      requires Sound() && IsModel(schema, model)
      modifies this, cache
      ensures ok <==> Updates(schema, Op.Update(model, valid, fails))
      ensures ok <==> Usable(model, schema.pk, valid, fails) && model.Keys != {schema.pk}
      ensures Now(AfterUpdate(schema, old(Value()), Op.Update(model, valid, fails)))
      ensures if ok && model[schema.pk] in old(table)
              then Rewritten(old(table), table, model[schema.pk], model - {schema.pk}) else table == old(table)
      ensures Sound() && (old(Valid()) ==> Valid())
    {
      ghost var op, before := Op.Update(model, valid, fails), Value();
      UpdateEffect(before, op);
      var id := model[schema.pk];
      if !valid || id == "" || id == "0" {
        return false;
      }
      var values := model - {schema.pk};
      if values == map[] {
        return false;
      }
      ok := !fails;
      if ok {
        if id in table {
          table := table[id := table[id].(row := table[id].row + values)];
        }
        InvalidateCache(id);
        Settled(before, op);
      }
    }

    lemma UpdateEffect(before: State, op: Op)
      requires op.Update? && schema.pk in op.model
      ensures Updates(schema, op) <==>
        Usable(op.model, schema.pk, op.valid, op.fails) && op.model.Keys != {schema.pk}
      ensures var after, id := AfterUpdate(schema, before, op).table, op.model[schema.pk];
              if Updates(schema, op) && id in before.table
              then Rewritten(before.table, after, id, op.model - {schema.pk}) else after == before.table
    {
      OtherColumns(op.model, schema.pk);
      if Updates(schema, op) && op.model[schema.pk] in before.table {
        UpdateWrites(schema, before, op);
      }
    }

    method RemoveById(id: string, fails: bool) returns (ok: bool)
      requires Sound()
      modifies this, cache
      ensures ok == !fails
      ensures ok ==> Removed(schema.soft, old(table), table, id)
      ensures Now(AfterRemove(schema, old(Value()), Op.RemoveById(id, fails)))
      ensures Sound() && (old(Valid()) ==> Valid())
    {
      ghost var op, before := Op.RemoveById(id, fails), Value();
      if !fails {
        RemoveWrites(schema, before, op);
      }
      ok := !fails;
      if ok {
        if id in table {
          if schema.soft {
            table := table[id := table[id].(deleted := true)];
          } else {
            table := table - {id};
          }
        }
        InvalidateCache(id);
        Settled(before, op);
      }
    }

    /** With a cache in step the answer is what it would be without one, and `fails` can only turn a miss
        into nothing. */
    method FindById(id: string, fails: bool, now: int) returns (result: Option<Model>, ghost op: Op)
      requires Sound() && (id in table ==> Fits(table[id].row))
      modifies cache
      ensures op.FindById? && op == Op.FindById(id, fails, op.order, now) && Enabled(schema, old(Value()), op)
      ensures result == Found(schema, old(Value()), op)
      ensures old(Valid()) && (result.Some? || !fails) ==> result == Plain(schema, old(Value()), id)
      ensures Now(AfterFind(schema, old(Value()), op))
      ensures Sound() && (old(Valid()) ==> Valid())
    {
      ghost var before := Value();
      HitAgrees(before, id);
      if cache != null {
        var cached := cache.Get(CacheKey(schema.table, id), now);
        if cached.Some? {
          op := FindOp(before, id, fails, now);
          Settled(before, op);
          var reading := RowFromString(cached.value);
          return Some(FromRow(schema, reading.row)), op;
        }
      }
      ghost var order;
      result, order := Query(id, fails, now);
      op := Op.FindById(id, fails, order, now);
      Settled(before, op);
    }

    lemma HitAgrees(before: State, id: string)
      ensures Inv(schema, before) ==> Agrees(schema, before, id)
    {
    }

    ghost method FindOp(before: State, id: string, fails: bool, now: int) returns (op: Op)
      requires IsSchema(schema) && TableOk(schema, before) && (id in before.table ==> Fits(before.table[id].row))
      ensures op.FindById? && op == Op.FindById(id, fails, op.order, now) && Enabled(schema, before, op)
    {
      var order := if id in before.table then SomeOrder(before.table[id].row) else [];
      op := Op.FindById(id, fails, order, now);
    }

    /** The part of findById that asks the database, and caches the row it finds. */
    method Query(id: string, fails: bool, now: int) returns (result: Option<Model>, ghost order: seq<string>)
      requires Sound()
      modifies cache
      ensures Visible(schema, Value(), id) ==> Enumerates(order, table[id].row)
      ensures result == if fails then None else Plain(schema, Value(), id)
      ensures cache != null && result.None? ==> cache.data == old(cache.data)
      ensures cache != null && result.Some? ==>
        cache.data == old(cache.data)[CacheKey(schema.table, id) := ItemFor(RowText(table[id].row, order, 0), 300, now)]
    {
      order := if id in table then SomeOrder(table[id].row) else [];
      if fails || id !in table || (schema.soft && table[id].deleted) {
        return None, order;
      }
      var row := table[id].row;
      order := CacheRow(id, row, now);
      result := Some(FromRow(schema, row));
    }

    /** The compare-and-set on the version column. The cache is left alone, so it may be out of step after. */
    method UpdateWithVersion(model: Model, valid: bool, fails: bool, version: Option<string>)
      returns (ok: bool, after: Model)
      requires Sound() && IsModel(schema, model)
      requires version.Some? ==> version.value in model && version.value != schema.pk
      modifies this, cache
      ensures Sound()
      ensures version.Some? ==>
        var op := Op.UpdateWithVersion(model, valid, fails, version.value);
        && ok == Matches(schema, old(Value()), op) && Value() == AfterVersioned(schema, old(Value()), op)
        && after == if ok then Bumped(op) else model
      ensures version.None? ==>
        var op := Op.Update(model, valid, fails);
        && ok == Updates(schema, op) && Now(AfterUpdate(schema, old(Value()), op))
        && after == model && (old(Valid()) ==> Valid())
    {
      if version.None? {
        ok := Update(model, valid, fails);
        return ok, model;
      }
      ok, after := CompareAndSet(model, valid, fails, version.value);
    }

    /** The update under the condition that the version is still the one in the model. */
    method CompareAndSet(model: Model, valid: bool, fails: bool, version: string) returns (ok: bool, after: Model)
      requires Sound() && IsModel(schema, model) && version in model && version != schema.pk
      modifies this`table
      ensures Sound()
      ensures var op := Op.UpdateWithVersion(model, valid, fails, version);
              && ok == Matches(schema, old(Value()), op) && Value() == AfterVersioned(schema, old(Value()), op)
              && after == if ok then Bumped(op) else model
    {
      ghost var before := Value();
      after := model;
      var id := model[schema.pk];
      if !valid || id == "" || id == "0" {
        return false, model;
      }
      var oldVersion := ParseInt64(model[version]);
      var values := (model - {schema.pk})[version := PrintInt(oldVersion + 1)];
      var affected := !fails && id in table && version in table[id].row
                      && ParseInt64(table[id].row[version]) == oldVersion;
      ok := affected;
      if affected {
        var next := model[version := PrintInt(oldVersion + 1)];
        assert next == Bumped(Op.UpdateWithVersion(model, valid, fails, version));
        assert next - {schema.pk} == values;
        table := table[id := table[id].(row := table[id].row + values)];
        after := next;
        Settled(before, Op.UpdateWithVersion(model, valid, fails, version));
      }
    }

    /** Deleted whatever the soft-delete setting. The cache is left alone here too. */
    method ForceRemoveById(id: string, fails: bool) returns (ok: bool)
      requires Sound()
      modifies this
      ensures ok == !fails
      ensures Value() == AfterForceRemove(old(Value()), Op.ForceRemoveById(id, fails))
      ensures Sound()
    {
      ok := !fails;
      if ok {
        table := table - {id};
      }
    }
  }
}
