/** zero/db/db_repository.h over one table and the cache above it, on values. What the outside decides (a
    statement that fails, the id the database generates, the clock) is part of the operation. */
module RepositoryMachine {
  import opened Bytes
  import opened DbCache
  import opened Models
  import opened Options
  import opened RowCodec

  datatype Record = Record(row: Row, deleted: bool)

  datatype State = State(table: map<string, Record>, cache: Store)

  function CacheKey(table: string, id: string): string {
    "orm:" + table + ":" + id
  }

  lemma CacheKeyInjective(table: string, a: string, b: string)
    requires CacheKey(table, a) == CacheKey(table, b)
    ensures a == b
  {
    var n := |"orm:" + table + ":"|;
    assert CacheKey(table, a)[n..] == a && CacheKey(table, b)[n..] == b;
  }

  /** Two tables can share a key, but only if one of their names contains a colon. */
  lemma TablesApart(t: string, a: string, u: string, b: string)
    requires CacheKey(t, a) == CacheKey(u, b) && |t| <= |u|
    ensures t == u || ':' in u
  {
    var s := CacheKey(t, a);
    assert s[4..4 + |t|] == t && s[4 + |t|] == ':';
    assert s[4..4 + |u|] == u;
    if |t| < |u| {
      assert s[4..4 + |u|][|t|] == ':';
    }
  }

  lemma TablesCollide()
    ensures CacheKey("a", "b:c") == CacheKey("a:b", "c")
  {
    assert CacheKey("a", "b:c") == "orm:a:b:c";
  }

  /** The operations of the repository; `order` is the order in which a row is walked to be cached. */
  datatype Op =
    | Insert(model: Model, extra: Row, generated: nat, fails: bool, idRead: bool, order: seq<string>, now: int)
    | Update(model: Model, valid: bool, fails: bool)
    | RemoveById(id: string, fails: bool)
    | InvalidateCache(id: string)
    | FindById(id: string, fails: bool, order: seq<string>, now: int)
    | UpdateWithVersion(model: Model, valid: bool, fails: bool, version: string)
    | ForceRemoveById(id: string, fails: bool)

  predicate IsNew(c: Schema, m: Model)
    requires c.pk in m
  {
    m[c.pk] == "" || m[c.pk] == "0"
  }

  predicate Visible(c: Schema, s: State, id: string) {
    id in s.table && !(c.soft && s.table[id].deleted)
  }

  /** The text of a row fits a std::string. */
  ghost predicate Cacheable(row: Row, order: seq<string>) {
    Enumerates(order, row) && PlainNames(row) && |RowText(row, order, 0)| < TWO_64
  }

  // ---------------------------------------------------------------- insert

  function NewId(c: Schema, op: Op): string
    requires op.Insert? && c.pk in op.model
  {
    if c.auto then Decimal(op.generated) else op.model[c.pk]
  }

  /** The INSERT takes effect: something to insert, no failure, no row with that primary key. */
  predicate Inserts(c: Schema, s: State, op: Op)
    requires op.Insert? && c.pk in op.model
  {
    (c.auto ==> op.model - {c.pk} != map[]) && !op.fails && NewId(c, op) !in s.table
  }

  /** The model afterwards: its primary key is set when the generated id could be read back. */
  function ModelAfter(c: Schema, op: Op): Model
    requires op.Insert? && c.pk in op.model && c.pk in c.fields
  {
    if c.auto && op.idRead then op.model[c.pk := Kept(c.fields[c.pk].kind, NewId(c, op))] else op.model
  }

  // ---------------------------------------------------------------- find

  /** findById without a cache: the visible row, loaded. */
  function Plain(c: Schema, s: State, id: string): Option<Model> {
    if Visible(c, s, id) then Some(FromRow(c, s.table[id].row)) else None
  }

  function Found(c: Schema, s: State, op: Op): Option<Model>
    requires op.FindById?
  {
    var hit := Lookup(s.cache, CacheKey(c.table, op.id), op.now);
    if hit.Some? then Some(FromRow(c, ReadFrom(hit.value, 0, map[]).row))
    else if op.fails then None
    else Plain(c, s, op.id)
  }

  predicate Fills(c: Schema, s: State, op: Op)
    requires op.FindById?
  {
    Lookup(s.cache, CacheKey(c.table, op.id), op.now).None? && !op.fails && Visible(c, s, op.id)
  }

  // ---------------------------------------------------------------- updates

  /** UPDATE ... SET every bound column but the primary key. */
  function Written(c: Schema, row: Row, m: Model): Row {
    row + (m - {c.pk})
  }

  predicate Updates(c: Schema, op: Op)
    requires (op.Update? || op.UpdateWithVersion?) && c.pk in op.model
  {
    op.valid && !IsNew(c, op.model) && !op.fails && (op.Update? ==> op.model - {c.pk} != map[])
  }

  /** What the compare-and-set of updateWithVersion writes: the model with its version one higher. */
  function Bumped(op: Op): Model
    requires op.UpdateWithVersion? && op.version in op.model
  {
    op.model[op.version := PrintInt(ParseInt64(op.model[op.version]) + 1)]
  }

  predicate Matches(c: Schema, s: State, op: Op)
    requires op.UpdateWithVersion? && c.pk in op.model && op.version in op.model
  {
    var id := op.model[c.pk];
    && Updates(c, op) && id in s.table && op.version in s.table[id].row
    && ParseInt64(s.table[id].row[op.version]) == ParseInt64(op.model[op.version])
  }

  // ---------------------------------------------------------------- steps

  ghost predicate Enabled(c: Schema, s: State, op: Op) {
    && IsSchema(c)
    && match op
       case Insert(m, extra, generated, _, _, order, _) =>
         && IsModel(c, m) && PlainNames(extra) && extra.Keys !! c.fields.Keys
         && (c.auto ==> generated < TWO_63 && Decimal(generated) !in s.table)
         && Cacheable(ModelAfter(c, op), order)
       case Update(m, _, _) => IsModel(c, m)
       case UpdateWithVersion(m, _, _, version) => IsModel(c, m) && version in m && version != c.pk
       case FindById(id, _, order, _) => Visible(c, s, id) ==> Cacheable(s.table[id].row, order)
       case _ => true
  }

  function AfterInsert(c: Schema, s: State, op: Op): State
    requires op.Insert? && c.pk in op.model && c.pk in c.fields && AllIn(op.order, ModelAfter(c, op))
  {
    if !Inserts(c, s, op) then s
    else
      var id := NewId(c, op);
      var m := ModelAfter(c, op);
      State(s.table[id := Record(op.extra + op.model[c.pk := id], false)],
            s.cache[CacheKey(c.table, m[c.pk]) := ItemFor(RowText(m, op.order, 0), 300, op.now)])
  }

  function AfterUpdate(c: Schema, s: State, op: Op): State
    requires op.Update? && c.pk in op.model
  {
    if !Updates(c, op) then s
    else
      var id := op.model[c.pk];
      var table := if id in s.table then s.table[id := s.table[id].(row := Written(c, s.table[id].row, op.model))]
                   else s.table;
      State(table, s.cache - {CacheKey(c.table, id)})
  }

  function AfterRemove(c: Schema, s: State, op: Op): State
    requires op.RemoveById?
  {
    if op.fails then s
    else
      var table := if op.id !in s.table then s.table
                   else if c.soft then s.table[op.id := s.table[op.id].(deleted := true)]
                   else s.table - {op.id};
      State(table, s.cache - {CacheKey(c.table, op.id)})
  }

  function AfterFind(c: Schema, s: State, op: Op): State
    requires op.FindById? && (Visible(c, s, op.id) ==> AllIn(op.order, s.table[op.id].row))
  {
    var key := CacheKey(c.table, op.id);
    var cache := AfterGet(s.cache, key, op.now);
    s.(cache := if Fills(c, s, op) then cache[key := ItemFor(RowText(s.table[op.id].row, op.order, 0), 300, op.now)]
                else cache)
  }

  /** The cache is not touched by the last two. */
  function AfterVersioned(c: Schema, s: State, op: Op): State
    requires op.UpdateWithVersion? && c.pk in op.model && op.version in op.model
  {
    if !Matches(c, s, op) then s
    else
      var id := op.model[c.pk];
      s.(table := s.table[id := s.table[id].(row := Written(c, s.table[id].row, Bumped(op)))])
  }

  function AfterForceRemove(s: State, op: Op): State
    requires op.ForceRemoveById?
  {
    if op.fails then s else s.(table := s.table - {op.id})
  }

  ghost function Apply(c: Schema, s: State, op: Op): State
    requires Enabled(c, s, op)
  {
    match op
    case Insert(_, _, _, _, _, _, _) => AfterInsert(c, s, op)
    case Update(_, _, _) => AfterUpdate(c, s, op)
    case RemoveById(_, _) => AfterRemove(c, s, op)
    case InvalidateCache(id) => s.(cache := s.cache - {CacheKey(c.table, id)})
    case FindById(_, _, _, _) => AfterFind(c, s, op)
    case UpdateWithVersion(_, _, _, _) => AfterVersioned(c, s, op)
    case ForceRemoveById(_, _) => AfterForceRemove(s, op)
  }

  // ---------------------------------------------------------------- coherence

  /** What is cached for `id`, expired or not, loads as the visible row does. */
  ghost predicate Agrees(c: Schema, s: State, id: string) {
    CacheKey(c.table, id) in s.cache ==>
      Visible(c, s, id)
      && FromRow(c, ReadFrom(s.cache[CacheKey(c.table, id)].value, 0, map[]).row) == FromRow(c, s.table[id].row)
  }

  ghost predicate Coherent(c: Schema, s: State) {
    forall id: string :: Agrees(c, s, id)
  }

  predicate TableOk(c: Schema, s: State) {
    forall id <- s.table ::
      PlainNames(s.table[id].row) && c.fields.Keys <= s.table[id].row.Keys
      && c.pk in s.table[id].row && s.table[id].row[c.pk] == id
  }

  ghost predicate Inv(c: Schema, s: State) {
    IsSchema(c) && TableOk(c, s) && Coherent(c, s)
  }

  /** The operations that keep the cache in step: all but the last two, and an insert only if the generated
      id could be read back. */
  predicate Covered(c: Schema, op: Op) {
    match op
    case Insert(_, _, _, _, idRead, _, _) => c.auto ==> idRead
    case UpdateWithVersion(_, _, _, _) => false
    case ForceRemoveById(_, _) => false
    case _ => true
  }

  lemma OtherKey(c: Schema, a: string, b: string)
    ensures CacheKey(c.table, a) == CacheKey(c.table, b) ==> a == b
  {
    if CacheKey(c.table, a) == CacheKey(c.table, b) {
      CacheKeyInjective(c.table, a, b);
    }
  }

  lemma CachedRowReads(row: Row, order: seq<string>)
    requires Cacheable(row, order)
    ensures ReadFrom(RowText(row, order, 0), 0, map[]).row == row
  {
    RowRoundTrip(row, order);
  }

  lemma InsertedModel(c: Schema, op: Op)
    requires IsSchema(c) && op.Insert? && IsModel(c, op.model) && Covered(c, op) && (c.auto ==> op.generated < TWO_63)
    ensures ModelAfter(c, op) == op.model[c.pk := NewId(c, op)]
  {
    if c.auto {
      GeneratedId(c.fields[c.pk].kind, op.generated);
    }
  }

  lemma ExtraColumnsIgnored(c: Schema, extra: Row, m: Model)
    requires m.Keys == c.fields.Keys
    ensures FromRow(c, extra + m) == FromRow(c, m)
  {
  }

  lemma InsertAgrees(c: Schema, s: State, op: Op, id: string)
    requires Inv(c, s) && op.Insert? && Enabled(c, s, op) && Covered(c, op)
    ensures Agrees(c, AfterInsert(c, s, op), id)
  {
    assert Agrees(c, s, id);
    InsertedModel(c, op);
    var m := ModelAfter(c, op);
    OtherKey(c, id, m[c.pk]);
    CachedRowReads(m, op.order);
    ExtraColumnsIgnored(c, op.extra, m);
  }

  lemma FindAgreesAfter(c: Schema, s: State, op: Op, id: string)
    requires Inv(c, s) && op.FindById? && Enabled(c, s, op)
    ensures Agrees(c, AfterFind(c, s, op), id)
  {
    assert Agrees(c, s, id);
    OtherKey(c, id, op.id);
    if Visible(c, s, op.id) {
      CachedRowReads(s.table[op.id].row, op.order);
    }
  }

  lemma WriteAgrees(c: Schema, s: State, op: Op, id: string)
    requires Inv(c, s) && (op.Update? || op.RemoveById? || op.InvalidateCache?) && Enabled(c, s, op)
    ensures Agrees(c, Apply(c, s, op), id)
  {
    assert Agrees(c, s, id);
    OtherKey(c, id, if op.Update? then op.model[c.pk] else op.id);
  }

  lemma TableKept(c: Schema, s: State, op: Op)
    requires IsSchema(c) && TableOk(c, s) && Enabled(c, s, op)
    ensures TableOk(c, Apply(c, s, op))
  {
  }

  lemma CoherenceKept(c: Schema, s: State, op: Op)
    requires Inv(c, s) && Enabled(c, s, op) && Covered(c, op)
    ensures Inv(c, Apply(c, s, op))
  {
    TableKept(c, s, op);
    forall id: string
      ensures Agrees(c, Apply(c, s, op), id)
    {
      if op.Insert? {
        InsertAgrees(c, s, op, id);
      } else if op.FindById? {
        FindAgreesAfter(c, s, op, id);
      } else {
        WriteAgrees(c, s, op, id);
      }
    }
  }

  datatype Run = End | Then(op: Op, rest: Run)

  ghost predicate Possible(c: Schema, s: State, r: Run)
    decreases r
  {
    r.Then? ==> Enabled(c, s, r.op) && Possible(c, Apply(c, s, r.op), r.rest)
  }

  ghost function Final(c: Schema, s: State, r: Run): State
    requires Possible(c, s, r)
    decreases r
  {
    if r.End? then s else Final(c, Apply(c, s, r.op), r.rest)
  }

  predicate AllCovered(c: Schema, r: Run) {
    r.Then? ==> Covered(c, r.op) && AllCovered(c, r.rest)
  }

  lemma {:induction false} RunInv(c: Schema, s: State, r: Run)
    requires Inv(c, s) && Possible(c, s, r) && AllCovered(c, r)
    ensures Inv(c, Final(c, s, r))
    decreases r
  {
    if r.Then? {
      CoherenceKept(c, s, r.op);
      RunInv(c, Apply(c, s, r.op), r.rest);
    }
  }

  /** After any run from an empty cache, findById answers what it would answer without a cache: a hit is the
      visible row, a miss asks the database. */
  lemma CacheIsTransparent(c: Schema, table: map<string, Record>, r: Run, find: Op)
    requires IsSchema(c) && TableOk(c, State(table, map[]))
    requires Possible(c, State(table, map[]), r) && AllCovered(c, r) && find.FindById?
    ensures var s := Final(c, State(table, map[]), r);
            && (!find.fails ==> Found(c, s, find) == Plain(c, s, find.id))
            && (Found(c, s, find).Some? ==> Found(c, s, find) == Plain(c, s, find.id))
  {
    var s := Final(c, State(table, map[]), r);
    RunInv(c, State(table, map[]), r);
    assert Agrees(c, s, find.id);
  }

  // ---------------------------------------------------------------- the operations left out

  /** forceRemoveById leaves the cache as it is: it keeps it in step exactly when nothing was cached. */
  lemma ForceRemoveCoherent(c: Schema, s: State, op: Op)
    requires Inv(c, s) && op.ForceRemoveById?
    ensures Coherent(c, AfterForceRemove(s, op)) <==> op.fails || CacheKey(c.table, op.id) !in s.cache
  {
    var after := AfterForceRemove(s, op);
    if op.fails || CacheKey(c.table, op.id) !in s.cache {
      forall id: string
        ensures Agrees(c, after, id)
      {
        assert Agrees(c, s, id);
        OtherKey(c, id, op.id);
      }
    } else {
      assert !Agrees(c, after, op.id);
    }
  }

  lemma VersionMoves(c: Schema, row: Row, op: Op)
    requires op.UpdateWithVersion? && op.version in op.model && op.version != c.pk
    requires op.version in c.fields && c.fields[op.version].kind.Integer?
    requires op.version in row && ParseInt64(row[op.version]) == ParseInt64(op.model[op.version])
    requires ParseInt64(op.model[op.version]) + 1 < TWO_63
    ensures FromRow(c, Written(c, row, Bumped(op)))[op.version] != FromRow(c, row)[op.version]
  {
    var was := ParseInt64(op.model[op.version]);
    PrintParseInt(was);
    PrintParseInt(was + 1);
  }

  /** A successful updateWithVersion keeps the cache in step exactly when nothing was cached for the row. */
  lemma VersionedCoherent(c: Schema, s: State, op: Op)
    requires Inv(c, s) && op.UpdateWithVersion? && Enabled(c, s, op)
    requires c.fields[op.version].kind.Integer? && ParseInt64(op.model[op.version]) + 1 < TWO_63
    ensures Coherent(c, AfterVersioned(c, s, op))
            <==> !Matches(c, s, op) || CacheKey(c.table, op.model[c.pk]) !in s.cache
  {
    var after, key := AfterVersioned(c, s, op), op.model[c.pk];
    if !Matches(c, s, op) || CacheKey(c.table, key) !in s.cache {
      forall id: string
        ensures Agrees(c, after, id)
      {
        assert Agrees(c, s, id);
        OtherKey(c, id, key);
      }
    } else {
      assert Agrees(c, s, key);
      VersionMoves(c, s.table[key].row, op);
      assert !Agrees(c, after, key);
    }
  }

  lemma GeneratedIsNotNew(n: nat)
    requires n > 0
    ensures Decimal(n) != "" && Decimal(n) != "0"
  {
    if n < 10 {
      assert Decimal(n)[0] == Digit(n) != '0';
    } else {
      assert |Decimal(n)| >= 2;
    }
  }

  /** Inserting a new model under a generated id keeps the cache in step exactly when that id could be read
      back; otherwise the row is cached under the id "" or "0", where there is no row. */
  lemma InsertCoherent(c: Schema, s: State, op: Op)
    requires Inv(c, s) && op.Insert? && Enabled(c, s, op) && c.auto && op.generated > 0
    requires IsNew(c, op.model) && op.model[c.pk] !in s.table
    ensures Coherent(c, AfterInsert(c, s, op)) <==> op.idRead || !Inserts(c, s, op)
  {
    if op.idRead {
      CoherenceKept(c, s, op);
    } else if Inserts(c, s, op) {
      GeneratedIsNotNew(op.generated);
      assert !Agrees(c, AfterInsert(c, s, op), op.model[c.pk]);
    }
  }
}
