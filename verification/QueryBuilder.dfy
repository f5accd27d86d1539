/** zero/db/db_query.cc: DbQuery, whose calls collect clauses and whose build methods write SQL and values. */
module QueryBuilder {
  import opened Identifiers
  import opened QueryClauses
  import opened SqlText

  /** The ostringstream and the parameter vector that the build methods append to. */
  class Sink {
    var sql: string
    var params: seq<Value>

    function Contents(): Out
      reads this
    {
      Out(sql, params)
    }

    constructor ()
      ensures Contents() == EMPTY
    {
      sql, params := "", [];
    }

    method Put(word: Plain)
      modifies this
      ensures Contents() == Append(old(Contents()), Word(word))
    {
      sql := sql + word;
    }

    method PutWord(d: Doc)
      requires d.Word?
      modifies this
      ensures Contents() == Append(old(Contents()), d)
    {
      sql := sql + d.word;
    }

    method PutSql(text: string)
      modifies this
      ensures Contents() == Append(old(Contents()), Sql(text))
    {
      sql := sql + text;
    }

    method PutName(column: string)
      modifies this
      ensures Contents() == Append(old(Contents()), Name(column))
    {
      var escaped := EscapeColumn(column);
      sql := sql + escaped;
    }

    method Bind(value: Value)
      modifies this
      ensures Contents() == Append(old(Contents()), Bound(value))
    {
      sql := sql + "?";
      params := params + [value];
    }

    method PutRaw(w: WhereClause)
      modifies this
      ensures Contents() == Append(old(Contents()), RawClause(w))
    {
      sql := sql + "(" + w.raw + ")";
      params := params + w.rawParams;
    }

    method Separate(i: nat)
      modifies this
      ensures Contents() == Append(old(Contents()), Separator(i))
    {
      if i > 0 {
        Put(", ");
      }
    }

    method PutLink(w: WhereClause, i: nat)
      modifies this
      ensures Contents() == Append(old(Contents()), Link(w, i))
    {
      if i > 0 {
        Put(" ");
        Put(if w.conjunction == "" then "AND" else w.conjunction);
        Put(" ");
      }
    }

    method PutColumns(columns: seq<string>)
      modifies this
      ensures Contents() == Append(old(Contents()), ColumnList(columns, |columns|))
    {
      for i := 0 to |columns|
        invariant Contents() == Append(old(Contents()), ColumnList(columns, i))
      {
        Separate(i);
        PutName(columns[i]);
      }
    }

    method BindAll(values: seq<Value>)
      modifies this
      ensures Contents() == Append(old(Contents()), ValueList(values, |values|))
    {
      for i := 0 to |values|
        invariant Contents() == Append(old(Contents()), ValueList(values, i))
      {
        Separate(i);
        Bind(values[i]);
      }
    }

    method PutListed(values: seq<Value>)
      modifies this
      ensures Contents() == Append(old(Contents()), Listed(values))
    {
      Put("(");
      BindAll(values);
      Put(")");
    }

    method PutAssign(column: string, value: Value)
      modifies this
      ensures Contents() == Append(old(Contents()), AssignDoc(column, value))
    {
      PutName(column);
      PutWord(ASSIGN);
      Bind(value);
    }

    method PutUpsert(column: string)
      modifies this
      ensures Contents() == Append(old(Contents()), UpsertItem(column))
    {
      PutName(column);
      Put(" = VALUES(");
      PutName(column);
      Put(")");
    }

    method PutOrder(o: OrderByClause)
      modifies this
      ensures Contents() == Append(old(Contents()), OrderDocOf(o))
    {
      PutSql(o.column);
      Put(if o.asc then " ASC" else " DESC");
    }
  }

  class DbQuery {
    var table: string
    var columns: seq<string>
    var wheres: seq<WhereClause>
    var havings: seq<WhereClause>
    var joins: seq<Join>
    var orders: seq<OrderByClause>
    var groups: seq<string>
    var limit: nat
    var offset: nat
    var lock: LockMode

    function Clauses(): Query
      reads this
    {
      Query(table, columns, wheres, havings, joins, orders, groups, limit, offset, lock)
    }

    constructor (table: string)
      ensures Clauses() == NewQuery(table)
    {
      this.table, columns, wheres, havings, joins, orders, groups := table, [], [], [], [], [], [];
      limit, offset, lock := 0, 0, NoLock;
    }

    // -------------------------------------------------------------- builder calls

    method SetTable(t: string)
      modifies this
      ensures Clauses() == Apply(old(Clauses()), Call.Table(t))
    {
      table := t;
    }

    method Select(names: seq<string>)
      modifies this
      ensures Clauses() == Apply(old(Clauses()), Call.Select(names))
    {
      columns := names;
    }

    method AddClause(column: string, op: SqlOp, value: Value, values: seq<Value>, conjunction: Plain)
      modifies this
      ensures Clauses() == AddWhere(old(Clauses()), column, op, value, values, conjunction)
    {
      var linked: Plain := if wheres == [] then "" else conjunction;
      wheres := wheres + [WhereClause(column, op, value, values, "", [], linked)];
    }

    method AndWhere(column: string, op: string, value: Value)
      modifies this
      ensures Clauses() == Apply(old(Clauses()), Call.Where(column, op, value, "AND"))
    {
      AddClause(column, ParseOp(op), value, [], "AND");
    }

    method OrWhere(column: string, op: string, value: Value)
      modifies this
      ensures Clauses() == Apply(old(Clauses()), Call.Where(column, op, value, "OR"))
    {
      AddClause(column, ParseOp(op), value, [], "OR");
    }

    method WhereNull(column: string, negated: bool)
      modifies this
      ensures Clauses() == Apply(old(Clauses()), Call.WhereNull(column, negated))
    {
      AddClause(column, if negated then IS_NOT_NULL else IS_NULL, Null, [], "AND");
    }

    method WhereIn(column: string, values: seq<Value>, negated: bool)
      modifies this
      ensures Clauses() == Apply(old(Clauses()), Call.WhereIn(column, values, negated))
    {
      AddClause(column, if negated then NOT_IN else IN, Null, values, "AND");
    }

    method AddWhereRaw(raw: string, params: seq<Value>, conjunction: Plain)
      modifies this
      ensures Clauses() == Apply(old(Clauses()), Call.WhereRaw(raw, params, conjunction))
    {
      PushRaw(raw, params, conjunction);
    }

    method PushRaw(raw: string, params: seq<Value>, conjunction: Plain)
      modifies this`wheres
      ensures wheres == AddRaw(old(wheres), raw, params, conjunction)
    {
      var linked: Plain := if wheres == [] then "" else conjunction;
      wheres := wheres + [WhereClause("", RAW, Null, [], raw, params, linked)];
    }

    method WhereBetween(column: string, lo: Value, hi: Value)
      modifies this
      ensures Clauses() == Apply(old(Clauses()), Call.WhereBetween(column, lo, hi))
    {
      var raw := Between(column);
      PushRaw(raw, [lo, hi], "AND");
    }

    method Between(column: string) returns (raw: string)
      ensures raw == BetweenText(column)
    {
      var name := EscapeColumn(column);
      raw := name + BETWEEN;
    }

    method AddHaving(raw: string, params: seq<Value>, conjunction: Plain)
      modifies this
      ensures Clauses() == Apply(old(Clauses()), Call.Having(raw, params, conjunction))
    {
      var linked: Plain := if havings == [] then "" else conjunction;
      havings := havings + [WhereClause("", RAW, Null, [], raw, params, linked)];
    }

    method OrderBy(column: string, asc: bool)
      modifies this
      ensures Clauses() == Apply(old(Clauses()), Call.OrderBy(column, asc))
    {
      var name := EscapeColumn(column);
      orders := orders + [OrderByClause(name, asc)];
    }

    method GroupBy(column: string)
      modifies this
      ensures Clauses() == Apply(old(Clauses()), Call.GroupBy(column))
    {
      var name := EscapeColumn(column);
      groups := groups + [name];
    }

    method SetLimit(n: nat)
      modifies this
      ensures Clauses() == Apply(old(Clauses()), Call.Limit(n))
    {
      limit := n;
    }

    method SetOffset(n: nat)
      modifies this
      ensures Clauses() == Apply(old(Clauses()), Call.Offset(n))
    {
      offset := n;
    }

    method AddJoin(kind: Plain, other: string, on: string)
      modifies this
      ensures Clauses() == Apply(old(Clauses()), Call.AddJoin(kind, other, on))
    {
      var name := EscapeColumn(other);
      joins := joins + [Join(kind, name + " ON " + on)];
    }

    method SetLock(mode: LockMode)
      modifies this
      ensures Clauses() == Apply(old(Clauses()), Call.Lock(mode))
    {
      lock := mode;
    }

    // -------------------------------------------------------------- parts of a statement

    method BuildClause(out: Sink, w: WhereClause)
      modifies out
      ensures out.Contents() == Append(old(out.Contents()), ClauseDoc(w))
    {
      match w.op
      case RAW => out.PutRaw(w);
      case IS_NULL =>
        out.PutName(w.column);
        out.Put(" IS NULL");
      case IS_NOT_NULL =>
        out.PutName(w.column);
        out.Put(" IS NOT NULL");
      case IN => BuildIn(out, w);
      case NOT_IN => BuildIn(out, w);
      case _ =>
        BuildOp(out, w);
        out.Bind(w.value);
    }

    method BuildOp(out: Sink, w: WhereClause)
      modifies out
      ensures out.Contents() == Append(old(out.Contents()), OpWord(w))
    {
      out.PutName(w.column);
      out.Put(" ");
      out.Put(OpToString(w.op));
      out.Put(" ");
    }

    method BuildIn(out: Sink, w: WhereClause)
      modifies out
      ensures out.Contents() == Append(old(out.Contents()), InDoc(w))
    {
      BuildOp(out, w);
      out.PutListed(w.values);
    }

    method BuildWhere(out: Sink)
      modifies out
      ensures out.Contents() == Append(old(out.Contents()), WhereDoc(Clauses()))
    {
      if wheres == [] {
        return;
      }
      out.Put(" WHERE ");
      BuildWheres(out, wheres);
    }

    method BuildLinked(out: Sink, w: WhereClause, i: nat)
      modifies out
      ensures out.Contents() == Append(old(out.Contents()), LinkedDoc(w, i))
    {
      out.PutLink(w, i);
      BuildClause(out, w);
    }

    method BuildWheres(out: Sink, clauses: seq<WhereClause>)
      modifies out
      ensures out.Contents() == Append(old(out.Contents()), WhereList(clauses, |clauses|))
    {
      for i := 0 to |clauses|
        invariant out.Contents() == Append(old(out.Contents()), WhereList(clauses, i))
      {
        BuildLinked(out, clauses[i], i);
      }
    }

    method BuildGroupBy(out: Sink)
      modifies out
      ensures out.Contents() == Append(old(out.Contents()), GroupDoc(Clauses()))
    {
      if groups == [] {
        return;
      }
      var names := groups;
      out.PutWord(GROUP_BY);
      ghost var start := out.Contents();
      for i := 0 to |names|
        invariant out.Contents() == Append(start, TextList(names, i))
      {
        out.Separate(i);
        out.PutSql(names[i]);
      }
      BuildHaving(out);
    }

    method BuildHaving(out: Sink)
      modifies out
      ensures out.Contents() == Append(old(out.Contents()), HavingDoc(Clauses()))
    {
      if havings == [] {
        return;
      }
      var clauses := havings;
      out.Put(" HAVING ");
      ghost var start := out.Contents();
      for i := 0 to |clauses|
        invariant out.Contents() == Append(start, HavingList(clauses, i))
      {
        out.PutLink(clauses[i], i);
        out.PutRaw(clauses[i]);
      }
    }

    method BuildOrderBy(out: Sink)
      modifies out
      ensures out.Contents() == Append(old(out.Contents()), OrderDoc(Clauses()))
    {
      if orders == [] {
        return;
      }
      var items := orders;
      out.PutWord(ORDER_BY);
      ghost var start := out.Contents();
      for i := 0 to |items|
        invariant out.Contents() == Append(start, OrderList(items, i))
      {
        out.Separate(i);
        out.PutOrder(items[i]);
      }
    }

    method BuildLimitOffset(out: Sink)
      modifies out
      ensures out.Contents() == Append(old(out.Contents()), LimitDoc(Clauses()))
    {
      if limit > 0 {
        out.Put(" LIMIT ");
        out.Put(Number(limit));
      }
      if offset > 0 {
        out.Put(" OFFSET ");
        out.Put(Number(offset));
      }
    }

    method BuildJoins(out: Sink)
      modifies out
      ensures out.Contents() == Append(old(out.Contents()), JoinList(joins, |joins|))
    {
      var items := joins;
      ghost var start := out.Contents();
      for i := 0 to |items|
        invariant out.Contents() == Append(start, JoinList(items, i))
      {
        out.Put(" ");
        out.Put(items[i].kind);
        out.Put(" ");
        out.PutSql(items[i].sql);
      }
    }

    method BuildLock(out: Sink)
      modifies out
      ensures out.Contents() == Append(old(out.Contents()), LockDoc(Clauses()))
    {
      if lock == ForUpdate {
        out.PutWord(FOR_UPDATE);
      } else if lock == LockInShareMode {
        out.PutWord(SHARE_MODE);
      }
    }

    // -------------------------------------------------------------- statements

    method BuildSelectHead(out: Sink)
      modifies out
      ensures out.Contents() == Append(old(out.Contents()), SelectHead(Clauses()))
    {
      out.Put("SELECT ");
      if columns == [] {
        out.Put("*");
      } else {
        out.PutColumns(columns);
      }
      out.Put(" FROM ");
      out.PutName(table);
    }

    method BuildSelectFront(out: Sink)
      modifies out
      ensures out.Contents() == Append(old(out.Contents()), SelectFront(Clauses()))
    {
      BuildSelectHead(out);
      BuildJoins(out);
      BuildWhere(out);
      BuildGroupBy(out);
    }

    method BuildSelect() returns (out: Sink)
      ensures fresh(out) && out.Contents() == Append(EMPTY, SelectDoc(Clauses()))
    {
      out := new Sink();
      BuildSelectFront(out);
      BuildOrderBy(out);
      BuildLimitOffset(out);
      BuildLock(out);
    }

    method BuildCount(column: string) returns (out: Sink)
      ensures fresh(out) && out.Contents() == Append(EMPTY, CountDoc(Clauses(), column))
    {
      out := new Sink();
      BuildCountHead(out, column);
      BuildJoins(out);
      BuildWhere(out);
    }

    method BuildCountHead(out: Sink, column: string)
      modifies out
      ensures out.Contents() == Append(old(out.Contents()), CountHead(Clauses(), column))
    {
      out.PutWord(SELECT_COUNT);
      out.PutName(column);
      out.PutWord(AS_COUNT_FROM);
      out.PutName(table);
    }

    method BuildInsertHead(out: Sink, names: seq<string>)
      modifies out
      ensures out.Contents() == Append(old(out.Contents()), InsertHead(table, names))
    {
      BuildInsertInto(out);
      out.PutColumns(names);
    }

    method BuildInsertInto(out: Sink)
      modifies out
      ensures out.Contents() == Append(old(out.Contents()), InsertInto(table))
    {
      out.PutWord(INSERT_INTO);
      out.PutName(table);
      out.Put(" (");
    }

    /** `order` is the order in which the map of values is walked. */
    method BuildInsert(values: Values, order: seq<string>) returns (out: Sink)
      requires AllKeys(order, values)
      ensures fresh(out) && out.Contents() == Append(EMPTY, InsertDoc(Clauses(), values, order))
    {
      out := new Sink();
      BuildInsertOpen(out, order);
      out.BindAll(InOrder(values, order));
      out.Put(")");
    }

    method BuildInsertOpen(out: Sink, names: seq<string>)
      modifies out
      ensures out.Contents() == Append(old(out.Contents()), InsertOpen(table, names))
    {
      BuildInsertHead(out, names);
      out.PutWord(VALUES_OPEN);
    }

    method BuildInsertIgnore(values: Values, order: seq<string>) returns (out: Sink)
      requires AllKeys(order, values)
      ensures fresh(out) && out.Contents() == Append(EMPTY, InsertIgnoreDoc(Clauses(), values, order))
    {
      out := BuildInsert(values, order);
      out.PutWord(IGNORE_DUPLICATE);
    }

    method BuildUpsert(values: Values, order: seq<string>, updates: seq<string>) returns (out: Sink)
      requires AllKeys(order, values)
      ensures fresh(out) && out.Contents() == Append(EMPTY, UpsertDoc(Clauses(), values, order, updates))
    {
      out := BuildInsert(values, order);
      BuildUpserts(out, if updates == [] then order else updates);
    }

    method BuildUpserts(out: Sink, names: seq<string>)
      modifies out
      ensures out.Contents() == Append(old(out.Contents()), UpsertTail(names))
    {
      out.PutWord(ON_DUPLICATE);
      BuildUpsertList(out, names);
    }

    method BuildUpsertList(out: Sink, names: seq<string>)
      modifies out
      ensures out.Contents() == Append(old(out.Contents()), UpsertList(names, |names|))
    {
      for i := 0 to |names|
        invariant out.Contents() == Append(old(out.Contents()), UpsertList(names, i))
      {
        out.Separate(i);
        out.PutUpsert(names[i]);
      }
    }

    method BuildRow(out: Sink, row: Values, names: seq<string>)
      modifies out
      ensures out.Contents() == Append(old(out.Contents()), RowDoc(row, names))
    {
      out.Put("(");
      ghost var start, list := out.Contents(), RowValues(row, names);
      for i := 0 to |names|
        invariant out.Contents() == Append(start, ValueList(list, i))
      {
        out.Separate(i);
        out.Bind(if names[i] in row then row[names[i]] else Null);
      }
      out.Put(")");
    }

    /** `order` is the order in which the first row is walked. */
    method BuildInsertBatch(rows: seq<Values>, order: seq<string>) returns (out: Sink)
      ensures fresh(out) && out.Contents() == Append(EMPTY, BatchDoc(Clauses(), rows, order))
    {
      out := new Sink();
      if rows == [] {
        return;
      }
      BuildBatchHead(out, order);
      BuildRows(out, rows, order);
    }

    method BuildBatchHead(out: Sink, names: seq<string>)
      modifies out
      ensures out.Contents() == Append(old(out.Contents()), BatchHead(table, names))
    {
      BuildInsertHead(out, names);
      out.PutWord(VALUES);
    }

    method BuildRows(out: Sink, rows: seq<Values>, names: seq<string>)
      modifies out
      ensures out.Contents() == Append(old(out.Contents()), RowList(rows, names, |rows|))
    {
      for r := 0 to |rows|
        invariant out.Contents() == Append(old(out.Contents()), RowList(rows, names, r))
      {
        out.Separate(r);
        BuildRow(out, rows[r], names);
      }
    }

    method BuildAssignments(out: Sink, values: Values, order: seq<string>)
      requires AllKeys(order, values)
      modifies out
      ensures out.Contents() == Append(old(out.Contents()), AssignList(order, values, |order|))
    {
      for i := 0 to |order|
        invariant out.Contents() == Append(old(out.Contents()), AssignList(order, values, i))
      {
        out.Separate(i);
        out.PutAssign(order[i], values[order[i]]);
      }
    }

    method BuildUpdate(values: Values, order: seq<string>) returns (out: Sink)
      requires AllKeys(order, values)
      ensures fresh(out) && out.Contents() == Append(EMPTY, UpdateDoc(Clauses(), values, order))
    {
      out := new Sink();
      BuildUpdateHead(out, values, order);
      BuildWhere(out);
      BuildLimitOffset(out);
    }

    method BuildUpdateHead(out: Sink, values: Values, order: seq<string>)
      requires AllKeys(order, values)
      modifies out
      ensures out.Contents() == Append(old(out.Contents()), UpdateHead(table, values, order))
    {
      BuildUpdateSet(out);
      BuildAssignments(out, values, order);
    }

    method BuildUpdateSet(out: Sink)
      modifies out
      ensures out.Contents() == Append(old(out.Contents()), UpdateSet(table))
    {
      out.Put("UPDATE ");
      out.PutName(table);
      out.Put(" SET ");
    }

    method BuildDelete() returns (out: Sink)
      ensures fresh(out) && out.Contents() == Append(EMPTY, DeleteDoc(Clauses()))
    {
      out := new Sink();
      out.PutWord(DELETE_FROM);
      out.PutName(table);
      BuildWhere(out);
      BuildLimitOffset(out);
    }
  }
}
