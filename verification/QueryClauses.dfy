/** zero/db/db_query.cc: the clauses a query collects, the calls that add them, and the fragments each
    statement is made of. */
module QueryClauses {
  import opened Identifiers
  import opened RowCodec
  import opened SqlText

  datatype SqlOp = EQ | NE | GT | GE | LT | LE | LIKE | NOT_LIKE | IN | NOT_IN | IS_NULL | IS_NOT_NULL | RAW

  datatype WhereClause = WhereClause(column: string, op: SqlOp, value: Value, values: seq<Value>, raw: string,
                                     rawParams: seq<Value>, conjunction: Plain)

  datatype OrderByClause = OrderByClause(column: string, asc: bool)

  datatype LockMode = NoLock | ForUpdate | LockInShareMode

  datatype Join = Join(kind: Plain, sql: string)

  datatype Query = Query(table: string, columns: seq<string>, wheres: seq<WhereClause>, havings: seq<WhereClause>,
                         joins: seq<Join>, orderBy: seq<OrderByClause>, groupBy: seq<string>,
                         limit: nat, offset: nat, lock: LockMode)

  function NewQuery(table: string): Query {
    Query(table, [], [], [], [], [], [], 0, 0, NoLock)
  }

  function ParseOp(op: string): SqlOp {
    if op == "=" || op == "==" then EQ
    else if op == "!=" || op == "<>" then NE
    else if op == ">" then GT
    else if op == ">=" then GE
    else if op == "<" then LT
    else if op == "<=" then LE
    else if op == "like" || op == "LIKE" then LIKE
    else if op == "not like" || op == "NOT LIKE" then NOT_LIKE
    else if op == "in" || op == "IN" then IN
    else if op == "not in" || op == "NOT IN" then NOT_IN
    else EQ
  }

  function OpToString(op: SqlOp): Plain {
    match op
    case EQ => "="
    case NE => "!="
    case GT => ">"
    case GE => ">="
    case LT => "<"
    case LE => "<="
    case LIKE => "LIKE"
    case NOT_LIKE => "NOT LIKE"
    case IN => "IN"
    case NOT_IN => "NOT IN"
    case IS_NULL => "IS NULL"
    case IS_NOT_NULL => "IS NOT NULL"
    case RAW => ""
  }

  // ---------------------------------------------------------------- builder calls

  datatype Call =
    | Table(table: string)
    | Select(columns: seq<string>)
    | Where(column: string, op: string, value: Value, conjunction: Plain)
    | WhereNull(column: string, negated: bool)
    | WhereIn(column: string, values: seq<Value>, negated: bool)
    | WhereRaw(raw: string, params: seq<Value>, conjunction: Plain)
    | WhereBetween(column: string, lo: Value, hi: Value)
    | Having(raw: string, params: seq<Value>, conjunction: Plain)
    | OrderBy(column: string, asc: bool)
    | GroupBy(column: string)
    | Limit(n: nat)
    | Offset(n: nat)
    | AddJoin(kind: Plain, table: string, on: string)
    | Lock(mode: LockMode)

  const BETWEEN_LOW: Plain := " BETWEEN "
  const AND_HIGH: Plain := " AND "
  const BETWEEN: string := (BETWEEN_LOW + "?") + (AND_HIGH + "?")

  function BetweenText(column: string): string {
    Escaped(column) + BETWEEN
  }

  /** The first clause has no conjunction. */
  function Linked(clauses: seq<WhereClause>, conjunction: Plain): Plain {
    if clauses == [] then "" else conjunction
  }

  function AddWhere(q: Query, column: string, op: SqlOp, value: Value, values: seq<Value>, conjunction: Plain): Query {
    q.(wheres := q.wheres + [WhereClause(column, op, value, values, "", [], Linked(q.wheres, conjunction))])
  }

  function AddRaw(clauses: seq<WhereClause>, raw: string, params: seq<Value>, conjunction: Plain): seq<WhereClause> {
    clauses + [WhereClause("", RAW, Null, [], raw, params, Linked(clauses, conjunction))]
  }

  function Apply(q: Query, c: Call): Query {
    match c
    case Table(t) => q.(table := t)
    case Select(columns) => q.(columns := columns)
    case Where(column, op, value, conjunction) => AddWhere(q, column, ParseOp(op), value, [], conjunction)
    case WhereNull(column, negated) => AddWhere(q, column, if negated then IS_NOT_NULL else IS_NULL, Null, [], "AND")
    case WhereIn(column, values, negated) => AddWhere(q, column, if negated then NOT_IN else IN, Null, values, "AND")
    case WhereRaw(raw, params, conjunction) => q.(wheres := AddRaw(q.wheres, raw, params, conjunction))
    case WhereBetween(column, lo, hi) =>
      q.(wheres := AddRaw(q.wheres, BetweenText(column), [lo, hi], "AND"))
    case Having(raw, params, conjunction) => q.(havings := AddRaw(q.havings, raw, params, conjunction))
    case OrderBy(column, asc) => q.(orderBy := q.orderBy + [OrderByClause(Escaped(column), asc)])
    case GroupBy(column) => q.(groupBy := q.groupBy + [Escaped(column)])
    case Limit(n) => q.(limit := n)
    case Offset(n) => q.(offset := n)
    case AddJoin(kind, table, on) => q.(joins := q.joins + [Join(kind, Escaped(table) + " ON " + on)])
    case Lock(mode) => q.(lock := mode)
  }

  // ---------------------------------------------------------------- the parts of a statement

  const VALUES_OPEN: Doc := Word(") VALUES (")
  const VALUES: Doc := Word(") VALUES ")
  const IGNORE_DUPLICATE: Doc := Word(" ON DUPLICATE KEY UPDATE id=id")
  const ON_DUPLICATE: Doc := Word(" ON DUPLICATE KEY UPDATE ")
  const INSERT_INTO: Doc := Word("INSERT INTO ")
  const DELETE_FROM: Doc := Word("DELETE FROM ")
  const SELECT_COUNT: Doc := Word("SELECT COUNT(")
  const AS_COUNT_FROM: Doc := Word(") AS cnt FROM ")
  const SHARE_MODE: Doc := Word(" LOCK IN SHARE MODE")
  const FOR_UPDATE: Doc := Word(" FOR UPDATE")
  const ASSIGN: Doc := Word(" = ")
  const GROUP_BY: Doc := Word(" GROUP BY ")
  const ORDER_BY: Doc := Word(" ORDER BY ")

  function Separator(i: nat): Doc {
    if i > 0 then Word(", ") else Empty
  }

  function Name(column: string): Doc {
    Sql(Escaped(column))
  }

  /** The first `n` columns, escaped and separated by commas. */
  function ColumnList(columns: seq<string>, n: nat): Doc
    requires n <= |columns|
  {
    if n == 0 then Empty else Three(ColumnList(columns, n - 1), Separator(n - 1), Name(columns[n - 1]))
  }

  function ValueList(values: seq<Value>, n: nat): Doc
    requires n <= |values|
  {
    if n == 0 then Empty else Three(ValueList(values, n - 1), Separator(n - 1), Bound(values[n - 1]))
  }

  function RawClause(w: WhereClause): Doc {
    Three(Word("("), Raw(w.raw, w.rawParams), Word(")"))
  }

  function OpWord(w: WhereClause): Doc {
    Four(Name(w.column), Word(" "), Word(OpToString(w.op)), Word(" "))
  }

  /** A comparison binds its value, a list each of its values. */
  function ClauseDoc(w: WhereClause): Doc {
    match w.op
    case RAW => RawClause(w)
    case IS_NULL => Then(Name(w.column), Word(" IS NULL"))
    case IS_NOT_NULL => Then(Name(w.column), Word(" IS NOT NULL"))
    case IN => InDoc(w)
    case NOT_IN => InDoc(w)
    case _ => Then(OpWord(w), Bound(w.value))
  }

  /** Values in parentheses. */
  function Listed(values: seq<Value>): Doc {
    Three(Word("("), ValueList(values, |values|), Word(")"))
  }

  function InDoc(w: WhereClause): Doc {
    Then(OpWord(w), Listed(w.values))
  }

  /** Before a clause: its conjunction, AND if it has none. */
  function Link(w: WhereClause, i: nat): Doc {
    if i == 0 then Empty
    else Three(Word(" "), Word(if w.conjunction == "" then "AND" else w.conjunction), Word(" "))
  }

  function LinkedDoc(w: WhereClause, i: nat): Doc {
    Then(Link(w, i), ClauseDoc(w))
  }

  function WhereList(wheres: seq<WhereClause>, n: nat): Doc
    requires n <= |wheres|
  {
    if n == 0 then Empty else Then(WhereList(wheres, n - 1), LinkedDoc(wheres[n - 1], n - 1))
  }

  function WhereDoc(q: Query): Doc {
    if q.wheres == [] then Empty else Then(Word(" WHERE "), WhereList(q.wheres, |q.wheres|))
  }

  function HavingList(havings: seq<WhereClause>, n: nat): Doc
    requires n <= |havings|
  {
    if n == 0 then Empty else Three(HavingList(havings, n - 1), Link(havings[n - 1], n - 1), RawClause(havings[n - 1]))
  }

  function TextList(texts: seq<string>, n: nat): Doc
    requires n <= |texts|
  {
    if n == 0 then Empty else Three(TextList(texts, n - 1), Separator(n - 1), Sql(texts[n - 1]))
  }

  function HavingDoc(q: Query): Doc {
    if q.havings == [] then Empty else Then(Word(" HAVING "), HavingList(q.havings, |q.havings|))
  }

  /** HAVING is only put out behind a GROUP BY. */
  function GroupDoc(q: Query): Doc {
    if q.groupBy == [] then Empty
    else Three(GROUP_BY, TextList(q.groupBy, |q.groupBy|), HavingDoc(q))
  }

  function OrderDocOf(o: OrderByClause): Doc {
    Then(Sql(o.column), if o.asc then Word(" ASC") else Word(" DESC"))
  }

  function OrderList(orders: seq<OrderByClause>, n: nat): Doc
    requires n <= |orders|
  {
    if n == 0 then Empty else Three(OrderList(orders, n - 1), Separator(n - 1), OrderDocOf(orders[n - 1]))
  }

  function OrderDoc(q: Query): Doc {
    if q.orderBy == [] then Empty else Then(ORDER_BY, OrderList(q.orderBy, |q.orderBy|))
  }

  lemma NumberPlain(n: nat)
    ensures IsPlain(Decimal(n))
  {
    DecimalValue(n);
    var s := Decimal(n);
    assert forall i | 0 <= i < |s| :: IsDigit(s[i]);
  }

  function Number(n: nat): Plain {
    NumberPlain(n);
    Decimal(n)
  }

  /** A number behind its keyword, left out when it is 0. */
  function Counted(word: Plain, n: nat): Doc {
    if n > 0 then Then(Word(word), Word(Number(n))) else Empty
  }

  function LimitDoc(q: Query): Doc {
    Then(Counted(" LIMIT ", q.limit), Counted(" OFFSET ", q.offset))
  }

  function JoinDoc(j: Join): Doc {
    Four(Word(" "), Word(j.kind), Word(" "), Sql(j.sql))
  }

  function JoinList(joins: seq<Join>, n: nat): Doc
    requires n <= |joins|
  {
    if n == 0 then Empty else Then(JoinList(joins, n - 1), JoinDoc(joins[n - 1]))
  }

  function LockDoc(q: Query): Doc {
    match q.lock
    case NoLock => Empty
    case ForUpdate => FOR_UPDATE
    case LockInShareMode => SHARE_MODE
  }

  // ---------------------------------------------------------------- whole statements

  function SelectList(q: Query): Doc {
    if q.columns == [] then Word("*") else ColumnList(q.columns, |q.columns|)
  }

  function SelectHead(q: Query): Doc {
    Four(Word("SELECT "), SelectList(q), Word(" FROM "), Name(q.table))
  }

  function SelectFront(q: Query): Doc {
    Four(SelectHead(q), JoinList(q.joins, |q.joins|), WhereDoc(q), GroupDoc(q))
  }

  /** SELECT, with its clauses in the order the language wants them. */
  function SelectDoc(q: Query): Doc {
    Four(SelectFront(q), OrderDoc(q), LimitDoc(q), LockDoc(q))
  }

  function CountHead(q: Query, column: string): Doc {
    Four(SELECT_COUNT, Name(column), AS_COUNT_FROM, Name(q.table))
  }

  function CountDoc(q: Query, column: string): Doc {
    Three(CountHead(q, column), JoinList(q.joins, |q.joins|), WhereDoc(q))
  }

  type Values = map<string, Value>

  predicate AllKeys(order: seq<string>, values: Values) {
    forall i | 0 <= i < |order| :: order[i] in values
  }

  /** The values in the order in which the map is walked. */
  function InOrder(values: Values, order: seq<string>): (r: seq<Value>)
    requires AllKeys(order, values)
    ensures |r| == |order|
  {
    seq(|order|, i requires 0 <= i < |order| => values[order[i]])
  }

  function InsertInto(table: string): Doc {
    Three(INSERT_INTO, Name(table), Word(" ("))
  }

  function InsertHead(table: string, columns: seq<string>): Doc {
    Then(InsertInto(table), ColumnList(columns, |columns|))
  }

  function InsertOpen(table: string, columns: seq<string>): Doc {
    Then(InsertHead(table, columns), VALUES_OPEN)
  }

  function InsertDoc(q: Query, values: Values, order: seq<string>): Doc
    requires AllKeys(order, values)
  {
    Three(InsertOpen(q.table, order), ValueList(InOrder(values, order), |order|), Word(")"))
  }

  /** A row of a batch: its value for each column, or null. */
  function RowValues(row: Values, columns: seq<string>): (r: seq<Value>)
    ensures |r| == |columns|
  {
    seq(|columns|, i requires 0 <= i < |columns| => if columns[i] in row then row[columns[i]] else Null)
  }

  function RowDoc(row: Values, columns: seq<string>): Doc {
    Listed(RowValues(row, columns))
  }

  function RowList(rows: seq<Values>, columns: seq<string>, n: nat): Doc
    requires n <= |rows|
  {
    if n == 0 then Empty else Three(RowList(rows, columns, n - 1), Separator(n - 1), RowDoc(rows[n - 1], columns))
  }

  function BatchHead(table: string, columns: seq<string>): Doc {
    Then(InsertHead(table, columns), VALUES)
  }

  /** The columns are those of the first row. */
  function BatchDoc(q: Query, rows: seq<Values>, columns: seq<string>): Doc {
    if rows == [] then Empty
    else Then(BatchHead(q.table, columns), RowList(rows, columns, |rows|))
  }

  function AssignDoc(column: string, value: Value): Doc {
    Three(Name(column), ASSIGN, Bound(value))
  }

  function AssignList(order: seq<string>, values: Values, n: nat): Doc
    requires n <= |order| && AllKeys(order, values)
  {
    if n == 0 then Empty
    else Three(AssignList(order, values, n - 1), Separator(n - 1), AssignDoc(order[n - 1], values[order[n - 1]]))
  }

  function UpdateSet(table: string): Doc {
    Three(Word("UPDATE "), Name(table), Word(" SET "))
  }

  function UpdateHead(table: string, values: Values, order: seq<string>): Doc
    requires AllKeys(order, values)
  {
    Then(UpdateSet(table), AssignList(order, values, |order|))
  }

  function UpdateDoc(q: Query, values: Values, order: seq<string>): Doc
    requires AllKeys(order, values)
  {
    Three(UpdateHead(q.table, values, order), WhereDoc(q), LimitDoc(q))
  }

  function DeleteDoc(q: Query): Doc {
    Four(DELETE_FROM, Name(q.table), WhereDoc(q), LimitDoc(q))
  }

  function InsertIgnoreDoc(q: Query, values: Values, order: seq<string>): Doc
    requires AllKeys(order, values)
  {
    Then(InsertDoc(q, values, order), IGNORE_DUPLICATE)
  }

  function UpsertItem(column: string): Doc {
    Four(Name(column), Word(" = VALUES("), Name(column), Word(")"))
  }

  function UpsertList(columns: seq<string>, n: nat): Doc
    requires n <= |columns|
  {
    if n == 0 then Empty else Three(UpsertList(columns, n - 1), Separator(n - 1), UpsertItem(columns[n - 1]))
  }

  function UpsertTail(columns: seq<string>): Doc {
    Then(ON_DUPLICATE, UpsertList(columns, |columns|))
  }

  /** Without columns to update, every column of the values is. */
  function UpsertDoc(q: Query, values: Values, order: seq<string>, updates: seq<string>): Doc
    requires AllKeys(order, values)
  {
    Then(InsertDoc(q, values, order), UpsertTail(if updates == [] then order else updates))
  }
}
