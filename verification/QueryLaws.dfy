/** What zero/db/db_query.cc promises of its statements: the parameter vector fits the placeholders. */
module QueryLaws {
  import opened Identifiers
  import opened QueryClauses
  import Options
  import opened RowCodec
  import opened SqlText

  // ---------------------------------------------------------------- which calls

  predicate AllColumns(columns: seq<string>) {
    forall i | 0 <= i < |columns| :: GoodColumn(columns[i])
  }

  /** A raw fragment has as many placeholders as values, join text has none, and so have names that are
      expressions. */
  predicate GoodCall(c: Call) {
    match c
    case Table(t) => GoodColumn(t)
    case Select(columns) => AllColumns(columns)
    case Where(column, _, _, _) => GoodColumn(column)
    case WhereNull(column, _) => GoodColumn(column)
    case WhereIn(column, _, _) => GoodColumn(column)
    case WhereRaw(raw, params, _) => Balanced(raw, |params|)
    case WhereBetween(column, _, _) => GoodColumn(column)
    case Having(raw, params, _) => Balanced(raw, |params|)
    case OrderBy(column, _) => GoodColumn(column)
    case GroupBy(column) => GoodColumn(column)
    case Limit(_) => true
    case Offset(_) => true
    case AddJoin(_, table, on) => GoodColumn(table) && Neutral(on)
    case Lock(_) => true
  }

  predicate GoodClause(w: WhereClause) {
    if w.op.RAW? then Balanced(w.raw, |w.rawParams|) else GoodColumn(w.column)
  }

  predicate AllRaw(havings: seq<WhereClause>) {
    forall i | 0 <= i < |havings| :: GoodClause(havings[i]) && havings[i].op.RAW?
  }

  predicate AllNeutral(texts: seq<string>) {
    forall i | 0 <= i < |texts| :: Neutral(texts[i])
  }

  predicate AllClauses(wheres: seq<WhereClause>) {
    forall i | 0 <= i < |wheres| :: GoodClause(wheres[i])
  }

  predicate AllOrders(orders: seq<OrderByClause>) {
    forall i | 0 <= i < |orders| :: Neutral(orders[i].column)
  }

  predicate AllJoins(joins: seq<Join>) {
    forall i | 0 <= i < |joins| :: Neutral(joins[i].sql)
  }

  predicate GoodQuery(q: Query) {
    && GoodColumn(q.table) && AllColumns(q.columns) && AllClauses(q.wheres) && AllRaw(q.havings)
    && AllJoins(q.joins) && AllOrders(q.orderBy) && AllNeutral(q.groupBy)
  }

  function Built(q: Query, calls: seq<Call>): Query {
    if calls == [] then q else Apply(Built(q, calls[..|calls| - 1]), calls[|calls| - 1])
  }

  predicate AllCalls(calls: seq<Call>) {
    forall i | 0 <= i < |calls| :: GoodCall(calls[i])
  }

  lemma HoleBalanced()
    ensures Balanced("?", 1)
  {
    assert "?"[..0] == "";
  }

  /** A word with a placeholder behind it. */
  lemma WordAndHole(word: Plain)
    ensures Balanced(word + "?", 1)
  {
    PlainIsNeutral(word);
    HoleBalanced();
    BalancedBoth(word, 0, "?", 1);
  }

  lemma BetweenBalanced(column: string)
    requires GoodColumn(column)
    ensures Balanced(BetweenText(column), 2)
  {
    EscapedNeutral(column);
    WordAndHole(BETWEEN_LOW);
    WordAndHole(AND_HIGH);
    BalancedBoth(BETWEEN_LOW + "?", 1, AND_HIGH + "?", 1);
    BalancedBoth(Escaped(column), 0, BETWEEN, 2);
  }

  lemma JoinNeutral(table: string, on: string)
    requires GoodColumn(table) && Neutral(on)
    ensures Neutral(Escaped(table) + " ON " + on)
  {
    EscapedNeutral(table);
    PlainIsNeutral(" ON ");
    BalancedBoth(Escaped(table), 0, " ON ", 0);
    BalancedBoth(Escaped(table) + " ON ", 0, on, 0);
  }

  lemma CallKeepsGood(q: Query, c: Call)
    requires GoodQuery(q) && GoodCall(c)
    ensures GoodQuery(Apply(q, c))
  {
    match c
    case WhereBetween(column, _, _) => BetweenBalanced(column);
    case OrderBy(column, _) => EscapedNeutral(column);
    case GroupBy(column) => EscapedNeutral(column);
    case AddJoin(_, table, on) => JoinNeutral(table, on);
    case _ =>
  }

  /** Every chain of such calls builds such a query. */
  lemma {:induction false} ChainIsGood(q: Query, calls: seq<Call>)
    requires GoodQuery(q) && AllCalls(calls)
    ensures GoodQuery(Built(q, calls))
  {
    if calls != [] {
      ChainIsGood(q, calls[..|calls| - 1]);
      CallKeepsGood(Built(q, calls[..|calls| - 1]), calls[|calls| - 1]);
    }
  }

  // ---------------------------------------------------------------- the documents are good

  lemma GoodName(column: string)
    requires GoodColumn(column)
    ensures IsGood(Name(column))
  {
    EscapedNeutral(column);
  }

  lemma {:induction false} ColumnsGood(columns: seq<string>, n: nat)
    requires n <= |columns| && AllColumns(columns)
    ensures IsGood(ColumnList(columns, n))
  {
    if n > 0 {
      ColumnsGood(columns, n - 1);
      GoodName(columns[n - 1]);
    }
  }

  lemma {:induction false} ValuesGood(values: seq<Value>, n: nat)
    requires n <= |values|
    ensures IsGood(ValueList(values, n))
  {
    if n > 0 {
      ValuesGood(values, n - 1);
    }
  }

  lemma RawGood(w: WhereClause)
    requires Balanced(w.raw, |w.rawParams|)
    ensures IsGood(RawClause(w))
  {
  }

  lemma OpGood(w: WhereClause)
    requires GoodColumn(w.column)
    ensures IsGood(OpWord(w))
  {
    GoodName(w.column);
  }

  lemma InGood(w: WhereClause)
    requires GoodColumn(w.column)
    ensures IsGood(InDoc(w))
  {
    OpGood(w);
    ValuesGood(w.values, |w.values|);
  }

  lemma ClauseGood(w: WhereClause)
    requires GoodClause(w)
    ensures IsGood(ClauseDoc(w))
  {
    match w.op
    case RAW => RawGood(w);
    case IN => InGood(w);
    case NOT_IN => InGood(w);
    case IS_NULL => GoodName(w.column);
    case IS_NOT_NULL => GoodName(w.column);
    case _ => OpGood(w);
  }

  lemma LinkGood(w: WhereClause, i: nat)
    ensures IsGood(Link(w, i))
  {
  }

  lemma LinkedGood(w: WhereClause, i: nat)
    requires GoodClause(w)
    ensures IsGood(LinkedDoc(w, i))
  {
    ClauseGood(w);
    LinkGood(w, i);
  }

  lemma {:induction false} WheresGood(wheres: seq<WhereClause>, n: nat)
    requires n <= |wheres| && AllClauses(wheres)
    ensures IsGood(WhereList(wheres, n))
  {
    if n > 0 {
      WheresGood(wheres, n - 1);
      LinkedGood(wheres[n - 1], n - 1);
    }
  }

  lemma WhereGood(q: Query)
    requires GoodQuery(q)
    ensures IsGood(WhereDoc(q))
  {
    WheresGood(q.wheres, |q.wheres|);
  }

  lemma {:induction false} HavingsGood(havings: seq<WhereClause>, n: nat)
    requires n <= |havings| && AllRaw(havings)
    ensures IsGood(HavingList(havings, n))
  {
    if n > 0 {
      HavingsGood(havings, n - 1);
      RawGood(havings[n - 1]);
    }
  }

  lemma {:induction false} TextsGood(texts: seq<string>, n: nat)
    requires n <= |texts| && AllNeutral(texts)
    ensures IsGood(TextList(texts, n))
  {
    if n > 0 {
      TextsGood(texts, n - 1);
    }
  }

  lemma GroupGood(q: Query)
    requires GoodQuery(q)
    ensures IsGood(GroupDoc(q))
  {
    TextsGood(q.groupBy, |q.groupBy|);
    HavingsGood(q.havings, |q.havings|);
  }

  lemma {:induction false} OrdersGood(orders: seq<OrderByClause>, n: nat)
    requires n <= |orders| && AllOrders(orders)
    ensures IsGood(OrderList(orders, n))
  {
    if n > 0 {
      OrdersGood(orders, n - 1);
    }
  }

  lemma {:induction false} JoinsGood(joins: seq<Join>, n: nat)
    requires n <= |joins| && AllJoins(joins)
    ensures IsGood(JoinList(joins, n))
  {
    if n > 0 {
      var j := joins[n - 1];
      JoinsGood(joins, n - 1);
    }
  }

  lemma SelectHeadGood(q: Query)
    requires GoodQuery(q)
    ensures IsGood(SelectHead(q))
  {
    ColumnsGood(q.columns, |q.columns|);
    GoodName(q.table);
  }

  lemma CountedGood(word: Plain, n: nat)
    ensures IsGood(Counted(word, n))
  {
  }

  lemma LimitGood(q: Query)
    ensures IsGood(LimitDoc(q))
  {
    CountedGood(" LIMIT ", q.limit);
    CountedGood(" OFFSET ", q.offset);
  }

  lemma SelectFrontGood(q: Query)
    requires GoodQuery(q)
    ensures IsGood(SelectFront(q))
  {
    SelectHeadGood(q);
    JoinsGood(q.joins, |q.joins|);
    WhereGood(q);
    GroupGood(q);
  }

  lemma OrderGood(q: Query)
    requires GoodQuery(q)
    ensures IsGood(OrderDoc(q))
  {
    OrdersGood(q.orderBy, |q.orderBy|);
  }

  lemma SelectGood(q: Query)
    requires GoodQuery(q)
    ensures IsGood(SelectDoc(q))
  {
    SelectFrontGood(q);
    OrderGood(q);
    LimitGood(q);
  }

  lemma CountHeadGood(q: Query, column: string)
    requires GoodColumn(q.table) && GoodColumn(column)
    ensures IsGood(CountHead(q, column))
  {
    GoodName(column);
    GoodName(q.table);
  }

  lemma CountGood(q: Query, column: string)
    requires GoodQuery(q) && GoodColumn(column)
    ensures IsGood(CountDoc(q, column))
  {
    CountHeadGood(q, column);
    JoinsGood(q.joins, |q.joins|);
    WhereGood(q);
  }

  lemma InsertHeadGood(table: string, columns: seq<string>)
    requires GoodColumn(table) && AllColumns(columns)
    ensures IsGood(InsertHead(table, columns))
  {
    GoodName(table);
    assert IsGood(Word(" ("));
    ColumnsGood(columns, |columns|);
  }

  lemma InsertGood(q: Query, values: Values, order: seq<string>)
    requires GoodColumn(q.table) && AllKeys(order, values) && AllColumns(order)
    ensures IsGood(InsertDoc(q, values, order))
  {
    var list := ValueList(InOrder(values, order), |order|);
    InsertHeadGood(q.table, order);
    ValuesGood(InOrder(values, order), |order|);
  }

  lemma {:induction false} RowsGood(rows: seq<Values>, columns: seq<string>, n: nat)
    requires n <= |rows|
    ensures IsGood(RowList(rows, columns, n))
  {
    if n > 0 {
      var values := RowValues(rows[n - 1], columns);
      RowsGood(rows, columns, n - 1);
      ValuesGood(values, |columns|);
    }
  }

  lemma BatchGood(q: Query, rows: seq<Values>, columns: seq<string>)
    requires GoodColumn(q.table) && AllColumns(columns)
    ensures IsGood(BatchDoc(q, rows, columns))
  {
    InsertHeadGood(q.table, columns);
    RowsGood(rows, columns, |rows|);
  }

  lemma {:induction false} AssignsGood(order: seq<string>, values: Values, n: nat)
    requires n <= |order| && AllKeys(order, values) && AllColumns(order)
    ensures IsGood(AssignList(order, values, n))
  {
    if n > 0 {
      var value := values[order[n - 1]];
      AssignsGood(order, values, n - 1);
      GoodName(order[n - 1]);
    }
  }

  lemma UpdateHeadGood(table: string, values: Values, order: seq<string>)
    requires GoodColumn(table) && AllKeys(order, values) && AllColumns(order)
    ensures IsGood(UpdateHead(table, values, order))
  {
    GoodName(table);
    assert IsGood(Word(" SET "));
    AssignsGood(order, values, |order|);
  }

  lemma UpdateGood(q: Query, values: Values, order: seq<string>)
    requires GoodQuery(q) && AllKeys(order, values) && AllColumns(order)
    ensures IsGood(UpdateDoc(q, values, order))
  {
    UpdateHeadGood(q.table, values, order);
    WhereGood(q);
    LimitGood(q);
  }

  lemma DeleteGood(q: Query)
    requires GoodQuery(q)
    ensures IsGood(DeleteDoc(q))
  {
    GoodName(q.table);
    WhereGood(q);
    LimitGood(q);
  }

  lemma {:induction false} UpsertsGood(columns: seq<string>, n: nat)
    requires n <= |columns| && AllColumns(columns)
    ensures IsGood(UpsertList(columns, n))
  {
    if n > 0 {
      var column := columns[n - 1];
      UpsertsGood(columns, n - 1);
      GoodName(column);
    }
  }

  lemma UpsertGood(q: Query, values: Values, order: seq<string>, updates: seq<string>)
    requires GoodColumn(q.table) && AllKeys(order, values) && AllColumns(order) && AllColumns(updates)
    ensures IsGood(UpsertDoc(q, values, order, updates))
  {
    var columns := if updates == [] then order else updates;
    InsertGood(q, values, order);
    UpsertsGood(columns, |columns|);
  }

  // ---------------------------------------------------------------- statements with their literals in place

  /** Filling the parameters of `d` into its placeholders, from left to right, gives its literals in place. */
  ghost predicate FillsIn(d: Doc) {
    IsGood(d) && Statement(Append(EMPTY, d).sql, Append(EMPTY, d).params) == Options.Some(Rendered(d))
  }

  /** For every chain of calls, in each statement that reads or changes rows by a condition. */
  lemma ConditionsFillIn(table: string, calls: seq<Call>, column: string, values: Values, order: seq<string>)
    requires GoodColumn(table) && AllCalls(calls)
    requires GoodColumn(column) && AllKeys(order, values) && AllColumns(order)
    ensures var q := Built(NewQuery(table), calls);
            FillsIn(SelectDoc(q)) && FillsIn(CountDoc(q, column)) && FillsIn(UpdateDoc(q, values, order))
            && FillsIn(DeleteDoc(q))
  {
    var q := Built(NewQuery(table), calls);
    ChainIsGood(NewQuery(table), calls);
    SelectGood(q);
    CountGood(q, column);
    UpdateGood(q, values, order);
    DeleteGood(q);
    StatementOfDocument(SelectDoc(q));
    StatementOfDocument(CountDoc(q, column));
    StatementOfDocument(UpdateDoc(q, values, order));
    StatementOfDocument(DeleteDoc(q));
  }

  /** The same for the statements that add rows. */
  lemma InsertsFillIn(table: string, calls: seq<Call>, values: Values, order: seq<string>, updates: seq<string>,
                      rows: seq<Values>, columns: seq<string>)
    requires GoodColumn(table) && AllCalls(calls) && AllKeys(order, values)
    requires AllColumns(order) && AllColumns(updates) && AllColumns(columns)
    ensures var q := Built(NewQuery(table), calls);
            FillsIn(InsertDoc(q, values, order)) && FillsIn(InsertIgnoreDoc(q, values, order))
            && FillsIn(UpsertDoc(q, values, order, updates)) && FillsIn(BatchDoc(q, rows, columns))
  {
    var q := Built(NewQuery(table), calls);
    ChainIsGood(NewQuery(table), calls);
    InsertGood(q, values, order);
    UpsertGood(q, values, order, updates);
    BatchGood(q, rows, columns);
    StatementOfDocument(InsertDoc(q, values, order));
    StatementOfDocument(InsertIgnoreDoc(q, values, order));
    StatementOfDocument(UpsertDoc(q, values, order, updates));
    StatementOfDocument(BatchDoc(q, rows, columns));
  }

  lemma {:induction false} QuoteKinds(s: string)
    ensures ModeAfter(Code, s).Quoted? ==> ModeAfter(Code, s).q in {'`', '\'', '"'}
    ensures ModeAfter(Code, s).Backslash? ==> ModeAfter(Code, s).q in {'`', '\'', '"'}
  {
    if s != "" {
      QuoteKinds(s[..|s| - 1]);
    }
  }

  lemma ClosedExactly(before: string, raw: string, params: seq<Value>)
    requires Neutral(before)
    ensures Statement(before + raw + ")", params).Some? <==> Balanced(raw, |params|)
  {
    ScanBoth(Code, before, raw);
    ScanBoth(Code, before + raw, ")");
    QuoteKinds(raw);
    assert ")"[..0] == "";
    StatementExactly(before + raw + ")", params);
  }

  lemma RawClauseText(out: Out, w: WhereClause)
    ensures Append(out, RawClause(w)) == Out(out.sql + "(" + w.raw + ")", out.params + w.rawParams)
  {
  }

  lemma BuiltOne(q: Query, c: Call)
    ensures Built(q, [c]) == Apply(q, c)
  {
    assert [c][..0] == [];
  }

  lemma OneWhereText(out: Out, w: WhereClause)
    requires w.op.RAW?
    ensures Append(out, WhereList([w], 1)) == Append(out, RawClause(w))
  {
    assert WhereList([w], 0) == Empty;
    assert Link(w, 0) == Empty;
  }

  lemma WhereText(q: Query, out: Out, w: WhereClause)
    requires q.wheres == [w] && w.op.RAW?
    ensures Append(out, WhereDoc(q)) == Out(out.sql + " WHERE " + "(" + w.raw + ")", out.params + w.rawParams)
  {
    var start := Append(out, Word(" WHERE "));
    OneWhereText(start, w);
    RawClauseText(start, w);
  }

  lemma NoLimitText(q: Query, out: Out)
    requires q.limit == q.offset == 0
    ensures Append(out, LimitDoc(q)) == out
  {
  }

  lemma DeleteText(q: Query, head: Out, middle: Out)
    requires head == Out("DELETE FROM " + Escaped(q.table), []) && middle == Append(head, WhereDoc(q))
    ensures Append(EMPTY, DeleteDoc(q)) == Append(middle, LimitDoc(q))
  {
    HeadText("DELETE FROM ", Escaped(q.table));
    AppendFour(EMPTY, DELETE_FROM, Name(q.table), WhereDoc(q), LimitDoc(q));
  }

  lemma HeadText(word: Plain, name: string)
    ensures Append(Append(EMPTY, Word(word)), Sql(name)) == Out(word + name, [])
  {
    assert EMPTY.sql + word == word;
  }

  lemma AppendFour(out: Out, a: Doc, b: Doc, c: Doc, d: Doc)
    ensures Append(out, Four(a, b, c, d)) == Append(Append(Append(Append(out, a), b), c), d)
  {
  }

  lemma DeleteRawText(table: string, raw: string, params: seq<Value>)
    ensures var q := Built(NewQuery(table), [WhereRaw(raw, params, "AND")]);
            Append(EMPTY, DeleteDoc(q)) == Out("DELETE FROM " + Escaped(table) + " WHERE " + "(" + raw + ")", params)
  {
    BuiltOne(NewQuery(table), WhereRaw(raw, params, "AND"));
    var q := Built(NewQuery(table), [WhereRaw(raw, params, "AND")]);
    var w := WhereClause("", RAW, Null, [], raw, params, "");
    assert q.wheres == [w] && q.table == table;
    var head := Out("DELETE FROM " + Escaped(table), []);
    WhereText(q, head, w);
    NoLimitText(q, Append(head, WhereDoc(q)));
    DeleteText(q, head, Append(head, WhereDoc(q)));
    assert [] + params == params;
  }

  /** A caller's raw condition decides: a DELETE with it fills in exactly when it closes its quotes and has as
      many placeholders as values. */
  lemma RawDecides(table: string, raw: string, params: seq<Value>)
    requires GoodColumn(table)
    ensures var q := Built(NewQuery(table), [WhereRaw(raw, params, "AND")]);
            var out := Append(EMPTY, DeleteDoc(q));
            Statement(out.sql, out.params).Some? <==> Balanced(raw, |params|)
  {
    DeleteRawText(table, raw, params);
    PlainIsNeutral("DELETE FROM ");
    PlainIsNeutral(" WHERE ");
    PlainIsNeutral("(");
    EscapedNeutral(table);
    BalancedBoth("DELETE FROM ", 0, Escaped(table), 0);
    BalancedBoth("DELETE FROM " + Escaped(table), 0, " WHERE ", 0);
    BalancedBoth("DELETE FROM " + Escaped(table) + " WHERE ", 0, "(", 0);
    ClosedExactly("DELETE FROM " + Escaped(table) + " WHERE " + "(", raw, params);
  }

  // ---------------------------------------------------------------- the values of a batch

  lemma {:induction false} ColumnsHaveNoValues(columns: seq<string>, n: nat)
    requires n <= |columns|
    ensures ValuesOf(ColumnList(columns, n)) == []
  {
    if n > 0 {
      ColumnsHaveNoValues(columns, n - 1);
    }
  }

  lemma {:induction false} ValuesOfList(values: seq<Value>, n: nat)
    requires n <= |values|
    ensures ValuesOf(ValueList(values, n)) == values[..n]
  {
    if n > 0 {
      ValuesOfList(values, n - 1);
      assert values[..n - 1] + [] == values[..n - 1];
    }
  }

  lemma ValuesOfRow(row: Values, columns: seq<string>)
    ensures ValuesOf(RowDoc(row, columns)) == RowValues(row, columns)
  {
    var values := RowValues(row, columns);
    ValuesOfList(values, |columns|);
    assert values[..|columns|] == values;
  }

  /** Row after row. */
  function Flat(rows: seq<Values>, columns: seq<string>, n: nat): seq<Value>
    requires n <= |rows|
  {
    if n == 0 then [] else Flat(rows, columns, n - 1) + RowValues(rows[n - 1], columns)
  }

  lemma {:induction false} ValuesOfRows(rows: seq<Values>, columns: seq<string>, n: nat)
    requires n <= |rows|
    ensures ValuesOf(RowList(rows, columns, n)) == Flat(rows, columns, n)
  {
    if n > 0 {
      ValuesOfRows(rows, columns, n - 1);
      ValuesOfRow(rows[n - 1], columns);
      assert Flat(rows, columns, n - 1) + [] == Flat(rows, columns, n - 1);
    }
  }

  lemma HeadHasNoValues(table: string, columns: seq<string>)
    ensures ValuesOf(InsertHead(table, columns)) == []
  {
    ColumnsHaveNoValues(columns, |columns|);
    assert ValuesOf(InsertInto(table)) == [];
  }

  lemma BatchValues(q: Query, rows: seq<Values>, columns: seq<string>)
    ensures Append(EMPTY, BatchDoc(q, rows, columns)).params == Flat(rows, columns, |rows|)
  {
    AppendValues(EMPTY, BatchDoc(q, rows, columns));
    if rows != [] {
      HeadHasNoValues(q.table, columns);
      ValuesOfRows(rows, columns, |rows|);
      assert ValuesOf(BatchHead(q.table, columns)) == [];
    }
  }

  lemma {:induction false} FlatSize(rows: seq<Values>, columns: seq<string>, n: nat)
    requires n <= |rows|
    ensures |Flat(rows, columns, n)| == n * |columns|
  {
    if n > 0 {
      FlatSize(rows, columns, n - 1);
      assert n * |columns| == (n - 1) * |columns| + |columns|;
    }
  }

  lemma {:induction false} FlatAt(rows: seq<Values>, columns: seq<string>, n: nat, r: nat, i: nat)
    requires r < n <= |rows| && i < |columns|
    ensures r * |columns| + i < |Flat(rows, columns, n)|
    ensures Flat(rows, columns, n)[r * |columns| + i] == RowValues(rows[r], columns)[i]
  {
    FlatSize(rows, columns, n - 1);
    if r < n - 1 {
      FlatAt(rows, columns, n - 1, r, i);
    }
  }

  /** A batch has one value per row and column, and entry r * columns + i is row r's value for column i, or
      null when the row has none. */
  lemma BatchEntry(q: Query, rows: seq<Values>, columns: seq<string>, r: nat, i: nat, entry: nat)
    requires r < |rows| && i < |columns| && entry == r * |columns| + i
    ensures var params := Append(EMPTY, BatchDoc(q, rows, columns)).params;
            && |params| == |rows| * |columns| && entry < |params|
            && params[entry] == if columns[i] in rows[r] then rows[r][columns[i]] else Null
  {
    BatchValues(q, rows, columns);
    FlatSize(rows, columns, |rows|);
    FlatAt(rows, columns, |rows|, r, i);
  }
}
